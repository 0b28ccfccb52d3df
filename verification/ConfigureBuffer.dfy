/** The configure request buffer and its locks as objects. A lock calls back into the buffer, and the
    buffer into its locks. */
module ConfigureBuffer {
  import opened BufferModel
  import opened BufferProofs

  class ConfigureBufferLock {
    const freezable: ConfigureRequestBuffer
    var armed: bool

    /** Whether somebody still has the lock. */
    var live: bool

    constructor (freezable: ConfigureRequestBuffer)
      ensures this.freezable == freezable && !armed && live
    {
      this.freezable := freezable;
      armed, live := false, true;
    }

    method Lock()
      requires !armed ==> freezable.lockCount < |freezable.locks|
      modifies this`armed, freezable`lockCount
      ensures armed
      ensures freezable.lockCount == old(freezable.lockCount) + if old(armed) then 0 else 1
    {
      if !armed {
        freezable.Freeze();
      }
      armed := true;
    }

    /** An explicit release, or the one made when the lock goes away, of the lock obtained as number `i`. */
    method Release(ghost i: nat)
      requires freezable.Valid() && i < |freezable.locks| && freezable.locks[i] == this
      requires freezable.lockCount == Armed(freezable.State().locks)
      modifies freezable, freezable.held`armed
      ensures freezable.Valid() && freezable.held == old(freezable.held) && freezable.locks == old(freezable.locks)
      ensures freezable.State() == BufferModel.Release(old(freezable.State()), i)
    {
      hide Armed, Disarmed, Rearmed, Dispatch, Released;
      if armed {
        ArmedBound(freezable.State().locks, i);
        freezable.Release();
      }
      armed := false;
    }
  }

  class ConfigureRequestBuffer {
    var client: Pending
    var wrapper: Pending
    var frame: Pending
    var sendSyntheticConfigure: bool
    var lockCount: nat
    var locks: seq<ConfigureBufferLock>

    /** The messages sent to the server. */
    ghost var sent: seq<Message>

    /** The locks, as a set. */
    ghost var held: set<ConfigureBufferLock>

    ghost function StatesOf(ls: seq<ConfigureBufferLock>): (r: seq<Lock>)
      requires forall i :: 0 <= i < |ls| ==> ls[i] in held
      reads this`held, held`armed, held`live
      ensures |r| == |ls| && forall i :: 0 <= i < |ls| ==> r[i] == Lock(ls[i].armed, ls[i].live)
    {
      if ls == [] then []
      else StatesOf(ls[..|ls| - 1]) + [Lock(ls[|ls| - 1].armed, ls[|ls| - 1].live)]
    }

    ghost function State(): Buffer
      requires Valid()
      reads this, held
    {
      Buffer(client, wrapper, frame, sendSyntheticConfigure, lockCount, StatesOf(locks), sent)
    }

    ghost predicate Valid()
      reads this, held
    {
      && (forall i :: 0 <= i < |locks| ==> locks[i] in held)
      && (forall l :: l in held ==> l.freezable == this)
      && (forall i, j :: 0 <= i < j < |locks| ==> locks[i] != locks[j])
    }

    constructor ()
      ensures Valid() && State() == EMPTY && fresh(held)
    {
      client, wrapper, frame := Pending(NO_CHANGES, {}), Pending(NO_CHANGES, {}), Pending(NO_CHANGES, {});
      sendSyntheticConfigure, lockCount, locks, sent, held := false, 0, [], [], {};
    }

    method Freeze()
      requires lockCount < |locks|
      modifies this`lockCount
      ensures lockCount == old(lockCount) + 1
    {
      lockCount := lockCount + 1;
      assert lockCount <= |locks|;
    }

    method DispatchConfigure(force: bool)
      requires Valid() && lockCount <= Armed(State().locks)
      modifies this, held`armed
      ensures Valid() && held == old(held) && locks == old(locks)
      ensures State() == Dispatch(old(State()), force)
    {
      hide StatesOf, Armed, Disarmed, Rearmed;
      var immediate := frame.mask * {StackMode, Sibling} != {};
      immediate := immediate || frame.mask * {Width, Height, BorderWidth} != {};
      immediate := immediate || wrapper.mask * {Width, Height, BorderWidth, X, Y} != {};
      immediate := immediate || client.mask * {Width, Height, BorderWidth, X, Y} != {};
      immediate := immediate || force;

      var clientDispatch := client.mask != {};
      var wrapperDispatch := wrapper.mask != {};
      var frameDispatch := frame.mask != {};
      var dispatch := lockCount == 0 && (clientDispatch || wrapperDispatch || frameDispatch || sendSyntheticConfigure);

      if dispatch || immediate {
        SendAll(frameDispatch, wrapperDispatch, clientDispatch);
        Rearm();
      }
    }

    /** The requests to the server, the frame first and the synthetic notification last. */
    method SendAll(frameDispatch: bool, wrapperDispatch: bool, clientDispatch: bool)
      requires frameDispatch <==> frame.mask != {}
      requires wrapperDispatch <==> wrapper.mask != {}
      requires clientDispatch <==> client.mask != {}
      modifies this`sent, this`frame, this`wrapper, this`client, this`sendSyntheticConfigure
      ensures frame == old(frame).(mask := {}) && wrapper == old(wrapper).(mask := {})
      ensures client == old(client).(mask := {}) && !sendSyntheticConfigure
      ensures sent == old(sent) + Outgoing(Frame, old(frame)) + Outgoing(Wrapper, old(wrapper))
                      + Outgoing(Client, old(client)) + if old(sendSyntheticConfigure) then [SyntheticNotify] else []
    {
      if frameDispatch {
        sent := sent + [Configure(Frame, frame.changes, frame.mask)];
        frame := frame.(mask := {});
      }
      if wrapperDispatch {
        sent := sent + [Configure(Wrapper, wrapper.changes, wrapper.mask)];
        wrapper := wrapper.(mask := {});
      }
      if clientDispatch {
        sent := sent + [Configure(Client, client.changes, client.mask)];
        client := client.(mask := {});
      }
      if sendSyntheticConfigure {
        sent := sent + [SyntheticNotify];
        sendSyntheticConfigure := false;
      }
    }

    /** The locks that somebody still has are armed again. */
    method Rearm()
      requires Valid() && lockCount <= Armed(State().locks)
      modifies this`lockCount, held`armed
      ensures Valid()
      ensures StatesOf(locks) == Rearmed(old(StatesOf(locks)))
      ensures lockCount == old(lockCount) + Disarmed(old(StatesOf(locks)))
    {
      hide StatesOf, Armed;
      ghost var before := StatesOf(locks);
      for i := 0 to |locks|
        invariant Valid()
        invariant forall j :: 0 <= j < i ==> locks[j].armed == (before[j].armed || before[j].live)
        invariant forall j :: i <= j < |locks| ==> locks[j].armed == before[j].armed
        invariant forall j :: 0 <= j < |locks| ==> locks[j].live == before[j].live
        invariant lockCount == old(lockCount) + Disarmed(before[..i])
      {
        assert before[..i + 1][..i] == before[..i];
        CountsFit(before, i);
        if locks[i].live {
          locks[i].Lock();
        }
      }
      assert before[..|locks|] == before;
    }

    method Release()
      requires Valid() && 0 < lockCount <= Armed(State().locks)
      modifies this, held`armed
      ensures Valid() && held == old(held) && locks == old(locks)
      ensures State() == Released(old(State()))
    {
      hide StatesOf, Armed, Disarmed, Rearmed;
      assert lockCount > 0;
      lockCount := lockCount - 1;
      DispatchConfigure(false);
    }

    /** The destructor of a lock, run when the last one to have it lets go of it. */
    method DropLock(i: nat)
      requires Valid() && i < |locks| && locks[i].live && Quiescent(State())
      modifies this, held
      ensures Valid() && Quiescent(State()) && State() == Step(old(State()), Event.DropLock(i))
    {
      hide StatesOf, Armed, Disarmed, Rearmed, Dispatch, Immediate, Apply;
      StepQuiescent(State(), Event.DropLock(i));
      ArmedUpdate(State().locks, i, State().locks[i].(live := false));
      ghost var before := State().locks;
      locks[i].live := false;
      assert State().locks == before[i := before[i].(live := false)];
      locks[i].Release(i);
    }

    method ReleaseLock(i: nat)
      requires Valid() && i < |locks| && locks[i].live && Quiescent(State())
      modifies this, held
      ensures Valid() && Quiescent(State()) && State() == Step(old(State()), Event.ReleaseLock(i))
    {
      hide StatesOf, Armed, Disarmed, Rearmed, Dispatch, Immediate, Apply;
      StepQuiescent(State(), Event.ReleaseLock(i));
      locks[i].Release(i);
    }

    method ObtainLock() returns (lock: ConfigureBufferLock)
      requires Valid() && Quiescent(State())
      modifies this
      ensures Valid() && Quiescent(State()) && State() == Step(old(State()), Event.ObtainLock)
      ensures fresh(lock) && locks == old(locks) + [lock]
    {
      hide StatesOf, Armed, Disarmed, Rearmed, Dispatch, Immediate, Apply;
      StepQuiescent(State(), Event.ObtainLock);
      lock := new ConfigureBufferLock(this);
      ghost var before := State().locks;
      ArmedAtMost(before);
      locks, held := locks + [lock], held + {lock};
      lock.Lock();
      assert State().locks == before + [Lock(true, true)];
    }

    method PushClientRequest(xwc: Changes, mask: Mask)
      requires Valid() && Quiescent(State())
      modifies this, held`armed
      ensures Valid() && Quiescent(State()) && State() == Step(old(State()), Push(Client, xwc, mask)) && held == old(held)
    {
      hide StatesOf, Armed, Disarmed, Rearmed, Dispatch, Immediate, Apply;
      StepQuiescent(State(), Push(Client, xwc, mask));
      client := Merged(client, xwc, mask);
      DispatchConfigure(false);
    }

    method PushWrapperRequest(xwc: Changes, mask: Mask)
      requires Valid() && Quiescent(State())
      modifies this, held`armed
      ensures Valid() && Quiescent(State()) && State() == Step(old(State()), Push(Wrapper, xwc, mask)) && held == old(held)
    {
      hide StatesOf, Armed, Disarmed, Rearmed, Dispatch, Immediate, Apply;
      StepQuiescent(State(), Push(Wrapper, xwc, mask));
      wrapper := Merged(wrapper, xwc, mask);
      DispatchConfigure(false);
    }

    method PushFrameRequest(xwc: Changes, mask: Mask)
      requires Valid() && Quiescent(State())
      modifies this, held`armed
      ensures Valid() && Quiescent(State()) && State() == Step(old(State()), Push(Frame, xwc, mask)) && held == old(held)
    {
      hide StatesOf, Armed, Disarmed, Rearmed, Dispatch, Immediate, Apply;
      StepQuiescent(State(), Push(Frame, xwc, mask));
      frame := Merged(frame, xwc, mask);
      DispatchConfigure(false);
    }

    method PushSyntheticConfigureNotify()
      requires Valid() && Quiescent(State())
      modifies this, held`armed
      ensures Valid() && Quiescent(State()) && State() == Step(old(State()), PushSynthetic) && held == old(held)
    {
      hide StatesOf, Armed, Disarmed, Rearmed, Dispatch, Immediate, Apply;
      StepQuiescent(State(), PushSynthetic);
      sendSyntheticConfigure := true;
      DispatchConfigure(false);
    }

    /** What every query does before it asks the server. */
    method ForceRelease()
      requires Valid() && Quiescent(State())
      modifies this, held`armed
      ensures Valid() && Quiescent(State()) && State() == Step(old(State()), Force) && held == old(held)
    {
      hide StatesOf, Armed, Disarmed, Rearmed, Dispatch, Immediate, Apply;
      StepQuiescent(State(), Force);
      DispatchConfigure(true);
    }
  }

  lemma ArmedAtMost(locks: seq<Lock>)
    ensures Armed(locks) <= |locks|
  {
    if locks != [] {
      ArmedBound(locks, 0);
    }
  }

  lemma {:induction false} CountsFit(locks: seq<Lock>, i: nat)
    requires i < |locks|
    ensures Armed(locks) + Disarmed(locks[..i + 1]) <= |locks|
  {
    var n := |locks| - 1;
    if i < n {
      CountsFit(locks[..n], i);
      assert locks[..n][..i + 1] == locks[..i + 1];
    } else {
      assert locks[..i + 1] == locks;
      ArmedRearmed(locks);
      ArmedBound(Rearmed(locks), i);
    }
  }
}
