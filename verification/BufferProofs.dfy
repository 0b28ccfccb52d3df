/** What every run of calls into the configure request buffer keeps. */
module BufferProofs {
  import opened BufferModel
  import opened Values

  /** Only locks that somebody has hold the buffer back. */
  ghost predicate ArmedAreLive(locks: seq<Lock>) {
    forall i :: 0 <= i < |locks| ==> locks[i].armed ==> locks[i].live
  }

  ghost predicate AllArmed(locks: seq<Lock>) {
    forall i :: 0 <= i < |locks| ==> (locks[i].armed <==> locks[i].live)
  }

  /** Between calls: the count is that of the locks that hold the buffer back, only locks that
      somebody has do so, and nothing is kept back without one. */
  ghost predicate Quiescent(b: Buffer) {
    && b.lockCount == Armed(b.locks)
    && ArmedAreLive(b.locks)
    && (!b.Idle() ==> b.lockCount > 0)
    && !Immediate(b)
  }

  lemma {:induction false} ArmedUpdate(locks: seq<Lock>, i: nat, l: Lock)
    requires i < |locks|
    ensures Armed(locks[i := l]) == Armed(locks) - (if locks[i].armed then 1 else 0) + (if l.armed then 1 else 0)
  {
    var n := |locks| - 1;
    if i == n {
      assert locks[i := l][..n] == locks[..n];
    } else {
      assert locks[i := l][..n] == locks[..n][i := l];
      ArmedUpdate(locks[..n], i, l);
    }
  }

  /** Arming the locks that are still had adds just those that were not armed. */
  lemma {:induction false} ArmedRearmed(locks: seq<Lock>)
    ensures Armed(Rearmed(locks)) == Armed(locks) + Disarmed(locks)
  {
    if locks != [] {
      var n := |locks| - 1;
      assert Rearmed(locks)[..n] == Rearmed(locks[..n]);
      ArmedRearmed(locks[..n]);
    }
  }

  /** Every lock counted is there to be counted: the count never exceeds the number of locks. */
  lemma {:induction false} ArmedBound(locks: seq<Lock>, i: nat)
    requires i < |locks|
    ensures Armed(locks) <= |locks|
    ensures locks[i].armed ==> Armed(locks) > 0
    ensures !locks[i].armed ==> Armed(locks) < |locks|
  {
    var n := |locks| - 1;
    if n > 0 {
      ArmedBound(locks[..n], if i < n then i else 0);
    }
  }

  /** Whatever a dispatch does, it adds as many to the count as it arms. When it has something to send
      or is forced to, it leaves nothing pending and every lock that somebody has armed. */
  lemma DispatchCounts(b: Buffer, force: bool)
    ensures var r := Dispatch(b, force);
            && r.lockCount - Armed(r.locks) == b.lockCount - Armed(b.locks)
            && !Immediate(r) && (!r.Idle() ==> r.lockCount != 0)
            && (ArmedAreLive(b.locks) ==> ArmedAreLive(r.locks))
            && (force || Immediate(b) || (b.lockCount == 0 && !b.Idle())
                ==> r.Idle() && forall i :: 0 <= i < |r.locks| ==> r.locks[i].live ==> r.locks[i].armed)
  {
    ArmedRearmed(b.locks);
  }

  /** While a release is inside its dispatch, the count is exactly one less than the number of armed
      locks; it is right again when the release returns. A release arms no lock but others that
      somebody has, and none at all while other locks hold the buffer back. */
  lemma ReleaseCounts(b: Buffer, i: nat)
    requires b.lockCount == Armed(b.locks) && i < |b.locks|
    requires forall j :: 0 <= j < |b.locks| && j != i ==> b.locks[j].armed ==> b.locks[j].live
    requires !b.Idle() ==> b.lockCount > 0
    requires !Immediate(b)
    ensures b.locks[i].armed ==> Released(b).lockCount == Armed(Released(b).locks) - 1
    ensures Quiescent(Release(b, i)) && |Release(b, i).locks| == |b.locks|
    ensures !Release(b, i).locks[i].armed
  {
    var after := if b.locks[i].armed then Released(b) else b;
    if b.locks[i].armed {
      DispatchCounts(b.(lockCount := b.lockCount - 1), false);
      assert after.locks[i].armed;
    }
    ArmedUpdate(after.locks, i, after.locks[i].(armed := false));
    ArmedBound(b.locks, i);
  }

  lemma LocksApart(b: Buffer, locks: seq<Lock>, lockCount: int)
    ensures Immediate(b.(locks := locks, lockCount := lockCount)) == Immediate(b)
  {
  }

  lemma StepQuiescent(b: Buffer, e: Event)
    requires Quiescent(b) && Possible(b, e)
    ensures Quiescent(Step(b, e))
  {
    hide Immediate, Flush, Dispatch;
    match e
    case Push(Client, changes, mask) => DispatchCounts(b.(client := Merged(b.client, changes, mask)), false);
    case Push(Wrapper, changes, mask) => DispatchCounts(b.(wrapper := Merged(b.wrapper, changes, mask)), false);
    case Push(Frame, changes, mask) => DispatchCounts(b.(frame := Merged(b.frame, changes, mask)), false);
    case PushSynthetic => DispatchCounts(b.(synthetic := true), false);
    case ObtainLock =>
      assert (b.locks + [Lock(true, true)])[..|b.locks|] == b.locks;
      LocksApart(b, b.locks + [Lock(true, true)], b.lockCount + 1);
    case ReleaseLock(i) => ReleaseCounts(b, i);
    case DropLock(i) =>
      ArmedUpdate(b.locks, i, b.locks[i].(live := false));
      LocksApart(b, b.locks[i := b.locks[i].(live := false)], b.lockCount);
      ReleaseCounts(b.(locks := b.locks[i := b.locks[i].(live := false)]), i);
    case Force => DispatchCounts(b, true);
  }

  /** In every run the count is that of the armed locks, and nothing is pending unless one is held. */
  lemma {:induction false} RunsAreQuiescent(events: seq<Event>, states: seq<Buffer>, k: nat)
    requires Run(events, states) && k <= |events|
    ensures Quiescent(states[k])
  {
    if k > 0 {
      RunsAreQuiescent(events, states, k - 1);
      StepQuiescent(states[k - 1], events[k - 1]);
    }
  }

  /** What a lock can keep back: moves of the frame, and the stacking of wrapper and client. */
  function Deferrable(t: Target): Mask {
    if t == Frame then {X, Y} else {Sibling, StackMode}
  }

  /** In every run nothing else is ever pending between calls. */
  lemma OnlyDeferrableWaits(events: seq<Event>, states: seq<Buffer>, k: nat, t: Target)
    requires Run(events, states) && k <= |events|
    ensures states[k].Of(t).mask <= Deferrable(t)
  {
    RunsAreQuiescent(events, states, k);
    QuiescentMasks(states[k], t);
  }

  lemma QuiescentMasks(b: Buffer, t: Target)
    requires Quiescent(b)
    ensures b.Of(t).mask <= Deferrable(t)
  {
    forall f | f in b.Of(t).mask
      ensures f in Deferrable(t)
    {
      match f
      case X => assert X !in b.wrapper.mask * {Width, Height, BorderWidth, X, Y}
                       && X !in b.client.mask * {Width, Height, BorderWidth, X, Y};
      case Y => assert Y !in b.wrapper.mask * {Width, Height, BorderWidth, X, Y}
                       && Y !in b.client.mask * {Width, Height, BorderWidth, X, Y};
      case Width => NotImmediate(b, Width);
      case Height => NotImmediate(b, Height);
      case BorderWidth => NotImmediate(b, BorderWidth);
      case Sibling => assert Sibling !in b.frame.mask * {StackMode, Sibling};
      case StackMode => assert StackMode !in b.frame.mask * {StackMode, Sibling};
    }
  }

  lemma NotImmediate(b: Buffer, f: Field)
    requires !Immediate(b) && f in {Width, Height, BorderWidth}
    ensures f !in b.frame.mask && f !in b.wrapper.mask && f !in b.client.mask
  {
    assert f !in b.frame.mask * {Width, Height, BorderWidth};
    assert f !in b.wrapper.mask * {Width, Height, BorderWidth, X, Y};
    assert f !in b.client.mask * {Width, Height, BorderWidth, X, Y};
  }

  /** Exactly when a request is kept back: a lock is held and the request asks for nothing but what can wait, or
      it is empty and nothing was pending. Otherwise it is sent at once, with all that was pending. */
  lemma KeptBackIff(b: Buffer, t: Target, changes: Changes, mask: Mask)
    requires Quiescent(b)
    ensures var r := Step(b, Push(t, changes, mask));
            && (r.sent == b.sent <==> (mask <= Deferrable(t) && b.lockCount > 0) || (mask == {} && b.Idle()))
            && (r.sent != b.sent ==> r.Idle())
            && (r.sent == b.sent ==> r.Of(t).mask == b.Of(t).mask + mask && r.locks == b.locks)
  {
    hide Apply, Rearmed, Armed;
    QuiescentMasks(b, t);
    PushedImmediate(b, t, changes, mask);
    var p := Pushed(b, t, changes, mask);
    assert p.Idle() <==> mask == {} && b.Idle();
    SendsPending(p);
  }

  /** The buffer with one more request pending. */
  function Pushed(b: Buffer, t: Target, changes: Changes, mask: Mask): Buffer {
    match t
    case Client => b.(client := Merged(b.client, changes, mask))
    case Wrapper => b.(wrapper := Merged(b.wrapper, changes, mask))
    case Frame => b.(frame := Merged(b.frame, changes, mask))
  }

  lemma PushedImmediate(b: Buffer, t: Target, changes: Changes, mask: Mask)
    requires Quiescent(b)
    ensures Immediate(Pushed(b, t, changes, mask)) <==> !(mask <= Deferrable(t))
  {
    hide Apply;
    var p := Pushed(b, t, changes, mask);
    if !(mask <= Deferrable(t)) {
      var f :| f in mask && f !in Deferrable(t);
      assert f in p.Of(t).mask;
      assert t == Frame ==> f in p.frame.mask * {StackMode, Sibling} || f in p.frame.mask * {Width, Height, BorderWidth};
      assert t == Wrapper ==> f in p.wrapper.mask * {Width, Height, BorderWidth, X, Y};
      assert t == Client ==> f in p.client.mask * {Width, Height, BorderWidth, X, Y};
    } else {
      assert p.frame.mask * {StackMode, Sibling} == b.frame.mask * {StackMode, Sibling};
      assert p.frame.mask * {Width, Height, BorderWidth} == b.frame.mask * {Width, Height, BorderWidth};
      assert p.wrapper.mask * {Width, Height, BorderWidth, X, Y} == b.wrapper.mask * {Width, Height, BorderWidth, X, Y};
      assert p.client.mask * {Width, Height, BorderWidth, X, Y} == b.client.mask * {Width, Height, BorderWidth, X, Y};
    }
  }

  lemma SendsPending(b: Buffer)
    ensures Flush(b).sent == b.sent <==> b.Idle()
    ensures Flush(b).Idle()
  {
    hide Rearmed;
  }

  /** A forced query leaves nothing pending and every lock that somebody has armed. */
  lemma ForceSendsAll(b: Buffer)
    requires Quiescent(b)
    ensures Step(b, Force).Idle() && AllArmed(Step(b, Force).locks)
  {
  }

  /** The value of a field that the server was last sent. */
  function LastSent(sent: seq<Message>, t: Target, f: Field): Option<int> {
    if sent == [] then None
    else
      var m := sent[|sent| - 1];
      if m.Configure? && m.target == t && f in m.mask then Some(m.changes.Get(f))
      else LastSent(sent[..|sent| - 1], t, f)
  }

  /** The value that the server has, or will have once what is pending is sent. */
  function Effective(b: Buffer, t: Target, f: Field): Option<int> {
    if f in b.Of(t).mask then Some(b.Of(t).changes.Get(f)) else LastSent(b.sent, t, f)
  }

  /** The value of a field that was last asked for. */
  function LastPushed(events: seq<Event>, t: Target, f: Field): Option<int> {
    if events == [] then None
    else
      var e := events[|events| - 1];
      if e.Push? && e.target == t && f in e.mask then Some(e.changes.Get(f))
      else LastPushed(events[..|events| - 1], t, f)
  }

  lemma SentOneMore(sent: seq<Message>, out: seq<Message>, t: Target, f: Field)
    requires |out| <= 1
    ensures LastSent(sent + out, t, f) ==
            if out != [] && out[0].Configure? && out[0].target == t && f in out[0].mask
            then Some(out[0].changes.Get(f)) else LastSent(sent, t, f)
  {
    if out == [] {
      assert sent + out == sent;
    } else {
      assert (sent + out)[..|sent|] == sent;
    }
  }

  /** Sending changes nothing about the values that will hold in the end. */
  lemma DispatchKeepsEffective(b: Buffer, force: bool, t: Target, f: Field)
    ensures Effective(Dispatch(b, force), t, f) == Effective(b, t, f)
  {
    if Dispatch(b, force) != b {
      var s0 := b.sent;
      var s1 := s0 + Outgoing(Frame, b.frame);
      var s2 := s1 + Outgoing(Wrapper, b.wrapper);
      var s3 := s2 + Outgoing(Client, b.client);
      SentOneMore(s0, Outgoing(Frame, b.frame), t, f);
      SentOneMore(s1, Outgoing(Wrapper, b.wrapper), t, f);
      SentOneMore(s2, Outgoing(Client, b.client), t, f);
      SentOneMore(s3, if b.synthetic then [SyntheticNotify] else [], t, f);
    }
  }

  lemma StepEffective(b: Buffer, e: Event, t: Target, f: Field)
    requires Possible(b, e)
    ensures Effective(Step(b, e), t, f) ==
            if e.Push? && e.target == t && f in e.mask then Some(e.changes.Get(f)) else Effective(b, t, f)
  {
    hide Dispatch, LastSent, Apply;
    match e
    case Push(Client, changes, mask) =>
      DispatchKeepsEffective(b.(client := Merged(b.client, changes, mask)), false, t, f);
    case Push(Wrapper, changes, mask) =>
      DispatchKeepsEffective(b.(wrapper := Merged(b.wrapper, changes, mask)), false, t, f);
    case Push(Frame, changes, mask) =>
      DispatchKeepsEffective(b.(frame := Merged(b.frame, changes, mask)), false, t, f);
    case PushSynthetic => DispatchKeepsEffective(b.(synthetic := true), false, t, f);
    case ObtainLock =>
      assert b.(locks := b.locks + [Lock(true, true)], lockCount := b.lockCount + 1).Of(t) == b.Of(t);
    case ReleaseLock(i) => DispatchKeepsEffective(b.(lockCount := b.lockCount - 1), false, t, f);
    case DropLock(i) =>
      var dead := b.(locks := b.locks[i := b.locks[i].(live := false)]);
      DispatchKeepsEffective(dead.(lockCount := dead.lockCount - 1), false, t, f);
    case Force => DispatchKeepsEffective(b, true, t, f);
  }

  /** No request is lost and none is sent out of order with another for the same field: under any
      locking, what was sent and then what is pending gives each field the value last asked for. */
  lemma {:induction false} NothingLost(events: seq<Event>, states: seq<Buffer>, k: nat, t: Target, f: Field)
    requires Run(events, states) && k <= |events|
    ensures Effective(states[k], t, f) == LastPushed(events[..k], t, f)
  {
    if k > 0 {
      NothingLost(events, states, k - 1, t, f);
      StepEffective(states[k - 1], events[k - 1], t, f);
      assert events[..k][..k - 1] == events[..k - 1];
    }
  }

  /** So whenever no lock is held the server has been sent all that was ever asked for. */
  lemma ServerUpToDate(events: seq<Event>, states: seq<Buffer>, k: nat, t: Target, f: Field)
    requires Run(events, states) && k <= |events|
    requires states[k].lockCount == 0 || (k > 0 && events[k - 1].Force?)
    ensures LastSent(states[k].sent, t, f) == LastPushed(events[..k], t, f)
  {
    RunsAreQuiescent(events, states, k);
    NothingLost(events, states, k, t, f);
    if k > 0 && events[k - 1].Force? {
      RunsAreQuiescent(events, states, k - 1);
      ForceSendsAll(states[k - 1]);
    }
  }

  /** A synthetic notification goes out last: when it is sent, nothing that was asked for before it is
      still waiting (section 4.1.5 of the Inter-Client Communication Conventions Manual). */
  lemma SyntheticComesLast(b: Buffer, e: Event)
    requires Possible(b, e)
    ensures SentInOrder(b, Step(b, e))
  {
    hide Flush;
    FlushInOrder(b);
    match e
    case Push(Client, changes, mask) => FlushInOrder(b.(client := Merged(b.client, changes, mask)));
    case Push(Wrapper, changes, mask) => FlushInOrder(b.(wrapper := Merged(b.wrapper, changes, mask)));
    case Push(Frame, changes, mask) => FlushInOrder(b.(frame := Merged(b.frame, changes, mask)));
    case PushSynthetic => FlushInOrder(b.(synthetic := true));
    case ObtainLock =>
    case ReleaseLock(i) => FlushInOrder(b.(lockCount := b.lockCount - 1));
    case DropLock(i) =>
      var dead := b.(locks := b.locks[i := b.locks[i].(live := false)]);
      FlushInOrder(dead.(lockCount := dead.lockCount - 1));
    case Force =>
  }

  ghost predicate SentInOrder(b: Buffer, after: Buffer) {
    && |b.sent| <= |after.sent| && after.sent[..|b.sent|] == b.sent
    && forall i | |b.sent| <= i < |after.sent| ::
         after.sent[i].SyntheticNotify? ==> i == |after.sent| - 1 && after.Idle()
  }

  lemma FlushInOrder(b: Buffer)
    ensures SentInOrder(b, Flush(b))
  {
    var out := Outgoing(Frame, b.frame) + Outgoing(Wrapper, b.wrapper) + Outgoing(Client, b.client);
    assert Flush(b).sent == b.sent + out + if b.synthetic then [SyntheticNotify] else [];
    assert forall i :: 0 <= i < |out| ==> out[i].Configure?;
  }

  /** The order in which targets are served. */
  function Rank(t: Target): nat {
    match t
    case Frame => 1
    case Wrapper => 2
    case Client => 3
  }

  /** What has been sent since `base`: requests only, to the frame first and to the client last. */
  ghost predicate InOrder(base: seq<Message>, sent: seq<Message>) {
    && |base| <= |sent| && sent[..|base|] == base
    && (forall i :: |base| <= i < |sent| ==> sent[i].Configure?)
    && forall i, j :: |base| <= i < j < |sent| ==> Rank(sent[i].target) < Rank(sent[j].target)
  }

  /** Everything sent since `base` was for targets below this rank. */
  ghost predicate SentBelow(base: seq<Message>, sent: seq<Message>, rank: nat) {
    forall i :: |base| <= i < |sent| ==> sent[i].Configure? && Rank(sent[i].target) < rank
  }

  /** What is pending is for targets up to this rank, beyond those that something has been sent to. */
  ghost predicate UpTo(base: seq<Message>, b: Buffer, rank: nat) {
    && InOrder(base, b.sent) && !b.synthetic && SentBelow(base, b.sent, rank + 1)
    && forall t: Target :: b.Of(t).mask != {} ==> Rank(t) <= rank && SentBelow(base, b.sent, Rank(t))
  }

  lemma SendOne(base: seq<Message>, sent: seq<Message>, t: Target, p: Pending)
    requires InOrder(base, sent) && (p.mask != {} ==> SentBelow(base, sent, Rank(t)))
    ensures InOrder(base, sent + Outgoing(t, p))
    ensures forall r: nat :: SentBelow(base, sent, r) && (p.mask != {} ==> Rank(t) < r) ==>
                               SentBelow(base, sent + Outgoing(t, p), r)
  {
    assert sent + [] == sent;
  }

  /** Requests made in this order are sent in this order, however many of them a lock keeps back. */
  lemma PushInOrder(base: seq<Message>, b: Buffer, t: Target, changes: Changes, mask: Mask)
    requires UpTo(base, b, Rank(t) - 1)
    ensures UpTo(base, Step(b, Push(t, changes, mask)), Rank(t))
  {
    hide Apply, Immediate, Rearmed, Disarmed, InOrder, Outgoing, SentBelow, Flush;
    var p := Pushed(b, t, changes, mask);
    SentFurther(base, b.sent, Rank(t));
    FlushInRank(base, p, t);
  }

  lemma SentFurther(base: seq<Message>, sent: seq<Message>, rank: nat)
    requires SentBelow(base, sent, rank)
    ensures SentBelow(base, sent, rank + 1)
  {
  }

  lemma FlushInRank(base: seq<Message>, p: Buffer, t: Target)
    requires UpTo(base, p, Rank(t))
    ensures UpTo(base, Flush(p), Rank(t))
  {
    hide Rearmed, Disarmed, InOrder, Outgoing, SentBelow;
    assert p.Of(Frame) == p.frame && p.Of(Wrapper) == p.wrapper && p.Of(Client) == p.client;
    var s1 := p.sent + Outgoing(Frame, p.frame);
    var s2 := s1 + Outgoing(Wrapper, p.wrapper);
    SendOne(base, p.sent, Frame, p.frame);
    SendOne(base, s1, Wrapper, p.wrapper);
    SendOne(base, s2, Client, p.client);
    assert Flush(p).sent == s2 + Outgoing(Client, p.client);
  }

  lemma IdleUpTo(b: Buffer)
    requires b.Idle()
    ensures UpTo(b.sent, b, 0)
  {
  }

  lemma UpToMore(base: seq<Message>, b: Buffer, rank: nat, more: nat)
    requires UpTo(base, b, rank) && rank <= more
    ensures UpTo(base, b, more)
  {
  }

  lemma UpToInOrder(base: seq<Message>, b: Buffer, rank: nat)
    requires UpTo(base, b, rank)
    ensures InOrder(base, b.sent)
  {
  }
}
