/** The grabs that plugins hold, and the one pointer grab and one keyboard grab that the server knows. */
module Grabs {
  import opened Sequences

  datatype GrabType = GrabType(pointer: bool, keyboard: bool)

  const GRAB_POINTER := GrabType(true, false)
  const GRAB_KEYBOARD := GrabType(false, true)

  predicate Meets(a: GrabType, b: GrabType) {
    (a.pointer && b.pointer) || (a.keyboard && b.keyboard)
  }

  class Grab {
    const grabType: GrabType

    constructor (grabType: GrabType)
      ensures this.grabType == grabType
    {
      this.grabType := grabType;
    }
  }

  ghost predicate Wanted(grabs: seq<Grab>, t: GrabType) {
    exists g :: g in grabs && ((t.pointer && g.grabType.pointer) || (t.keyboard && g.grabType.keyboard))
  }

  class EventManager {
    var grabs: seq<Grab>

    /** What the server has granted. */
    var pointerGrabbed: bool
    var keyboardGrabbed: bool

    constructor ()
      ensures Valid() && grabs == []
    {
      grabs, pointerGrabbed, keyboardGrabbed := [], false, false;
    }

    /** The pointer is grabbed exactly when a grab on the list asks for it, and so is the keyboard. */
    ghost predicate Valid()
      reads this
    {
      && Distinct(grabs)
      && (pointerGrabbed <==> exists g :: g in grabs && g.grabType.pointer)
      && (keyboardGrabbed <==> exists g :: g in grabs && g.grabType.keyboard)
    }

    /** A request for a grab, which the server may refuse. */
    method XGrabPointer() returns (success: bool)
      modifies this`pointerGrabbed
      ensures success ==> pointerGrabbed
      ensures !success ==> pointerGrabbed == old(pointerGrabbed)
    {
      success := *;
      if success {
        pointerGrabbed := true;
      }
    }

    method XGrabKeyboard() returns (success: bool)
      modifies this`keyboardGrabbed
      ensures success ==> keyboardGrabbed
      ensures !success ==> keyboardGrabbed == old(keyboardGrabbed)
    {
      success := *;
      if success {
        keyboardGrabbed := true;
      }
    }

    /** The oldest grab that asks for something of `t`. */
    method TopGrab(t: GrabType) returns (g: Grab?)
      ensures g == null <==> !Wanted(grabs, t)
      ensures g != null ==> exists k :: 0 <= k < |grabs| && grabs[k] == g && Meets(g.grabType, t)
                                        && forall i :: 0 <= i < k ==> !Meets(grabs[i].grabType, t)
    {
      var it := 0;
      while it < |grabs|
        invariant 0 <= it <= |grabs| && forall i :: 0 <= i < it ==> !Meets(grabs[i].grabType, t)
      {
        if Meets(grabs[it].grabType, t) {
          return grabs[it];
        }
        it := it + 1;
      }
      return null;
    }

    /** A grab is put on the list unless the server refuses what it needs and does not hold yet. Then no
        grab is kept that was made for it. */
    method PushGrabGeneric(t: GrabType) returns (grab: Grab?)
      requires Valid()
      modifies this
      ensures Valid()
      ensures grab == null ==> grabs == old(grabs)
      ensures grab != null ==> fresh(grab) && grab.grabType == t && grabs == old(grabs) + [grab]
      ensures grab == null ==>
                (t.pointer && !old(Wanted(grabs, GRAB_POINTER))) || (t.keyboard && !old(Wanted(grabs, GRAB_KEYBOARD)))
    {
      var granted;
      if grabs == [] {
        granted := FirstGrab(t);
      } else {
        granted := FurtherGrab(t);
      }
      if !granted {
        return null;
      }
      grab := new Grab(t);
      WantedAppend(grabs, grab, GRAB_POINTER);
      WantedAppend(grabs, grab, GRAB_KEYBOARD);
      grabs := grabs + [grab];
    }

    /** What is grabbed at the server for a list that is empty so far. */
    method FirstGrab(t: GrabType) returns (granted: bool)
      requires Valid() && grabs == []
      modifies this`pointerGrabbed, this`keyboardGrabbed
      ensures if granted then pointerGrabbed == t.pointer && keyboardGrabbed == t.keyboard
              else !pointerGrabbed && !keyboardGrabbed
      ensures !t.pointer && !t.keyboard ==> granted
    {
      var status := true;
      if t.pointer {
        status := XGrabPointer();
      }
      if status {
        if t.keyboard {
          status := XGrabKeyboard();
          if !status {
            if t.pointer {
              pointerGrabbed := false;
            }
            return false;
          }
        }
      } else {
        return false;
      }
      return true;
    }

    method FurtherGrab(t: GrabType) returns (granted: bool)
      requires Valid() && grabs != []
      modifies this`pointerGrabbed, this`keyboardGrabbed
      ensures pointerGrabbed == (old(pointerGrabbed) || (granted && t.pointer))
      ensures keyboardGrabbed == (old(keyboardGrabbed) || (granted && t.keyboard))
      ensures (t.pointer ==> old(pointerGrabbed)) && (t.keyboard ==> old(keyboardGrabbed)) ==> granted
    {
      if t.pointer {
        var top := TopGrab(GRAB_POINTER);
        if top == null {
          var status := XGrabPointer();
          if !status {
            return false;
          }
        }
      }
      if t.keyboard {
        var top := TopGrab(GRAB_KEYBOARD);
        if top == null {
          var status := XGrabKeyboard();
          if !status {
            if t.pointer {
              var lastPtrGrab := TopGrab(GRAB_POINTER);
              if lastPtrGrab == null {
                pointerGrabbed := false;
              }
            }
            return false;
          }
        }
      }
      return true;
    }

    /** A grab is given up, and with it what only it has asked for. */
    method RemoveGrab(handle: Grab)
      requires Valid()
      modifies this
      ensures Valid() && grabs == Remove(old(grabs), handle)
    {
      WantedRemove(grabs, handle, GRAB_POINTER);
      WantedRemove(grabs, handle, GRAB_KEYBOARD);
      RemoveDistinct(grabs, handle);
      grabs := Remove(grabs, handle);
      if grabs != [] {
        if handle.grabType.pointer {
          var top := TopGrab(GRAB_POINTER);
          if top == null {
            pointerGrabbed := false;
          }
        }
        if handle.grabType.keyboard {
          var top := TopGrab(GRAB_KEYBOARD);
          if top == null {
            keyboardGrabbed := false;
          }
        }
      } else {
        if handle.grabType.pointer {
          pointerGrabbed := false;
        }
        if handle.grabType.keyboard {
          keyboardGrabbed := false;
        }
      }
    }
  }

  lemma WantedAppend(grabs: seq<Grab>, g: Grab, t: GrabType)
    ensures Wanted(grabs + [g], t) <==> Wanted(grabs, t) || Meets(g.grabType, t)
  {
    assert forall h :: h in grabs + [g] <==> h in grabs || h == g;
    assert Meets(g.grabType, t) ==> Wanted(grabs + [g], t);
  }

  /** Without a grab, less is wanted by what only that grab asks for. */
  lemma WantedRemove(grabs: seq<Grab>, handle: Grab, t: GrabType)
    requires Distinct(grabs)
    ensures Wanted(Remove(grabs, handle), t) ==> Wanted(grabs, t)
    ensures !Meets(handle.grabType, t) ==> Wanted(Remove(grabs, handle), t) == Wanted(grabs, t)
  {
    RemoveDistinct(grabs, handle);
  }
}
