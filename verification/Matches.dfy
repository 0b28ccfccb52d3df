/** Match objects: how they are combined in place, and what that does to what they say. */
module Matches {
  import opened MatchSyntax
  import opened MatchEval
  import MatchProofs
  import MatchReader

  const AND_FLAG := Flags(true, false)
  const NOT_FLAG := Flags(false, true)

  class CompMatch {
    var ops: seq<MatchOp>

    constructor ()
      ensures ops == []
    {
      ops := [];
    }

    constructor FromString(str: string)
      ensures ops == Read(str)
    {
      var list := MatchReader.MatchAddFromString(str);
      ops := list;
    }

    constructor Copy(other: CompMatch)
      ensures ops == other.ops
    {
      ops := other.ops;
    }

    method Evaluate(v: Valuation) returns (result: bool)
      ensures result == Meaning(ops, v)
    {
      result := MatchEvalOps(ops, v);
    }

    method ToString() returns (text: string)
      ensures text == Text(ops)
    {
      text := MatchOpsToString(ops);
    }

    method Equals(other: CompMatch) returns (equal: bool)
      ensures equal <==> ops == other.ops
    {
      equal := MatchOpsEqual(ops, other.ops);
    }

    /** The operations of the other match, one by one, after the own ones are gone: a match that is
        assigned to itself is emptied. */
    method Assign(other: CompMatch)
      modifies this
      ensures ops == if other == this then [] else other.ops
    {
      ops := [];
      var i := 0;
      while i < |other.ops|
        invariant i <= |other.ops| && ops == other.ops[..i]
        invariant other == this ==> |other.ops| == 0
        invariant other != this ==> other.ops == old(other.ops)
        decreases |other.ops| - i
      {
        ops := ops + [other.ops[i]];
        i := i + 1;
      }
    }

    method AssignString(str: string)
      modifies this
      ensures ops == Read(str)
    {
      ops := MatchReader.MatchAddFromString(str);
    }

    /** From now on the match says yes exactly where both did, even when the other is itself. */
    method And(other: CompMatch)
      modifies this
      ensures forall v :: Meaning(ops, v) == (Meaning(old(ops), v) && Meaning(old(other.ops), v))
      ensures ops == [Group(old(ops), NO_FLAGS), Group(old(other.ops), AND_FLAG)]
    {
      var g1, g2 := Group(ops, NO_FLAGS), Group(other.ops, AND_FLAG);
      Conjunction(ops, other.ops);
      ops := [];
      ops := ops + [g1];
      ops := ops + [g2];
      assert ops == [g1, g2];
    }

    /** From now on the match says yes exactly where one of the two did. */
    method Or(other: CompMatch)
      modifies this
      ensures forall v :: Meaning(ops, v) == (Meaning(old(ops), v) || Meaning(old(other.ops), v))
      ensures ops == [Group(old(ops), NO_FLAGS), Group(old(other.ops), NO_FLAGS)]
    {
      var g1, g2 := Group(ops, NO_FLAGS), Group(other.ops, NO_FLAGS);
      Disjunction(ops, other.ops);
      ops := [];
      ops := ops + [g1];
      ops := ops + [g2];
      assert ops == [g1, g2];
    }

    /** From now on the match says yes exactly where it said no. */
    method Not()
      modifies this
      ensures forall v :: Meaning(ops, v) == !Meaning(old(ops), v)
      ensures ops == [Group(old(ops), NOT_FLAG)]
    {
      var g := Group(ops, NOT_FLAG);
      Negation(ops);
      ops := [];
      ops := ops + [g];
      assert ops == [g];
    }

    method AndString(str: string)
      modifies this
      ensures forall v :: Meaning(ops, v) == (Meaning(old(ops), v) && Meaning(Read(str), v))
    {
      var other := new CompMatch.FromString(str);
      And(other);
    }

    method OrString(str: string)
      modifies this
      ensures forall v :: Meaning(ops, v) == (Meaning(old(ops), v) || Meaning(Read(str), v))
    {
      var other := new CompMatch.FromString(str);
      Or(other);
    }
  }

  lemma Conjunction(a: seq<MatchOp>, b: seq<MatchOp>)
    ensures forall v :: Meaning([Group(a, NO_FLAGS), Group(b, AND_FLAG)], v) == (Meaning(a, v) && Meaning(b, v))
  {
    var ops := [Group(a, NO_FLAGS), Group(b, AND_FLAG)];
    forall v
      ensures Meaning(ops, v) == (Meaning(a, v) && Meaning(b, v))
    {
      assert ops[1..] == [Group(b, AND_FLAG)];
      assert Chain(ops[1..], v) == Signed(Group(b, AND_FLAG), v) == Meaning(b, v);
      assert Chain(ops, v) == (Signed(ops[0], v) && Chain(ops[1..], v));
    }
  }

  lemma Disjunction(a: seq<MatchOp>, b: seq<MatchOp>)
    ensures forall v :: Meaning([Group(a, NO_FLAGS), Group(b, NO_FLAGS)], v) == (Meaning(a, v) || Meaning(b, v))
  {
    var ops := [Group(a, NO_FLAGS), Group(b, NO_FLAGS)];
    forall v
      ensures Meaning(ops, v) == (Meaning(a, v) || Meaning(b, v))
    {
      assert ops[1..] == [Group(b, NO_FLAGS)];
      assert Chain(ops[1..], v) == Signed(Group(b, NO_FLAGS), v) == Meaning(b, v);
      assert Chain(ops, v) == (Signed(ops[0], v) || Chain(ops[1..], v));
    }
  }

  lemma Negation(a: seq<MatchOp>)
    ensures forall v :: Meaning([Group(a, NOT_FLAG)], v) == !Meaning(a, v)
  {
    forall v
      ensures Meaning([Group(a, NOT_FLAG)], v) == !Meaning(a, v)
    {
      assert Chain([Group(a, NOT_FLAG)], v) == Signed(Group(a, NOT_FLAG), v);
    }
  }

  /** The text of a match may stand for another match, one that says something else: an "or" behind an
      "and" is read as an "and". */
  lemma TextChangesMeaning()
    ensures exists ops, v :: Plain(ops) && Meaning(Read(Text(ops)), v) != Meaning(ops, v)
  {
    var a, b, c := Exp("a", NO_FLAGS), Exp("b", AND_FLAG), Exp("c", NO_FLAGS);
    var ops := [a, b, c];
    MatchProofs.ReadText(ops);
    var read := [a, b, Exp("c", AND_FLAG)];
    assert ops[1..] == [b, c] && [b, c][1..] == [c];
    assert NormalRest([c], AND_FLAG) == [read[2]];
    assert NormalRest([b, c], NO_FLAGS) == [b, read[2]];
    assert Normal(ops) == read;
    var v: Valuation := s => s != "b";
    ThreeOps(a, b, c, v);
    ThreeOps(a, b, read[2], v);
  }

  lemma ThreeOps(a: MatchOp, b: MatchOp, c: MatchOp, v: Valuation)
    requires !a.flags.and && b.flags.and
    ensures Meaning([a, b, c], v)
         == (Signed(a, v) && if c.flags.and then Signed(b, v) && Signed(c, v) else Signed(b, v) || Signed(c, v))
  {
    assert [a, b, c][1..] == [b, c] && [b, c][1..] == [c];
    assert Chain([c], v) == Signed(c, v);
    assert Chain([a, b, c], v) == (Signed(a, v) && Chain([b, c], v));
  }
}
