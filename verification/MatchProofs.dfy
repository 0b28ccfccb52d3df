/** Printing a match and reading it back. */
module MatchProofs {
  import opened MatchSyntax

  /** A text with nothing escaped in it and no end before its end. */
  ghost predicate Clean(s: string) {
    forall i :: 0 <= i < |s| ==> s[i] != '\\' && s[i] != '\0'
  }

  /** A text that a group may contain: whatever follows it, all its parentheses close within it. */
  ghost predicate Balanced(s: string) {
    && Clean(s)
    && forall rest: string, level: nat :: level > 0 && Clean(rest) ==>
         GroupLength(s + rest, level) == |s| + GroupLength(rest, level)
  }

  lemma BalancedConcat(a: string, b: string)
    requires Balanced(a) && Balanced(b)
    ensures Balanced(a + b)
  {
    forall rest: string, level: nat | level > 0 && Clean(rest)
      ensures GroupLength(a + b + rest, level) == |a + b| + GroupLength(rest, level)
    {
      assert a + b + rest == a + (b + rest);
      assert Clean(b + rest);
    }
  }

  lemma BalancedChar(c: char)
    requires c !in {'\\', '(', ')', '\0'}
    ensures Balanced([c])
  {
    forall rest: string, level: nat | level > 0 && Clean(rest)
      ensures GroupLength([c] + rest, level) == 1 + GroupLength(rest, level)
    {
      assert ([c] + rest)[1..] == rest;
    }
  }

  lemma {:induction false} BalancedPlain(s: string)
    requires forall i :: 0 <= i < |s| ==> s[i] !in {'\\', '(', ')', '\0'}
    ensures Balanced(s)
  {
    if s == "" {
      forall rest: string, level: nat | level > 0 && Clean(rest)
        ensures GroupLength(s + rest, level) == |s| + GroupLength(rest, level)
      {
        assert s + rest == rest;
      }
    } else {
      BalancedChar(s[0]);
      BalancedPlain(s[1..]);
      BalancedConcat([s[0]], s[1..]);
      assert [s[0]] + s[1..] == s;
    }
  }

  lemma BalancedParens(s: string)
    requires Balanced(s)
    ensures Balanced("(" + s + ")")
  {
    var p := "(" + s + ")";
    forall rest: string, level: nat | level > 0 && Clean(rest)
      ensures GroupLength(p + rest, level) == |p| + GroupLength(rest, level)
    {
      assert (p + rest)[1..] == s + (")" + rest);
      assert (")" + rest)[1..] == rest;
      assert Clean(")" + rest);
      assert GroupLength(p + rest, level) == 1 + GroupLength(s + (")" + rest), level + 1);
    }
  }

  lemma {:induction false} ItemBalanced(op: MatchOp)
    requires Plain([op])
    ensures Balanced(ItemText(op))
    decreases op, 1
  {
    assert [op][0] == op;
    var body := if op.Exp? then op.value else "(" + Text(op.ops) + ")";
    if op.Exp? {
      BalancedPlain(op.value);
    } else {
      TextBalanced(op.ops);
      BalancedParens(Text(op.ops));
    }
    BalancedPlain("!");
    BalancedPlain("");
    BalancedConcat(if op.flags.not then "!" else "", body);
  }

  lemma {:induction false} TextBalanced(ops: seq<MatchOp>)
    requires Plain(ops)
    ensures Balanced(Text(ops)) && Balanced(Rest(ops))
    decreases ops, 0
  {
    if ops == [] {
      BalancedPlain("");
    } else {
      assert Plain([ops[0]]);
      TextBalanced(ops[1..]);
      if Prints(ops[0]) {
        ItemBalanced(ops[0]);
        BalancedConcat(ItemText(ops[0]), Rest(ops[1..]));
        var join := if ops[0].flags.and then " & " else " | ";
        BalancedPlain(join);
        BalancedConcat(join, ItemText(ops[0]));
        BalancedConcat(join + ItemText(ops[0]), Rest(ops[1..]));
      }
    }
  }

  /** What can stand behind an operation in print: nothing, or a blank and an operator. */
  ghost predicate Tail(s: string) {
    Clean(s) && (s == "" || (|s| >= 2 && s[0] == ' ' && Joins(s[1..])))
  }

  function Unblank(s: string): string {
    if s == "" then "" else s[1..]
  }

  lemma {:induction false} RestIsTail(ops: seq<MatchOp>)
    requires Plain(ops)
    ensures Tail(Rest(ops))
    decreases |ops|
  {
    TextBalanced(ops);
    if ops != [] && !Prints(ops[0]) {
      RestIsTail(ops[1..]);
    }
  }

  lemma {:induction false} PlainLength(v: string, rest: string)
    requires forall i :: 0 <= i < |v| ==> PlainChar(v[i])
    requires !Starts(rest, '\\')
    ensures ValueLength(v + rest) == |v| + ValueLength(rest)
  {
    if v == "" {
      assert v + rest == rest;
    } else {
      assert (v + rest)[1..] == v[1..] + rest;
      PlainLength(v[1..], rest);
    }
  }

  lemma {:induction false} PlainBlanks(v: string, blanks: string, j: nat)
    requires forall i :: 0 <= i < |v| ==> PlainChar(v[i])
    requires v != "" ==> v[|v| - 1] != ' '
    requires blanks in {"", " "}
    ensures TrailingBlanks(v + blanks, j) == |blanks| + if v == "" then j else 0
  {
    if v == "" {
      assert v + blanks == blanks;
    } else {
      assert (v + blanks)[1..] == v[1..] + blanks;
      PlainBlanks(v[1..], blanks, if v[0] == ' ' then j + 1 else 0);
    }
  }

  lemma {:induction false} PlainUnescaped(v: string, blanks: string)
    requires v != "" && forall i :: 0 <= i < |v| ==> PlainChar(v[i])
    ensures Unescaped(v + blanks, |v|) == v
  {
    var s := v + blanks;
    assert s[..1] == v[..1];
    if |v| > 1 {
      assert s[1..] == v[1..] + blanks;
      PlainUnescaped(v[1..], blanks);
      assert v[..1] + v[1..] == v;
    }
  }

  /** A plain value is read up to the blank and the operator behind it. */
  lemma PlainRead(v: string, tail: string)
    requires PlainValue(v) && Tail(tail)
    ensures ValueLength(v + tail) == |v| + if tail == "" then 0 else 1
    ensures Value((v + tail)[..ValueLength(v + tail)]) == v
    ensures (v + tail)[ValueLength(v + tail)..] == Unblank(tail)
  {
    hide ValueLength, Value;
    PlainLength(v, tail);
    TailLength(tail);
    var blanks := if tail == "" then "" else " ";
    assert (v + tail)[..|v| + |blanks|] == v + blanks;
    PlainBack(v, blanks);
  }

  lemma TailLength(tail: string)
    requires Tail(tail)
    ensures ValueLength(tail) == if tail == "" then 0 else 1
  {
    assert tail != "" ==> ValueLength(tail) == 1 + ValueLength(tail[1..]);
  }

  lemma PlainBack(v: string, blanks: string)
    requires PlainValue(v) && blanks in {"", " "}
    ensures Value(v + blanks) == v
  {
    PlainBlanks(v, blanks, 0);
    PlainUnescaped(v, blanks);
  }

  /** A group in print is read up to the operator behind it. */
  lemma GroupRead(text: string, tail: string)
    requires Balanced(text) && Tail(tail)
    ensures var after := text + (")" + tail);
            && GroupLength(after, 1) == |text|
            && after[..|text|] == text
            && after[|text|..][JoinLength(after[|text|..])..] == Unblank(tail)
  {
    var rest := ")" + tail;
    assert Clean(rest);
    assert GroupLength(rest, 1) == 0;
    assert (text + rest)[|text|..] == rest;
    assert rest[1..] == tail;
    assert JoinLength(rest) == 1 + JoinLength(tail);
    if tail != "" {
      assert JoinLength(tail) == 1 + JoinLength(tail[1..]);
      assert rest[2..] == tail[1..];
    }
  }

  /** What is read from the text of an operation without its negation. */
  lemma BodyRead(op: MatchOp, tail: string, f: Flags)
    requires Plain([op]) && Prints(op) && Tail(tail)
    requires op.Group? ==> Read(Text(op.ops)) == Normal(op.ops)
    ensures ReadBody(Body(op) + tail, f) == [NormalOp(op, f)] + ReadJoined(Unblank(tail), f)
  {
    hide ReadBody, ReadJoined, Tail, Read, Normal;
    assert [op][0] == op;
    if op.Exp? {
      ValueBodyRead(op.value, tail, f);
    } else {
      TextBalanced(op.ops);
      GroupBodyRead(op.ops, tail, f);
      assert Body(op) + tail == "(" + (Text(op.ops) + (")" + tail));
    }
  }

  lemma ValueBodyRead(v: string, tail: string, f: Flags)
    requires PlainValue(v) && Tail(tail)
    ensures ReadBody(v + tail, f) == [Exp(v, f)] + ReadJoined(Unblank(tail), f)
  {
    hide ReadJoined, ValueLength, Value, Tail, Unblank;
    PlainRead(v, tail);
    assert (v + tail)[0] == v[0];
  }

  lemma GroupBodyRead(ops: seq<MatchOp>, tail: string, f: Flags)
    requires Balanced(Text(ops)) && Tail(tail)
    ensures ReadBody("(" + (Text(ops) + (")" + tail)), f)
         == [Group(Read(Text(ops)), f)] + ReadJoined(Unblank(tail), f)
  {
    hide ReadJoined, GroupLength, JoinLength, Tail, Unblank, Read, Text, Balanced;
    var text := Text(ops);
    var after := text + (")" + tail);
    var b := "(" + after;
    GroupRead(text, tail);
    assert b[1..] == after;
    assert b[1..1 + |text|] == after[..|text|];
    assert b[1 + |text|..] == after[|text|..];
  }

  /** Blanks and a negation are taken from the front of a text. */
  lemma PrefixRead(blanks: string, negated: bool, b: string, flags: Flags)
    requires blanks in {"", " "} && b != "" && b[0] !in {' ', '!', '\0'}
    ensures ReadOps(blanks + (if negated then "!" else "") + b, flags)
         == ReadBody(b, if negated then flags.(not := true) else flags)
  {
    hide ReadBody;
    var a := if negated then "!" + b else b;
    var s := blanks + (if negated then "!" else "") + b;
    assert s == blanks + a;
    if blanks != "" {
      assert s[1..] == a;
    }
    assert s[Blanks(s)..] == a;
    assert negated ==> a[1..] == b;
  }

  function NotFlag(flags: Flags, negated: bool): Flags {
    if negated then flags.(not := true) else flags
  }

  /** What is read from the text of an operation, with what stands behind it. */
  lemma ItemRead(op: MatchOp, blanks: string, tail: string, flags: Flags)
    requires Plain([op]) && Prints(op) && Tail(tail) && blanks in {"", " "}
    requires op.Group? ==> Read(Text(op.ops)) == Normal(op.ops)
    ensures ReadOps(blanks + ItemText(op) + tail, flags)
         == [NormalOp(op, NotFlag(flags, op.flags.not))] + ReadJoined(Unblank(tail), NotFlag(flags, op.flags.not))
  {
    hide ReadOps, ReadBody, ReadJoined, Read, Normal, NormalOp, Tail, Unblank, Text;
    BodyRead(op, tail, NotFlag(flags, op.flags.not));
    BodyStarts(op);
    var no, body := if op.flags.not then "!" else "", Body(op);
    assert (body + tail)[0] == body[0];
    PrefixRead(blanks, op.flags.not, body + tail, flags);
    assert blanks + (no + body) + tail == blanks + no + (body + tail);
  }

  lemma BodyStarts(op: MatchOp)
    requires Plain([op])
    ensures Body(op) != "" && Body(op)[0] !in {' ', '!', '\0'}
  {
    assert [op][0] == op;
  }

  ghost predicate GroupsRead(ops: seq<MatchOp>) {
    forall i :: 0 <= i < |ops| && ops[i].Group? ==> Read(Text(ops[i].ops)) == Normal(ops[i].ops)
  }

  /** What is read from an operator, an operation and what stands behind them. */
  lemma JoinRead(op: MatchOp, tail: string, carried: Flags)
    requires Plain([op]) && Prints(op) && Tail(tail)
    requires op.Group? ==> Read(Text(op.ops)) == Normal(op.ops)
    ensures ReadJoined((if op.flags.and then "& " else "| ") + ItemText(op) + tail, carried)
         == [NormalOp(op, Joined(op.flags, carried))] + ReadJoined(Unblank(tail), Joined(op.flags, carried))
  {
    hide ReadOps, ReadBody, Read, Normal, NormalOp, Plain, Prints, ItemText, Tail;
    var flags := if op.flags.and then Flags(true, false) else carried;
    ItemRead(op, " ", tail, flags);
    var s := (if op.flags.and then "& " else "| ") + ItemText(op) + tail;
    assert s[1..] == " " + ItemText(op) + tail;
    assert ReadJoined(s, carried) == ReadOps(s[1..], flags);
  }

  /** What is read from the printed form of the operations behind the first. */
  lemma {:induction false} RestRead(ops: seq<MatchOp>, carried: Flags)
    requires Plain(ops) && GroupsRead(ops)
    ensures ReadJoined(Unblank(Rest(ops)), carried) == NormalRest(ops, carried)
    decreases |ops|
  {
    hide ReadOps, ReadBody, Read, Normal, NormalOp, ItemText, Tail;
    if ops != [] {
      var op, r := ops[0], ops[1..];
      if Prints(op) {
        var tail := Rest(r);
        RestIsTail(r);
        assert Plain([op]);
        JoinRead(op, tail, carried);
        assert Unblank(Rest(ops)) == (if op.flags.and then "& " else "| ") + ItemText(op) + tail;
        RestRead(r, Joined(op.flags, carried));
      } else {
        RestRead(r, carried);
      }
    }
  }

  lemma FirstRead(ops: seq<MatchOp>)
    requires ops != [] && Plain(ops) && GroupsRead(ops) && Prints(ops[0])
    ensures Read(Text(ops)) == Normal(ops)
  {
    hide ReadOps, ReadBody, ReadJoined, NormalRest, Rest, ItemText, Tail;
    var op, r := ops[0], ops[1..];
    var f := Flags(false, op.flags.not);
    RestIsTail(r);
    assert Plain([op]);
    ItemRead(op, "", Rest(r), NO_FLAGS);
    RestRead(r, f);
    assert Text(ops) == "" + ItemText(op) + Rest(r);
    assert NormalOp(op, f).flags == f;
  }

  /** Reading back the printed form of a plain tree gives its normal form. */
  lemma {:induction false} ReadText(ops: seq<MatchOp>)
    requires Plain(ops)
    ensures Read(Text(ops)) == Normal(ops)
    decreases ops
  {
    hide ReadBody, ReadJoined, NormalRest, Rest, ItemText, Body, NormalOp;
    if ops == [] {
      assert Read("") == [];
    } else {
      forall i | 0 <= i < |ops| && ops[i].Group?
        ensures Read(Text(ops[i].ops)) == Normal(ops[i].ops)
      {
        assert ops[i] in ops;
        ReadText(ops[i].ops);
      }
      if Prints(ops[0]) {
        FirstRead(ops);
      } else {
        ReadText(ops[1..]);
      }
    }
  }

  lemma {:induction false} NormalShrinks(ops: seq<MatchOp>, carried: Flags)
    ensures |NormalRest(ops, carried)| <= |ops|
    decreases |ops|
  {
    if ops != [] {
      NormalShrinks(ops[1..], if Prints(ops[0]) then Joined(ops[0].flags, carried) else carried);
    }
  }

  lemma {:induction false} FaithfulPrints(op: MatchOp)
    requires Plain([op]) && FaithfulOp(op)
    ensures Prints(op)
    decreases op
  {
    assert [op][0] == op;
    if op.Group? {
      var first := op.ops[0];
      assert [first][0] == first;
      assert Plain(op.ops);
      assert Plain([first]);
      FaithfulPrints(first);
      assert |Text(op.ops)| >= |Body(first)| > 0;
    }
  }

  /** For the groups of a list, coming back as they are means to be faithful. */
  ghost predicate GroupsSame(ops: seq<MatchOp>) {
    forall i :: 0 <= i < |ops| && ops[i].Group? ==> (Normal(ops[i].ops) == ops[i].ops <==> Faithful(ops[i].ops))
  }

  lemma OpSame(op: MatchOp, f: Flags)
    requires Plain([op]) && GroupsSame([op])
    ensures Prints(op) && NormalOp(op, f) == op <==> FaithfulOp(op) && f == op.flags
  {
    assert [op][0] == op;
    if FaithfulOp(op) {
      FaithfulPrints(op);
    }
  }

  lemma {:induction false} RestSame(ops: seq<MatchOp>, carried: Flags)
    requires Plain(ops) && GroupsSame(ops)
    ensures NormalRest(ops, carried) == ops <==> FaithfulRest(ops, carried)
    decreases |ops|
  {
    hide NormalOp, FaithfulOp, Prints;
    if ops != [] {
      var op, r := ops[0], ops[1..];
      var f := Joined(op.flags, carried);
      assert Plain([op]);
      OpSame(op, f);
      RestSame(r, f);
      NormalShrinks(r, carried);
      assert ops == [op] + r;
    }
  }

  lemma {:induction false} NormalSame(ops: seq<MatchOp>)
    requires Plain(ops)
    ensures Normal(ops) == ops <==> Faithful(ops)
    decreases ops
  {
    hide NormalOp, FaithfulOp, Prints;
    if ops != [] {
      var op, r := ops[0], ops[1..];
      forall i | 0 <= i < |ops| && ops[i].Group?
        ensures Normal(ops[i].ops) == ops[i].ops <==> Faithful(ops[i].ops)
      {
        assert ops[i] in ops;
        NormalSame(ops[i].ops);
      }
      var f := Flags(false, op.flags.not);
      assert Plain([op]);
      OpSame(op, f);
      RestSame(r, f);
      NormalFewer(r);
      assert ops == [op] + r;
    }
  }

  lemma {:induction false} NormalFewer(ops: seq<MatchOp>)
    ensures |Normal(ops)| <= |ops|
    decreases |ops|
  {
    if ops != [] {
      if Prints(ops[0]) {
        NormalShrinks(ops[1..], Flags(false, ops[0].flags.not));
      } else {
        NormalFewer(ops[1..]);
      }
    }
  }

  /** A plain tree comes back from its printed form if and only if it is faithful. */
  lemma RoundTrip(ops: seq<MatchOp>)
    requires Plain(ops)
    ensures Read(Text(ops)) == ops <==> Faithful(ops)
  {
    ReadText(ops);
    NormalSame(ops);
  }

  lemma {:induction false} NormalLeavesTrace(ops: seq<MatchOp>)
    requires Text(ops) != ""
    ensures Normal(ops) != []
    decreases |ops|
  {
    if !Prints(ops[0]) {
      NormalLeavesTrace(ops[1..]);
    }
  }

  ghost predicate GroupsNormal(ops: seq<MatchOp>) {
    forall i :: 0 <= i < |ops| && ops[i].Group? ==> Plain(Normal(ops[i].ops)) && Faithful(Normal(ops[i].ops))
  }

  lemma OpNormal(op: MatchOp, f: Flags)
    requires Plain([op]) && GroupsNormal([op]) && Prints(op)
    ensures Plain([NormalOp(op, f)]) && FaithfulOp(NormalOp(op, f)) && NormalOp(op, f).flags == f
  {
    assert [op][0] == op;
    if op.Group? {
      NormalLeavesTrace(op.ops);
    }
  }

  lemma {:induction false} RestNormal(ops: seq<MatchOp>, carried: Flags)
    requires Plain(ops) && GroupsNormal(ops)
    ensures Plain(NormalRest(ops, carried)) && FaithfulRest(NormalRest(ops, carried), carried)
    decreases |ops|
  {
    hide NormalOp, FaithfulOp, Prints;
    if ops != [] {
      var op, r := ops[0], ops[1..];
      if Prints(op) {
        var f := Joined(op.flags, carried);
        assert Plain([op]);
        OpNormal(op, f);
        RestNormal(r, f);
        PlainConcat(NormalOp(op, f), NormalRest(r, f));
      } else {
        RestNormal(r, carried);
      }
    }
  }

  lemma PlainConcat(op: MatchOp, ops: seq<MatchOp>)
    requires Plain([op]) && Plain(ops)
    ensures Plain([op] + ops)
    ensures ([op] + ops)[0] == op && ([op] + ops)[1..] == ops
  {
    assert [op][0] == op;
  }

  lemma {:induction false} NormalIsFaithful(ops: seq<MatchOp>)
    requires Plain(ops)
    ensures Plain(Normal(ops)) && Faithful(Normal(ops))
    decreases ops
  {
    hide NormalOp, FaithfulOp, Prints;
    if ops != [] {
      var op, r := ops[0], ops[1..];
      forall i | 0 <= i < |ops| && ops[i].Group?
        ensures Plain(Normal(ops[i].ops)) && Faithful(Normal(ops[i].ops))
      {
        assert ops[i] in ops;
        NormalIsFaithful(ops[i].ops);
      }
      if Prints(op) {
        var f := Flags(false, op.flags.not);
        assert Plain([op]);
        OpNormal(op, f);
        RestNormal(r, f);
        PlainConcat(NormalOp(op, f), NormalRest(r, f));
      } else {
        NormalIsFaithful(r);
      }
    }
  }

  /** Once is enough: what has been printed and read back comes back as it is from then on. */
  lemma ReadBackOnce(ops: seq<MatchOp>)
    requires Plain(ops)
    ensures var once := Read(Text(ops)); Read(Text(once)) == once
  {
    ReadText(ops);
    NormalIsFaithful(ops);
    RoundTrip(Normal(ops));
  }
}
