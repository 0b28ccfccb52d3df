/** When a match says the same after it has been printed and read back, although its tree may be another
    one then. */
module MatchMeaning {
  import opened MatchSyntax
  import opened MatchEval
  import MatchProofs

  /** The valuation by which no expression holds. */
  const NOTHING: Valuation := _ => false

  /** Nothing of the list is printed. */
  predicate Silent(ops: seq<MatchOp>) {
    forall i :: 0 <= i < |ops| ==> !Prints(ops[i])
  }

  /** An operation that is not printed, with the value it always has, makes no difference to those after
      it: yes before an "and", no before an "or". */
  predicate Neutral(value: bool, next: MatchOp) {
    value == next.flags.and
  }

  /** Trees that say the same after they have been printed and read back. What is not printed must be neutral
      in its place, and the flags that the reader gives must be those that the tree has. */
  predicate Kept(ops: seq<MatchOp>)
    decreases ops, 3
  {
    if Silent(ops) then !Meaning(ops, NOTHING) else !ops[0].flags.and && KeptFirst(ops)
  }

  predicate KeptFirst(ops: seq<MatchOp>)
    requires !Silent(ops)
    decreases ops, 2
  {
    var op, r := ops[0], ops[1..];
    if Prints(op) then KeptOp(op) && KeptTail(r, Flags(false, op.flags.not))
    else
      SilentRest(ops);
      Neutral(Signed(op, NOTHING), r[0]) && KeptFirst(r)
  }

  /** The same for a part of a list, with the flags that the reader carries there. */
  predicate KeptRest(ops: seq<MatchOp>, carried: Flags)
    requires !Silent(ops)
    decreases ops, 2
  {
    var op, r := ops[0], ops[1..];
    if Prints(op) then
      var f := Joined(op.flags, carried);
      f.not == op.flags.not && KeptOp(op) && KeptTail(r, f)
    else
      SilentRest(ops);
      Neutral(Signed(op, NOTHING), r[0]) && KeptRest(r, carried)
  }

  /** The same for what follows an operation that is printed. */
  predicate KeptTail(ops: seq<MatchOp>, carried: Flags)
    decreases ops, 3
  {
    if Silent(ops) then ops == [] || Neutral(Chain(ops, NOTHING), ops[0])
    else
      NormalNotEmpty(ops, carried);
      ops[0].flags.and == NormalRest(ops, carried)[0].flags.and && KeptRest(ops, carried)
  }

  predicate KeptOp(op: MatchOp)
    decreases op, 4
  {
    op.Group? ==> Kept(op.ops)
  }

  lemma SilentRest(ops: seq<MatchOp>)
    requires !Silent(ops) && !Prints(ops[0])
    ensures ops[1..] != [] && !Silent(ops[1..])
  {
    var i :| 0 <= i < |ops| && Prints(ops[i]);
    assert ops[1..][i - 1] == ops[i];
  }

  lemma {:induction false} NormalNotEmpty(ops: seq<MatchOp>, carried: Flags)
    ensures Silent(ops) <==> NormalRest(ops, carried) == []
    ensures Silent(ops) <==> Normal(ops) == []
    decreases |ops|
  {
    if ops != [] {
      if !Prints(ops[0]) {
        NormalNotEmpty(ops[1..], carried);
        if !Silent(ops) {
          SilentRest(ops);
        }
      }
    }
  }

  /** The values of the expressions in a tree. */
  function Values(ops: seq<MatchOp>): set<string>
    decreases ops, 0
  {
    if ops == [] then {} else ValuesOf(ops[0]) + Values(ops[1..])
  }

  function ValuesOf(op: MatchOp): set<string>
    decreases op, 1
  {
    match op
    case Exp(value, _) => {value}
    case Group(ops, _) => Values(ops)
  }

  ghost predicate Agree(v: Valuation, u: Valuation, names: set<string>) {
    forall s :: s in names ==> v(s) == u(s)
  }

  /** What a tree says depends on its values only. */
  lemma {:induction false} SaysByValues(ops: seq<MatchOp>, v: Valuation, u: Valuation)
    requires Agree(v, u, Values(ops))
    ensures Meaning(ops, v) == Meaning(ops, u)
    ensures ops != [] ==> Chain(ops, v) == Chain(ops, u)
    decreases ops, 0
  {
    if ops != [] {
      SignedByValues(ops[0], v, u);
      SaysByValues(ops[1..], v, u);
    }
  }

  lemma SignedByValues(op: MatchOp, v: Valuation, u: Valuation)
    requires Agree(v, u, ValuesOf(op))
    ensures Signed(op, v) == Signed(op, u)
    decreases op, 1
  {
    if op.Group? {
      SaysByValues(op.ops, v, u);
    }
  }

  /** What is not printed has no values. */
  lemma {:induction false} SilentValues(ops: seq<MatchOp>)
    requires Plain(ops)
    ensures Silent(ops) <==> Text(ops) == ""
    ensures Silent(ops) ==> Values(ops) == {}
    decreases ops
  {
    if ops != [] {
      assert ops[0] in ops;
      if ops[0].Group? {
        SilentValues(ops[0].ops);
      }
      SilentValues(ops[1..]);
      if Prints(ops[0]) {
        assert |ItemText(ops[0])| >= |Body(ops[0])| > 0;
      } else if !Silent(ops) {
        SilentRest(ops);
      }
    }
  }

  /** An operation that is not printed always has the same value. */
  lemma SilentSays(op: MatchOp, v: Valuation)
    requires Plain([op]) && !Prints(op)
    ensures Signed(op, v) == Signed(op, NOTHING)
  {
    assert [op][0] == op;
    SilentValues(op.ops);
    SignedByValues(op, v, NOTHING);
  }

  lemma SilentChain(ops: seq<MatchOp>, v: Valuation)
    requires Plain(ops) && Silent(ops) && ops != []
    ensures Chain(ops, v) == Chain(ops, NOTHING)
  {
    SilentValues(ops);
    SaysByValues(ops, v, NOTHING);
  }

  /** Trees that are kept say the same after they have been read back. */
  lemma {:induction false} KeptSays(ops: seq<MatchOp>, v: Valuation)
    requires Plain(ops) && Kept(ops)
    ensures Meaning(Normal(ops), v) == Meaning(ops, v)
    decreases ops, 3
  {
    NormalNotEmpty(ops, NO_FLAGS);
    if Silent(ops) {
      SilentValues(ops);
      SaysByValues(ops, v, NOTHING);
    } else {
      KeptFirstSays(ops, v);
      NormalFirst(ops);
    }
  }

  lemma {:induction false} NormalFirst(ops: seq<MatchOp>)
    requires Normal(ops) != []
    ensures !Normal(ops)[0].flags.and
    decreases |ops|
  {
    if !Prints(ops[0]) {
      NormalFirst(ops[1..]);
    }
  }

  lemma {:induction false} KeptFirstSays(ops: seq<MatchOp>, v: Valuation)
    requires Plain(ops) && !Silent(ops) && KeptFirst(ops)
    ensures Normal(ops) != [] && Chain(Normal(ops), v) == Chain(ops, v)
    decreases ops, 2
  {
    hide NormalOp, KeptOp, Prints;
    var op, r := ops[0], ops[1..];
    assert Plain([op]);
    if Prints(op) {
      var f := Flags(false, op.flags.not);
      KeptOpSays(op, f, v);
      KeptTailSays(op, r, NormalOp(op, f), f, v);
      assert ops == [op] + r;
    } else {
      SilentRest(ops);
      SilentSays(op, v);
      KeptFirstSays(r, v);
    }
  }

  lemma {:induction false} KeptRestSays(ops: seq<MatchOp>, carried: Flags, v: Valuation)
    requires Plain(ops) && !Silent(ops) && KeptRest(ops, carried)
    ensures NormalRest(ops, carried) != [] && Chain(NormalRest(ops, carried), v) == Chain(ops, v)
    decreases ops, 2
  {
    hide NormalOp, KeptOp, Prints;
    var op, r := ops[0], ops[1..];
    assert Plain([op]);
    if Prints(op) {
      var f := Joined(op.flags, carried);
      KeptOpSays(op, f, v);
      KeptTailSays(op, r, NormalOp(op, f), f, v);
      assert ops == [op] + r;
    } else {
      SilentRest(ops);
      SilentSays(op, v);
      KeptRestSays(r, carried, v);
    }
  }

  /** What a list says in terms of its first operation and the others. */
  lemma ChainSplit(op: MatchOp, r: seq<MatchOp>, v: Valuation)
    ensures Chain([op] + r, v)
         == if r == [] then Signed(op, v)
            else if r[0].flags.and then Signed(op, v) && Chain(r, v)
            else Signed(op, v) || Chain(r, v)
  {
    assert ([op] + r)[1..] == r;
  }

  lemma KeptTailSays(op: MatchOp, r: seq<MatchOp>, n: MatchOp, f: Flags, v: Valuation)
    requires Plain(r) && KeptTail(r, f) && Signed(op, v) == Signed(n, v)
    ensures Chain([op] + r, v) == Chain([n] + NormalRest(r, f), v)
    decreases r, 3
  {
    hide Signed, Prints;
    NormalNotEmpty(r, f);
    ChainSplit(op, r, v);
    ChainSplit(n, NormalRest(r, f), v);
    if !Silent(r) {
      KeptRestSays(r, f, v);
    } else if r != [] {
      SilentChain(r, v);
    }
  }

  lemma KeptOpSays(op: MatchOp, f: Flags, v: Valuation)
    requires Plain([op]) && KeptOp(op) && f.not == op.flags.not
    ensures Signed(NormalOp(op, f), v) == Signed(op, v)
    decreases op, 4
  {
    assert [op][0] == op;
    if op.Group? {
      KeptSays(op.ops, v);
    }
  }

  /** What something says of a window, by the expressions that hold. */
  type Saying = Valuation -> bool

  ghost predicate Same(x: Saying, y: Saying) {
    forall v :: x(v) == y(v)
  }

  ghost predicate Opposite(x: Saying, y: Saying) {
    forall v :: x(v) != y(v)
  }

  ghost predicate Varies(x: Saying) {
    (exists v :: x(v)) && (exists v :: !x(v))
  }

  ghost predicate DependsOn(x: Saying, names: set<string>) {
    forall v, u :: Agree(v, u, names) ==> x(v) == x(u)
  }

  function JoinedBy(and: bool, x: bool, y: bool): bool {
    if and then x && y else x || y
  }

  /** Joined sayings about different expressions can be taken apart: their values are independent. */
  lemma Independent(x: Saying, g: Saying, xs: set<string>, gs: set<string>, v: Valuation, w: Valuation)
    returns (u: Valuation)
    requires DependsOn(x, xs) && DependsOn(g, gs) && xs !! gs
    ensures x(u) == x(v) && g(u) == g(w)
    ensures Agree(u, v, xs) && Agree(u, w, gs)
  {
    u := s => if s in xs then v(s) else w(s);
    assert Agree(u, v, xs) && Agree(u, w, gs);
  }

  ghost predicate Apart(x: Saying, g: Saying, x': Saying, g': Saying, xs: set<string>, gs: set<string>) {
    && DependsOn(x, xs) && DependsOn(x', xs) && DependsOn(g, gs) && DependsOn(g', gs) && xs !! gs
    && Varies(x') && Varies(g')
  }

  lemma Everywhere(a: bool, x: Saying, g: Saying, a': bool, x': Saying, g': Saying, xs: set<string>, gs: set<string>,
                   same: bool, v: Valuation, w: Valuation)
    requires Apart(x, g, x', g', xs, gs)
    requires forall u :: (JoinedBy(a, x(u), g(u)) == JoinedBy(a', x'(u), g'(u))) == same
    ensures (JoinedBy(a, x(v), g(w)) == JoinedBy(a', x'(v), g'(w))) == same
  {
    var u := Independent(x, g, xs, gs, v, w);
    assert x'(u) == x'(v) && g'(u) == g'(w);
  }

  /** Two joined sayings that agree have the same operator and the same parts. */
  lemma SameParts(a: bool, x: Saying, g: Saying, a': bool, x': Saying, g': Saying, xs: set<string>, gs: set<string>)
    requires Apart(x, g, x', g', xs, gs)
    requires forall u :: JoinedBy(a, x(u), g(u)) == JoinedBy(a', x'(u), g'(u))
    ensures a == a' && Same(x, x') && Same(g, g')
  {
    var xt, xf :| x'(xt) && !x'(xf);
    var gt, gf :| g'(gt) && !g'(gf);
    forall v, w
      ensures JoinedBy(a, x(v), g(w)) == JoinedBy(a', x'(v), g'(w))
    {
      Everywhere(a, x, g, a', x', g', xs, gs, true, v, w);
    }
    assert JoinedBy(a, x(xt), g(gt)) && !JoinedBy(a, x(xf), g(gf));
    assert JoinedBy(a, x(xt), g(gf)) == JoinedBy(a, x(xf), g(gt)) == !a';
    forall v
      ensures x(v) == x'(v) && g(v) == g'(v)
    {
      assert JoinedBy(a, x(v), g(gt)) == JoinedBy(a', x'(v), true);
      assert JoinedBy(a, x(v), g(gf)) == JoinedBy(a', x'(v), false);
      assert JoinedBy(a, x(xt), g(v)) == JoinedBy(a', true, g'(v));
      assert JoinedBy(a, x(xf), g(v)) == JoinedBy(a', false, g'(v));
    }
  }

  /** Two that contradict each other have contradicting parts. */
  lemma OppositeParts(a: bool, x: Saying, g: Saying, a': bool, x': Saying, g': Saying, xs: set<string>,
                      gs: set<string>)
    requires Apart(x, g, x', g', xs, gs)
    requires forall u :: JoinedBy(a, x(u), g(u)) != JoinedBy(a', x'(u), g'(u))
    ensures Opposite(x, x')
  {
    var xt, xf :| x'(xt) && !x'(xf);
    var gt, gf :| g'(gt) && !g'(gf);
    forall v, w
      ensures JoinedBy(a, x(v), g(w)) != JoinedBy(a', x'(v), g'(w))
    {
      Everywhere(a, x, g, a', x', g', xs, gs, false, v, w);
    }
    assert !JoinedBy(a, x(xt), g(gt)) && JoinedBy(a, x(xf), g(gf));
    assert JoinedBy(a, x(xt), g(gf)) == JoinedBy(a, x(xf), g(gt)) == a';
    forall v
      ensures x(v) != x'(v)
    {
      assert JoinedBy(a, x(v), g(gt)) != JoinedBy(a', x'(v), true);
      assert JoinedBy(a, x(v), g(gf)) != JoinedBy(a', x'(v), false);
    }
  }

  lemma JoinVaries(a: bool, x: Saying, g: Saying, xs: set<string>, gs: set<string>)
    requires DependsOn(x, xs) && DependsOn(g, gs) && xs !! gs && Varies(x) && Varies(g)
    ensures (exists v :: JoinedBy(a, x(v), g(v))) && (exists v :: !JoinedBy(a, x(v), g(v)))
  {
    var xt, xf :| x(xt) && !x(xf);
    var gt, gf :| g(gt) && !g(gf);
    var t := Independent(x, g, xs, gs, xt, gt);
    var f := Independent(x, g, xs, gs, xf, gf);
    assert JoinedBy(a, x(t), g(t)) && !JoinedBy(a, x(f), g(f));
  }

  /** No value occurs twice in a tree. */
  predicate Different(ops: seq<MatchOp>)
    decreases ops, 0
  {
    ops != [] ==> DifferentIn(ops[0]) && Different(ops[1..]) && ValuesOf(ops[0]) !! Values(ops[1..])
  }

  predicate DifferentIn(op: MatchOp)
    decreases op, 1
  {
    op.Group? ==> Different(op.ops)
  }

  ghost function Says(ops: seq<MatchOp>): Saying
    requires ops != []
  {
    (v: Valuation) => Chain(ops, v)
  }

  ghost function SaysSigned(op: MatchOp): Saying {
    (v: Valuation) => Signed(op, v)
  }

  lemma SaysDepends(ops: seq<MatchOp>)
    requires ops != []
    ensures DependsOn(Says(ops), Values(ops))
  {
    forall v, u | Agree(v, u, Values(ops))
      ensures Says(ops)(v) == Says(ops)(u)
    {
      SaysByValues(ops, v, u);
    }
  }

  lemma SignedDepends(op: MatchOp)
    ensures DependsOn(SaysSigned(op), ValuesOf(op))
  {
    forall v, u | Agree(v, u, ValuesOf(op))
      ensures SaysSigned(op)(v) == SaysSigned(op)(u)
    {
      SignedByValues(op, v, u);
    }
  }

  lemma DependsOnMore(x: Saying, few: set<string>, more: set<string>)
    requires DependsOn(x, few) && few <= more
    ensures DependsOn(x, more)
  {
    forall v, u | Agree(v, u, more)
      ensures x(v) == x(u)
    {
      assert Agree(v, u, few);
    }
  }

  /** Reading brings no new values. */
  lemma {:induction false} NormalValues(ops: seq<MatchOp>, carried: Flags)
    ensures Values(Normal(ops)) <= Values(ops) && Values(NormalRest(ops, carried)) <= Values(ops)
    decreases ops, 0
  {
    if ops != [] {
      var op, r := ops[0], ops[1..];
      NormalValues(r, carried);
      NormalValues(r, Joined(op.flags, carried));
      NormalValues(r, Flags(false, op.flags.not));
      NormalOpValues(op, Joined(op.flags, carried));
      NormalOpValues(op, Flags(false, op.flags.not));
      if Prints(op) {
        assert Normal(ops)[1..] == NormalRest(r, Flags(false, op.flags.not));
        assert NormalRest(ops, carried)[1..] == NormalRest(r, Joined(op.flags, carried));
      }
    }
  }

  lemma NormalOpValues(op: MatchOp, f: Flags)
    ensures ValuesOf(NormalOp(op, f)) <= ValuesOf(op)
    decreases op, 1
  {
    if op.Group? {
      NormalValues(op.ops, f);
    }
  }

  lemma SaysJoined(op: MatchOp, r: seq<MatchOp>)
    requires r != []
    ensures forall v :: Says([op] + r)(v) == JoinedBy(r[0].flags.and, SaysSigned(op)(v), Says(r)(v))
  {
    forall v
      ensures Says([op] + r)(v) == JoinedBy(r[0].flags.and, SaysSigned(op)(v), Says(r)(v))
    {
      ChainSplit(op, r, v);
    }
  }

  lemma SaysOne(op: MatchOp)
    ensures forall v :: Says([op])(v) == SaysSigned(op)(v)
  {
  }

  /** What is read back says yes to some windows and no to others. */
  lemma {:induction false} FirstVaries(ops: seq<MatchOp>)
    requires Plain(ops) && Different(ops) && !Silent(ops)
    ensures Normal(ops) != [] && Varies(Says(Normal(ops)))
    decreases ops, 1
  {
    hide NormalOp, Prints, Varies, Chain;
    if Prints(ops[0]) {
      HeadVaries(ops, Flags(false, ops[0].flags.not));
    } else {
      SilentRest(ops);
      FirstVaries(ops[1..]);
    }
  }

  lemma {:induction false} RestVaries(ops: seq<MatchOp>, carried: Flags)
    requires Plain(ops) && Different(ops) && !Silent(ops)
    ensures NormalRest(ops, carried) != [] && Varies(Says(NormalRest(ops, carried)))
    decreases ops, 1
  {
    hide NormalOp, Prints, Varies, Chain;
    if Prints(ops[0]) {
      HeadVaries(ops, Joined(ops[0].flags, carried));
    } else {
      SilentRest(ops);
      RestVaries(ops[1..], carried);
    }
  }

  lemma HeadVaries(ops: seq<MatchOp>, f: Flags)
    requires Plain(ops) && Different(ops) && ops != [] && Prints(ops[0])
    ensures Varies(Says([NormalOp(ops[0], f)] + NormalRest(ops[1..], f)))
    decreases ops, 0
  {
    hide NormalOp, Chain, Prints, Silent;
    var op, r := ops[0], ops[1..];
    assert Plain([op]);
    var n, q := NormalOp(op, f), NormalRest(r, f);
    OpVaries(op, f);
    NormalNotEmpty(r, f);
    if q == [] {
      SaysOne(n);
      assert [n] + q == [n];
    } else {
      RestVaries(r, f);
      PartsDepend(op, r, f);
      SaysJoined(n, q);
      JoinVaries(q[0].flags.and, SaysSigned(n), Says(q), ValuesOf(op), Values(r));
    }
  }

  lemma PartsDepend(op: MatchOp, r: seq<MatchOp>, f: Flags)
    requires NormalRest(r, f) != []
    ensures r != [] && DependsOn(SaysSigned(op), ValuesOf(op)) && DependsOn(Says(r), Values(r))
    ensures DependsOn(SaysSigned(NormalOp(op, f)), ValuesOf(op)) && DependsOn(Says(NormalRest(r, f)), Values(r))
  {
    hide DependsOn, Values, ValuesOf, NormalOp;
    SignedDepends(op);
    SignedDepends(NormalOp(op, f));
    SaysDepends(r);
    SaysDepends(NormalRest(r, f));
    NormalOpValues(op, f);
    NormalValues(r, f);
    DependsOnMore(SaysSigned(NormalOp(op, f)), ValuesOf(NormalOp(op, f)), ValuesOf(op));
    DependsOnMore(Says(NormalRest(r, f)), Values(NormalRest(r, f)), Values(r));
  }

  lemma OpVaries(op: MatchOp, f: Flags)
    requires Plain([op]) && DifferentIn(op) && Prints(op)
    ensures Varies(SaysSigned(NormalOp(op, f)))
    decreases op, 2
  {
    assert [op][0] == op;
    var n := NormalOp(op, f);
    if op.Exp? {
      var all: Valuation := _ => true;
      assert SaysSigned(n)(all) != f.not && SaysSigned(n)(NOTHING) == f.not;
    } else {
      SilentValues(op.ops);
      FirstVaries(op.ops);
      NormalFirst(op.ops);
      var yes, no :| Says(Normal(op.ops))(yes) && !Says(Normal(op.ops))(no);
      SignedGroup(Normal(op.ops), f, yes);
      SignedGroup(Normal(op.ops), f, no);
      assert SaysSigned(n)(yes) != f.not && SaysSigned(n)(no) == f.not;
    }
  }

  ghost predicate SameMeaning(a: seq<MatchOp>, b: seq<MatchOp>) {
    forall v :: Meaning(a, v) == Meaning(b, v)
  }

  lemma SignedGroup(ops: seq<MatchOp>, f: Flags, v: Valuation)
    requires ops != [] && !ops[0].flags.and
    ensures Signed(Group(ops, f), v) == (f.not != Chain(ops, v))
  {
    hide Chain;
  }

  /** What always says the same neither agrees with a saying that varies nor contradicts it. */
  lemma ConstantDiffers(x: Saying, y: Saying, value: bool)
    requires Varies(y) && forall v :: x(v) == value
    ensures !Same(x, y) && !Opposite(x, y)
  {
    var yes, no :| y(yes) && !y(no);
    assert x(yes) == x(no);
  }

  /** What is not printed at the beginning of a list is neutral, or else it decides what the list says. */
  lemma SilentHead(ops: seq<MatchOp>)
    requires Plain(ops) && !Silent(ops) && !Prints(ops[0]) && ops[1..] != []
    ensures var value, r := Signed(ops[0], NOTHING), ops[1..];
            if Neutral(value, r[0]) then Same(Says(ops), Says(r)) else forall v :: Says(ops)(v) == value
  {
    assert Plain([ops[0]]) && ops == [ops[0]] + ops[1..];
    hide Signed, Prints, Silent;
    forall v
      ensures Signed(ops[0], v) == Signed(ops[0], NOTHING)
    {
      SilentSays(ops[0], v);
    }
    SaysJoined(ops[0], ops[1..]);
  }

  lemma {:induction false} FirstNeeded(ops: seq<MatchOp>)
    requires Plain(ops) && Different(ops) && !Silent(ops)
    ensures Normal(ops) != []
    ensures Same(Says(ops), Says(Normal(ops))) ==> KeptFirst(ops)
    ensures !Opposite(Says(ops), Says(Normal(ops)))
    decreases ops, 1
  {
    hide NormalOp, Prints, Chain, Says, KeptOp, KeptTail, Signed;
    var op, r := ops[0], ops[1..];
    assert Plain([op]);
    FirstVaries(ops);
    if Prints(op) {
      var f := Flags(false, op.flags.not);
      HeadNeeded(ops, f);
      OpNeeded(op, f);
    } else {
      SilentRest(ops);
      SilentHead(ops);
      if Neutral(Signed(op, NOTHING), r[0]) {
        FirstNeeded(r);
      } else {
        ConstantDiffers(Says(ops), Says(Normal(r)), Signed(op, NOTHING));
      }
    }
  }

  lemma {:induction false} RestNeeded(ops: seq<MatchOp>, carried: Flags)
    requires Plain(ops) && Different(ops) && !Silent(ops)
    ensures NormalRest(ops, carried) != []
    ensures Same(Says(ops), Says(NormalRest(ops, carried))) ==> KeptRest(ops, carried)
    decreases ops, 1
  {
    hide NormalOp, Prints, Chain, Says, KeptOp, KeptTail, Signed;
    var op, r := ops[0], ops[1..];
    assert Plain([op]);
    RestVaries(ops, carried);
    if Prints(op) {
      HeadNeeded(ops, Joined(op.flags, carried));
      OpNeeded(op, Joined(op.flags, carried));
    } else {
      SilentRest(ops);
      SilentHead(ops);
      if Neutral(Signed(op, NOTHING), r[0]) {
        RestNeeded(r, carried);
      } else {
        ConstantDiffers(Says(ops), Says(NormalRest(r, carried)), Signed(op, NOTHING));
      }
    }
  }

  lemma HeadNeeded(ops: seq<MatchOp>, f: Flags)
    requires Plain(ops) && Different(ops) && ops != [] && Prints(ops[0])
    ensures var n, whole := NormalOp(ops[0], f), [NormalOp(ops[0], f)] + NormalRest(ops[1..], f);
            && (Same(Says(ops), Says(whole)) ==> Same(SaysSigned(ops[0]), SaysSigned(n)) && KeptTail(ops[1..], f))
            && (Opposite(Says(ops), Says(whole)) ==> Opposite(SaysSigned(ops[0]), SaysSigned(n)))
    decreases ops, 0
  {
    hide NormalOp, Chain, Prints, Silent, Says, SaysSigned, Signed;
    var op, r := ops[0], ops[1..];
    assert Plain([op]) && ops == [op] + r;
    var n, q := NormalOp(op, f), NormalRest(r, f);
    NormalNotEmpty(r, f);
    OpVaries(op, f);
    if q == [] {
      assert [n] + q == [n];
      SaysOne(n);
      SilentTail(op, r, f);
      if !KeptTail(r, f) {
        ConstantDiffers(Says(ops), SaysSigned(n), Chain(r, NOTHING));
      }
    } else {
      RestVaries(r, f);
      PartsDepend(op, r, f);
      SaysJoined(op, r);
      SaysJoined(n, q);
      if Same(Says(ops), Says([n] + q)) {
        SameParts(r[0].flags.and, SaysSigned(op), Says(r), q[0].flags.and, SaysSigned(n), Says(q), ValuesOf(op),
                  Values(r));
        RestNeeded(r, f);
      }
      if Opposite(Says(ops), Says([n] + q)) {
        OppositeParts(r[0].flags.and, SaysSigned(op), Says(r), q[0].flags.and, SaysSigned(n), Says(q), ValuesOf(op),
                      Values(r));
      }
    }
  }

  lemma SilentTail(op: MatchOp, r: seq<MatchOp>, f: Flags)
    requires Plain(r) && Silent(r)
    ensures if KeptTail(r, f) then Same(Says([op] + r), SaysSigned(op))
            else r != [] && forall v :: Says([op] + r)(v) == Chain(r, NOTHING)
  {
    hide Signed, Chain;
    if r == [] {
      SaysOne(op);
      assert [op] + r == [op];
    } else {
      SaysJoined(op, r);
      forall v
        ensures Says(r)(v) == Chain(r, NOTHING)
      {
        SilentChain(r, v);
      }
    }
  }

  lemma OpNeeded(op: MatchOp, f: Flags)
    requires Plain([op]) && DifferentIn(op) && Prints(op)
    ensures Same(SaysSigned(op), SaysSigned(NormalOp(op, f))) ==> f.not == op.flags.not && KeptOp(op)
    ensures f.not == op.flags.not ==> !Opposite(SaysSigned(op), SaysSigned(NormalOp(op, f)))
    decreases op, 2
  {
    hide Prints, Meaning, Normal, Kept;
    assert [op][0] == op;
    var x, y := SaysSigned(op), SaysSigned(NormalOp(op, f));
    if op.Exp? {
      assert x(NOTHING) == op.flags.not && y(NOTHING) == f.not;
    } else {
      GroupNeeded(op, f);
      var u := KeptNeeded(op.ops);
      assert x(u) == (op.flags.not != Meaning(op.ops, u)) && y(u) == (f.not != Meaning(op.ops, u));
      if Same(x, y) {
        forall v
          ensures Meaning(Normal(op.ops), v) == Meaning(op.ops, v)
        {
          assert x(v) == (op.flags.not != Meaning(op.ops, v)) && y(v) == (f.not != Meaning(Normal(op.ops), v));
        }
      }
    }
  }

  lemma GroupNeeded(op: MatchOp, f: Flags)
    requires Plain([op]) && op.Group? && Prints(op)
    ensures Plain(op.ops) && !Silent(op.ops) && NormalOp(op, f) == Group(Normal(op.ops), f)
  {
    assert [op][0] == op;
    SilentValues(op.ops);
  }

  /** Only trees that are kept say the same, and none says the contrary. */
  lemma KeptNeeded(ops: seq<MatchOp>) returns (u: Valuation)
    requires Plain(ops) && Different(ops) && !Silent(ops)
    ensures SameMeaning(Normal(ops), ops) ==> Kept(ops)
    ensures Meaning(ops, u) == Meaning(Normal(ops), u)
    decreases ops, 3
  {
    hide Chain, Normal, KeptFirst;
    FirstVaries(ops);
    NormalFirst(ops);
    var yes, no :| Says(Normal(ops))(yes) && !Says(Normal(ops))(no);
    u := no;
    if ops[0].flags.and {
      assert Meaning(Normal(ops), yes);
    } else {
      FirstNeeded(ops);
      u :| Says(ops)(u) == Says(Normal(ops))(u);
      if SameMeaning(Normal(ops), ops) {
        forall v
          ensures Says(ops)(v) == Says(Normal(ops))(v)
        {
          assert Meaning(Normal(ops), v) == Meaning(ops, v);
        }
      }
    }
  }

  /** Whatever the values, a tree that is kept says the same. */
  lemma KeptMeaning(ops: seq<MatchOp>, v: Valuation)
    requires Plain(ops) && Kept(ops)
    ensures Meaning(Read(Text(ops)), v) == Meaning(ops, v)
  {
    MatchProofs.ReadText(ops);
    KeptSays(ops, v);
  }

  /** Where all values of a tree are different, it says the same after it has been printed and read back if
      and only if it is kept. */
  lemma MeaningKeptIff(ops: seq<MatchOp>)
    requires Plain(ops) && Different(ops)
    ensures SameMeaning(Read(Text(ops)), ops) <==> Kept(ops)
  {
    hide Meaning, Normal, Kept;
    MatchProofs.ReadText(ops);
    if Kept(ops) {
      forall v
        ensures Meaning(Read(Text(ops)), v) == Meaning(ops, v)
      {
        KeptMeaning(ops, v);
      }
    } else if Silent(ops) {
      SilentNeeded(ops);
    } else {
      var u := KeptNeeded(ops);
    }
  }

  lemma SilentNeeded(ops: seq<MatchOp>)
    requires Silent(ops) && !Kept(ops)
    ensures Meaning(Normal(ops), NOTHING) != Meaning(ops, NOTHING)
  {
    NormalNotEmpty(ops, NO_FLAGS);
  }
}
