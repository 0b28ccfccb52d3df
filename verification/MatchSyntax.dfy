/** The match language: trees of expressions and groups, how they are printed and how they are read.

    What the reader of a match does is given by functions of the text that is still to be read. A
    NUL ends a text, wherever it stands. */
module MatchSyntax {

  datatype Flags = Flags(and: bool, not: bool)

  const NO_FLAGS := Flags(false, false)

  datatype MatchOp =
    | Exp(value: string, flags: Flags)
    | Group(ops: seq<MatchOp>, flags: Flags)

  predicate Ended(s: string) {
    s == "" || s[0] == '\0'
  }

  predicate Starts(s: string, c: char) {
    s != "" && s[0] == c
  }

  /** The number of blanks at the beginning. */
  function Blanks(s: string): (n: nat)
    ensures n <= |s|
  {
    if Starts(s, ' ') then 1 + Blanks(s[1..]) else 0
  }

  /** How far the escape sequences at the beginning reach. */
  function Escapes(s: string): (n: nat)
    ensures n <= |s|
  {
    if !Starts(s, '\\') then 0
    else if !Ended(s[1..]) then 2 + Escapes(s[2..])
    else 1
  }

  predicate Joins(s: string) {
    Starts(s, '|') || Starts(s, '&')
  }

  /** The length of the expression at the beginning, up to the next operator that is not escaped. */
  function ValueLength(s: string): (n: nat)
    ensures n <= |s|
    decreases |s|
  {
    if Ended(s) || Joins(s) then 0
    else
      var e := 1 + Escapes(s[1..]);
      e + ValueLength(s[e..])
  }

  /** The length of what is left of a group that has `level` parentheses open. */
  function GroupLength(s: string, level: nat): (n: nat)
    requires level > 0
    ensures n <= |s|
    decreases |s|
  {
    if Ended(s) || (s[0] == ')' && level == 1) then 0
    else
      var e := 1 + Escapes(s[1..]);
      e + GroupLength(s[e..], if s[0] == '(' then level + 1 else if s[0] == ')' then level - 1 else level)
  }

  /** The distance to the next operator, escaped or not. */
  function JoinLength(s: string): (n: nat)
    ensures n <= |s|
  {
    if Ended(s) || Joins(s) then 0 else 1 + JoinLength(s[1..])
  }

  /** The number of blanks at the end that are not escaped, `j` of them seen already. */
  function TrailingBlanks(s: string, j: nat): (n: nat)
    ensures n <= |s| + j
    decreases |s|
  {
    if s == "" then j
    else if s[0] == ' ' then TrailingBlanks(s[1..], j + 1)
    else if s[0] == '\\' && |s| > 1 then TrailingBlanks(s[2..], 0)
    else TrailingBlanks(s[1..], 0)
  }

  /** The characters of the first `n`, without the backslashes that escape them, and at least one. A
      backslash at the very end of the text takes the NUL after it along. */
  function Unescaped(s: string, n: nat): (v: string)
    decreases |s|
  {
    var c := if s == "" then "\0" else if s[0] != '\\' then s[..1] else if |s| > 1 then s[1..2] else "\0";
    var used := if s != "" && s[0] == '\\' then 2 else 1;
    if used >= n || used >= |s| then c else c + Unescaped(s[used..], n - used)
  }

  /** The value of an expression as written: without the blanks after it. */
  function Value(s: string): string {
    Unescaped(s, |s| - TrailingBlanks(s, 0))
  }

  /** What is read from a text, with the flags that are in force at its beginning. */
  function ReadOps(s: string, flags: Flags): (ops: seq<MatchOp>)
    decreases |s|, 2
  {
    if Ended(s) then []
    else
      var a := s[Blanks(s)..];
      var negated := Starts(a, '!');
      var f := if negated then flags.(not := true) else flags;
      var b := if negated then a[1..][Blanks(a[1..])..] else a;
      ReadBody(b, f)
  }

  /** What is read from a text that starts with a group or an expression, all of whose flags are known. */
  function ReadBody(b: string, f: Flags): seq<MatchOp>
    decreases |b|, 1
  {
    if Starts(b, '(') then
      var n := GroupLength(b[1..], 1);
      var after := b[1 + n..];
      [Group(Read(b[1..1 + n]), f)] + ReadJoined(after[JoinLength(after)..], f)
    else
      var n := ValueLength(b);
      (if n > 0 then [Exp(Value(b[..n]), f)] else []) + ReadJoined(b[n..], f)
  }

  /** What is read from an operator on. An '&' replaces all flags; an '|' leaves them in force. */
  function ReadJoined(s: string, flags: Flags): seq<MatchOp>
    decreases |s|, 0
  {
    if Ended(s) then [] else ReadOps(s[1..], if s[0] == '&' then Flags(true, false) else flags)
  }

  /** The tree that a text stands for. */
  function Read(s: string): seq<MatchOp>
    decreases |s|, 3
  {
    ClearFirst(ReadOps(s, NO_FLAGS))
  }

  function ClearFirst(ops: seq<MatchOp>): seq<MatchOp> {
    if ops == [] then [] else [ops[0].(flags := ops[0].flags.(and := false))] + ops[1..]
  }

  /** Whether an operation leaves a trace in print: a group without any is left out. */
  predicate Prints(op: MatchOp) {
    op.Exp? || Text(op.ops) != ""
  }

  function Body(op: MatchOp): string
    decreases op, 1
  {
    if op.Exp? then op.value else "(" + Text(op.ops) + ")"
  }

  function ItemText(op: MatchOp): string
    decreases op, 2
  {
    (if op.flags.not then "!" else "") + Body(op)
  }

  /** The printed form of a list of operations. */
  function Text(ops: seq<MatchOp>): string
    decreases ops, 0
  {
    if ops == [] then ""
    else if Prints(ops[0]) then ItemText(ops[0]) + Rest(ops[1..])
    else Text(ops[1..])
  }

  /** The printed form of what follows the first operation. */
  function Rest(ops: seq<MatchOp>): string
    decreases ops, 0
  {
    if ops == [] then ""
    else if Prints(ops[0]) then
      (if ops[0].flags.and then " & " else " | ") + ItemText(ops[0]) + Rest(ops[1..])
    else Rest(ops[1..])
  }

  /** Values that print as they are read: not empty, without blanks around them and without characters
      that mean something to the reader. */
  predicate PlainValue(v: string) {
    && v != "" && v[0] !in {' ', '!'} && v[|v| - 1] != ' '
    && forall i :: 0 <= i < |v| ==> PlainChar(v[i])
  }

  predicate PlainChar(c: char) {
    c !in {'\\', '(', ')', '&', '|', '\0'}
  }

  predicate Plain(ops: seq<MatchOp>) {
    forall i :: 0 <= i < |ops| ==>
      match ops[i]
      case Exp(value, _) => PlainValue(value)
      case Group(inner, _) => Plain(inner)
  }

  /** The tree that is read back from the printed form: groups that leave no trace are gone, the first
      operation of a list is not joined by '&', and one joined by '|' has the flags in force before it. */
  function Normal(ops: seq<MatchOp>): seq<MatchOp>
    decreases ops, 2
  {
    if ops == [] then []
    else if Prints(ops[0]) then
      var f := Flags(false, ops[0].flags.not);
      [NormalOp(ops[0], f)] + NormalRest(ops[1..], f)
    else Normal(ops[1..])
  }

  function NormalRest(ops: seq<MatchOp>, carried: Flags): seq<MatchOp>
    decreases ops, 2
  {
    if ops == [] then []
    else if Prints(ops[0]) then
      var f := Joined(ops[0].flags, carried);
      [NormalOp(ops[0], f)] + NormalRest(ops[1..], f)
    else NormalRest(ops[1..], carried)
  }

  function Joined(flags: Flags, carried: Flags): Flags {
    if flags.and then flags else Flags(carried.and, carried.not || flags.not)
  }

  function NormalOp(op: MatchOp, f: Flags): MatchOp
    decreases op, 1
  {
    match op
    case Exp(value, _) => Exp(value, f)
    case Group(ops, _) => Group(Normal(ops), f)
  }

  /** Trees that come back as they are: the first operation of a list is not joined by '&', one joined
      by '|' comes after one that is not joined by '&' and is negated if that one is, and no group is
      empty. */
  predicate Faithful(ops: seq<MatchOp>)
    decreases ops, 0
  {
    ops == [] || (!ops[0].flags.and && FaithfulOp(ops[0]) && FaithfulRest(ops[1..], ops[0].flags))
  }

  predicate FaithfulRest(ops: seq<MatchOp>, before: Flags)
    decreases ops, 0
  {
    ops == []
    || ((ops[0].flags.and || (!before.and && (before.not ==> ops[0].flags.not)))
        && FaithfulOp(ops[0]) && FaithfulRest(ops[1..], ops[0].flags))
  }

  predicate FaithfulOp(op: MatchOp)
    decreases op, 1
  {
    op.Group? ==> op.ops != [] && Faithful(op.ops)
  }
}
