/** Printing, comparing and evaluating a match, and the operations that combine matches. */
module MatchEval {
  import opened MatchSyntax

  /** What the expressions say of a window. */
  type Valuation = string -> bool

  /** What an operation says of a window, negation included. */
  function Signed(op: MatchOp, v: Valuation): bool
    decreases op, 2
  {
    op.flags.not != match op
                    case Exp(value, _) => v(value)
                    case Group(ops, _) => Meaning(ops, v)
  }

  /** a1 o (a2 o (a3 o ...)): all operators bind alike, to the right. */
  function Chain(ops: seq<MatchOp>, v: Valuation): bool
    requires ops != []
    decreases ops, 0
  {
    var first := Signed(ops[0], v);
    if |ops| == 1 then first
    else if ops[1].flags.and then first && Chain(ops[1..], v)
    else first || Chain(ops[1..], v)
  }

  /** What a list of operations says of a window: no for one that is empty or begins with an "and". */
  function Meaning(ops: seq<MatchOp>, v: Valuation): bool
    decreases ops, 1
  {
    ops != [] && !ops[0].flags.and && Chain(ops, v)
  }

  /** The evaluation from left to right that stops as soon as the rest cannot matter. */
  method MatchEvalOps(list: seq<MatchOp>, v: Valuation) returns (result: bool)
    ensures result == Meaning(list, v)
    decreases list
  {
    result := false;
    var i := 0;
    assert list[0..] == list;
    while i < |list|
      invariant i <= |list| && Meaning(list, v) == Evaluated(result, list[i..], v)
    {
      EvaluatedNext(list, i, v, result);
      var op := list[i];
      if op.flags.and {
        if !result {
          return false;
        }
      } else {
        if result {
          return true;
        }
      }
      var value: bool;
      match op {
        case Group(ops, _) => value := MatchEvalOps(ops, v);
        case Exp(e, _) => value := v(e);
      }
      if op.flags.not {
        value := !value;
      }
      if op.flags.and {
        result := result && value;
      } else {
        result := result || value;
      }
      i := i + 1;
    }
  }

  /** What a list says whose first operations gave `result` and whose other ones are still to come. */
  function Evaluated(result: bool, rest: seq<MatchOp>, v: Valuation): bool {
    if rest == [] then result
    else if rest[0].flags.and then result && Chain(rest, v)
    else result || Chain(rest, v)
  }

  lemma EvaluatedNext(list: seq<MatchOp>, i: nat, v: Valuation, result: bool)
    requires i < |list|
    ensures Evaluated(result, list[i..], v)
         == if list[i].flags.and != result then result
            else Evaluated(Signed(list[i], v), list[i + 1..], v)
  {
    assert list[i..][1..] == list[i + 1..];
  }

  method MatchOpsEqual(list1: seq<MatchOp>, list2: seq<MatchOp>) returns (equal: bool)
    ensures equal <==> list1 == list2
    decreases list1
  {
    if |list1| != |list2| {
      return false;
    }
    var i := 0;
    while i < |list1|
      invariant i <= |list1| && list1[..i] == list2[..i]
    {
      if list1[i].Group? != list2[i].Group? {
        return false;
      }
      if list1[i].flags != list2[i].flags {
        return false;
      }
      match list1[i] {
        case Group(ops, _) =>
          var inner := MatchOpsEqual(ops, list2[i].ops);
          if !inner {
            return false;
          }
        case Exp(value, _) =>
          if value != list2[i].value {
            return false;
          }
      }
      i := i + 1;
    }
    assert list1[..i] == list1 && list2[..i] == list2;
    return true;
  }

  /** A text that an operation has been added to, each operation with a blank behind it. */
  function Added(value: string, op: MatchOp): string {
    if !Prints(op) then value
    else value + (if value == "" then "" else if op.flags.and then "& " else "| ") + ItemText(op) + " "
  }

  method AddText(value: string, op: MatchOp) returns (r: string)
    ensures r == Added(value, op)
    decreases op, 0
  {
    hide Text, Rest;
    r := value;
    match op {
      case Group(ops, _) =>
        var group := MatchOpsToString(ops);
        if |group| > 0 {
          r := AddPrefix(value, op);
          AddedBody(value, op);
          Regrouped(r, group);
          r := r + "(" + group + ") ";
        }
      case Exp(e, _) =>
        r := AddPrefix(value, op);
        AddedBody(value, op);
        r := r + e;
        r := r + " ";
    }
  }

  function Prefix(value: string, op: MatchOp): string {
    value + (if value == "" then "" else if op.flags.and then "& " else "| ") + if op.flags.not then "!" else ""
  }

  /** The operator that joins an operation to what has been printed before it, and its negation. */
  method AddPrefix(value: string, op: MatchOp) returns (r: string)
    ensures r == Prefix(value, op)
  {
    r := value;
    if |value| > 0 {
      r := r + if op.flags.and then "& " else "| ";
    }
    if op.flags.not {
      r := r + "!";
    }
  }

  lemma AddedBody(value: string, op: MatchOp)
    requires Prints(op)
    ensures Added(value, op) == Prefix(value, op) + Body(op) + " "
  {
    hide Body, Prints;
    var no := if op.flags.not then "!" else "";
    var join := if value == "" then "" else if op.flags.and then "& " else "| ";
    assert value + join + (no + Body(op)) == value + join + no + Body(op);
  }

  lemma Regrouped(r: string, group: string)
    ensures r + "(" + group + ") " == r + ("(" + group + ")") + " "
  {
  }

  /** What has been printed and what has not add up to the text. */
  ghost predicate Printed(value: string, rest: seq<MatchOp>, text: string) {
    if value == "" then text == Text(rest)
    else value[|value| - 1] == ' ' && text == value[..|value| - 1] + Rest(rest)
  }

  lemma AddedPrinted(value: string, ops: seq<MatchOp>, text: string)
    requires ops != [] && Printed(value, ops, text)
    ensures Printed(Added(value, ops[0]), ops[1..], text)
  {
    hide ItemText, Prints;
    var op := ops[0];
    if Prints(op) {
      if value == "" {
        LastBlank(ItemText(op));
        assert Added(value, op) == ItemText(op) + " ";
      } else {
        AddedBehind(value, ops, text);
      }
    }
  }

  lemma AddedBehind(value: string, ops: seq<MatchOp>, text: string)
    requires ops != [] && Prints(ops[0]) && value != "" && Printed(value, ops, text)
    ensures Printed(Added(value, ops[0]), ops[1..], text)
  {
    hide ItemText, Prints, Text, Rest;
    var join, item, rest := if ops[0].flags.and then "& " else "| ", ItemText(ops[0]), Rest(ops[1..]);
    LastBlank(value + join + item);
    RestText(ops);
    Regroup(value[..|value| - 1], value, join, item, rest);
  }

  lemma RestText(ops: seq<MatchOp>)
    requires ops != [] && Prints(ops[0])
    ensures Rest(ops) == " " + (if ops[0].flags.and then "& " else "| ") + ItemText(ops[0]) + Rest(ops[1..])
  {
    hide ItemText, Prints;
  }

  lemma LastBlank(s: string)
    ensures (s + " ")[..|s + " "| - 1] == s && (s + " ")[|s + " "| - 1] == ' '
  {
  }

  lemma Regroup(before: string, value: string, join: string, item: string, rest: string)
    requires value == before + " "
    ensures before + (" " + join + item + rest) == value + join + item + rest
  {
  }

  method MatchOpsToString(list: seq<MatchOp>) returns (value: string)
    ensures value == Text(list)
    decreases list, 1
  {
    hide Text, Rest, Added;
    value := "";
    var i := 0;
    assert list[0..] == list;
    while i < |list|
      invariant i <= |list| && Printed(value, list[i..], Text(list))
    {
      AddedPrinted(value, list[i..], Text(list));
      assert list[i..][1..] == list[i + 1..];
      value := AddText(value, list[i]);
      i := i + 1;
    }
    assert list[i..] == [];
    AllPrinted(value, Text(list));
    if |value| > 0 {
      value := value[..|value| - 1];
    }
  }

  lemma AllPrinted(value: string, text: string)
    requires Printed(value, [], text)
    ensures text == if value == "" then "" else value[..|value| - 1]
  {
  }
}
