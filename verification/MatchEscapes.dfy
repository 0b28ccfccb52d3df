/** What becomes of a value in which every character that means something to the reader is escaped. */
module MatchEscapes {
  import opened MatchSyntax

  /** The characters that have to be escaped somewhere. */
  predicate Special(c: char) {
    c in {'\\', '&', '|', '(', ')', ' ', '!'}
  }

  /** A value with a backslash before each of them. */
  function Escaped(v: string): string {
    if v == "" then "" else (if Special(v[0]) then ['\\', v[0]] else [v[0]]) + Escaped(v[1..])
  }

  /** A value that begins with an operator, or with backslashes and then an operator. */
  predicate OperatorFirst(v: string) {
    v != "" && (v[0] in {'&', '|'} || (v[0] == '\\' && OperatorFirst(v[1..])))
  }

  lemma EscapedStep(v: string)
    requires v != ""
    ensures Special(v[0]) ==> Escaped(v) == ['\\', v[0]] + Escaped(v[1..])
    ensures !Special(v[0]) ==> Escaped(v) == [v[0]] + Escaped(v[1..])
  {
  }

  lemma Beyond(a: string, b: string, k: nat)
    requires k <= |b|
    ensures (a + b)[|a| + k..] == b[k..] && (a + b)[..|a| + k] == a + b[..k] && (a + b)[|a|..] == b
  {
  }

  lemma Pair(c: char, d: char, r: string)
    ensures var s := [c, d] + r;
            s[0] == c && s[1] == d && s[1..] == [d] + r && s[2..] == r && |s| == |r| + 2
  {
  }

  lemma One(c: char, r: string)
    ensures var s := [c] + r;
            s[0] == c && s[1..] == r && |s| == |r| + 1 && s[0..] == s
  {
  }

  ghost predicate NoNul(v: string) {
    forall i :: 0 <= i < |v| ==> v[i] != '\0'
  }

  /** Past a character, the rest of an escaped value is taken whole. */
  lemma {:induction false} RestTaken(v: string)
    requires NoNul(v)
    ensures var t := Escaped(v); Escapes(t) + ValueLength(t[Escapes(t)..]) == |t|
    decreases |v|
  {
    hide Escaped;
    if v == "" {
      assert Escaped(v) == "" by { EscapedNothing(); }
    } else {
      var r := Escaped(v[1..]);
      EscapedStep(v);
      RestTaken(v[1..]);
      if Special(v[0]) {
        Pair('\\', v[0], r);
        PairTaken(v[0], r);
        Beyond(['\\', v[0]], r, Escapes(r));
      } else {
        One(v[0], r);
        OneTaken(v[0], r);
      }
    }
  }

  lemma EscapedNothing()
    ensures Escaped("") == ""
  {
  }

  lemma PairTaken(c: char, r: string)
    requires c != '\0'
    ensures Escapes(['\\', c] + r) == 2 + Escapes(r)
  {
    Pair('\\', c, r);
  }

  /** A character that is no operator, and no backslash, is taken with the escapes after it. */
  lemma OneTaken(c: char, r: string)
    requires c !in {'\0', '&', '|'}
    ensures ValueLength([c] + r) == 1 + Escapes(r) + ValueLength(r[Escapes(r)..])
    ensures c != '\\' ==> Escapes([c] + r) == 0
  {
    One(c, r);
    Beyond([c], r, Escapes(r));
  }

  predicate Slashes(s: string) {
    forall i :: 0 <= i < |s| ==> s[i] == '\\'
  }

  /** Of an escaped value whose first backslash has been passed as a character: the rest is taken up to an
      operator, with backslashes only before it, or whole. */
  ghost predicate TakenOneOff(v: string)
    requires v != ""
  {
    var t := [v[0]] + Escaped(v[1..]);
    var e := Escapes(t);
    if OperatorFirst(v) then e < |t| && Joins(t[e..]) && e % 2 == 0 && Slashes(t[..e])
    else e + ValueLength(t[e..]) == |t|
  }

  /** The pairs are read one off, until something other than a backslash has been escaped. */
  lemma {:induction false} OneOff(v: string)
    requires v != "" && NoNul(v) && Special(v[0])
    ensures TakenOneOff(v)
    decreases |v|
  {
    hide TakenOneOff;
    var rest := v[1..];
    if v[0] != '\\' {
      OneOffOther(v);
    } else if rest == "" {
      OneOffEnd(v);
    } else if Special(rest[0]) {
      OneOff(rest);
      OneOffMore(v);
    } else {
      OneOffPlain(v);
    }
  }

  lemma OneOffOther(v: string)
    requires v != "" && NoNul(v) && Special(v[0]) && v[0] != '\\'
    ensures TakenOneOff(v)
  {
    hide Escaped, ValueLength, Escapes, Joins;
    var r := Escaped(v[1..]);
    NotEscape(v[0], r);
    if v[0] !in {'&', '|'} {
      RestTaken(v[1..]);
      OneTaken(v[0], r);
    }
  }

  lemma OneOffEnd(v: string)
    requires v == "\\"
    ensures TakenOneOff(v)
  {
    EscapedNothing();
    OneSlash();
  }

  lemma OneOffMore(v: string)
    requires |v| > 1 && v[0] == '\\' && Special(v[1]) && TakenOneOff(v[1..])
    ensures TakenOneOff(v)
  {
    hide Escaped, ValueLength, Escapes, Joins;
    var rest := v[1..];
    var u := [rest[0]] + Escaped(rest[1..]);
    EscapedStep(rest);
    assert [v[0]] + Escaped(rest) == ['\\', '\\'] + u;
    PairTaken('\\', u);
    Beyond(['\\', '\\'], u, Escapes(u));
    if OperatorFirst(v) {
      TwoMore(u[..Escapes(u)]);
    }
  }

  lemma OneOffPlain(v: string)
    requires |v| > 1 && NoNul(v) && v[0] == '\\' && !Special(v[1])
    ensures TakenOneOff(v)
  {
    hide Escaped, ValueLength, Escapes, Joins;
    var rest := v[1..];
    var u := Escaped(rest[1..]);
    EscapedStep(rest);
    assert rest[0] == v[1] && !OperatorFirst(rest);
    RestTaken(rest[1..]);
    assert [v[0]] + Escaped(rest) == ['\\', rest[0]] + u;
    PairTaken(rest[0], u);
    Beyond(['\\', rest[0]], u, Escapes(u));
  }

  lemma NotEscape(c: char, r: string)
    requires c != '\\'
    ensures Escapes([c] + r) == 0 && ([c] + r)[0..] == [c] + r
    ensures c in {'&', '|'} ==> Joins([c] + r)
  {
  }

  lemma OneSlash()
    ensures Escapes("\\") == 1 && "\\"[1..] == "" && ValueLength("") == 0 && ['\\'] + "" == "\\"
  {
  }

  lemma TwoMore(s: string)
    requires Slashes(s)
    ensures Slashes(['\\', '\\'] + s)
  {
  }

  /** No blank is left to be cut off. */
  lemma {:induction false} NoTrailing(v: string, j: nat)
    requires v != ""
    ensures TrailingBlanks(Escaped(v), j) == 0
    decreases |v|
  {
    EscapedStep(v);
    if |v| > 1 {
      NoTrailing(v[1..], 0);
    } else {
      assert Escaped(v[1..]) == "";
    }
  }

  lemma {:induction false} UnescapedBack(v: string)
    requires v != ""
    ensures Unescaped(Escaped(v), |Escaped(v)|) == v
    decreases |v|
  {
    EscapedStep(v);
    assert v == [v[0]] + v[1..];
    if |v| > 1 {
      UnescapedBack(v[1..]);
      EscapedStep(v[1..]);
    } else {
      assert Escaped(v[1..]) == "";
    }
  }

  /** An odd number of backslashes takes the NUL after the text along. */
  lemma {:induction false} OddSlashes(s: string)
    requires Slashes(s) && |s| % 2 == 1
    ensures '\0' in Value(s)
    decreases |s|
  {
    SlashesNoTrailing(s);
    UnescapedSlashes(s);
  }

  lemma {:induction false} SlashesNoTrailing(s: string)
    requires Slashes(s)
    ensures TrailingBlanks(s, 0) == 0
    decreases |s|
  {
    if |s| > 1 {
      SlashesNoTrailing(s[2..]);
    }
  }

  lemma {:induction false} UnescapedSlashes(s: string)
    requires Slashes(s) && |s| % 2 == 1
    ensures '\0' in Unescaped(s, |s|)
    decreases |s|
  {
    if |s| > 1 {
      UnescapedSlashes(s[2..]);
    }
  }

  lemma EscapedBegins(v: string)
    requires v != ""
    ensures var s := Escaped(v);
            !Ended(s) || v[0] == '\0'
    ensures var s := Escaped(v);
            Blanks(s) == 0 && !Starts(s, '!') && !Starts(s, '(') && !Joins(s)
  {
    EscapedStep(v);
  }

  lemma OnlyBody(v: string)
    requires v != "" && NoNul(v)
    ensures Read(Escaped(v)) == ClearFirst(ReadBody(Escaped(v), NO_FLAGS))
  {
    EscapedBegins(v);
    assert Escaped(v)[0..] == Escaped(v);
  }

  /** How much of an escaped value is taken for it. */
  lemma TakenIff(v: string)
    requires v != "" && NoNul(v)
    ensures var s := Escaped(v);
            var n := ValueLength(s);
            if OperatorFirst(v) then n < |s| && Slashes(s[..n]) && n % 2 == 1 else n == |s|
  {
    hide Escaped, ValueLength, Escapes;
    var r := Escaped(v[1..]);
    EscapedStep(v);
    if Special(v[0]) {
      var t := [v[0]] + r;
      OneOff(v);
      assert Escaped(v) == ['\\'] + t;
      FirstTaken('\\', t);
      Beyond(['\\'], t, Escapes(t));
      if OperatorFirst(v) {
        StopsAtJoin(t[Escapes(t)..]);
      }
    } else {
      RestTaken(v[1..]);
      OneTaken(v[0], r);
    }
  }

  lemma FirstTaken(c: char, t: string)
    requires c !in {'\0', '&', '|'}
    ensures ValueLength([c] + t) == 1 + Escapes(t) + ValueLength(t[Escapes(t)..])
  {
    OneTaken(c, t);
  }

  lemma StopsAtJoin(s: string)
    requires Joins(s)
    ensures ValueLength(s) == 0
  {
  }

  /** Exactly when an escaped value is read back as it is: unless it begins with an operator, or with backslashes
      and then an operator. The reader passes the first character of an expression before it looks for escapes. */
  lemma EscapedReadIff(v: string)
    requires v != "" && NoNul(v)
    ensures Read(Escaped(v)) == [Exp(v, NO_FLAGS)] <==> !OperatorFirst(v)
  {
    hide ValueLength, Value, Unescaped, TrailingBlanks, Escaped, ReadOps;
    var s := Escaped(v);
    var n := ValueLength(s);
    OnlyBody(v);
    EscapedBegins(v);
    TakenIff(v);
    if OperatorFirst(v) {
      OddSlashes(s[..n]);
      assert Read(s)[0] == Exp(Value(s[..n]), NO_FLAGS);
      assert '\0' !in v;
    } else {
      assert s[..n] == s && s[n..] == "";
      EscapedValue(v);
    }
  }

  lemma EscapedValue(v: string)
    requires v != ""
    ensures Value(Escaped(v)) == v
  {
    NoTrailing(v, 0);
    UnescapedBack(v);
  }

  /** A value with an escaped operator at its beginning is not read back. */
  lemma EscapeCanBeIgnored()
    ensures exists v :: v != "" && NoNul(v) && Read(Escaped(v)) != [Exp(v, NO_FLAGS)]
  {
    EscapedReadIff("&");
  }

  /** A text of nothing but blanks is read as no operation at all. */
  lemma BlanksReadNothing(s: string)
    requires forall i :: 0 <= i < |s| ==> s[i] == ' '
    ensures Read(s) == []
  {
    AllBlanks(s);
    assert s[Blanks(s)..] == "";
    assert ValueLength("") == 0;
    assert ReadBody("", NO_FLAGS) == ReadJoined(""[0..], NO_FLAGS) == [];
  }

  lemma {:induction false} AllBlanks(s: string)
    requires forall i :: 0 <= i < |s| ==> s[i] == ' '
    ensures Blanks(s) == |s|
  {
    if s != "" {
      AllBlanks(s[1..]);
    }
  }
}
