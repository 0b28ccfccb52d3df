/** Reading and printing a match one character at a time. */
module MatchReader {
  import opened MatchSyntax

  /** A character of a text, which a NUL follows. */
  function At(s: string, i: nat): char {
    if i < |s| then s[i] else '\0'
  }

  lemma FirstAt(s: string, i: nat)
    requires i <= |s|
    ensures Ended(s[i..]) <==> At(s, i) == '\0'
    ensures forall c :: c != '\0' ==> (Starts(s[i..], c) <==> At(s, i) == c)
    ensures i < |s| ==> s[i..][1..] == s[i + 1..]
  {
  }

  method SkipBlanks(s: string, start: nat) returns (i: nat)
    requires start <= |s|
    ensures start <= i <= |s| && i == start + Blanks(s[start..])
    ensures s[start..][Blanks(s[start..])..] == s[i..]
  {
    i := start;
    while At(s, i) == ' '
      invariant start <= i <= |s| && start + Blanks(s[start..]) == i + Blanks(s[i..])
      decreases |s| - i
    {
      FirstAt(s, i);
      i := i + 1;
    }
    FirstAt(s, i);
  }

  method NextIndex(s: string, start: nat) returns (i: nat)
    requires start <= |s|
    ensures start <= i <= |s| && i == start + Escapes(s[start..])
  {
    i := start;
    while At(s, i) == '\\'
      invariant start <= i <= |s| && start + Escapes(s[start..]) == i + Escapes(s[i..])
      decreases |s| - i
    {
      FirstAt(s, i);
      FirstAt(s, i + 1);
      assert i + 1 < |s| ==> s[i..][2..] == s[i + 2..];
      i := i + 1;
      if At(s, i) != '\0' {
        i := i + 1;
      }
    }
    FirstAt(s, i);
  }

  /** The end of the group that begins at `start`, at its parenthesis or at the end of the text. */
  method GroupEnd(s: string, start: nat) returns (j: nat)
    requires start <= |s|
    ensures start <= j <= |s| && j == start + GroupLength(s[start..], 1)
  {
    hide GroupLength, Escapes;
    var level := 1;
    j := start;
    while At(s, j) != '\0'
      invariant level > 0 && start <= j <= |s|
      invariant start + GroupLength(s[start..], 1) == j + GroupLength(s[j..], level)
      decreases |s| - j
    {
      ghost var before := level;
      if s[j] == '(' {
        level := level + 1;
      } else if s[j] == ')' {
        level := level - 1;
        if level == 0 {
          GroupStop(s, j, before);
          return;
        }
      }
      ghost var k := j;
      j := NextIndex(s, j + 1);
      GroupStep(s, k, j, before);
    }
    GroupStop(s, j, level);
  }

  lemma GroupStop(s: string, j: nat, level: nat)
    requires j <= |s| && level > 0 && (At(s, j) == '\0' || (At(s, j) == ')' && level == 1))
    ensures GroupLength(s[j..], level) == 0
  {
    FirstAt(s, j);
  }

  lemma GroupStep(s: string, k: nat, j: nat, level: nat)
    requires k < |s| && At(s, k) != '\0' && level > 0 && !(s[k] == ')' && level == 1)
    requires k + 1 <= j <= |s| && j == k + 1 + Escapes(s[k + 1..])
    ensures k + GroupLength(s[k..], level)
         == j + GroupLength(s[j..], if s[k] == '(' then level + 1 else if s[k] == ')' then level - 1 else level)
  {
    FirstAt(s, k);
    assert s[k..][j - k..] == s[j..];
  }

  /** The end of the expression that begins at `start`. */
  method ValueEnd(s: string, start: nat) returns (j: nat)
    requires start <= |s|
    ensures start <= j <= |s| && j == start + ValueLength(s[start..])
  {
    j := start;
    while At(s, j) != '\0' && At(s, j) != '|' && At(s, j) != '&'
      invariant start <= j <= |s|
      invariant start + ValueLength(s[start..]) == j + ValueLength(s[j..])
      decreases |s| - j
    {
      ghost var k := j;
      j := NextIndex(s, j + 1);
      ValueStep(s, k, j);
    }
    FirstAt(s, j);
  }

  lemma ValueStep(s: string, k: nat, j: nat)
    requires k < |s| && At(s, k) !in {'\0', '|', '&'}
    requires k + 1 <= j <= |s| && j == k + 1 + Escapes(s[k + 1..])
    ensures k + ValueLength(s[k..]) == j + ValueLength(s[j..])
  {
    FirstAt(s, k);
    assert s[k..][j - k..] == s[j..];
  }

  /** The next operator after a group. */
  method JoinEnd(s: string, start: nat) returns (j: nat)
    requires start <= |s|
    ensures start <= j <= |s| && j == start + JoinLength(s[start..])
  {
    j := start;
    while At(s, j) != '\0' && At(s, j) != '|' && At(s, j) != '&'
      invariant start <= j <= |s|
      invariant start + JoinLength(s[start..]) == j + JoinLength(s[j..])
      decreases |s| - j
    {
      FirstAt(s, j);
      j := j + 1;
    }
    FirstAt(s, j);
  }

  method CountTrailing(s: string) returns (j: nat)
    ensures j == TrailingBlanks(s, 0)
  {
    var i := 0;
    j := 0;
    while i < |s|
      invariant i <= |s| + 1
      invariant TrailingBlanks(s, 0) == if i < |s| then TrailingBlanks(s[i..], j) else j
      decreases |s| - i
    {
      FirstAt(s, i);
      assert i + 1 < |s| ==> s[i..][2..] == s[i + 2..];
      if s[i] != ' ' {
        j := 0;
        if s[i] == '\\' {
          i := i + 1;
        }
      } else {
        j := j + 1;
      }
      i := i + 1;
    }
  }

  /** The value of an expression: no blanks after it, no backslashes. */
  method StrndupValue(s: string) returns (value: string)
    ensures value == Value(s)
  {
    var j := CountTrailing(s);
    value := UnescapedPrefix(s, |s| - j);
  }

  method UnescapedPrefix(s: string, n: nat) returns (value: string)
    requires n <= |s|
    ensures value == Unescaped(s, n)
  {
    hide Unescaped;
    var i := 0;
    value := "";
    while true
      invariant i <= n && Unescaped(s, n) == value + Unescaped(s[i..], n - i)
      decreases n - i
    {
      UnescapeStep(s, i, n);
      if At(s, i) == '\\' {
        i := i + 1;
      }
      value := value + [At(s, i)];
      i := i + 1;
      if i >= n {
        return;
      }
    }
  }

  /** The index of the character that is taken at `k`, past a backslash. */
  function Taken(s: string, k: nat): nat {
    if At(s, k) == '\\' then k + 1 else k
  }

  lemma UnescapeStep(s: string, k: nat, n: nat)
    requires k <= n <= |s|
    ensures Unescaped(s[k..], n - k)
         == [At(s, Taken(s, k))] + if Taken(s, k) + 1 >= n then "" else Unescaped(s[Taken(s, k) + 1..], n - (Taken(s, k) + 1))
  {
    var t := s[k..];
    if k < |s| && s[k] != '\\' {
      assert t[..1] == [s[k]];
      assert t[1..] == s[k + 1..];
    } else if k + 1 < |s| {
      assert t[1..2] == [s[k + 1]];
      assert t[2..] == s[k + 2..];
    }
  }

  /** What one round of the reader takes from the text: blanks, a negation, a group or an expression. */
  method AddOp(s: string, start: nat, flags: Flags) returns (list: seq<MatchOp>, j: nat, f: Flags)
    requires start < |s| && s[start] != '\0'
    ensures start <= j <= |s| && (j == start ==> j < |s| && At(s, j) != '\0')
    ensures ReadOps(s[start..], flags) == list + ReadJoined(s[j..], f)
    decreases |s|, 1
  {
    hide ReadBody, ReadJoined;
    var i := SkipBlanks(s, start);
    f := flags;
    FirstAt(s, i);
    FirstAt(s, start);
    if At(s, i) == '!' {
      f := f.(not := true);
      i := SkipBlanks(s, i + 1);
    }
    assert ReadOps(s[start..], flags) == ReadBody(s[i..], f);
    list, j := AddBody(s, i, f);
  }

  method AddBody(s: string, i: nat, f: Flags) returns (list: seq<MatchOp>, j: nat)
    requires i <= |s|
    ensures i <= j <= |s|
    ensures ReadBody(s[i..], f) == list + ReadJoined(s[j..], f)
    decreases |s|, 0
  {
    hide ReadJoined, GroupLength, ValueLength, JoinLength, Read, Value, Escapes;
    FirstAt(s, i);
    if At(s, i) == '(' {
      j := GroupEnd(s, i + 1);
      var inner := MatchAddFromString(s[i + 1..j]);
      list := [Group(inner, f)];
      ghost var k := j;
      j := JoinEnd(s, j);
      GroupTaken(s, i, k, j, f);
    } else {
      j := ValueEnd(s, i);
      list := [];
      ValueTaken(s, i, j, f);
      if j > i {
        var value := StrndupValue(s[i..j]);
        list := [Exp(value, f)];
      }
    }
  }

  lemma GroupTaken(s: string, i: nat, k: nat, j: nat, f: Flags)
    requires i < |s| && s[i] == '(' && k == i + 1 + GroupLength(s[i + 1..], 1) && j == k + JoinLength(s[k..])
    ensures ReadBody(s[i..], f) == [Group(Read(s[i + 1..k]), f)] + ReadJoined(s[j..], f)
  {
    hide ReadJoined, GroupLength, JoinLength, Read;
    var b := s[i..];
    assert b[1..] == s[i + 1..];
    assert b[1..1 + (k - (i + 1))] == s[i + 1..k];
    assert b[1 + (k - (i + 1))..] == s[k..];
    assert s[k..][j - k..] == s[j..];
  }

  lemma ValueTaken(s: string, i: nat, j: nat, f: Flags)
    requires i <= |s| && At(s, i) != '(' && j == i + ValueLength(s[i..])
    ensures ReadBody(s[i..], f) == (if j > i then [Exp(Value(s[i..j]), f)] else []) + ReadJoined(s[j..], f)
  {
    hide ReadJoined, ValueLength, Value, Read, GroupLength, JoinLength;
    var b := s[i..];
    var n := j - i;
    assert b[..n] == s[i..j];
    assert b[n..] == s[j..];
    assert !Starts(b, '(');
    assert ReadBody(b, f) == (if n > 0 then [Exp(Value(b[..n]), f)] else []) + ReadJoined(b[n..], f);
  }

  /** The tree that a text stands for. */
  method MatchAddFromString(s: string) returns (list: seq<MatchOp>)
    ensures list == Read(s)
    decreases |s|, 2
  {
    hide ReadBody;
    list := [];
    var i, flags := 0, NO_FLAGS;
    while At(s, i) != '\0'
      invariant i <= |s|
      invariant ReadOps(s, NO_FLAGS) == list + ReadOps(s[i..], flags)
      decreases |s| - i
    {
      var added, j, f := AddOp(s, i, flags);
      list, i, flags := list + added, j, f;
      FirstAt(s, i);
      if At(s, i) != '\0' {
        if At(s, i) == '&' {
          flags := Flags(true, false);
        }
        i := i + 1;
      }
    }
    FirstAt(s, i);
    list := ClearFirst(list);
  }
}
