/** Lists without repetition: putting an element in, taking one out. */
module Sequences {

  predicate Distinct<T(==)>(s: seq<T>) {
    forall i, j :: 0 <= i < j < |s| ==> s[i] != s[j]
  }

  /** `s` with `x` put in so that it ends up at index `k`. */
  function InsertAt<T>(s: seq<T>, k: nat, x: T): seq<T>
    requires k <= |s|
  {
    s[..k] + [x] + s[k..]
  }

  lemma InsertedAt<T>(s: seq<T>, k: nat, x: T, i: nat)
    requires k <= |s| && i <= |s|
    ensures InsertAt(s, k, x)[i] == if i < k then s[i] else if i == k then x else s[i - 1]
  {
  }

  lemma DistinctInsert<T>(s: seq<T>, k: nat, x: T)
    requires k <= |s| && Distinct(s) && x !in s
    ensures Distinct(InsertAt(s, k, x))
  {
  }

  /** `s` without the first occurrence of `x`. */
  function Remove<T(==)>(s: seq<T>, x: T): (r: seq<T>)
    ensures x !in s ==> r == s
    ensures forall y :: y in r ==> y in s
  {
    if s == [] then []
    else if s[0] == x then s[1..]
    else [s[0]] + Remove(s[1..], x)
  }

  lemma {:induction false} RemoveAt<T>(s: seq<T>, k: nat)
    requires k < |s| && forall i :: 0 <= i < k ==> s[i] != s[k]
    ensures Remove(s, s[k]) == s[..k] + s[k + 1..]
  {
    if k != 0 {
      RemoveAt(s[1..], k - 1);
      assert s[1..][..k - 1] == s[1..k] && s[1..][k..] == s[k + 1..];
      assert s[..k] == [s[0]] + s[1..k];
    }
  }

  /** Taking an element out of a list without repetition leaves just the others. */
  lemma {:induction false} RemoveDistinct<T>(s: seq<T>, x: T)
    requires Distinct(s)
    ensures Distinct(Remove(s, x))
    ensures forall y :: y in Remove(s, x) <==> y in s && y != x
  {
    if s != [] {
      RemoveDistinct(s[1..], x);
      if s[0] != x {
        var r := Remove(s[1..], x);
        assert Remove(s, x) == [s[0]] + r;
        assert s[0] !in r;
      }
    }
  }

  /** The set of the elements of a list. */
  ghost function Elements<T>(s: seq<T>): set<T> {
    set x | x in s
  }

  lemma ElementsInsert<T>(s: seq<T>, k: nat, x: T)
    requires k <= |s|
    ensures Elements(InsertAt(s, k, x)) == Elements(s) + {x}
  {
    assert s == s[..k] + s[k..];
  }

  lemma ElementsRemove<T>(s: seq<T>, x: T)
    requires Distinct(s)
    ensures Elements(Remove(s, x)) == Elements(s) - {x}
  {
    RemoveDistinct(s, x);
  }

  lemma Append<T>(s: seq<T>, x: T)
    requires Distinct(s) && x !in s
    ensures Distinct(s + [x]) && Elements(s + [x]) == Elements(s) + {x}
  {
  }

  /** `s` without the elements in `moved`, in the order of `s`. */
  function Without<T(==,!new)>(s: seq<T>, moved: set<T>): (r: seq<T>)
    ensures forall x :: x in r <==> x in s && x !in moved
  {
    if s == [] then []
    else if s[0] in moved then Without(s[1..], moved)
    else [s[0]] + Without(s[1..], moved)
  }

  lemma {:induction false} WithoutConcat<T(!new)>(a: seq<T>, b: seq<T>, moved: set<T>)
    ensures Without(a + b, moved) == Without(a, moved) + Without(b, moved)
  {
    if a == [] {
      assert a + b == b;
    } else {
      assert (a + b)[1..] == a[1..] + b;
      WithoutConcat(a[1..], b, moved);
    }
  }

  lemma {:induction false} WithoutTwice<T(!new)>(s: seq<T>, x: T, moved: set<T>)
    requires Distinct(s)
    ensures Without(s, {x} + moved) == Without(Remove(s, x), moved)
  {
    if s != [] {
      if s[0] == x {
        WithoutAbsent(s[1..], x, moved);
      } else {
        WithoutTwice(s[1..], x, moved);
        assert ([s[0]] + Remove(s[1..], x))[1..] == Remove(s[1..], x);
      }
    }
  }

  lemma {:induction false} WithoutAbsent<T(!new)>(s: seq<T>, x: T, moved: set<T>)
    requires x !in s
    ensures Without(s, {x} + moved) == Without(s, moved)
  {
    if s != [] {
      WithoutAbsent(s[1..], x, moved);
    }
  }

  function IndexOf<T(==)>(s: seq<T>, x: T): (k: nat)
    requires x in s
    ensures k < |s| && s[k] == x && forall i :: 0 <= i < k ==> s[i] != x
  {
    if s[0] == x then 0 else IndexOf(s[1..], x) + 1
  }

  lemma IndexBetween<T>(a: seq<T>, x: T, b: seq<T>)
    requires x !in a
    ensures IndexOf(a + [x] + b, x) == |a|
  {
    var s := a + [x] + b;
    assert s[|a|] == x;
    assert forall i :: 0 <= i < |a| ==> s[i] == a[i];
  }
}
