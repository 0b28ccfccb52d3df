/** The effect of a list of moves, each window just above the one moved before it. */
module ReplayProofs {
  import opened Sequences
  import opened Windows
  import opened Stacking

  /** `rest` with `list` put in just above `sibling`. */
  function Spliced(rest: seq<Window>, sibling: Window, list: seq<Window>): seq<Window>
    requires sibling in rest
  {
    var k := IndexOf(rest, sibling) + 1;
    rest[..k] + list + rest[k..]
  }

  lemma SplicedBetween(a: seq<Window>, sibling: Window, b: seq<Window>, list: seq<Window>)
    requires sibling !in a
    ensures Spliced(a + [sibling] + b, sibling, list) == a + [sibling] + list + b
  {
    IndexBetween(a, sibling, b);
    var rest := a + [sibling] + b;
    assert rest[..|a| + 1] == a + [sibling] && rest[|a| + 1..] == b;
  }

  /** The moved windows end up in one block above the sibling, in the order of the list; the other
      windows keep their order. */
  lemma {:induction false} ReplayBlock(stack: seq<Window>, sibling: Window, list: seq<Window>)
    requires Distinct(stack) && Distinct(list) && sibling in stack && sibling !in list
    requires forall x :: x in list ==> x in stack
    ensures Replay(stack, sibling, list) == Spliced(Without(stack, Elements(list)), sibling, list)
    decreases |list|
  {
    if list == [] {
      assert Elements(list) == {};
      WithoutNothing(stack);
    } else {
      var x, more := list[0], list[1..];
      assert list == [x] + more && x in list && x !in more;
      var pre, post := Around(stack, x, sibling);
      var moved := pre + [sibling, x] + post;
      ReplayBlock(moved, x, more);
      FirstMove(stack, pre, sibling, x, post, more);
    }
  }

  lemma FirstMove(stack: seq<Window>, pre: seq<Window>, sibling: Window, x: Window, post: seq<Window>,
                  more: seq<Window>)
    requires Distinct(stack) && Remove(stack, x) == pre + [sibling] + post
    requires sibling !in pre && x !in pre && x != sibling && x !in more && sibling !in more
    ensures Spliced(Without(pre + [sibling, x] + post, Elements(more)), x, more)
         == Spliced(Without(stack, Elements([x] + more)), sibling, [x] + more)
  {
    hide Spliced, Without, Remove;
    var p, q := Without(pre, Elements(more)), Without(post, Elements(more));
    assert Without(stack, Elements([x] + more)) == p + [sibling] + q by {
      assert Elements([x] + more) == {x} + Elements(more);
      WithoutTwice(stack, x, Elements(more));
      WithoutParts(pre, sibling, post, Elements(more));
    }
    assert Without(pre + [sibling, x] + post, Elements(more)) == (p + [sibling]) + [x] + q by {
      assert pre + [sibling, x] + post == pre + [sibling] + ([x] + post);
      WithoutParts(pre, sibling, [x] + post, Elements(more));
      WithoutConcat([x], post, Elements(more));
      WithoutOne(x, Elements(more));
    }
    SplicedBetween(p, sibling, q, [x] + more);
    SplicedBetween(p + [sibling], x, q, more);
  }

  lemma WithoutOne<T(!new)>(x: T, moved: set<T>)
    requires x !in moved
    ensures Without([x], moved) == [x]
  {
  }

  lemma {:induction false} WithoutNothing<T(!new)>(s: seq<T>)
    ensures Without(s, {}) == s
  {
    if s != [] {
      WithoutNothing(s[1..]);
    }
  }

  lemma WithoutParts<T(!new)>(a: seq<T>, x: T, b: seq<T>, moved: set<T>)
    requires x !in moved
    ensures Without(a + [x] + b, moved) == Without(a, moved) + [x] + Without(b, moved)
  {
    WithoutConcat(a + [x], b, moved);
    WithoutConcat(a, [x], moved);
    assert Without([x], moved) == [x];
  }

  /** The stack on both sides of the sibling once `x` has been taken out of it. */
  lemma Around(stack: seq<Window>, x: Window, sibling: Window) returns (pre: seq<Window>, post: seq<Window>)
    requires Distinct(stack) && x in stack && sibling in stack && x != sibling
    ensures Remove(stack, x) == pre + [sibling] + post
    ensures MoveAbove(stack, x, sibling) == pre + [sibling, x] + post
    ensures Distinct(pre + [sibling, x] + post) && sibling !in pre && x !in pre
    ensures forall y :: y in stack <==> y in pre + [sibling, x] + post
  {
    RemoveDistinct(stack, x);
    var rest := Remove(stack, x);
    var k := IndexOf(rest, sibling);
    pre, post := rest[..k], rest[k + 1..];
    assert rest == pre + [sibling] + post;
    DistinctInsert(rest, k + 1, x);
    assert InsertAt(rest, k + 1, x) == pre + [sibling, x] + post;
    assert forall y :: y in rest <==> y in pre || y == sibling || y in post;
  }
}
