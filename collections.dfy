/** Generic facts about collecting values over a sequence. */
module Collections {

  /** The images of the elements of `xs` that are marked, as a set. */
  function MarkedImage<T, U>(xs: seq<T>, marked: T -> bool, image: T -> U): set<U>
  {
    if xs == [] then {}
    else
      var x := xs[|xs| - 1];
      MarkedImage(xs[..|xs| - 1], marked, image) + (if marked(x) then {image(x)} else {})
  }

  lemma MarkedImageStep<T, U>(xs: seq<T>, i: nat, marked: T -> bool, image: T -> U)
    requires i < |xs|
    ensures MarkedImage(xs[..i + 1], marked, image) ==
      MarkedImage(xs[..i], marked, image) + (if marked(xs[i]) then {image(xs[i])} else {})
  {
    assert xs[..i + 1][..i] == xs[..i];
  }

  lemma MarkedImagePair<T, U>(x: T, y: T, marked: T -> bool, image: T -> U)
    ensures MarkedImage([x, y], marked, image) ==
      (if marked(x) then {image(x)} else {}) + (if marked(y) then {image(y)} else {})
  {
    assert [x, y][..1] == [x];
    assert [x][..0] == [];
    assert MarkedImage([x], marked, image) == (if marked(x) then {image(x)} else {});
  }

  /** A value is collected exactly when some marked element has it as its image. */
  lemma {:induction false} MarkedImageMembership<T, U>(xs: seq<T>, marked: T -> bool, image: T -> U, u: U)
    ensures u in MarkedImage(xs, marked, image) <==> exists x :: x in xs && marked(x) && image(x) == u
  {
    if xs != [] {
      var init := xs[..|xs| - 1];
      MarkedImageMembership(init, marked, image, u);
      assert xs == init + [xs[|xs| - 1]];
    }
  }

  /** The images of the elements of `xs` that are marked, in their original order. */
  function MarkedList<T, U>(xs: seq<T>, marked: T -> bool, image: T -> U): seq<U>
  {
    if xs == [] then []
    else
      var x := xs[|xs| - 1];
      MarkedList(xs[..|xs| - 1], marked, image) + (if marked(x) then [image(x)] else [])
  }

  lemma MarkedListStep<T, U>(xs: seq<T>, i: nat, marked: T -> bool, image: T -> U)
    requires i < |xs|
    ensures MarkedList(xs[..i + 1], marked, image) ==
      MarkedList(xs[..i], marked, image) + (if marked(xs[i]) then [image(xs[i])] else [])
  {
    assert xs[..i + 1][..i] == xs[..i];
  }

  /** A value is listed exactly when some marked element has it as its image. */
  lemma {:induction false} MarkedListMembership<T, U>(xs: seq<T>, marked: T -> bool, image: T -> U, u: U)
    ensures u in MarkedList(xs, marked, image) <==> exists x :: x in xs && marked(x) && image(x) == u
  {
    if xs != [] {
      var init := xs[..|xs| - 1];
      MarkedListMembership(init, marked, image, u);
      assert xs == init + [xs[|xs| - 1]];
    }
  }

  /** The elements of `xs` that satisfy `keep`, in their original order. */
  function Filter<T>(xs: seq<T>, keep: T -> bool): (r: seq<T>)
    ensures |r| <= |xs|
    ensures forall k :: 0 <= k < |r| ==> keep(r[k])
  {
    if xs == [] then []
    else
      var x := xs[|xs| - 1];
      Filter(xs[..|xs| - 1], keep) + (if keep(x) then [x] else [])
  }

  lemma FilterStep<T>(xs: seq<T>, i: nat, keep: T -> bool)
    requires i < |xs|
    ensures Filter(xs[..i + 1], keep) == Filter(xs[..i], keep) + (if keep(xs[i]) then [xs[i]] else [])
  {
    assert xs[..i + 1][..i] == xs[..i];
  }

  lemma {:induction false} FilterMembership<T>(xs: seq<T>, keep: T -> bool, x: T)
    ensures x in Filter(xs, keep) <==> x in xs && keep(x)
  {
    if xs != [] {
      var init := xs[..|xs| - 1];
      FilterMembership(init, keep, x);
      assert xs == init + [xs[|xs| - 1]];
    }
  }

  /** `xs` is `ys` with some elements left out, the rest in the same order. */
  predicate IsSubsequence<T(==)>(xs: seq<T>, ys: seq<T>)
    decreases |ys|
  {
    if xs == [] then true
    else if ys == [] then false
    else if xs[|xs| - 1] == ys[|ys| - 1] then IsSubsequence(xs[..|xs| - 1], ys[..|ys| - 1])
    else IsSubsequence(xs, ys[..|ys| - 1])
  }

  lemma {:induction false} SubsequenceOfExtension<T>(xs: seq<T>, ys: seq<T>, y: T)
    requires IsSubsequence(xs, ys)
    ensures IsSubsequence(xs, ys + [y])
    decreases |ys|, 1
  {
    var ys' := ys + [y];
    assert ys'[..|ys'| - 1] == ys;
    if xs != [] && xs[|xs| - 1] == y {
      SubsequenceDropLast(xs, ys);
    }
  }

  lemma {:induction false} SubsequenceDropLast<T>(xs: seq<T>, ys: seq<T>)
    requires xs != [] && IsSubsequence(xs, ys)
    ensures IsSubsequence(xs[..|xs| - 1], ys)
    decreases |ys|, 0
  {
    var init := xs[..|xs| - 1];
    if xs[|xs| - 1] == ys[|ys| - 1] {
      SubsequenceOfExtension(init, ys[..|ys| - 1], ys[|ys| - 1]);
      assert ys[..|ys| - 1] + [ys[|ys| - 1]] == ys;
    } else {
      SubsequenceDropLast(xs, ys[..|ys| - 1]);
      SubsequenceOfExtension(init, ys[..|ys| - 1], ys[|ys| - 1]);
      assert ys[..|ys| - 1] + [ys[|ys| - 1]] == ys;
    }
  }

  /** Filtering keeps the original order. */
  lemma {:induction false} FilterIsSubsequence<T>(xs: seq<T>, keep: T -> bool)
    ensures IsSubsequence(Filter(xs, keep), xs)
  {
    if xs != [] {
      var init, x := xs[..|xs| - 1], xs[|xs| - 1];
      FilterIsSubsequence(init, keep);
      if keep(x) {
        var f := Filter(init, keep) + [x];
        assert Filter(xs, keep) == f;
        assert f[..|f| - 1] == Filter(init, keep);
      } else {
        assert Filter(xs, keep) == Filter(init, keep) + [];
        assert Filter(init, keep) + [] == Filter(init, keep);
        SubsequenceOfExtension(Filter(init, keep), init, x);
        assert init + [x] == xs;
        assert IsSubsequence(Filter(init, keep), xs);
      }
    }
  }

  lemma {:induction false} FilterAppend<T>(xs: seq<T>, ys: seq<T>, keep: T -> bool)
    ensures Filter(xs + ys, keep) == Filter(xs, keep) + Filter(ys, keep)
    decreases |ys|
  {
    if ys != [] {
      var init, y := ys[..|ys| - 1], ys[|ys| - 1];
      FilterAppend(xs, init, keep);
      assert (xs + ys)[..|xs + ys| - 1] == xs + init;
    } else {
      assert xs + ys == xs;
    }
  }

  /** Nothing is kept when no element satisfies `keep`. */
  lemma FilterNone<T>(xs: seq<T>, keep: T -> bool)
    requires forall k :: 0 <= k < |xs| ==> !keep(xs[k])
    ensures Filter(xs, keep) == []
  {
    var r := Filter(xs, keep);
    if r != [] {
      FilterMembership(xs, keep, r[0]);
      assert false;
    }
  }
}
