/** The two array idioms the components use to drop list entries:
    `xs.filter((_, k) => k !== i)` and `xs.filter(x => keep(x))`. */
module Lists {

  /** `xs.filter((_, k) => k !== i)`: every entry whose index is not `i`,
      in order. An index outside the list removes nothing. */
  function RemoveAt<T>(xs: seq<T>, i: int): (r: seq<T>)
    ensures 0 <= i < |xs| ==> r == xs[..i] + xs[i + 1..]
    ensures !(0 <= i < |xs|) ==> r == xs
    decreases |xs|
  {
    if |xs| == 0 then []
    else RemoveAt(xs[..|xs| - 1], i) + (if |xs| - 1 != i then [xs[|xs| - 1]] else [])
  }

  /** Removing one index shortens the list by exactly one when the index is
      in range, and removing the same index from two lists of equal length
      leaves them of equal length. */
  lemma RemoveAtLength<T, U>(xs: seq<T>, ys: seq<U>, i: int)
    ensures |RemoveAt(xs, i)| == if 0 <= i < |xs| then |xs| - 1 else |xs|
    ensures |xs| == |ys| ==> |RemoveAt(xs, i)| == |RemoveAt(ys, i)|
  {
  }

  /** `xs.filter(keep)`: the entries `keep` accepts, in their order. */
  function Filter<T>(xs: seq<T>, keep: T -> bool): (r: seq<T>)
    ensures |r| <= |xs|
    ensures forall k :: 0 <= k < |r| ==> keep(r[k]) && r[k] in xs
    ensures forall x :: x in xs && keep(x) ==> x in r
    decreases |xs|
  {
    if |xs| == 0 then []
    else Filter(xs[..|xs| - 1], keep) + (if keep(xs[|xs| - 1]) then [xs[|xs| - 1]] else [])
  }

  /** Filtering respects concatenation, so the entries kept from the front
      of a list come before those kept from its back: order is preserved. */
  lemma {:induction false} FilterAppend<T>(xs: seq<T>, ys: seq<T>, keep: T -> bool)
    ensures Filter(xs + ys, keep) == Filter(xs, keep) + Filter(ys, keep)
    decreases |ys|
  {
    if |ys| == 0 {
      assert xs + ys == xs;
    } else {
      var zs := xs + ys;
      var front := ys[..|ys| - 1];
      var last := ys[|ys| - 1];
      var tail := if keep(last) then [last] else [];
      assert zs[..|zs| - 1] == xs + front;
      assert zs[|zs| - 1] == last;
      assert Filter(zs, keep) == Filter(xs + front, keep) + tail;
      FilterAppend(xs, front, keep);
      assert Filter(ys, keep) == Filter(front, keep) + tail;
    }
  }

  /** A filter that accepts every entry changes nothing; one that accepts
      none leaves nothing. */
  lemma {:induction false} FilterExtremes<T>(xs: seq<T>, keep: T -> bool)
    ensures (forall k :: 0 <= k < |xs| ==> keep(xs[k])) ==> Filter(xs, keep) == xs
    ensures (forall k :: 0 <= k < |xs| ==> !keep(xs[k])) ==> Filter(xs, keep) == []
    decreases |xs|
  {
    if |xs| > 0 {
      FilterExtremes(xs[..|xs| - 1], keep);
      assert xs[..|xs| - 1] + [xs[|xs| - 1]] == xs;
    }
  }

  /** Filtering out one entry that `keep` rejects, between entries it
      accepts, cuts exactly that entry out. */
  lemma FilterCutsOne<T>(before: seq<T>, x: T, after: seq<T>, keep: T -> bool)
    requires forall k :: 0 <= k < |before| ==> keep(before[k])
    requires !keep(x)
    requires forall k :: 0 <= k < |after| ==> keep(after[k])
    ensures Filter(before + [x] + after, keep) == before + after
  {
    var single := [x];
    assert single[..0] == [];
    assert Filter(single, keep) == [];
    FilterAppend(before, single, keep);
    FilterExtremes(before, keep);
    assert Filter(before + single, keep) == before;
    FilterAppend(before + single, after, keep);
    FilterExtremes(after, keep);
  }
}
