/** The array operations the gallery is built from: JavaScript's
    `Array.prototype.filter`, `findIndex` and `find`, and `arrayMove` from
    `@dnd-kit/sortable`, all as functions on immutable sequences (each of them
    returns a new array and leaves its input untouched). */
module ArrayOps {

  /** JavaScript's `null` / `undefined` alternative to a value. */
  datatype Option<+T> = None | Some(value: T)

  // ---------------------------------------------------------------------------
  // filter
  // ---------------------------------------------------------------------------

  /** `s.filter(keep)`: the elements of `s` that satisfy `keep`, in order. */
  function Filter<T(!new)>(s: seq<T>, keep: T -> bool): (r: seq<T>)
    ensures |r| <= |s|
    ensures forall i :: 0 <= i < |r| ==> keep(r[i])
    ensures forall x :: x in r <==> x in s && keep(x)
    ensures forall x :: multiset(r)[x] == if keep(x) then multiset(s)[x] else 0
  {
    if s == [] then []
    else
      assert s == [s[0]] + s[1..];
      (if keep(s[0]) then [s[0]] else []) + Filter(s[1..], keep)
  }

  /** `a` can be obtained from `b` by dropping elements: every element of `a`
      appears in `b`, in the same relative order. */
  ghost predicate IsSubsequence<T>(a: seq<T>, b: seq<T>)
    decreases |b|
  {
    a == [] ||
    (b != [] &&
     ((a[0] == b[0] && IsSubsequence(a[1..], b[1..])) || IsSubsequence(a, b[1..])))
  }

  /** Filtering keeps the relative order of the surviving elements. */
  lemma {:induction false} FilterIsSubsequence<T(!new)>(s: seq<T>, keep: T -> bool)
    ensures IsSubsequence(Filter(s, keep), s)
  {
    if s != [] {
      FilterIsSubsequence(s[1..], keep);
      var r := Filter(s, keep);
      if keep(s[0]) {
        assert r == [s[0]] + Filter(s[1..], keep);
        assert r[0] == s[0] && r[1..] == Filter(s[1..], keep);
      } else {
        assert r == Filter(s[1..], keep);
      }
    }
  }

  /** Filtering with a predicate every element satisfies changes nothing. */
  lemma {:induction false} FilterKeepsAll<T(!new)>(s: seq<T>, keep: T -> bool)
    requires forall i :: 0 <= i < |s| ==> keep(s[i])
    ensures Filter(s, keep) == s
  {
    if s != [] {
      FilterKeepsAll(s[1..], keep);
      assert s == [s[0]] + s[1..];
    }
  }

  /** Filtering is empty exactly when no element satisfies the predicate. */
  lemma FilterEmpty<T(!new)>(s: seq<T>, keep: T -> bool)
    ensures Filter(s, keep) == [] <==> forall i :: 0 <= i < |s| ==> !keep(s[i])
  {
    var r := Filter(s, keep);
    if r != [] {
      assert r[0] in r;
    }
    if exists i :: 0 <= i < |s| && keep(s[i]) {
      var i :| 0 <= i < |s| && keep(s[i]);
      assert s[i] in s;
    }
  }

  // ---------------------------------------------------------------------------
  // findIndex and find
  // ---------------------------------------------------------------------------

  /** `s.findIndex(p)`: the first index whose element satisfies `p`, or -1
      when there is none. */
  function FindIndex<T>(s: seq<T>, p: T -> bool): (r: int)
    ensures -1 <= r < |s|
    ensures r == -1 <==> forall i :: 0 <= i < |s| ==> !p(s[i])
    ensures 0 <= r ==> p(s[r]) && forall j :: 0 <= j < r ==> !p(s[j])
  {
    if s == [] then -1
    else if p(s[0]) then 0
    else
      var k := FindIndex(s[1..], p);
      if k == -1 then -1 else k + 1
  }

  /** `s.find(p)`: the first element satisfying `p`, or `undefined`. */
  function Find<T>(s: seq<T>, p: T -> bool): (r: Option<T>)
    ensures r.Some? <==> exists i :: 0 <= i < |s| && p(s[i])
    ensures r.Some? ==> p(r.value) && r.value == s[FindIndex(s, p)]
  {
    var k := FindIndex(s, p);
    if k < 0 then None else Some(s[k])
  }

  // ---------------------------------------------------------------------------
  // arrayMove
  // ---------------------------------------------------------------------------

  /** `s` without its element at index `i`. */
  function RemoveAt<T>(s: seq<T>, i: nat): (r: seq<T>)
    requires i < |s|
    ensures |r| == |s| - 1
  {
    s[..i] + s[i + 1..]
  }

  /** `s` with `x` inserted so that it lands at index `i`. */
  function InsertAt<T>(s: seq<T>, i: nat, x: T): (r: seq<T>)
    requires i <= |s|
    ensures |r| == |s| + 1
  {
    s[..i] + [x] + s[i..]
  }

  /** `arrayMove(s, from, to)`: take the element at `from` out of the array
      and put it back so that it sits at `to`, shifting the elements between
      the two positions by one place (a move, not a swap). The element lands
      at `to`, and the other elements are the old ones in their old order. */
  function ArrayMove<T>(s: seq<T>, from: nat, to: nat): (r: seq<T>)
    requires from < |s| && to < |s|
    ensures |r| == |s|
    ensures r[to] == s[from]
    ensures RemoveAt(r, to) == RemoveAt(s, from)
  {
    var rest := RemoveAt(s, from);
    var r := InsertAt(rest, to, s[from]);
    assert RemoveAt(r, to) == rest by {
      assert r[..to] == rest[..to];
      assert r[to + 1..] == rest[to..];
    }
    r
  }

  /** Putting back at `i` what was removed from `i` restores the sequence. */
  lemma InsertRemovedAt<T>(s: seq<T>, i: nat)
    requires i < |s|
    ensures InsertAt(RemoveAt(s, i), i, s[i]) == s
  {
    var rest := RemoveAt(s, i);
    assert rest[..i] == s[..i];
    assert rest[i..] == s[i + 1..];
    assert s == s[..i] + [s[i]] + s[i + 1..];
  }

  /** The two facts in the contract of `ArrayMove` determine its result. */
  lemma ArrayMoveUnique<T>(s: seq<T>, from: nat, to: nat, r: seq<T>)
    requires from < |s| && to < |s|
    requires |r| == |s| && r[to] == s[from] && RemoveAt(r, to) == RemoveAt(s, from)
    ensures r == ArrayMove(s, from, to)
  {
    InsertRemovedAt(r, to);
  }

  /** The source index of the element that `ArrayMove(s, from, to)` puts at
      index `i`. */
  function MoveSource(from: nat, to: nat, i: nat): (k: nat)
  {
    if i == to then from
    else if from < to && from <= i < to then i + 1
    else if to < from && to < i <= from then i - 1
    else i
  }

  /** Element by element: what `ArrayMove` puts at each index. */
  lemma ArrayMoveAt<T>(s: seq<T>, from: nat, to: nat, i: nat)
    requires from < |s| && to < |s| && i < |s|
    ensures MoveSource(from, to, i) < |s|
    ensures ArrayMove(s, from, to)[i] == s[MoveSource(from, to, i)]
  {
    var r := ArrayMove(s, from, to);
    var rest := RemoveAt(s, from);
    if i != to {
      var j := if i < to then i else i - 1;
      assert r[i] == rest[j] by {
        assert RemoveAt(r, to)[j] == r[i];
      }
      assert rest[j] == if j < from then s[j] else s[j + 1];
    }
  }

  /** Distinct target indices take their elements from distinct source
      indices: `MoveSource` is a bijection on the indices. */
  lemma MoveSourceInjective(from: nat, to: nat, i: nat, j: nat)
    requires i != j
    ensures MoveSource(from, to, i) != MoveSource(from, to, j)
  {
  }

  /** A move permutes the array: nothing is added, lost or duplicated. */
  lemma ArrayMovePermutes<T>(s: seq<T>, from: nat, to: nat)
    requires from < |s| && to < |s|
    ensures multiset(ArrayMove(s, from, to)) == multiset(s)
  {
    var r := ArrayMove(s, from, to);
    assert r == r[..to] + [r[to]] + r[to + 1..];
    assert s == s[..from] + [s[from]] + s[from + 1..];
    calc {
      multiset(r);
      multiset(r[..to]) + multiset([r[to]]) + multiset(r[to + 1..]);
      multiset(RemoveAt(r, to)) + multiset([r[to]]);
      multiset(RemoveAt(s, from)) + multiset([s[from]]);
      multiset(s[..from]) + multiset([s[from]]) + multiset(s[from + 1..]);
      multiset(s);
    }
  }

  /** Moving back from `to` to `from` undoes a move from `from` to `to`. */
  lemma ArrayMoveInverse<T>(s: seq<T>, from: nat, to: nat)
    requires from < |s| && to < |s|
    ensures ArrayMove(ArrayMove(s, from, to), to, from) == s
  {
    var r := ArrayMove(s, from, to);
    var back := ArrayMove(r, to, from);
    InsertRemovedAt(s, from);
    ArrayMoveUnique(s, from, from, back);
    assert ArrayMove(s, from, from) == s by {
      ArrayMoveUnique(s, from, from, s);
    }
  }

  /** Moving an element onto its own index changes nothing. */
  lemma ArrayMoveSameIndex<T>(s: seq<T>, i: nat)
    requires i < |s|
    ensures ArrayMove(s, i, i) == s
  {
    ArrayMoveUnique(s, i, i, s);
  }
}
