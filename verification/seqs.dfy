/** Generic list operations behind the handler's list comprehensions: the
    first element matching a test, and the elements kept by a test, with the
    facts that make the kept elements an order-preserving subsequence. */
module Seqs {
  import opened Wrappers

  /** The position of the first element satisfying `p`, if any. */
  function FirstIndex<T>(s: seq<T>, p: T -> bool): (r: Option<nat>)
    ensures r.Some? ==> r.value < |s| && p(s[r.value])
    ensures r.Some? ==> forall i :: 0 <= i < r.value ==> !p(s[i])
    ensures r.None? <==> forall i :: 0 <= i < |s| ==> !p(s[i])
  {
    if s == [] then None
    else if p(s[0]) then Some(0)
    else
      match FirstIndex(s[1..], p)
      case None => None
      case Some(j) => Some(j + 1)
  }

  /** `[x for x in s if p(x)]`. */
  function Filter<T>(s: seq<T>, p: T -> bool): (r: seq<T>)
    ensures |r| <= |s|
    ensures forall k :: 0 <= k < |r| ==> p(r[k])
  {
    if s == [] then []
    else
      var rest := Filter(s[1..], p);
      if p(s[0]) then [s[0]] + rest else rest
  }

  /** Each index of `idx` moved one place to the right. */
  function Shift(idx: seq<nat>): seq<nat> {
    seq(|idx|, k requires 0 <= k < |idx| => idx[k] + 1)
  }

  /** A position past the head is among the shifted indices exactly when the
      position before it is among the original ones. */
  lemma {:induction false} ShiftMembership(idx: seq<nat>, j: nat)
    requires j >= 1
    ensures j in Shift(idx) <==> j - 1 in idx
  {
    var shifted := Shift(idx);
    if j in shifted {
      var k :| 0 <= k < |shifted| && shifted[k] == j;
      assert idx[k] == j - 1;
    }
    if j - 1 in idx {
      var k :| 0 <= k < |idx| && idx[k] == j - 1;
      assert shifted[k] == j;
    }
  }

  /** `idx` lists, strictly ascending, the positions in `s` that `r` is made
      of, and these are exactly the positions whose element satisfies `p`. */
  ghost predicate KeptAt<T>(s: seq<T>, p: T -> bool, r: seq<T>, idx: seq<nat>) {
    && |idx| == |r|
    && (forall k :: 0 <= k < |idx| ==> idx[k] < |s| && r[k] == s[idx[k]])
    && (forall k, l :: 0 <= k < l < |idx| ==> idx[k] < idx[l])
    && (forall j :: 0 <= j < |s| ==> (j in idx <==> p(s[j])))
  }

  /** The tail's indices, shifted by one, index the tail's kept elements
      within the whole list; none of them is the head. */
  lemma {:induction false} ShiftedKeptAt<T>(s: seq<T>, p: T -> bool, rest: seq<T>, tail: seq<nat>)
    requires s != []
    requires KeptAt(s[1..], p, rest, tail)
    ensures |Shift(tail)| == |rest|
    ensures forall k :: 0 <= k < |rest| ==> 1 <= Shift(tail)[k] < |s| && rest[k] == s[Shift(tail)[k]]
    ensures forall k, l :: 0 <= k < l < |rest| ==> Shift(tail)[k] < Shift(tail)[l]
    ensures forall j :: 1 <= j < |s| ==> (j in Shift(tail) <==> p(s[j]))
  {
    var shifted := Shift(tail);
    forall j | 1 <= j < |s|
      ensures j in shifted <==> p(s[j])
    {
      ShiftMembership(tail, j);
      assert s[j] == s[1..][j - 1];
    }
    forall k | 0 <= k < |rest|
      ensures 1 <= shifted[k] < |s| && rest[k] == s[shifted[k]]
    {
      assert s[1..][tail[k]] == s[shifted[k]];
    }
  }

  /** Putting index 0 in front of positive, strictly ascending indices keeps
      them strictly ascending and adds exactly the position 0. */
  lemma {:induction false} PrependZero(shifted: seq<nat>)
    requires forall k :: 0 <= k < |shifted| ==> shifted[k] >= 1
    requires forall k, l :: 0 <= k < l < |shifted| ==> shifted[k] < shifted[l]
    ensures forall k, l :: 0 <= k < l < |[0] + shifted| ==> ([0] + shifted)[k] < ([0] + shifted)[l]
    ensures forall j: nat :: j in [0] + shifted <==> j == 0 || j in shifted
  {
    var idx := [0] + shifted;
    forall k, l | 0 <= k < l < |idx|
      ensures idx[k] < idx[l]
    {
      assert idx[l] == shifted[l - 1];
      if k > 0 { assert idx[k] == shifted[k - 1]; }
    }
  }

  /** The induction step when the head is dropped. */
  lemma {:induction false} KeptAtConsDropped<T>(s: seq<T>, p: T -> bool, tail: seq<nat>)
    requires s != [] && !p(s[0])
    requires KeptAt(s[1..], p, Filter(s[1..], p), tail)
    ensures KeptAt(s, p, Filter(s, p), Shift(tail))
  {
    ShiftedKeptAt(s, p, Filter(s[1..], p), tail);
    assert 0 !in Shift(tail);
  }

  /** When the head is kept, the kept list is the head followed by the tail's
      kept list. */
  lemma {:induction false} FilterConsKept<T>(s: seq<T>, p: T -> bool)
    requires s != [] && p(s[0])
    ensures Filter(s, p) == [s[0]] + Filter(s[1..], p)
  {
  }

  /** One position of the head-first list: position 0 is the head, and
      position `k > 0` is the tail's entry `k - 1`, found one place further
      right in `s` than in `s[1..]`. */
  lemma {:induction false} ConsPosition<T>(s: seq<T>, rest: seq<T>, tail: seq<nat>, k: nat)
    requires s != []
    requires |tail| == |rest| && k <= |rest|
    requires k > 0 ==> tail[k - 1] < |s| - 1 && rest[k - 1] == s[1..][tail[k - 1]]
    ensures ([0] + Shift(tail))[k] < |s|
    ensures ([s[0]] + rest)[k] == s[([0] + Shift(tail))[k]]
  {
    if k > 0 {
      assert ([0] + Shift(tail))[k] == tail[k - 1] + 1;
      assert ([s[0]] + rest)[k] == rest[k - 1];
    }
  }

  /** When the head is kept, index 0 and the shifted tail indices locate the
      elements of the kept list. */
  lemma {:induction false} KeptHeadPositions<T>(s: seq<T>, p: T -> bool, tail: seq<nat>)
    requires s != [] && p(s[0])
    requires KeptAt(s[1..], p, Filter(s[1..], p), tail)
    ensures |[0] + Shift(tail)| == |Filter(s, p)|
    ensures forall k :: 0 <= k < |[0] + Shift(tail)| ==>
      ([0] + Shift(tail))[k] < |s| && Filter(s, p)[k] == s[([0] + Shift(tail))[k]]
  {
    var rest := Filter(s[1..], p);
    FilterConsKept(s, p);
    forall k | 0 <= k < |[0] + Shift(tail)|
      ensures ([0] + Shift(tail))[k] < |s| && ([s[0]] + rest)[k] == s[([0] + Shift(tail))[k]]
    {
      ConsPosition(s, rest, tail, k);
    }
  }

  /** The induction step when the head is kept: it comes first, from index 0. */
  lemma {:induction false} KeptAtConsKept<T>(s: seq<T>, p: T -> bool, tail: seq<nat>)
    requires s != [] && p(s[0])
    requires KeptAt(s[1..], p, Filter(s[1..], p), tail)
    ensures KeptAt(s, p, Filter(s, p), [0] + Shift(tail))
  {
    ShiftedKeptAt(s, p, Filter(s[1..], p), tail);
    PrependZero(Shift(tail));
    KeptHeadPositions(s, p, tail);
  }

  /** The kept elements are the order-preserving subsequence of `s` made of
      exactly the elements satisfying `p`: `idx` lists, strictly ascending,
      the positions they come from, and a position is listed if and only if
      its element satisfies `p`. */
  lemma {:induction false} FilterIsKeptSubsequence<T>(s: seq<T>, p: T -> bool) returns (idx: seq<nat>)
    ensures |idx| == |Filter(s, p)|
    ensures forall k :: 0 <= k < |idx| ==> idx[k] < |s| && Filter(s, p)[k] == s[idx[k]]
    ensures forall k, l :: 0 <= k < l < |idx| ==> idx[k] < idx[l]
    ensures forall j :: 0 <= j < |s| ==> (j in idx <==> p(s[j]))
  {
    if s == [] {
      idx := [];
    } else {
      var tail := FilterIsKeptSubsequence(s[1..], p);
      if p(s[0]) {
        KeptAtConsKept(s, p, tail);
        idx := [0] + Shift(tail);
      } else {
        KeptAtConsDropped(s, p, tail);
        idx := Shift(tail);
      }
    }
  }

  /** Every element satisfying `p` is kept. */
  lemma {:induction false} FilterKeepsEvery<T>(s: seq<T>, p: T -> bool, x: T)
    requires x in s && p(x)
    ensures x in Filter(s, p)
  {
    var idx := FilterIsKeptSubsequence(s, p);
    var j :| 0 <= j < |s| && s[j] == x;
    assert j in idx;
    var k :| 0 <= k < |idx| && idx[k] == j;
    assert Filter(s, p)[k] == x;
  }

  /** The first match is the head of the filtered list: `[x for x in s if p(x)][0]`
      exists exactly when some element passes, and it is the element at the
      first passing position. */
  lemma FirstIndexIsFilterHead<T>(s: seq<T>, p: T -> bool)
    ensures FirstIndex(s, p).None? <==> Filter(s, p) == []
    ensures FirstIndex(s, p).Some? ==> Filter(s, p) != [] && Filter(s, p)[0] == s[FirstIndex(s, p).value]
  {
    var idx := FilterIsKeptSubsequence(s, p);
    var first := FirstIndex(s, p);
    if first.Some? {
      assert first.value in idx;
      var k :| 0 <= k < |idx| && idx[k] == first.value;
      assert idx[0] <= idx[k];
      assert p(s[idx[0]]);
    }
  }
}
