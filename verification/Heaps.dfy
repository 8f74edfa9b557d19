/**
 The contract of the standard library's binary heap and sort, for nonces without
 repetitions. Callers may rely on the heap order and on the elements, not on the
 arrangement; the bodies keep heaps fully sorted, one arrangement the contract allows.
 */
module Heaps {

  predicate IsHeap(h: seq<nat>) {
    forall i, j | 0 <= i < j < |h| && (j == 2 * i + 1 || j == 2 * i + 2) :: h[i] <= h[j]
  }

  predicate Distinct(h: seq<nat>) {
    forall i, j | 0 <= i < j < |h| :: h[i] != h[j]
  }

  predicate Increasing(h: seq<nat>) {
    forall i, j | 0 <= i < j < |h| :: h[i] < h[j]
  }

  ghost predicate SameElements(h: seq<nat>, r: seq<nat>) {
    forall y {:trigger y in r} :: y in r <==> y in h
  }

  /** The root of a heap is its least element. */
  lemma {:induction false} RootIsLeast(h: seq<nat>, i: nat)
    requires IsHeap(h) && i < |h|
    ensures h[0] <= h[i]
    decreases i
  {
    if i > 0 {
      RootIsLeast(h, (i - 1) / 2);
    }
  }

  function Insert(h: seq<nat>, x: nat): (r: seq<nat>)
    ensures |r| == |h| + 1
    ensures forall y {:trigger y in r} :: y in r <==> y in h || y == x
  {
    if h == [] then [x]
    else if x < h[0] then [x] + h
    else
      assert h == [h[0]] + h[1..];
      [h[0]] + Insert(h[1..], x)
  }

  lemma {:induction false} InsertSorts(h: seq<nat>, x: nat)
    requires Increasing(h) && x !in h
    ensures Increasing(Insert(h, x))
  {
    if h != [] && x >= h[0] {
      assert h == [h[0]] + h[1..];
      InsertSorts(h[1..], x);
      IncreasingCons(h[0], Insert(h[1..], x));
    } else if h != [] {
      IncreasingCons(x, h);
    }
  }

  lemma IncreasingCons(x: nat, h: seq<nat>)
    requires Increasing(h) && forall y | y in h :: x < y
    ensures Increasing([x] + h)
  {
    var r := [x] + h;
    forall i, j | 0 <= i < j < |r| ensures r[i] < r[j] {
      assert r[j] == h[j - 1] && h[j - 1] in h;
      if i > 0 {
        assert r[i] == h[i - 1];
      }
    }
  }

  /** sort.Sort */
  function Sort(h: seq<nat>): (r: seq<nat>)
    requires Distinct(h)
    ensures |r| == |h| && Increasing(r) && SameElements(h, r)
  {
    if h == [] then []
    else
      var rest := Sort(h[1..]);
      assert h == [h[0]] + h[1..];
      assert h[0] !in rest by {
        assert h[0] in rest <==> h[0] in h[1..];
      }
      InsertSorts(rest, h[0]);
      Insert(rest, h[0])
  }

  /** heap.Init */
  method Init(h: seq<nat>) returns (r: seq<nat>)
    requires Distinct(h)
    ensures |r| == |h| && IsHeap(r) && Distinct(r) && SameElements(h, r)
  {
    r := Sort(h);
  }

  /** heap.Push */
  method Push(h: seq<nat>, x: nat) returns (r: seq<nat>)
    requires IsHeap(h) && Distinct(h) && x !in h
    ensures IsHeap(r) && Distinct(r) && forall y {:trigger y in r} :: y in r <==> y in h || y == x
  {
    r := Init(h + [x]);
  }

  /** heap.Remove */
  method RemoveAt(h: seq<nat>, i: nat) returns (r: seq<nat>)
    requires IsHeap(h) && Distinct(h) && i < |h|
    ensures |r| == |h| - 1 && IsHeap(r) && Distinct(r) && forall y {:trigger y in r} :: y in r <==> y in h && y != h[i]
  {
    var rest := h[..i] + h[i + 1..];
    assert forall k | 0 <= k < |rest| :: rest[k] == if k < i then h[k] else h[k + 1];
    forall y ensures y in rest <==> y in h && y != h[i] {
      if y in h && y != h[i] {
        var k :| 0 <= k < |h| && h[k] == y;
        assert rest[if k < i then k else k - 1] == y;
      }
    }
    r := Init(rest);
  }

  /** heap.Pop */
  method Pop(h: seq<nat>) returns (x: nat, r: seq<nat>)
    requires IsHeap(h) && Distinct(h) && h != []
    ensures x == h[0] && |r| == |h| - 1 && IsHeap(r) && Distinct(r) && forall y {:trigger y in r} :: y in r <==> y in h && y != x
  {
    x := h[0];
    r := RemoveAt(h, 0);
  }
}
