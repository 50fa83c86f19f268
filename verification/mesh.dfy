/**
 The linear mesh generator: start, start + h, start + 2h, ... while the
 accumulated value does not exceed the inclusive end, over exact reals.
 */
module Mesh {

  /** The number of points start + k*h (k = 0, 1, ...) that do not exceed `end`. */
  function MeshSize(start: real, end: real, h: real): nat
    requires h > 0.0 || start > end
  {
    if start > end then 0
    else
      var q := (end - start) / h;
      assert q >= 0.0 by { DivNonNegative(end - start, h); }
      q.Floor + 1
  }

  lemma DivNonNegative(a: real, h: real)
    requires a >= 0.0 && h > 0.0
    ensures a / h >= 0.0
  {
  }

  /** A point start + k*h lies within the mesh bound exactly when k is below
      the mesh size. */
  lemma {:induction false} BelowSize(start: real, end: real, h: real, k: nat)
    requires h > 0.0 && start <= end
    ensures start + k as real * h <= end <==> k < MeshSize(start, end, h)
  {
    var q := (end - start) / h;
    assert q * h == end - start;
    if start + k as real * h <= end {
      assert k as real * h <= q * h;
      assert k as real <= q;
      assert k <= q.Floor;
    } else {
      assert k as real * h > q * h;
      assert k as real > q;
      assert k > q.Floor;
    }
  }

  /** The mesh of points from `start` to `end` inclusive with step `h`. With
      `h <= 0` and `start <= end` the accumulated value never passes `end`
      and the loop does not end, so a caller must rule that case out. */
  method LinearMesh(start: real, end: real, h: real) returns (mesh: seq<real>)
    requires h > 0.0 || start > end
    ensures start > end ==> mesh == []
    ensures |mesh| == MeshSize(start, end, h)
    ensures forall k :: 0 <= k < |mesh| ==> mesh[k] == start + k as real * h
    ensures forall k :: 0 <= k < |mesh| ==> mesh[k] <= end
    ensures start + |mesh| as real * h > end
  {
    ghost var size := MeshSize(start, end, h);
    mesh := [];
    var x := start;
    while x <= end
      invariant |mesh| <= size
      invariant x == start + |mesh| as real * h
      invariant forall k :: 0 <= k < |mesh| ==> mesh[k] == start + k as real * h
      invariant forall k :: 0 <= k < |mesh| ==> mesh[k] <= end
      decreases size - |mesh|
    {
      BelowSize(start, end, h, |mesh|);
      mesh := mesh + [x];
      x := x + h;
    }
    if start <= end {
      BelowSize(start, end, h, |mesh|);
    }
  }

  /** Consecutive mesh points are exactly `h` apart, so the mesh is strictly
      increasing and starts at `start` when it is not empty. */
  lemma MeshIncreasing(mesh: seq<real>, start: real, h: real)
    requires h > 0.0
    requires forall k :: 0 <= k < |mesh| ==> mesh[k] == start + k as real * h
    ensures |mesh| > 0 ==> mesh[0] == start
    ensures forall k :: 0 <= k < |mesh| - 1 ==> mesh[k + 1] - mesh[k] == h
    ensures forall i, j :: 0 <= i < j < |mesh| ==> mesh[i] < mesh[j]
  {
    forall i, j | 0 <= i < j < |mesh|
      ensures mesh[i] < mesh[j]
    {
      assert mesh[j] - mesh[i] == (j - i) as real * h;
    }
  }

  /** From 10 to 50 with step 1 the mesh has 41 points. */
  lemma MeshSizeExample()
    ensures MeshSize(10.0, 50.0, 1.0) == 41
  {
  }
}
