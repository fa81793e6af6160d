/**
 * The pinhole intrinsic matrix K and the update `process_stereo_pair`
 * applies to it: fx and cx follow the width ratio, fy and cy the height
 * ratio, and every other entry is copied.
 */
module Intrinsics {

  /** A matrix as a sequence of rows. */
  type Matrix = seq<seq<real>>

  predicate Is3x3(m: Matrix) {
    |m| == 3 && forall i :: 0 <= i < 3 ==> |m[i]| == 3
  }

  /** The entries the update touches: fx = K[0][0], cx = K[0][2], fy = K[1][1], cy = K[1][2]. */
  predicate IsScaledEntry(i: int, j: int) {
    (i == 0 || i == 1) && (j == i || j == 2)
  }

  /** K after the update, with `sw` the width ratio and `sh` the height ratio. */
  function Scaled(k: Matrix, sw: real, sh: real): (r: Matrix)
    requires Is3x3(k)
    ensures Is3x3(r)
    ensures r[0][0] == k[0][0] * sw && r[0][2] == k[0][2] * sw
    ensures r[1][1] == k[1][1] * sh && r[1][2] == k[1][2] * sh
    ensures forall i, j :: 0 <= i < 3 && 0 <= j < 3 && !IsScaledEntry(i, j) ==> r[i][j] == k[i][j]
  {
    k[0 := k[0][0 := k[0][0] * sw][2 := k[0][2] * sw]]
     [1 := k[1][1 := k[1][1] * sh][2 := k[1][2] * sh]]
  }

  /** Ratios of one leave K as it is. */
  lemma ScaledByOne(k: Matrix)
    requires Is3x3(k)
    ensures Scaled(k, 1.0, 1.0) == k
  {
    var r := Scaled(k, 1.0, 1.0);
    forall i | 0 <= i < 3
      ensures r[i] == k[i]
    {
      assert forall j :: 0 <= j < 3 ==> r[i][j] == k[i][j];
    }
  }

  /** Two updates in a row are one update by the products of the ratios. */
  lemma ScaledTwice(k: Matrix, sw1: real, sh1: real, sw2: real, sh2: real)
    requires Is3x3(k)
    ensures Scaled(Scaled(k, sw1, sh1), sw2, sh2) == Scaled(k, sw1 * sw2, sh1 * sh2)
  {
    var a := Scaled(Scaled(k, sw1, sh1), sw2, sh2);
    var b := Scaled(k, sw1 * sw2, sh1 * sh2);
    forall i | 0 <= i < 3
      ensures a[i] == b[i]
    {
      forall j | 0 <= j < 3
        ensures a[i][j] == b[i][j]
      {
        if IsScaledEntry(i, j) {
          assert (i, j) == (0, 0) || (i, j) == (0, 2) || (i, j) == (1, 1) || (i, j) == (1, 2);
        }
      }
    }
  }

  /** Two 3 by 3 matrices with the same entries are the same. */
  lemma SameEntries(a: Matrix, b: Matrix)
    requires Is3x3(a) && Is3x3(b)
    requires forall i, j :: 0 <= i < 3 && 0 <= j < 3 ==> a[i][j] == b[i][j]
    ensures a == b
  {
    forall i | 0 <= i < 3
      ensures a[i] == b[i]
    {
      assert |a[i]| == |b[i]|;
    }
  }

  /** The entries of a 3 by 3 array as a matrix. */
  function Entries(a: array2<real>): (m: Matrix)
    reads a
    requires a.Length0 == 3 && a.Length1 == 3
    ensures Is3x3(m)
    ensures forall i, j :: 0 <= i < 3 && 0 <= j < 3 ==> m[i][j] == a[i, j]
  {
    [[a[0, 0], a[0, 1], a[0, 2]],
     [a[1, 0], a[1, 1], a[1, 2]],
     [a[2, 0], a[2, 1], a[2, 2]]]
  }

  /**
   * `K_new = K.copy()` followed by the four in-place multiplications.
   * The input array is read, never written.
   */
  method UpdateIntrinsics(k: array2<real>, sw: real, sh: real) returns (kNew: array2<real>)
    requires k.Length0 == 3 && k.Length1 == 3
    ensures fresh(kNew) && kNew.Length0 == 3 && kNew.Length1 == 3
    ensures Entries(kNew) == Scaled(Entries(k), sw, sh)
  {
    kNew := new real[3, 3];
    for i := 0 to 3
      invariant forall i', j :: 0 <= i' < i && 0 <= j < 3 ==> kNew[i', j] == k[i', j]
    {
      for j := 0 to 3
        invariant forall i', j' :: 0 <= i' < i && 0 <= j' < 3 ==> kNew[i', j'] == k[i', j']
        invariant forall j' :: 0 <= j' < j ==> kNew[i, j'] == k[i, j']
      {
        kNew[i, j] := k[i, j];
      }
    }
    ghost var c := Entries(kNew);
    assert c == Entries(k);
    kNew[0, 0] := kNew[0, 0] * sw;
    kNew[1, 1] := kNew[1, 1] * sh;
    kNew[0, 2] := kNew[0, 2] * sw;
    kNew[1, 2] := kNew[1, 2] * sh;
    ghost var want := Scaled(c, sw, sh);
    assert kNew[0, 0] == want[0][0] && kNew[0, 2] == want[0][2];
    assert kNew[1, 1] == want[1][1] && kNew[1, 2] == want[1][2];
    assert forall i, j :: 0 <= i < 3 && 0 <= j < 3 && !IsScaledEntry(i, j) ==> kNew[i, j] == c[i][j];
    SameEntries(Entries(kNew), want);
  }
}
