/**
 * Index arithmetic of the packed upper-left triangle. For sample size n the
 * flat array holds rows 0..n one after the other, row i holding the n+1-i
 * cells (i, 0) .. (i, n-i).
 */
module Triangle {
  import opened Types

  /** The flat length for sample size n, `(n + 1) * (n + 2) // 2`; Tri(-1) == 0. */
  function Tri(n: int): int
    requires n >= -1
  {
    (n + 1) * (n + 2) / 2
  }

  /** Number of cells in row i. */
  function RowLength(n: nat, i: nat): int {
    n + 1 - i
  }

  /** Start of row i in the flat array: the sum of the lengths of rows 0..i-1. */
  function Offset(n: nat, i: nat): nat
    requires i <= n + 1
  {
    if i == 0 then 0 else Offset(n, i - 1) + RowLength(n, i - 1)
  }

  /** Cell (i, j) of the (n+1) x (n+1) square is one of the stored cells. */
  predicate Unmasked(n: nat, i: nat, j: nat) {
    i <= n && j <= n - i
  }

  /** Position in the flat array of stored cell (i, j); it lies inside the data array. */
  function FlatIndex(n: nat, i: nat, j: nat): (k: nat)
    requires Unmasked(n, i, j)
    ensures k < Tri(n)
  {
    OffsetMonotone(n, i, n + 1);
    OffsetTotal(n);
    Offset(n, i) + j
  }

  lemma TriStep(m: int)
    requires m >= -1
    ensures Tri(m + 1) == Tri(m) + m + 2
  {
    var a := (m + 1) * (m + 2);
    assert (m + 2) * (m + 3) == a + 2 * (m + 2);
  }

  /** Tri is strictly increasing from -1 on. */
  lemma {:induction false} TriMonotone(a: int, b: int)
    requires -1 <= a < b
    ensures Tri(a) < Tri(b)
  {
    TriStep(b - 1);
    if a < b - 1 {
      TriMonotone(a, b - 1);
    }
  }

  lemma TriInjective(a: int, b: int)
    requires a >= -1 && b >= -1 && Tri(a) == Tri(b)
    ensures a == b
  {
    if a < b { TriMonotone(a, b); }
    if b < a { TriMonotone(b, a); }
  }

  lemma TriAtLeast(m: int)
    requires m >= -1
    ensures Tri(m) >= m + 1
  {
    if m >= 0 {
      TriStep(m - 1);
      TriAtLeast(m - 1);
    }
  }

  /** The closed form of the row offset: 2 * Offset(n, i) == i * (2n + 3 - i). */
  lemma {:induction false} OffsetClosedForm(n: nat, i: nat)
    requires i <= n + 1
    ensures 2 * Offset(n, i) == i * (2 * n + 3 - i)
  {
    if i > 0 {
      OffsetClosedForm(n, i - 1);
      assert (i - 1) * (2 * n + 4 - i) + 2 * (n + 2 - i) == i * (2 * n + 3 - i);
    }
  }

  /** The row offsets run up to the flat length: after the last row, the offset is Tri(n). */
  lemma OffsetTotal(n: nat)
    ensures Offset(n, n + 1) == Tri(n)
  {
    OffsetClosedForm(n, n + 1);
    assert (n + 1) * (2 * n + 3 - (n + 1)) == (n + 1) * (n + 2);
  }

  /** Later rows start no earlier. */
  lemma {:induction false} OffsetMonotone(n: nat, i: nat, k: nat)
    requires i <= k <= n + 1
    ensures Offset(n, i) <= Offset(n, k)
    ensures i < k ==> Offset(n, i) + RowLength(n, i) <= Offset(n, k)
  {
    if i < k {
      OffsetMonotone(n, i, k - 1);
    }
  }

  /** Distinct stored cells have distinct flat positions. */
  lemma FlatIndexInjective(n: nat, i1: nat, j1: nat, i2: nat, j2: nat)
    requires Unmasked(n, i1, j1) && Unmasked(n, i2, j2)
    requires FlatIndex(n, i1, j1) == FlatIndex(n, i2, j2)
    ensures i1 == i2 && j1 == j2
  {
    if i1 < i2 {
      OffsetMonotone(n, i1, i2);
    } else if i2 < i1 {
      OffsetMonotone(n, i2, i1);
    }
  }

  /** The spans of distinct rows are disjoint: at most one row's span holds k. */
  lemma RowSpanUnique(n: nat, k: nat, r: nat)
    requires r <= n && Offset(n, r) <= k < Offset(n, r) + RowLength(n, r)
    ensures forall r': nat :: r' <= n && Offset(n, r') <= k < Offset(n, r') + RowLength(n, r') ==> r' == r
  {
    forall r': nat | r' <= n && Offset(n, r') <= k < Offset(n, r') + RowLength(n, r')
      ensures r' == r
    {
      if r' < r {
        OffsetMonotone(n, r', r);
      } else if r < r' {
        OffsetMonotone(n, r, r');
      }
    }
  }

  /** The row that flat position k falls in, searching from row i on. */
  function RowFrom(n: nat, k: nat, i: nat): (r: nat)
    requires i <= n && Offset(n, i) <= k < Tri(n)
    ensures i <= r <= n
    ensures Offset(n, r) <= k < Offset(n, r) + RowLength(n, r)
    ensures forall r': nat :: r' <= n && Offset(n, r') <= k < Offset(n, r') + RowLength(n, r') ==> r' == r
    decreases n - i
  {
    if k < Offset(n, i) + RowLength(n, i) then
      RowSpanUnique(n, k, i);
      i
    else
      OffsetTotal(n);
      RowFrom(n, k, i + 1)
  }

  /** Every flat position is the flat position of a stored cell. */
  lemma FlatIndexSurjective(n: nat, k: nat)
    requires k < Tri(n)
    ensures exists i: nat, j: nat :: Unmasked(n, i, j) && FlatIndex(n, i, j) == k
  {
    var i := RowFrom(n, k, 0);
    var j := k - Offset(n, i);
    assert Unmasked(n, i, j) && FlatIndex(n, i, j) == k;
  }

  /**
   * Search for the sample size m >= start whose flat length Tri(m) is l.
   * The lengths Tri(m) grow with m, so the search stops once it passes l.
   */
  function SizeFrom(l: nat, start: int): (r: Option<int>)
    requires start >= -1
    ensures r.Some? ==> start <= r.value && Tri(r.value) == l
    ensures r.None? ==> forall m :: start <= m ==> Tri(m) != l
    decreases l - start
  {
    if Tri(start) == l then Some(start)
    else if Tri(start) > l then
      assert forall m :: start < m ==> Tri(start) < Tri(m) by {
        forall m | start < m { TriMonotone(start, m); }
      }
      None
    else
      TriAtLeast(start);
      SizeFrom(l, start + 1)
  }

  /**
   * The sample size inferred from a data length: the m >= 0 with
   * (m + 1)(m + 2) / 2 == l, or None when l is not such a length.
   */
  function SizeFromLength(l: nat): (r: Option<nat>)
    ensures r.Some? ==> Tri(r.value) == l
    ensures r.None? <==> forall m: nat :: Tri(m) != l
  {
    var s := SizeFrom(l, 0);
    if s.Some? then Some(s.value) else None
  }

  /** The inference is exact: a triangular length gives back its own sample size. */
  lemma {:induction false} SizeFromLengthOfTri(m: nat)
    ensures SizeFromLength(Tri(m)) == Some(m)
  {
    var r := SizeFromLength(Tri(m));
    assert r.Some?;
    TriInjective(r.value, m);
  }

  /** An empty data array has no sample size. */
  lemma SizeFromLengthRejectsEmpty()
    ensures SizeFromLength(0) == None
  {
    assert Tri(0) == 1;
  }

  /** A single stored cell is sample size 0 (which the positivity check never sees). */
  lemma SizeFromLengthOfOne()
    ensures SizeFromLength(1) == Some(0)
  {
    SizeFromLengthOfTri(0);
  }

  /**
   * The float formula `(sqrt(1 + 8 l) - 1) / 2 - 1` as written: it takes the
   * larger root of (m + 1)(m + 2) / 2 == l, which is -1 when l == 0.
   */
  function SizeFromLengthAsWritten(l: nat): (r: Option<int>)
    ensures r.Some? ==> r.value >= -1 && Tri(r.value) == l
  {
    SizeFrom(l, -1)
  }

  /** As written, an empty data array is accepted and yields sample size -1. */
  lemma EmptyLengthAcceptedAsWritten()
    ensures SizeFromLengthAsWritten(0) == Some(-1)
    ensures SizeFromLength(0) == None
  {
    SizeFromLengthRejectsEmpty();
  }

  /** Apart from the empty length, the formula as written and the corrected inference agree. */
  lemma AsWrittenAgreesOnNonEmpty(l: nat)
    requires l > 0
    ensures SizeFromLengthAsWritten(l) == if SizeFromLength(l).Some? then Some(SizeFromLength(l).value as int) else None
  {
  }
}
