/**
 * The deletion spectrum: a two-dimensional frequency table for sample size n,
 * stored as the packed upper-left triangle (cells (i, j) with i + j <= n)
 * in a flat array of length (n + 1)(n + 2) / 2.
 */
module DelSpectrum {
  import opened Types
  import opened Validators
  import opened Triangle

  /** The attribute values of a constructed spectrum. */
  datatype Fields = Fields(data: seq<real>, sampleSize: nat, folded: bool)

  /** A cell of the unpacked square as `__getitem__` returns it: a value, or the masked constant. */
  datatype Entry = Value(x: real) | Masked

  /** The argument of `project`: a Python int, or anything that is not one. */
  datatype ProjArg = IntArg(v: int) | NonInt

  /** What the guards of `project` decide. */
  datatype ProjectStep = Same | Reject(error: Error) | Down(size: nat)

  function Zeros(k: nat): (z: seq<real>)
    ensures |z| == k && forall i :: 0 <= i < k ==> z[i] == 0.0
  {
    seq(k, _ => 0.0)
  }

  function AsNum(s: Option<int>): Option<Num> {
    if s.None? then None else Some(Real(s.value as real))
  }

  /**
   * The validator attached to `sample_size`. The class uses attrs's own
   * `optional` with the list `[positive, finite]`, not the module's `optional`;
   * attrs runs a list of validators in order and stops at the first that
   * raises, which is what `Optional(Many(...))` does, so the model reuses it.
   */
  function ValidateSampleSize(s: Option<int>): (o: Outcome)
    ensures o.Pass? <==> s.None? || s.value > 0
    ensures o.Fail? ==> o.error == NotPositive("sample_size")
  {
    PositiveFiniteOutcome("sample_size", AsNum(s));
    Optional(Many([Positive, Finite]), "sample_size", AsNum(s))
  }

  /**
   * Construction of a Spectrum: the attribute validator, then the
   * post-initialisation checks, in the order the constructor runs them.
   */
  function Construct(data: Option<seq<real>>, sampleSize: Option<int>, folded: bool): (r: Result<Fields, Error>)
    ensures r.Success? ==> |r.value.data| == Tri(r.value.sampleSize)
    ensures r.Success? ==> r.value.folded == folded
    ensures r.Success? && data.Some? ==> r.value.data == data.value
    ensures r.Success? && sampleSize.Some? ==> r.value.sampleSize == sampleSize.value
  {
    var checked := ValidateSampleSize(sampleSize);
    if checked.Fail? then Failure(checked.error)
    else if data.None? && sampleSize.None? then Failure(NoDataOrSize)
    else
      var d := if data.None? then Zeros(Tri(sampleSize.value)) else data.value;
      var fromData := SizeFromLength(|d|);
      // The float inference gives -1 for an empty array, which then fails the
      // comparison with a supplied (positive) size rather than the length test.
      if fromData.None? then
        if |d| == 0 && sampleSize.Some? then Failure(LengthMismatch(sampleSize.value))
        else Failure(InvalidLength)
      else if sampleSize.None? then Success(Fields(d, fromData.value, folded))
      else if fromData.value != sampleSize.value then Failure(LengthMismatch(sampleSize.value))
      else Success(Fields(d, fromData.value, folded))
  }

  /** Without data and without a sample size there is nothing to build. */
  lemma ConstructNeedsDataOrSize(folded: bool)
    ensures Construct(None, None, folded) == Failure(NoDataOrSize)
  {
  }

  /** A supplied sample size must be positive, whatever the data. */
  lemma ConstructRejectsNonPositiveSize(data: Option<seq<real>>, n: int, folded: bool)
    requires n <= 0
    ensures Construct(data, Some(n), folded) == Failure(NotPositive("sample_size"))
  {
  }

  /** Given only a sample size n, the data is all zeros of the flat length for n. */
  lemma ConstructFromSizeOnly(n: int, folded: bool)
    requires n > 0
    ensures var r := Construct(None, Some(n), folded);
      && r.Success?
      && r.value.sampleSize == n
      && |r.value.data| == Tri(n)
      && forall k :: 0 <= k < |r.value.data| ==> r.value.data[k] == 0.0
  {
    SizeFromLengthOfTri(n);
  }

  /**
   * Given only data, its length must be triangular; the sample size is the
   * one that length belongs to, and it is not checked for positivity.
   */
  lemma ConstructFromDataOnly(d: seq<real>, folded: bool)
    ensures var r := Construct(Some(d), None, folded);
      && (r.Success? <==> exists m: nat :: Tri(m) == |d|)
      && (r.Failure? ==> r.error == InvalidLength)
      && forall m: nat :: Tri(m) == |d| ==> r == Success(Fields(d, m, folded))
  {
    forall m: nat | Tri(m) == |d| ensures Construct(Some(d), None, folded) == Success(Fields(d, m, folded)) {
      SizeFromLengthOfTri(m);
    }
  }

  /** A data array of one entry is accepted and yields sample size 0. */
  lemma InferredSizeNotRevalidated(x: real, folded: bool)
    ensures Construct(Some([x]), None, folded) == Success(Fields([x], 0, folded))
  {
    SizeFromLengthOfOne();
  }

  /**
   * Given both, the length must be the flat length for the given size; a
   * non-triangular length and a triangular length of another size are told
   * apart. An empty array counts as a mismatch, since its inferred size is -1.
   */
  lemma ConstructFromBoth(d: seq<real>, n: int, folded: bool)
    requires n > 0
    ensures var r := Construct(Some(d), Some(n), folded);
      && (r.Success? <==> Tri(n) == |d|)
      && (r.Success? ==> r.value == Fields(d, n, folded))
      && ((forall m: nat :: Tri(m) != |d|) && |d| > 0 ==> r == Failure(InvalidLength))
      && (|d| == 0 ==> r == Failure(LengthMismatch(n)))
      && ((exists m: nat :: Tri(m) == |d|) && Tri(n) != |d| ==> r == Failure(LengthMismatch(n)))
  {
    if Tri(n) == |d| {
      SizeFromLengthOfTri(n);
    }
    if |d| == 0 {
      SizeFromLengthRejectsEmpty();
    }
  }

  /** Cell (i, j) of the unpacked square: the stored entry, or masked outside the triangle. */
  function Unpacked(data: seq<real>, n: nat, i: nat, j: nat): (e: Entry)
    requires |data| == Tri(n) && i <= n && j <= n
    ensures e.Value? <==> i + j <= n
    ensures e.Value? ==> Offset(n, i) + j < |data| && e.x == data[Offset(n, i) + j]
  {
    if Unmasked(n, i, j) then Value(data[FlatIndex(n, i, j)])
    else Masked
  }

  /**
   * Unpacking shows every stored entry in exactly one cell: entry k is the
   * value of some unmasked cell, and of no other.
   */
  lemma {:induction false} EveryEntryShownOnce(data: seq<real>, n: nat, k: nat)
    requires |data| == Tri(n) && k < |data|
    ensures exists i: nat, j: nat :: Unmasked(n, i, j) && FlatIndex(n, i, j) == k && Unpacked(data, n, i, j) == Value(data[k])
    ensures forall i1: nat, j1: nat, i2: nat, j2: nat ::
      Unmasked(n, i1, j1) && Unmasked(n, i2, j2) && FlatIndex(n, i1, j1) == k && FlatIndex(n, i2, j2) == k ==>
        i1 == i2 && j1 == j2
  {
    FlatIndexSurjective(n, k);
    var i: nat, j: nat :| Unmasked(n, i, j) && FlatIndex(n, i, j) == k;
    assert Unpacked(data, n, i, j) == Value(data[k]);
    forall i1: nat, j1: nat, i2: nat, j2: nat |
      Unmasked(n, i1, j1) && Unmasked(n, i2, j2) && FlatIndex(n, i1, j1) == k && FlatIndex(n, i2, j2) == k
      ensures i1 == i2 && j1 == j2
    {
      FlatIndexInjective(n, i1, j1, i2, j2);
    }
  }

  /** numpy's rule for one index into an axis of length n + 1: negative indices count from the end. */
  function NormalizeIndex(n: nat, k: int): (r: Option<nat>)
    ensures r.Some? <==> -(n + 1) <= k <= n
    ensures r.Some? ==> r.value <= n && r.value as int % (n + 1) == k % (n + 1)
  {
    if 0 <= k <= n then Some(k)
    else if -(n + 1) <= k < 0 then Some(k + n + 1)
    else None
  }

  /** The guards of `project`, in order: the type, the same size, then the two bounds. */
  function ProjectGuard(n: nat, arg: ProjArg): (r: ProjectStep)
    ensures r == Same <==> arg == IntArg(n)
    ensures r.Down? <==> arg.IntArg? && 0 < arg.v < n
    ensures r.Down? ==> r.size == arg.v
    ensures arg.NonInt? ==> r == Reject(ProjectionNotInteger)
    ensures arg.IntArg? && arg.v != n && arg.v <= 0 ==> r == Reject(ProjectionNotPositive)
    ensures arg.IntArg? && arg.v > n ==> r == Reject(ProjectionTooLarge)
  {
    match arg
    case NonInt => Reject(ProjectionNotInteger)
    case IntArg(k) =>
      if k == n then Same
      else if k <= 0 then Reject(ProjectionNotPositive)
      else if k > n then Reject(ProjectionTooLarge)
      else Down(k)
  }

  /** The same-size test comes first: a spectrum of size 0 projects to 0 unchanged, although 0 is not positive. */
  lemma ProjectSameSizeFirst()
    ensures ProjectGuard(0, IntArg(0)) == Same
    ensures forall n: nat :: n > 0 ==> ProjectGuard(n, IntArg(0)) == Reject(ProjectionNotPositive)
  {
  }

  class Spectrum {
    var data: seq<real>
    var sampleSize: nat
    var folded: bool

    /** The data length matches the sample size. */
    ghost predicate Valid()
      reads this
    {
      |data| == Tri(sampleSize)
    }

    function State(): Fields
      reads this
    {
      Fields(data, sampleSize, folded)
    }

    constructor (fields: Fields)
      requires |fields.data| == Tri(fields.sampleSize)
      ensures Valid() && State() == fields
    {
      data := fields.data;
      sampleSize := fields.sampleSize;
      folded := fields.folded;
    }

    /**
     * `Spectrum(data, sample_size, folded)`: the validator on the sample
     * size, then the post-initialisation steps that fill in the data or the
     * sample size and check that they agree.
     */
    static method New(data: Option<seq<real>>, sampleSize: Option<int>, folded: bool) returns (r: Result<Spectrum, Error>)
      ensures r.Failure? <==> Construct(data, sampleSize, folded).Failure?
      ensures r.Failure? ==> r.error == Construct(data, sampleSize, folded).error
      ensures r.Success? ==> fresh(r.value) && r.value.Valid() && r.value.State() == Construct(data, sampleSize, folded).value
    {
      var checked := ValidateSampleSize(sampleSize);
      if checked.Fail? {
        return Failure(checked.error);
      }
      if data.None? && sampleSize.None? {
        return Failure(NoDataOrSize);
      }
      var d: seq<real>;
      if data.None? {
        d := Zeros(Tri(sampleSize.value));
      } else {
        d := data.value;
      }
      var fromData := SizeFromLength(|d|);
      if fromData.None? {
        if |d| == 0 && sampleSize.Some? {
          return Failure(LengthMismatch(sampleSize.value));
        }
        return Failure(InvalidLength);
      }
      var n: nat;
      if sampleSize.None? {
        n := fromData.value;
      } else if fromData.value != sampleSize.value {
        return Failure(LengthMismatch(sampleSize.value));
      } else {
        n := sampleSize.value;
      }
      var s := new Spectrum(Fields(d, n, folded));
      return Success(s);
    }

    /**
     * `_as_masked_array`: copies the flat data row by row into an
     * (n + 1) x (n + 1) square, with a mask that is false exactly on the
     * copied cells. Masked cells hold 0.
     */
    method AsMaskedArray() returns (values: array2<real>, mask: array2<bool>)
      requires Valid()
      ensures fresh(values) && fresh(mask)
      ensures values.Length0 == sampleSize + 1 && values.Length1 == sampleSize + 1
      ensures mask.Length0 == sampleSize + 1 && mask.Length1 == sampleSize + 1
      ensures forall i, j :: 0 <= i <= sampleSize && 0 <= j <= sampleSize ==>
        (mask[i, j] <==> !Unmasked(sampleSize, i, j))
      ensures forall i, j :: 0 <= i <= sampleSize && 0 <= j <= sampleSize ==>
        values[i, j] == if Unmasked(sampleSize, i, j) then data[FlatIndex(sampleSize, i, j)] else 0.0
    {
      var n := sampleSize;
      values := new real[n + 1, n + 1]((_, _) => 0.0);
      mask := new bool[n + 1, n + 1]((_, _) => true);
      var c := 0;
      for i := 0 to n + 1
        invariant c == Offset(n, i)
        invariant forall r, j :: 0 <= r < i && 0 <= j <= n ==> (mask[r, j] <==> !Unmasked(n, r, j))
        invariant forall r, j :: 0 <= r < i && 0 <= j <= n ==>
          values[r, j] == if Unmasked(n, r, j) then data[FlatIndex(n, r, j)] else 0.0
        invariant forall r, j :: i <= r <= n && 0 <= j <= n ==> mask[r, j] && values[r, j] == 0.0
      {
        OffsetMonotone(n, i, n + 1);
        OffsetTotal(n);
        forall j | 0 <= j < n + 1 - i {
          values[i, j] := data[c + j];
        }
        forall j | 0 <= j < n + 1 - i {
          mask[i, j] := false;
        }
        c := c + (n + 1 - i);
      }
      OffsetTotal(n);
      assert c == |data|;
    }

    /** `spectrum[i, j]`: the entry of the unpacked square, numpy's negative indices included. */
    method GetItem(i: int, j: int) returns (r: Result<Entry, Error>)
      requires Valid()
      ensures r.Failure? <==> NormalizeIndex(sampleSize, i).None? || NormalizeIndex(sampleSize, j).None?
      ensures r.Failure? ==> r.error == IndexOutOfRange
      ensures r.Success? ==>
        r.value == Unpacked(data, sampleSize, NormalizeIndex(sampleSize, i).value, NormalizeIndex(sampleSize, j).value)
    {
      var values, mask := AsMaskedArray();
      var row := NormalizeIndex(sampleSize, i);
      var col := NormalizeIndex(sampleSize, j);
      if row.None? || col.None? {
        return Failure(IndexOutOfRange);
      }
      if mask[row.value, col.value] {
        r := Success(Masked);
      } else {
        r := Success(Value(values[row.value, col.value]));
      }
    }

    /**
     * `project(n_proj)`: the guards, then a new spectrum built from the
     * down-projected data. The down-projection itself is `downProject`.
     */
    method Project(nProj: ProjArg, downProject: (seq<real>, nat) -> seq<real>) returns (r: Result<Spectrum, Error>)
      requires Valid()
      ensures ProjectGuard(sampleSize, nProj) == Same ==> r == Success(this)
      ensures ProjectGuard(sampleSize, nProj).Reject? ==> r == Failure(ProjectGuard(sampleSize, nProj).error)
      ensures ProjectGuard(sampleSize, nProj).Down? ==>
        var k := ProjectGuard(sampleSize, nProj).size;
        var built := Construct(Some(downProject(data, k)), None, false);
        && (r.Failure? <==> built.Failure?)
        && (r.Failure? ==> r.error == built.error)
        && (r.Success? ==> fresh(r.value) && r.value.Valid() && r.value.State() == built.value)
        && (|downProject(data, k)| == Tri(k) ==> r.Success? && r.value.sampleSize == k && !r.value.folded)
    {
      var step := ProjectGuard(sampleSize, nProj);
      match step
      case Same =>
        r := Success(this);
      case Reject(e) =>
        r := Failure(e);
      case Down(k) =>
        var projected := downProject(data, k);
        ConstructFromDataOnly(projected, false);
        r := New(Some(projected), None, false);
    }
  }
}
