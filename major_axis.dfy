/**
  The discrete part of `find_ma_sigma` (find_ma_sigma.py): sampling the
  stellar velocity dispersion map along the fitted kinematic major axis.

  The position-angle fit and the straight-line fit through the axis end
  points are floating-point work done outside this model. What comes in is
  the fitted angle `angBest` and, for every step of the loop, the value the
  fitted line takes there (`a * i + b` when stepping along x,
  `(i - b) / a` when stepping along y). Everything after that is modelled:
  the ValueError the radius raises for a velocity map whose axes do not
  broadcast, the choice of the independent axis, the conversion of centred coordinates
  back to array indices with Python's `round`, the bounds check as written,
  numpy's indexing of `ssig` (negative indices wrap, others raise
  IndexError) and the removal of zero samples.
 */
module MajorAxis {

  datatype Option<T> = None | Some(value: T)

  /** A position in `ssig`, in numpy order: `ssig[row, col]`. */
  datatype Index = Index(row: int, col: int)

  /** What `find_ma_sigma` returns or raises. */
  datatype Outcome = Samples(values: seq<real>) | IndexError(at: Index) | ValueError

  // ---------------------------------------------------------------------
  // Choice of the independent axis

  /** Step along the horizontal coordinate `nx` (else along `ny`). */
  predicate IterateHorizontally(angBest: real): (b: bool)
    ensures !b <==> angBest <= 45.0 || 135.0 <= angBest
  {
    45.0 < angBest < 135.0
  }

  /** The boundary angles themselves, and everything outside, step along `ny`. */
  lemma BranchBoundaries()
    ensures !IterateHorizontally(45.0) && !IterateHorizontally(135.0)
    ensures IterateHorizontally(45.0001) && IterateHorizontally(134.9999)
    ensures IterateHorizontally(90.0) && !IterateHorizontally(0.0) && !IterateHorizontally(180.0)
  {
  }

  /** The number of loop steps: the length of `nx` or of `ny`. */
  function IterateCount(angBest: real, velShape0: nat, velShape1: nat): (n: nat)
    ensures IterateHorizontally(angBest) ==> n == velShape0
    ensures !IterateHorizontally(angBest) ==> n == velShape1
    ensures n <= if velShape0 <= velShape1 then velShape1 else velShape0
  {
    if IterateHorizontally(angBest) then velShape0 else velShape1
  }

  // ---------------------------------------------------------------------
  // Coordinates and rounding

  function Half(n: nat): real {
    n as real / 2.0
  }

  /** `nx[k]`: column k measured from the centre of the map. */
  function CoordX(n: nat, k: nat): (x: real)
    ensures x + Half(n) == k as real
  {
    k as real - Half(n)
  }

  /** `ny[k]`: row k measured from the centre of the map, pointing up. */
  function CoordY(n: nat, k: nat): (y: real)
    ensures y + Half(n) == (n - k) as real
  {
    -(k as real - Half(n))
  }

  /** Python's `round` on a float: the nearest integer, ties to the even one. */
  function PyRound(x: real): (n: int)
    ensures x - 0.5 <= n as real <= x + 0.5
    ensures (n as real == x - 0.5 || n as real == x + 0.5) ==> n % 2 == 0
  {
    var f := x.Floor;
    var d := x - f as real;
    if d < 0.5 then f
    else if d > 0.5 then f + 1
    else if f % 2 == 0 then f
    else f + 1
  }

  lemma PyRoundExamples()
    ensures PyRound(2.5) == 2 && PyRound(3.5) == 4 && PyRound(-0.5) == 0
    ensures PyRound(-1.5) == -2 && PyRound(2.4) == 2 && PyRound(2.6) == 3
  {
  }

  /** The index `int(round(...))` computes at loop step `k`. */
  function AxisIndex(horizontal: bool, velShape0: nat, velShape1: nat, fitted: real, k: nat): (c: Index)
    ensures horizontal ==> c.col == k && fitted + Half(velShape1) - 0.5 <= c.row as real <= fitted + Half(velShape1) + 0.5
    ensures horizontal && (c.row as real == fitted + Half(velShape1) - 0.5 || c.row as real == fitted + Half(velShape1) + 0.5) ==>
              c.row % 2 == 0
    ensures !horizontal ==> c.row == velShape1 - k && fitted + Half(velShape0) - 0.5 <= c.col as real <= fitted + Half(velShape0) + 0.5
    ensures !horizontal && (c.col as real == fitted + Half(velShape0) - 0.5 || c.col as real == fitted + Half(velShape0) + 0.5) ==>
              c.col % 2 == 0
  {
    if horizontal then
      Index(row := PyRound(fitted + Half(velShape1)), col := PyRound(CoordX(velShape0, k) + Half(velShape0)))
    else
      Index(row := PyRound(CoordY(velShape1, k) + Half(velShape1)), col := PyRound(fitted + Half(velShape0)))
  }

  /** The indices of all loop steps, in loop order; `fitted` holds one line value per step. */
  function Candidates(horizontal: bool, velShape0: nat, velShape1: nat, fitted: seq<real>): (cs: seq<Index>)
    ensures |cs| == |fitted|
    ensures forall k :: 0 <= k < |cs| ==> cs[k] == AxisIndex(horizontal, velShape0, velShape1, fitted[k], k)
    ensures forall k :: 0 <= k < |cs| ==> if horizontal then cs[k].col == k else cs[k].row == velShape1 - k
  {
    seq(|fitted|, k requires 0 <= k < |fitted| => AxisIndex(horizontal, velShape0, velShape1, fitted[k], k))
  }

  // ---------------------------------------------------------------------
  // The bounds check and numpy's indexing

  /** The test the source applies before looking a sample up (upper bounds only, axes as written). */
  predicate PassesBoundsCheck(ssig: array2<real>, c: Index): (b: bool)
    ensures ssig.Length0 == ssig.Length1 && 0 <= c.row && 0 <= c.col ==>
              (b <==> c.row < ssig.Length0 && c.col < ssig.Length1)
  {
    c.row < ssig.Length1 && c.col < ssig.Length0
  }

  /** numpy's reading of one index on an axis of length `n`: negatives count from the end. */
  function NumpyAxis(i: int, n: nat): (r: Option<nat>)
    ensures r.Some? <==> -(n as int) <= i < n
    ensures r.Some? ==> r.value < n && r.value == i % n
  {
    if 0 <= i < n then Some(i)
    else if -(n as int) <= i < 0 then Some(i + n)
    else None
  }

  /** `ssig[y_int, x_int]`: a value, or None where numpy raises IndexError. */
  function Lookup(ssig: array2<real>, c: Index): (v: Option<real>)
    reads ssig
    ensures v.Some? <==> -ssig.Length0 <= c.row < ssig.Length0 && -ssig.Length1 <= c.col < ssig.Length1
    ensures v.Some? ==> v.value == ssig[c.row % ssig.Length0, c.col % ssig.Length1]
  {
    match (NumpyAxis(c.row, ssig.Length0), NumpyAxis(c.col, ssig.Length1))
    case (Some(r), Some(q)) => Some(ssig[r, q])
    case _ => None
  }

  // ---------------------------------------------------------------------
  // Collecting the samples

  /** What the loop has appended to `ma_sigma` after stepping through `cands`. */
  function Collect(ssig: array2<real>, cands: seq<Index>): (r: Outcome)
    reads ssig
    ensures r.Samples? ==> |r.values| <= |cands|
    ensures r.IndexError? ==> r.at in cands && PassesBoundsCheck(ssig, r.at) && Lookup(ssig, r.at) == None
    ensures !r.ValueError?
    decreases |cands|
  {
    if cands == [] then Samples([])
    else
      var last := cands[|cands| - 1];
      var before := Collect(ssig, cands[..|cands| - 1]);
      if !before.Samples? then before
      else if !PassesBoundsCheck(ssig, last) then before
      else match Lookup(ssig, last)
        case None => IndexError(last)
        case Some(v) => Samples(before.values + [v])
  }

  /** The candidates that pass the bounds check, in loop order. */
  function Kept(ssig: array2<real>, cands: seq<Index>): (r: seq<Index>)
    ensures |r| <= |cands|
    ensures forall c :: c in r <==> c in cands && PassesBoundsCheck(ssig, c)
    ensures |r| == |cands| ==> r == cands
    decreases |cands|
  {
    if cands == [] then []
    else
      var last := cands[|cands| - 1];
      Kept(ssig, cands[..|cands| - 1]) + (if PassesBoundsCheck(ssig, last) then [last] else [])
  }

  /**
    The loop raises exactly when one of the candidates that pass the check
    cannot be looked up; otherwise it collects the looked-up value of every
    such candidate, one each, in loop order, and skips the others silently.
   */
  lemma {:induction false} CollectIsKeptLookups(ssig: array2<real>, cands: seq<Index>)
    ensures var r, kept := Collect(ssig, cands), Kept(ssig, cands);
              r.Samples? ==> forall j :: 0 <= j < |kept| ==> Lookup(ssig, kept[j]).Some?
    ensures (forall j :: 0 <= j < |Kept(ssig, cands)| ==> Lookup(ssig, Kept(ssig, cands)[j]).Some?) ==>
              Collect(ssig, cands).Samples?
    ensures var r, kept := Collect(ssig, cands), Kept(ssig, cands);
              r.Samples? ==>
                |r.values| == |kept| &&
                forall j :: 0 <= j < |kept| ==> Lookup(ssig, kept[j]) == Some(r.values[j])
    decreases |cands|
  {
    if cands != [] {
      var prefix, last := cands[..|cands| - 1], cands[|cands| - 1];
      CollectIsKeptLookups(ssig, prefix);
      var kp := Kept(ssig, prefix);
      var k := Kept(ssig, cands);
      assert k == kp + (if PassesBoundsCheck(ssig, last) then [last] else []);
      assert forall j :: 0 <= j < |kp| ==> k[j] == kp[j];
      if Collect(ssig, prefix).IndexError? {
        var j :| 0 <= j < |kp| && Lookup(ssig, kp[j]).None?;
        assert Lookup(ssig, k[j]).None?;
      } else if PassesBoundsCheck(ssig, last) {
        assert k[|kp|] == last;
      } else {
        assert k == kp;
      }
    }
  }

  /** One more loop step, after steps that raised nothing. */
  lemma CollectStep(ssig: array2<real>, cands: seq<Index>, k: nat)
    requires k < |cands| && Collect(ssig, cands[..k]).Samples?
    ensures Collect(ssig, cands[..k + 1]) ==
              if !PassesBoundsCheck(ssig, cands[k]) then Collect(ssig, cands[..k])
              else match Lookup(ssig, cands[k])
                case None => IndexError(cands[k])
                case Some(v) => Samples(Collect(ssig, cands[..k]).values + [v])
  {
    assert cands[..k + 1][..k] == cands[..k];
  }

  /** A raised IndexError ends the loop: later steps do not change the outcome. */
  lemma {:induction false} CollectErrorPersists(ssig: array2<real>, cands: seq<Index>, k: nat)
    requires k <= |cands|
    requires Collect(ssig, cands[..k]).IndexError?
    ensures Collect(ssig, cands) == Collect(ssig, cands[..k])
    decreases |cands| - k
  {
    if k < |cands| {
      assert cands[..|cands|][..k] == cands[..k];
      var prefix := cands[..|cands| - 1];
      assert prefix[..k] == cands[..k];
      CollectErrorPersists(ssig, prefix, k);
    } else {
      assert cands[..k] == cands;
    }
  }

  /** A candidate that fails the check costs one sample. */
  lemma {:induction false} KeptShorter(ssig: array2<real>, cands: seq<Index>, i: nat)
    requires i < |cands| && !PassesBoundsCheck(ssig, cands[i])
    ensures |Kept(ssig, cands)| < |cands|
    decreases |cands|
  {
    var prefix := cands[..|cands| - 1];
    if i < |cands| - 1 {
      assert prefix[i] == cands[i];
      KeptShorter(ssig, prefix, i);
    }
  }

  // ---------------------------------------------------------------------
  // Removing the zero samples

  /** `[x for x in s if x != 0]`. */
  function NonZero(s: seq<real>): (r: seq<real>)
    ensures |r| <= |s|
    ensures forall i :: 0 <= i < |r| ==> r[i] != 0.0
    ensures multiset(r) == multiset(s)[0.0 := 0]
  {
    if s == [] then []
    else
      assert s == [s[0]] + s[1..];
      if s[0] == 0.0 then NonZero(s[1..]) else [s[0]] + NonZero(s[1..])
  }

  /** `r` is `s` with some elements left out, the rest in their order. */
  predicate IsSubsequence<T(==)>(r: seq<T>, s: seq<T>)
    decreases |s|
  {
    if r == [] then true
    else if s == [] then false
    else (r[0] == s[0] && IsSubsequence(r[1..], s[1..])) || IsSubsequence(r, s[1..])
  }

  lemma {:induction false} NonZeroIsSubsequence(s: seq<real>)
    ensures IsSubsequence(NonZero(s), s)
  {
    if s != [] {
      NonZeroIsSubsequence(s[1..]);
      if s[0] != 0.0 {
        assert NonZero(s)[1..] == NonZero(s[1..]);
      }
    }
  }

  /** A subsequence stays one when both lists grow at the end, or only the longer one. */
  lemma {:induction false} IsSubsequenceSnoc<T>(r: seq<T>, s: seq<T>, x: T)
    requires IsSubsequence(r, s)
    ensures IsSubsequence(r, s + [x]) && IsSubsequence(r + [x], s + [x])
    decreases |s|
  {
    if s == [] {
      assert r == [];
      assert ([] + [x])[1..] == [];
    } else {
      assert (s + [x])[0] == s[0] && (s + [x])[1..] == s[1..] + [x];
      if r == [] {
        IsSubsequenceSnoc(r, s[1..], x);
        assert r + [x] == [x];
      } else {
        assert (r + [x])[0] == r[0] && (r + [x])[1..] == r[1..] + [x];
        if r[0] == s[0] && IsSubsequence(r[1..], s[1..]) {
          IsSubsequenceSnoc(r[1..], s[1..], x);
        } else {
          IsSubsequenceSnoc(r, s[1..], x);
        }
      }
    }
  }

  /** The steps that pass the check keep their loop order. */
  lemma {:induction false} KeptIsSubsequence(ssig: array2<real>, cands: seq<Index>)
    ensures IsSubsequence(Kept(ssig, cands), cands)
    decreases |cands|
  {
    if cands != [] {
      var prefix, last := cands[..|cands| - 1], cands[|cands| - 1];
      KeptIsSubsequence(ssig, prefix);
      var kp := Kept(ssig, prefix);
      IsSubsequenceSnoc(kp, prefix, last);
      assert prefix + [last] == cands;
      if PassesBoundsCheck(ssig, last) {
        assert Kept(ssig, cands) == kp + [last];
      } else {
        assert Kept(ssig, cands) == kp;
      }
    }
  }

  /** A list without zeros passes the filter unchanged. */
  lemma {:induction false} NonZeroKeepsZeroFree(s: seq<real>)
    requires forall i :: 0 <= i < |s| ==> s[i] != 0.0
    ensures NonZero(s) == s
  {
    if s != [] {
      NonZeroKeepsZeroFree(s[1..]);
      assert [s[0]] + s[1..] == s;
    }
  }

  /** Filtering twice is filtering once. */
  lemma NonZeroIdempotent(s: seq<real>)
    ensures NonZero(NonZero(s)) == NonZero(s)
  {
    NonZeroKeepsZeroFree(NonZero(s));
  }

  /** The filter works element by element, so it keeps loop order across any split. */
  lemma {:induction false} NonZeroAppend(a: seq<real>, b: seq<real>)
    ensures NonZero(a + b) == NonZero(a) + NonZero(b)
  {
    if a != [] {
      assert (a + b)[0] == a[0];
      assert (a + b)[1..] == a[1..] + b;
      NonZeroAppend(a[1..], b);
    } else {
      assert a + b == b;
    }
  }

  // ---------------------------------------------------------------------
  // The whole extraction

  /**
    `max(nx**2 + ny**2)` (the radius of the axis) can be evaluated: numpy
    broadcasts `nx`, of length `svel.shape[0]`, against `ny`, of length
    `svel.shape[1]`, only when the lengths are equal or one of them is 1, and
    `max` of the resulting array needs at least one element. Otherwise
    ValueError is raised before either loop runs.
   */
  predicate RadiusDefined(velShape0: nat, velShape1: nat) {
    0 < velShape0 && 0 < velShape1 && (velShape0 == velShape1 || velShape0 == 1 || velShape1 == 1)
  }

  /** What `find_ma_sigma` returns, given the fitter's angle and the fitted line values. */
  function MajorAxisSigma(ssig: array2<real>, velShape0: nat, velShape1: nat, angBest: real, fitted: seq<real>): (r: Outcome)
    reads ssig
    ensures r.ValueError? <==> !RadiusDefined(velShape0, velShape1)
    ensures r.Samples? ==> |r.values| <= |fitted|
    ensures r.Samples? ==> forall i :: 0 <= i < |r.values| ==> r.values[i] != 0.0
  {
    if !RadiusDefined(velShape0, velShape1) then ValueError
    else
      var collected := Collect(ssig, Candidates(IterateHorizontally(angBest), velShape0, velShape1, fitted));
      if collected.Samples? then Samples(NonZero(collected.values)) else collected
  }

  /** A velocity map of 2 by 3 spaxels makes the radius fail, whatever the fit. */
  lemma NonSquareVelocityMapRaises(ssig: array2<real>, angBest: real, fitted: seq<real>)
    ensures MajorAxisSigma(ssig, 2, 3, angBest, fitted) == ValueError
    ensures MajorAxisSigma(ssig, 1, 3, angBest, fitted) != ValueError
  {
  }

  /**
    The `for i in nx` loop: `fitted[k]` is `a * nx[k] + b`. It returns the
    samples it appended, or the IndexError numpy raises.
   */
  method CollectAlongNx(ssig: array2<real>, velShape0: nat, velShape1: nat, fitted: seq<real>)
    returns (r: Outcome)
    requires |fitted| == velShape0
    ensures r == Collect(ssig, Candidates(true, velShape0, velShape1, fitted))
  {
    ghost var cands := Candidates(true, velShape0, velShape1, fitted);
    var maSigma: seq<real> := [];
    for k := 0 to velShape0
      invariant Collect(ssig, cands[..k]) == Samples(maSigma)
    {
      var xInt := PyRound(CoordX(velShape0, k) + Half(velShape0));
      var yInt := PyRound(fitted[k] + Half(velShape1));
      assert cands[k] == Index(yInt, xInt);
      CollectStep(ssig, cands, k);
      if yInt < ssig.Length1 && xInt < ssig.Length0 {
        var sig := Lookup(ssig, Index(yInt, xInt));
        if sig.None? {
          CollectErrorPersists(ssig, cands, k + 1);
          return IndexError(Index(yInt, xInt));
        }
        maSigma := maSigma + [sig.value];
      }
    }
    assert cands[..|cands|] == cands;
    r := Samples(maSigma);
  }

  /** The `for i in ny` loop: `fitted[k]` is `(ny[k] - b) / a`. */
  method CollectAlongNy(ssig: array2<real>, velShape0: nat, velShape1: nat, fitted: seq<real>)
    returns (r: Outcome)
    requires |fitted| == velShape1
    ensures r == Collect(ssig, Candidates(false, velShape0, velShape1, fitted))
  {
    ghost var cands := Candidates(false, velShape0, velShape1, fitted);
    var maSigma: seq<real> := [];
    for k := 0 to velShape1
      invariant Collect(ssig, cands[..k]) == Samples(maSigma)
    {
      var yInt := PyRound(CoordY(velShape1, k) + Half(velShape1));
      var xInt := PyRound(fitted[k] + Half(velShape0));
      assert cands[k] == Index(yInt, xInt);
      CollectStep(ssig, cands, k);
      if yInt < ssig.Length1 && xInt < ssig.Length0 {
        var sig := Lookup(ssig, Index(yInt, xInt));
        if sig.None? {
          CollectErrorPersists(ssig, cands, k + 1);
          return IndexError(Index(yInt, xInt));
        }
        maSigma := maSigma + [sig.value];
      }
    }
    assert cands[..|cands|] == cands;
    r := Samples(maSigma);
  }

  /**
    `find_ma_sigma` from the point where the fits are done. `velShape0` and
    `velShape1` are `svel.shape`; `fitted[k]` is the fitted line's value at
    the k-th element of `nx` (or of `ny`). A `svel` shape for which the
    radius cannot be computed raises ValueError before either loop.
   */
  method FindMaSigma(ssig: array2<real>, velShape0: nat, velShape1: nat, angBest: real, fitted: seq<real>)
    returns (r: Outcome)
    requires |fitted| == IterateCount(angBest, velShape0, velShape1)
    ensures r == MajorAxisSigma(ssig, velShape0, velShape1, angBest, fitted)
    ensures r.Samples? ==> |r.values| <= IterateCount(angBest, velShape0, velShape1)
    ensures r.Samples? ==> forall i :: 0 <= i < |r.values| ==> r.values[i] != 0.0
  {
    if !RadiusDefined(velShape0, velShape1) {
      return ValueError;
    }
    var collected;
    if IterateHorizontally(angBest) {
      collected := CollectAlongNx(ssig, velShape0, velShape1, fitted);
    } else {
      collected := CollectAlongNy(ssig, velShape0, velShape1, fitted);
    }
    if collected.Samples? {
      r := Samples(NonZero(collected.values));
    } else {
      r := collected;
    }
  }

  // ---------------------------------------------------------------------
  // Consequences of the bounds check as written

  /**
    Stepping along `nx` over a map at least as wide as `svel`, the column is
    always in range, so only the row can fail the check.
   */
  lemma HorizontalOnlyRowCanFail(ssig: array2<real>, velShape0: nat, velShape1: nat, fitted: seq<real>, k: nat)
    requires |fitted| == velShape0 <= ssig.Length0 && k < |fitted|
    ensures PassesBoundsCheck(ssig, Candidates(true, velShape0, velShape1, fitted)[k])
        <==> Candidates(true, velShape0, velShape1, fitted)[k].row < ssig.Length1
  {
  }

  /**
    Stepping along `ny` when `ssig` has the shape of `svel`: the first step
    asks for row `shape[1]`, which always fails the check, so at most
    `shape[1] - 1` samples come back.
   */
  lemma VerticalFirstStepDropped(ssig: array2<real>, velShape0: nat, velShape1: nat, angBest: real, fitted: seq<real>)
    requires !IterateHorizontally(angBest)
    requires |fitted| == velShape1 == ssig.Length1 && velShape1 > 0
    ensures !PassesBoundsCheck(ssig, Candidates(false, velShape0, velShape1, fitted)[0])
    ensures MajorAxisSigma(ssig, velShape0, velShape1, angBest, fitted).Samples? ==>
              |MajorAxisSigma(ssig, velShape0, velShape1, angBest, fitted).values| < velShape1
  {
    var cands := Candidates(false, velShape0, velShape1, fitted);
    KeptShorter(ssig, cands, 0);
    CollectIsKeptLookups(ssig, cands);
  }

  /**
    Only the upper bound is tested: a negative row from `-shape[0]` up passes
    the check, and numpy reads the row that many places from the end.
   */
  lemma NegativeIndexWraps(ssig: array2<real>, row: int, col: int)
    requires -ssig.Length0 <= row < 0
    requires 0 <= col < ssig.Length0 && col < ssig.Length1
    ensures PassesBoundsCheck(ssig, Index(row, col))
    ensures Collect(ssig, [Index(row, col)]) == Samples([ssig[row + ssig.Length0, col]])
  {
    assert [Index(row, col)][..0] == [];
  }

  /**
    On a square map (MaNGA maps are square) the swapped axes in the check do
    no harm: an IndexError can only come from an index below `-N`.
   */
  lemma SquareMapFailsOnlyBelowMinusN(ssig: array2<real>, cands: seq<Index>)
    requires ssig.Length0 == ssig.Length1
    ensures Collect(ssig, cands).IndexError? ==>
              Collect(ssig, cands).at.row < -ssig.Length0 || Collect(ssig, cands).at.col < -ssig.Length1
  {
  }

  /** On a map with 2 rows and 3 columns, row 2 passes the check and numpy raises. */
  lemma NonSquareMapCanRaise(ssig: array2<real>)
    requires ssig.Length0 == 2 && ssig.Length1 == 3
    ensures PassesBoundsCheck(ssig, Index(2, 0))
    ensures Collect(ssig, [Index(2, 0)]) == IndexError(Index(2, 0))
  {
    assert [Index(2, 0)][..0] == [];
  }
}
