/**
 * The fixed-size spectra of src/spectrum/mod.rs and src/spectrum/rgb.rs. A
 * `CoefficientSpectrum<N>` holds `N` coefficients in an array `c` that every operation walks
 * index by index, either in place (`+=`, `-=`, `*=`, `/=`) or on a clone (`+`, `-`, `*`, `/`,
 * negation, `clamp`). The functions on `seq<real>` below say what each walk computes.
 */
module Spectra {

  /** `N` zeros. */
  function Zeros(n: nat): (s: seq<real>)
    ensures |s| == n && forall i :: 0 <= i < n ==> s[i] == 0.0
  {
    seq(n, _ => 0.0)
  }

  /** Every coefficient is exactly 0. */
  predicate Black(s: seq<real>)
  {
    forall i :: 0 <= i < |s| ==> s[i] == 0.0
  }

  /** `min` below `min`, `max` above `max`, else the value itself (tested in that order). */
  function ClampValue(v: real, min: real, max: real): real
  {
    if v < min then min else if v > max then max else v
  }

  function ClampAll(s: seq<real>, min: real, max: real): (r: seq<real>)
    ensures |r| == |s| && forall i :: 0 <= i < |s| ==> r[i] == ClampValue(s[i], min, max)
  {
    seq(|s|, i requires 0 <= i < |s| => ClampValue(s[i], min, max))
  }

  function Plus(a: seq<real>, b: seq<real>): (r: seq<real>)
    requires |a| == |b|
    ensures |r| == |a| && forall i :: 0 <= i < |a| ==> r[i] == a[i] + b[i]
  {
    seq(|a|, i requires 0 <= i < |a| => a[i] + b[i])
  }

  function Minus(a: seq<real>, b: seq<real>): (r: seq<real>)
    requires |a| == |b|
    ensures |r| == |a| && forall i :: 0 <= i < |a| ==> r[i] == a[i] - b[i]
  {
    seq(|a|, i requires 0 <= i < |a| => a[i] - b[i])
  }

  function Times(a: seq<real>, b: seq<real>): (r: seq<real>)
    requires |a| == |b|
    ensures |r| == |a| && forall i :: 0 <= i < |a| ==> r[i] == a[i] * b[i]
  {
    seq(|a|, i requires 0 <= i < |a| => a[i] * b[i])
  }

  /** No divisor is 0 (the float code would produce infinities or NaN). */
  predicate NonZero(b: seq<real>)
  {
    forall i :: 0 <= i < |b| ==> b[i] != 0.0
  }

  function Over(a: seq<real>, b: seq<real>): (r: seq<real>)
    requires |a| == |b| && NonZero(b)
    ensures |r| == |a| && forall i :: 0 <= i < |a| ==> r[i] == a[i] / b[i]
  {
    seq(|a|, i requires 0 <= i < |a| => a[i] / b[i])
  }

  function Scale(a: seq<real>, k: real): (r: seq<real>)
    ensures |r| == |a| && forall i :: 0 <= i < |a| ==> r[i] == a[i] * k
  {
    seq(|a|, i requires 0 <= i < |a| => a[i] * k)
  }

  function Shrink(a: seq<real>, k: real): (r: seq<real>)
    requires k != 0.0
    ensures |r| == |a| && forall i :: 0 <= i < |a| ==> r[i] == a[i] / k
  {
    seq(|a|, i requires 0 <= i < |a| => a[i] / k)
  }

  function Negated(a: seq<real>): (r: seq<real>)
    ensures |r| == |a| && forall i :: 0 <= i < |a| ==> r[i] == -a[i]
  {
    seq(|a|, i requires 0 <= i < |a| => -a[i])
  }

  /** `CoefficientSpectrum<N>`: `n_samples` is `N` and `c` holds the `N` coefficients. */
  class Spectrum {
    const nSamples: nat
    const c: array<real>

    predicate Valid()
    {
      c.Length == nSamples
    }

    /** The coefficients as a value. */
    function Coefficients(): (s: seq<real>)
      reads c
    {
      c[..]
    }

    /** `new`: `N` coefficients, all 0. */
    constructor (n: nat)
      ensures Valid() && nSamples == n && fresh(c)
      ensures Coefficients() == Zeros(n)
    {
      nSamples := n;
      c := new real[n](_ => 0.0);
    }

    /** `clone`: a copy with its own array. */
    method Clone() returns (r: Spectrum)
      requires Valid()
      ensures fresh(r) && fresh(r.c) && r.Valid() && r.nSamples == nSamples
      ensures r.Coefficients() == Coefficients()
    {
      r := new Spectrum(nSamples);
      forall i | 0 <= i < nSamples {
        r.c[i] := c[i];
      }
    }

    /** `is_black`: scans for the first coefficient that is not 0. */
    method IsBlack() returns (b: bool)
      requires Valid()
      ensures b <==> Black(c[..])
    {
      for i := 0 to nSamples
        invariant forall k :: 0 <= k < i ==> c[k] == 0.0
      {
        if c[i] != 0.0 {
          return false;
        }
      }
      return true;
    }

    /** `clamp`: a clone with every coefficient clamped to `[min, max]`. */
    method Clamp(min: real, max: real) returns (r: Spectrum)
      requires Valid()
      ensures fresh(r) && fresh(r.c) && r.Valid() && r.nSamples == nSamples
      ensures r.Coefficients() == ClampAll(Coefficients(), min, max)
    {
      r := Clone();
      for i := 0 to nSamples
        invariant forall k :: 0 <= k < i ==> r.c[k] == ClampValue(c[k], min, max)
        invariant forall k :: i <= k < nSamples ==> r.c[k] == c[k]
      {
        var value := if r.c[i] < min then min else if r.c[i] > max then max else r.c[i];
        r.c[i] := value;
      }
    }

    /** `max_component_value`: starts from `c[0]`, so it needs at least one coefficient. */
    method MaxComponentValue() returns (max: real)
      requires Valid() && nSamples >= 1
      ensures forall i :: 0 <= i < nSamples ==> c[i] <= max
      ensures exists i :: 0 <= i < nSamples && c[i] == max
    {
      max := c[0];
      ghost var at := 0;
      for i := 1 to nSamples
        invariant 0 <= at < i && c[at] == max
        invariant forall k :: 0 <= k < i ==> c[k] <= max
      {
        if c[i] > max {
          max := c[i];
          at := i;
        }
      }
    }

    /** `+=`: adds the right-hand side, a copy, coefficient by coefficient. */
    method AddAssign(rhs: Spectrum)
      requires Valid() && rhs.Valid() && rhs.nSamples == nSamples
      modifies c
      ensures Coefficients() == Plus(old(Coefficients()), old(rhs.Coefficients()))
    {
      var other := rhs.c[..];
      for i := 0 to nSamples
        invariant forall k :: 0 <= k < i ==> c[k] == old(c[k]) + other[k]
        invariant forall k :: i <= k < nSamples ==> c[k] == old(c[k])
      {
        c[i] := c[i] + other[i];
      }
    }

    /** `-=`. */
    method SubAssign(rhs: Spectrum)
      requires Valid() && rhs.Valid() && rhs.nSamples == nSamples
      modifies c
      ensures Coefficients() == Minus(old(Coefficients()), old(rhs.Coefficients()))
    {
      var other := rhs.c[..];
      for i := 0 to nSamples
        invariant forall k :: 0 <= k < i ==> c[k] == old(c[k]) - other[k]
        invariant forall k :: i <= k < nSamples ==> c[k] == old(c[k])
      {
        c[i] := c[i] - other[i];
      }
    }

    /** `*=` by a spectrum. */
    method MulAssign(rhs: Spectrum)
      requires Valid() && rhs.Valid() && rhs.nSamples == nSamples
      modifies c
      ensures Coefficients() == Times(old(Coefficients()), old(rhs.Coefficients()))
    {
      var other := rhs.c[..];
      for i := 0 to nSamples
        invariant forall k :: 0 <= k < i ==> c[k] == old(c[k]) * other[k]
        invariant forall k :: i <= k < nSamples ==> c[k] == old(c[k])
      {
        c[i] := c[i] * other[i];
      }
      forall k | 0 <= k < nSamples
        ensures c[k] == Times(old(c[..]), other)[k]
      {
        assert old(c[..])[k] == old(c[k]);
      }
    }

    /** `/=` by a scalar, which must not be 0. */
    method DivAssign(k: real)
      requires Valid() && k != 0.0
      modifies c
      ensures Coefficients() == Shrink(old(Coefficients()), k)
    {
      for i := 0 to nSamples
        invariant forall j :: 0 <= j < i ==> c[j] == old(c[j]) / k
        invariant forall j :: i <= j < nSamples ==> c[j] == old(c[j])
      {
        c[i] := c[i] / k;
      }
    }

    /** `+`: a clone, then `+=`. */
    method Add(rhs: Spectrum) returns (r: Spectrum)
      requires Valid() && rhs.Valid() && rhs.nSamples == nSamples
      ensures fresh(r) && fresh(r.c) && r.Valid() && r.nSamples == nSamples
      ensures r.Coefficients() == Plus(Coefficients(), rhs.Coefficients())
    {
      r := Clone();
      r.AddAssign(rhs);
    }

    /** `-`: a clone, then `-=`. */
    method Sub(rhs: Spectrum) returns (r: Spectrum)
      requires Valid() && rhs.Valid() && rhs.nSamples == nSamples
      ensures fresh(r) && fresh(r.c) && r.Valid() && r.nSamples == nSamples
      ensures r.Coefficients() == Minus(Coefficients(), rhs.Coefficients())
    {
      r := Clone();
      r.SubAssign(rhs);
    }

    /** `*` by a spectrum: a clone, then `*=`. */
    method Mul(rhs: Spectrum) returns (r: Spectrum)
      requires Valid() && rhs.Valid() && rhs.nSamples == nSamples
      ensures fresh(r) && fresh(r.c) && r.Valid() && r.nSamples == nSamples
      ensures r.Coefficients() == Times(Coefficients(), rhs.Coefficients())
    {
      r := Clone();
      r.MulAssign(rhs);
    }

    /** `/` by a spectrum without zero coefficients: a clone divided coefficient by coefficient. */
    method Div(rhs: Spectrum) returns (r: Spectrum)
      requires Valid() && rhs.Valid() && rhs.nSamples == nSamples && NonZero(rhs.Coefficients())
      ensures fresh(r) && fresh(r.c) && r.Valid() && r.nSamples == nSamples
      ensures r.Coefficients() == Over(Coefficients(), rhs.Coefficients())
    {
      r := Clone();
      var other := rhs.c[..];
      for i := 0 to nSamples
        invariant forall k :: 0 <= k < i ==> r.c[k] == c[k] / other[k]
        invariant forall k :: i <= k < nSamples ==> r.c[k] == c[k]
      {
        r.c[i] := r.c[i] / other[i];
      }
    }

    /** `*` by a scalar: a clone scaled coefficient by coefficient. */
    method MulScalar(k: real) returns (r: Spectrum)
      requires Valid()
      ensures fresh(r) && fresh(r.c) && r.Valid() && r.nSamples == nSamples
      ensures r.Coefficients() == Scale(Coefficients(), k)
    {
      r := Clone();
      for i := 0 to nSamples
        invariant forall j :: 0 <= j < i ==> r.c[j] == c[j] * k
        invariant forall j :: i <= j < nSamples ==> r.c[j] == c[j]
      {
        r.c[i] := r.c[i] * k;
      }
      forall j | 0 <= j < nSamples
        ensures r.c[j] == Scale(c[..], k)[j]
      {
        assert c[..][j] == c[j];
      }
    }

    /** `/` by a scalar other than 0. */
    method DivScalar(k: real) returns (r: Spectrum)
      requires Valid() && k != 0.0
      ensures fresh(r) && fresh(r.c) && r.Valid() && r.nSamples == nSamples
      ensures r.Coefficients() == Shrink(Coefficients(), k)
    {
      r := Clone();
      for i := 0 to nSamples
        invariant forall j :: 0 <= j < i ==> r.c[j] == c[j] / k
        invariant forall j :: i <= j < nSamples ==> r.c[j] == c[j]
      {
        r.c[i] := r.c[i] / k;
      }
    }

    /** Unary `-`: a clone with every coefficient negated. */
    method Neg() returns (r: Spectrum)
      requires Valid()
      ensures fresh(r) && fresh(r.c) && r.Valid() && r.nSamples == nSamples
      ensures r.Coefficients() == Negated(Coefficients())
    {
      r := Clone();
      for i := 0 to nSamples
        invariant forall k :: 0 <= k < i ==> r.c[k] == -c[k]
        invariant forall k :: i <= k < nSamples ==> r.c[k] == c[k]
      {
        r.c[i] := -r.c[i];
      }
    }

    /** `eq`: false at the first coefficient that differs. */
    method Eq(other: Spectrum) returns (b: bool)
      requires Valid() && other.Valid() && other.nSamples == nSamples
      ensures b <==> c[..] == other.c[..]
    {
      for i := 0 to nSamples
        invariant c[..i] == other.c[..i]
      {
        if c[i] != other.c[i] {
          return false;
        }
        assert c[..i + 1] == c[..i] + [c[i]] && other.c[..i + 1] == other.c[..i] + [other.c[i]];
      }
      assert c[..] == c[..nSamples] && other.c[..] == other.c[..nSamples];
      return true;
    }

    /** `ne`: exactly the negation of `eq`. */
    method Ne(other: Spectrum) returns (b: bool)
      requires Valid() && other.Valid() && other.nSamples == nSamples
      ensures b <==> c[..] != other.c[..]
    {
      var same := Eq(other);
      b := !same;
    }

    /** `RGBSpectrum::y` on a three-coefficient spectrum. */
    function Y(): (y: real)
      requires Valid() && nSamples == 3
      reads c
      ensures y == Luminance(Coefficients())
    {
      YWeights[0] * c[0] + YWeights[1] * c[1] + YWeights[2] * c[2]
    }
  }

  /** The weights `y` gives red, green and blue. */
  const YWeights: seq<real> := [0.212671, 0.715160, 0.072169]

  /** The weighted sum `y` computes over three coefficients. */
  function Luminance(s: seq<real>): real
    requires |s| == 3
  {
    YWeights[0] * s[0] + YWeights[1] * s[1] + YWeights[2] * s[2]
  }

  /** A new spectrum is black. */
  lemma NewIsBlack(n: nat)
    ensures Black(Zeros(n))
  {
  }

  /** Clamping with `min <= max` lands every coefficient in `[min, max]` and keeps those already there. */
  lemma ClampBounds(s: seq<real>, min: real, max: real)
    requires min <= max
    ensures forall i :: 0 <= i < |s| ==> min <= ClampAll(s, min, max)[i] <= max
    ensures forall i :: 0 <= i < |s| && min <= s[i] <= max ==> ClampAll(s, min, max)[i] == s[i]
  {
  }

  /** Clamping twice is clamping once. */
  lemma ClampIdempotent(s: seq<real>, min: real, max: real)
    requires min <= max
    ensures ClampAll(ClampAll(s, min, max), min, max) == ClampAll(s, min, max)
  {
  }

  /** Negating twice gives the coefficients back. */
  lemma NegNeg(s: seq<real>)
    ensures Negated(Negated(s)) == s
  {
  }

  /** Subtracting what was added gives the coefficients back. */
  lemma SubUndoesAdd(a: seq<real>, b: seq<real>)
    requires |a| == |b|
    ensures Minus(Plus(a, b), b) == a
  {
  }

  /** Dividing by what was multiplied in gives the coefficients back. */
  lemma DivUndoesMul(a: seq<real>, b: seq<real>)
    requires |a| == |b| && NonZero(b)
    ensures Over(Times(a, b), b) == a
  {
    forall i | 0 <= i < |a|
      ensures Over(Times(a, b), b)[i] == a[i]
    {
      assert (a[i] * b[i]) / b[i] == a[i];
    }
  }

  /** Dividing by a scalar undoes scaling by it. */
  lemma ShrinkUndoesScale(a: seq<real>, k: real)
    requires k != 0.0
    ensures Shrink(Scale(a, k), k) == a
  {
    forall i | 0 <= i < |a|
      ensures Shrink(Scale(a, k), k)[i] == a[i]
    {
      assert (a[i] * k) / k == a[i];
    }
  }

  /** The three weights sum to exactly 1. */
  lemma WeightsSumToOne()
    ensures YWeights[0] + YWeights[1] + YWeights[2] == 1.0
  {
  }

  /** A grey spectrum `(k, k, k)` has luminance `k`; black has luminance 0. */
  lemma LuminanceOfGrey(k: real)
    ensures Luminance([k, k, k]) == k
    ensures Luminance(Zeros(3)) == 0.0
  {
    WeightsSumToOne();
    assert Luminance([k, k, k]) == (YWeights[0] + YWeights[1] + YWeights[2]) * k;
  }

  /** Luminance is linear under `+` and scaling. */
  lemma LuminanceLinear(a: seq<real>, b: seq<real>, k: real)
    requires |a| == 3 && |b| == 3
    ensures Luminance(Plus(a, b)) == Luminance(a) + Luminance(b)
    ensures Luminance(Scale(a, k)) == Luminance(a) * k
  {
  }

  /** Non-negative coefficients have non-negative luminance. */
  lemma LuminanceNonNegative(s: seq<real>)
    requires |s| == 3 && forall i :: 0 <= i < 3 ==> s[i] >= 0.0
    ensures Luminance(s) >= 0.0
  {
  }
}
