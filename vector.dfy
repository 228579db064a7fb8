/**
 * The three-component vector of src/geometry/vector.rs, with f32 modelled as real.
 * This is the single Vector3 of the model: points, rays, colours and boxes are built on it.
 */
module Vector {
  import opened Wrappers

  datatype Vec3 = Vec3(x: real, y: real, z: real)

  /** MinMax::min on floats. */
  function Min(a: real, b: real): (r: real)
    ensures r <= a && r <= b
    ensures r == a || r == b
  {
    if a < b then a else b
  }

  /** MinMax::max on floats. */
  function Max(a: real, b: real): (r: real)
    ensures r >= a && r >= b
    ensures r == a || r == b
  {
    if a > b then a else b
  }

  function Zero(): Vec3 { Vec3(0.0, 0.0, 0.0) }

  function Add(a: Vec3, b: Vec3): Vec3 { Vec3(a.x + b.x, a.y + b.y, a.z + b.z) }

  /** `v + s` with a scalar right-hand side. */
  function AddScalar(v: Vec3, s: real): Vec3 { Vec3(v.x + s, v.y + s, v.z + s) }

  function Sub(a: Vec3, b: Vec3): Vec3 { Vec3(a.x - b.x, a.y - b.y, a.z - b.z) }

  /** `s - v` with a scalar left-hand side. */
  function ScalarSub(s: real, v: Vec3): Vec3 { Vec3(s - v.x, s - v.y, s - v.z) }

  function Neg(v: Vec3): Vec3 { Vec3(-v.x, -v.y, -v.z) }

  /** `v * s` (and `s * v`, which builds the same components). */
  function Scale(v: Vec3, s: real): Vec3 { Vec3(v.x * s, v.y * s, v.z * s) }

  /** `v * w`, the componentwise product. */
  function Mul(a: Vec3, b: Vec3): Vec3 { Vec3(b.x * a.x, b.y * a.y, b.z * a.z) }

  /** `v / s`. */
  function Div(v: Vec3, s: real): Vec3
    requires s != 0.0
  {
    Vec3(v.x / s, v.y / s, v.z / s)
  }

  /** `s / v`, used for a ray's inverse direction. */
  function ScalarDiv(s: real, v: Vec3): Vec3
    requires v.x != 0.0 && v.y != 0.0 && v.z != 0.0
  {
    Vec3(s / v.x, s / v.y, s / v.z)
  }

  function LengthSquared(v: Vec3): real
  {
    v.x * v.x + v.y * v.y + v.z * v.z
  }

  /** The squared length is never negative. */
  lemma LengthSquaredNonNegative(v: Vec3)
    ensures LengthSquared(v) >= 0.0
  {
    SquarePositive(v.x);
    SquarePositive(v.y);
    SquarePositive(v.z);
  }

  lemma SquarePositive(a: real)
    ensures a * a >= 0.0
  {
    if a < 0.0 {
      assert a * a == (-a) * (-a);
    }
  }

  function Dot(a: Vec3, b: Vec3): real { a.x * b.x + a.y * b.y + a.z * b.z }

  function Cross(a: Vec3, b: Vec3): Vec3
  {
    Vec3(a.y * b.z - a.z * b.y, a.z * b.x - a.x * b.z, a.x * b.y - a.y * b.x)
  }

  /** The three axis-aligned parts of `v`, as `decompose` returns them. */
  function Decompose(v: Vec3): (parts: seq<Vec3>)
    ensures |parts| == 3
    ensures Add(Add(parts[0], parts[1]), parts[2]) == v
    ensures parts[0].y == parts[0].z == parts[1].x == parts[1].z == parts[2].x == parts[2].y == 0.0
  {
    [Vec3(v.x, 0.0, 0.0), Vec3(0.0, v.y, 0.0), Vec3(0.0, 0.0, v.z)]
  }

  function MinElementwise(a: Vec3, b: Vec3): Vec3
  {
    Vec3(Min(a.x, b.x), Min(a.y, b.y), Min(a.z, b.z))
  }

  /**
   * `max_elementwise` as written: the y component is the larger of `a.y` and `b.z`,
   * not of `a.y` and `b.y`.
   */
  function MaxElementwise(a: Vec3, b: Vec3): Vec3
  {
    Vec3(Max(a.x, b.x), Max(a.y, b.z), Max(a.z, b.z))
  }

  /** Indexing: 0, 1 and 2 select x, y and z; any larger index fails the assertion. */
  function Index(v: Vec3, i: nat): (r: real)
    requires i <= 2
    ensures i == 0 ==> r == v.x
    ensures i == 1 ==> r == v.y
    ensures i == 2 ==> r == v.z
  {
    if i == 0 then v.x else if i == 1 then v.y else v.z
  }

  /** `column()`: the components as a column, index `i` holding component `i`. */
  function Column(v: Vec3): (c: seq<real>)
    ensures |c| == 3 && forall i :: 0 <= i < 3 ==> c[i] == Index(v, i)
  {
    [v.x, v.y, v.z]
  }

  /** The value of one hexadecimal digit, if `c` is one. */
  function HexDigit(c: char): Option<int>
  {
    if '0' <= c <= '9' then Some(c as int - '0' as int)
    else if 'a' <= c <= 'f' then Some(c as int - 'a' as int + 10)
    else if 'A' <= c <= 'F' then Some(c as int - 'A' as int + 10)
    else None
  }

  /** Unsigned hexadecimal digits, most significant first. */
  function HexDigits(s: seq<char>): (r: Option<int>)
    ensures r.Some? ==> 0 <= r.value
    ensures r.Some? && |s| == 1 ==> r.value <= 15
    ensures r.Some? && |s| == 2 ==> r.value <= 255
    decreases |s|
  {
    if s == [] then Some(0)
    else
      match (HexDigits(s[..|s| - 1]), HexDigit(s[|s| - 1]))
      case (Some(hi), Some(lo)) =>
        assert 0 <= lo <= 15 by { HexDigitRange(s[|s| - 1]); }
        Some(hi * 16 + lo)
      case _ => None
  }

  lemma HexDigitRange(c: char)
    ensures HexDigit(c).Some? ==> 0 <= HexDigit(c).value <= 15
  {
  }

  /**
   * `i32::from_str_radix(s, 16)`: the empty string and a lone sign are errors, a
   * leading '+' or '-' is accepted before at least one digit, every other character
   * must be a hexadecimal digit.
   */
  function ParseHexI32(s: seq<char>): Option<int>
  {
    if s == [] then None
    else if (s[0] == '+' || s[0] == '-') && |s| == 1 then None
    else if s[0] == '+' then HexDigits(s[1..])
    else if s[0] == '-' then
      (match HexDigits(s[1..]) case Some(v) => Some(-v) case None => None)
    else HexDigits(s)
  }

  predicate IsAscii(s: seq<char>)
  {
    forall i :: 0 <= i < |s| ==> s[i] as int < 128
  }

  /**
   * `from_hex`: a "#rgb" or "#rrggbb" string; each field is read by `from_str_radix`,
   * an unparsable field gives 0, and the value is scaled by 1/15 or 1/255.
   * (Rust measures the length in bytes; the model takes ASCII strings, where bytes and
   * characters agree.)
   */
  function FromHex(color: seq<char>): Vec3
    requires |color| == 4 || |color| == 7
    requires IsAscii(color)
  {
    var w := if |color| == 4 then 1 else 2;
    var inv := if w == 1 then 1.0 / 15.0 else 1.0 / 255.0;
    var r := HexField(color[1..1 + w]);
    var g := HexField(color[1 + w..1 + 2 * w]);
    var b := HexField(color[1 + 2 * w..1 + 3 * w]);
    Vec3(r as real * inv, g as real * inv, b as real * inv)
  }

  /** One channel field of a hex colour, with `unwrap_or(0)`. */
  function HexField(s: seq<char>): (r: int)
    ensures Unsigned(s) && |s| == 1 ==> 0 <= r <= 15
    ensures Unsigned(s) && |s| == 2 ==> 0 <= r <= 255
  {
    match ParseHexI32(s) case Some(v) => v case None => 0
  }

  /** True when no character of the string is a sign. */
  predicate Unsigned(s: seq<char>)
  {
    forall i :: 0 <= i < |s| ==> s[i] != '+' && s[i] != '-'
  }

  function Normalize(v: Vec3, sqrt: real -> real): Vec3
  {
    var l := sqrt(LengthSquared(v));
    if l == 0.0 then v else Scale(v, 1.0 / l)
  }

  /** `sqrt` is a square root on the non-negative reals (f32::sqrt over the reals). */
  ghost predicate IsSqrt(sqrt: real -> real)
  {
    forall x: real {:trigger sqrt(x)} :: x >= 0.0 ==> sqrt(x) >= 0.0 && sqrt(x) * sqrt(x) == x
  }

  /** The per-component clamp of `clamp`: `max(min, min(c, max))`. */
  function ClampScalar(c: real, min: real, max: real): (r: real)
    ensures min <= max ==> min <= r <= max
    ensures min <= c <= max ==> r == c
    ensures c < min ==> r == min
    ensures min <= max && max < c ==> r == max
  {
    Max(min, Min(c, max))
  }

  /**
   * A Vector3 held in a variable: `clamp` and the compound assignment operators
   * (`+=`, `-=`, `*=`, `/=`) overwrite its three fields.
   */
  class Vec3Var {
    var x: real
    var y: real
    var z: real

    function Value(): Vec3
      reads this
    {
      Vec3(x, y, z)
    }

    constructor (v: Vec3)
      ensures Value() == v
    {
      x, y, z := v.x, v.y, v.z;
    }

    method Clamp(min: real, max: real)
      modifies this
      ensures x == ClampScalar(old(x), min, max)
      ensures y == ClampScalar(old(y), min, max)
      ensures z == ClampScalar(old(z), min, max)
    {
      x := Max(min, Min(x, max));
      y := Max(min, Min(y, max));
      z := Max(min, Min(z, max));
    }

    method AddAssign(rhs: Vec3)
      modifies this
      ensures Value() == Add(old(Value()), rhs)
    {
      x := x + rhs.x;
      y := y + rhs.y;
      z := z + rhs.z;
    }

    method SubAssign(rhs: Vec3)
      modifies this
      ensures Value() == Sub(old(Value()), rhs)
    {
      x := x - rhs.x;
      y := y - rhs.y;
      z := z - rhs.z;
    }

    method MulAssign(s: real)
      modifies this
      ensures Value() == Scale(old(Value()), s)
    {
      x := x * s;
      y := y * s;
      z := z * s;
    }

    method DivAssign(s: real)
      requires s != 0.0
      modifies this
      ensures Value() == Div(old(Value()), s)
    {
      x := x / s;
      y := y / s;
      z := z / s;
    }
  }

  // Properties

  lemma DotSelfIsLengthSquared(v: Vec3)
    ensures Dot(v, v) == LengthSquared(v)
  {
  }

  lemma CrossIsOrthogonal(a: Vec3, b: Vec3)
    ensures Dot(Cross(a, b), a) == 0.0 && Dot(Cross(a, b), b) == 0.0
  {
  }

  lemma CrossOfAxes()
    ensures Cross(Vec3(1.0, 0.0, 0.0), Vec3(0.0, 1.0, 0.0)) == Vec3(0.0, 0.0, 1.0)
  {
  }

  lemma AddNegIsZero(v: Vec3)
    ensures Add(v, Neg(v)) == Zero()
    ensures Neg(Neg(v)) == v
  {
  }

  lemma SubIsAddNeg(a: Vec3, b: Vec3)
    ensures Sub(a, b) == Add(a, Neg(b))
    ensures Add(Sub(a, b), b) == a
  {
  }

  lemma ScaleDivRoundTrip(v: Vec3, s: real)
    requires s != 0.0
    ensures Div(Scale(v, s), s) == v
  {
  }

  /** The componentwise product commutes and has the all-ones vector as its unit. */
  lemma MulCommutesWithUnit(a: Vec3, b: Vec3)
    ensures Mul(a, b) == Mul(b, a)
    ensures Mul(a, Vec3(1.0, 1.0, 1.0)) == a
  {
  }

  /** Adding a scalar is undone by adding its negation, and `s - v` is `-v + s`. */
  lemma ScalarOffsets(v: Vec3, s: real)
    ensures AddScalar(AddScalar(v, s), -s) == v
    ensures ScalarSub(s, v) == AddScalar(Neg(v), s)
  {
  }

  /** `s / v` multiplied componentwise by `v` gives `s` in every component. */
  lemma ScalarDivInverts(s: real, v: Vec3)
    requires v.x != 0.0 && v.y != 0.0 && v.z != 0.0
    ensures Mul(ScalarDiv(s, v), v) == Vec3(s, s, s)
  {
  }

  /** Scaling by `k` scales the squared length by `k²`. */
  lemma LengthSquaredOfScale(v: Vec3, k: real)
    ensures LengthSquared(Scale(v, k)) == (k * k) * LengthSquared(v)
  {
  }

  /**
   * `normalize` divides by the length: a vector of positive length becomes a unit vector
   * along itself, and a vector of length zero is returned unchanged.
   */
  lemma {:induction false} NormalizeIsUnit(v: Vec3, sqrt: real -> real)
    requires IsSqrt(sqrt)
    ensures LengthSquared(v) == 0.0 ==> Normalize(v, sqrt) == v
    ensures LengthSquared(v) > 0.0 ==> LengthSquared(Normalize(v, sqrt)) == 1.0
    ensures LengthSquared(v) > 0.0 ==> exists k: real :: k > 0.0 && Normalize(v, sqrt) == Scale(v, k)
  {
    var ls := LengthSquared(v);
    LengthSquaredNonNegative(v);
    var l := sqrt(ls);
    assert l >= 0.0 && l * l == ls;
    if ls > 0.0 {
      assert l != 0.0;
      var k := 1.0 / l;
      assert Normalize(v, sqrt) == Scale(v, k);
      LengthSquaredOfScale(v, k);
      assert (k * k) * ls == (k * l) * (k * l);
      assert k * l == 1.0;
    } else {
      assert l * l == 0.0;
    }
  }

  /** The componentwise minimum is a lower bound of both arguments, attained by one of them. */
  lemma MinElementwiseIsMeet(a: Vec3, b: Vec3)
    ensures var m := MinElementwise(a, b);
      m.x <= a.x && m.x <= b.x && m.y <= a.y && m.y <= b.y && m.z <= a.z && m.z <= b.z &&
      (m.x == a.x || m.x == b.x) && (m.y == a.y || m.y == b.y) && (m.z == a.z || m.z == b.z)
  {
  }

  /** What `max_elementwise` does bound: its y component dominates `a.y` and `b.z`. */
  lemma MaxElementwiseBounds(a: Vec3, b: Vec3)
    ensures var m := MaxElementwise(a, b);
      m.x >= a.x && m.x >= b.x && m.y >= a.y && m.y >= b.z && m.z >= a.z && m.z >= b.z &&
      (m.y == a.y || m.y == b.z)
  {
  }

  /** ... and what it does not: `b.y` can exceed the result's y component. */
  lemma MaxElementwiseMissesY()
    ensures MaxElementwise(Vec3(0.0, 0.0, 0.0), Vec3(0.0, 1.0, 0.0)).y == 0.0
  {
  }

  lemma FromHexWhite()
    ensures FromHex("#fff") == Vec3(1.0, 1.0, 1.0)
    ensures FromHex("#ffffff") == Vec3(1.0, 1.0, 1.0)
  {
    assert "#fff"[1..2] == "f";
    assert "#fff"[2..3] == "f";
    assert "#fff"[3..4] == "f";
    assert "f"[..0] == [];
    assert HexDigits("f") == Some(15);
    assert "ff"[..1] == "f";
    assert HexDigits("ff") == Some(255);
    assert "#ffffff"[1..3] == "ff";
    assert "#ffffff"[3..5] == "ff";
    assert "#ffffff"[5..7] == "ff";
  }

  /** Without sign characters every channel of `from_hex` lies in [0, 1]. */
  lemma {:induction false} FromHexUnsignedInUnitRange(color: seq<char>)
    requires |color| == 4 || |color| == 7
    requires IsAscii(color)
    requires Unsigned(color)
    ensures var v := FromHex(color);
      0.0 <= v.x <= 1.0 && 0.0 <= v.y <= 1.0 && 0.0 <= v.z <= 1.0
  {
    if |color| == 4 {
      ChannelInRange(color, 1, 1, 15.0);
      ChannelInRange(color, 2, 1, 15.0);
      ChannelInRange(color, 3, 1, 15.0);
    } else {
      ChannelInRange(color, 1, 2, 255.0);
      ChannelInRange(color, 3, 2, 255.0);
      ChannelInRange(color, 5, 2, 255.0);
    }
  }

  lemma ChannelInRange(color: seq<char>, i: nat, w: nat, maxValue: real)
    requires w == 1 || w == 2
    requires i + w <= |color|
    requires Unsigned(color)
    requires maxValue == if w == 1 then 15.0 else 255.0
    ensures 0.0 <= HexField(color[i..i + w]) as real * (1.0 / maxValue) <= 1.0
  {
    var f := color[i..i + w];
    assert Unsigned(f) by {
      forall k | 0 <= k < |f| ensures f[k] != '+' && f[k] != '-' {
        assert f[k] == color[i + k];
      }
    }
    UnitScale(HexField(f), maxValue);
  }

  lemma UnitScale(v: int, m: real)
    requires m > 0.0 && 0.0 <= v as real <= m
    ensures 0.0 <= v as real * (1.0 / m) <= 1.0
  {
  }

  /** A sign is accepted by `from_str_radix`, so "#-f0000" has a negative red channel. */
  lemma FromHexAcceptsSign()
    ensures FromHex("#-f0000").x == -15.0 / 255.0
  {
    assert "#-f0000"[1..3] == "-f";
    assert "-f"[1..] == "f";
    assert "f"[..0] == [];
    assert HexDigits("f") == Some(15);
  }
}
