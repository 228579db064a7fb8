/**
 * The dense matrices of src/math/matrix.rs: `data` holds `w * h` reals row by row, entry
 * (y, x) at index `x + y * w`. The struct's fields are private and every constructor
 * checks `w * h == data.len()`, so `Valid` holds of every matrix the program builds.
 */
module Matrices {
  import opened Wrappers
  import V = Vector

  /** `f32::EPSILON`, 2^-23. */
  const Epsilon: real := 1.0 / 8388608.0

  datatype Matrix = Matrix(data: seq<real>, w: nat, h: nat)

  predicate Valid(m: Matrix)
  {
    |m.data| == m.w * m.h
  }

  /** The row-major index `x + y * w`. */
  function Idx(w: nat, y: nat, x: nat): nat
  {
    x + y * w
  }

  lemma MulMono(a: nat, b: nat, c: nat)
    requires a <= b
    ensures a * c <= b * c
  {
  }

  lemma MulCommutes(a: nat, b: nat)
    ensures a * b == b * a
  {
  }

  /** Every index of a row and column in range is inside the data. */
  lemma IdxInRange(w: nat, h: nat)
    ensures forall y: nat, x: nat {:trigger Idx(w, y, x)} :: y < h && x < w ==> Idx(w, y, x) < w * h
  {
    forall y: nat, x: nat | y < h && x < w
      ensures Idx(w, y, x) < w * h
    {
      MulMono(y + 1, h, w);
    }
  }

  /** Distinct positions have distinct indices. */
  lemma IdxInjective(w: nat)
    ensures forall y1: nat, x1: nat, y2: nat, x2: nat {:trigger Idx(w, y1, x1), Idx(w, y2, x2)} ::
      x1 < w && x2 < w && Idx(w, y1, x1) == Idx(w, y2, x2) ==> y1 == y2 && x1 == x2
  {
    forall y1: nat, x1: nat, y2: nat, x2: nat | x1 < w && x2 < w && Idx(w, y1, x1) == Idx(w, y2, x2)
      ensures y1 == y2 && x1 == x2
    {
      if y1 < y2 {
        MulMono(y1 + 1, y2, w);
      } else if y2 < y1 {
        MulMono(y2 + 1, y1, w);
      }
    }
  }

  /** Every other position in a row of width `w` has another index than (y, x). */
  lemma IdxOthers(w: nat, y: nat, x: nat)
    requires x < w
    ensures forall yy: nat, xx: nat {:trigger Idx(w, yy, xx)} :: xx < w && (yy != y || xx != x) ==> Idx(w, yy, xx) != Idx(w, y, x)
  {
    IdxInjective(w);
  }

  /** Entry (y, x). */
  function At(m: Matrix, y: nat, x: nat): real
    requires Valid(m) && y < m.h && x < m.w
  {
    IdxInRange(m.w, m.h);
    m.data[Idx(m.w, y, x)]
  }

  /** `zeros(h, w)`: `w * h` zeros. */
  function Zeros(h: nat, w: nat): (m: Matrix)
    ensures Valid(m) && m.h == h && m.w == w
    ensures forall i :: 0 <= i < |m.data| ==> m.data[i] == 0.0
  {
    Matrix(seq(w * h, _ => 0.0), w, h)
  }

  /** Entry (y, x) of an identity: 1 on the diagonal `x == y`, 0 elsewhere. */
  function Expected(y: nat, x: nat): real
  {
    if x == y then 1.0 else 0.0
  }

  /** Every entry is exactly that of an identity. */
  predicate IdentityEntries(m: Matrix)
    requires Valid(m)
  {
    forall y: nat, x: nat :: y < m.h && x < m.w ==> At(m, y, x) == Expected(y, x)
  }

  /** `identity(h, w)`: zeros, then 1 written at `x + y * w` wherever `x == y`. */
  method Identity(h: nat, w: nat) returns (m: Matrix)
    ensures Valid(m) && m.h == h && m.w == w
    ensures IdentityEntries(m)
  {
    var data := new real[w * h](_ => 0.0);
    IdxInRange(w, h);
    for y := 0 to h
      invariant forall yy: nat, xx: nat {:trigger Idx(w, yy, xx)} :: yy < h && xx < w ==>
        Idx(w, yy, xx) < data.Length && data[Idx(w, yy, xx)] == if xx == yy && yy < y then 1.0 else 0.0
    {
      MarkRow(data, w, h, y);
    }
    m := Matrix(data[..], w, h);
    forall y: nat, x: nat | y < h && x < w
      ensures At(m, y, x) == Expected(y, x)
    {
      assert At(m, y, x) == data[Idx(w, y, x)];
    }
  }

  /** The inner loop of `identity`: the 1 of row `y`, if the row has a diagonal entry. */
  method MarkRow(data: array<real>, w: nat, h: nat, y: nat)
    requires y < h
    requires forall yy: nat, xx: nat {:trigger Idx(w, yy, xx)} :: yy < h && xx < w ==>
      Idx(w, yy, xx) < data.Length && data[Idx(w, yy, xx)] == if xx == yy && yy < y then 1.0 else 0.0
    modifies data
    ensures forall yy: nat, xx: nat {:trigger Idx(w, yy, xx)} :: yy < h && xx < w ==>
      Idx(w, yy, xx) < data.Length && data[Idx(w, yy, xx)] == if xx == yy && yy <= y then 1.0 else 0.0
  {
    for x := 0 to w
      invariant forall yy: nat, xx: nat {:trigger Idx(w, yy, xx)} :: yy < h && xx < w ==>
        Idx(w, yy, xx) < data.Length && data[Idx(w, yy, xx)] == if xx == yy && (yy < y || (yy == y && xx < x)) then 1.0 else 0.0
    {
      if x == y {
        var index := Idx(w, y, x);
        IdxOthers(w, y, x);
        data[index] := 1.0;
      }
    }
  }

  /** `new(data, h, w)`: asserts `w * h == data.len()`. */
  function New(data: seq<real>, h: nat, w: nat): (m: Matrix)
    requires w * h == |data|
    ensures Valid(m) && m.data == data && m.h == h && m.w == w
  {
    Matrix(data, w, h)
  }

  /** `row(y)`: asserts `y < h`; the `w` entries of row `y` in order. */
  function Row(m: Matrix, y: nat): (r: seq<real>)
    requires Valid(m) && y < m.h
    ensures |r| == m.w && forall x :: 0 <= x < m.w ==> r[x] == At(m, y, x)
  {
    IdxInRange(m.w, m.h);
    seq(m.w, x requires 0 <= x < m.w => m.data[Idx(m.w, y, x)])
  }

  /** `column(x)`: asserts `x < w`; the `h` entries of column `x` in order. */
  function Column(m: Matrix, x: nat): (c: seq<real>)
    requires Valid(m) && x < m.w
    ensures |c| == m.h && forall y :: 0 <= y < m.h ==> c[y] == At(m, y, x)
  {
    IdxInRange(m.w, m.h);
    seq(m.h, y requires 0 <= y < m.h => m.data[Idx(m.w, y, x)])
  }

  /** The `j`-th of `0..k` once `n` is left out. */
  function Skip(j: nat, n: nat): nat
  {
    if j < n then j else j + 1
  }

  /** `(0..k).filter(|i| i != n)`. */
  function Others(k: nat, n: nat): (r: seq<nat>)
    ensures n < k ==> |r| == k - 1
    ensures n >= k ==> |r| == k
    ensures forall j :: 0 <= j < |r| ==> r[j] == Skip(j, n) && r[j] < k
    ensures n >= k ==> forall j :: 0 <= j < |r| ==> r[j] == j
  {
    if k == 0 then [] else Others(k - 1, n) + (if k - 1 == n then [] else [k - 1])
  }

  /** The entries of `m` at the rows `ys` and columns `xs`, row after row. */
  function Gather(m: Matrix, ys: seq<nat>, xs: seq<nat>): (r: seq<real>)
    requires Valid(m)
    requires forall i :: 0 <= i < |ys| ==> ys[i] < m.h
    requires forall j :: 0 <= j < |xs| ==> xs[j] < m.w
    ensures |r| == |xs| * |ys|
    ensures forall i: nat, j: nat {:trigger Idx(|xs|, i, j)} :: i < |ys| && j < |xs| ==>
      Idx(|xs|, i, j) < |r| && r[Idx(|xs|, i, j)] == At(m, ys[i], xs[j])
    decreases |ys|
  {
    if ys == [] then []
    else
      var front := Gather(m, ys[..|ys| - 1], xs);
      var y := ys[|ys| - 1];
      var row := seq(|xs|, j requires 0 <= j < |xs| => At(m, y, xs[j]));
      GatherSnoc(front, row, |ys| - 1, |xs|);
      front + row
  }

  /** Appending one more row of width `k` to `n` rows keeps the old entries and places the new row last. */
  lemma GatherSnoc(front: seq<real>, row: seq<real>, n: nat, k: nat)
    requires |front| == k * n && |row| == k
    ensures |front + row| == k * (n + 1)
    ensures forall i: nat, j: nat {:trigger Idx(k, i, j)} :: i < n && j < k ==>
      Idx(k, i, j) < |front| && (front + row)[Idx(k, i, j)] == front[Idx(k, i, j)]
    ensures forall j :: 0 <= j < k ==> Idx(k, n, j) == |front| + j
  {
    IdxInRange(k, n);
  }

  /** The rows other than `r` and the columns other than `c`, as an `(h - 1) x (w - 1)` matrix. */
  function Cut(m: Matrix, r: nat, c: nat): (s: Matrix)
    requires Valid(m) && r < m.h && c < m.w
    ensures Valid(s) && s.h == m.h - 1 && s.w == m.w - 1
    ensures forall y: nat, x: nat :: y < s.h && x < s.w ==> At(s, y, x) == At(m, Skip(y, r), Skip(x, c))
  {
    var xs := Others(m.w, c);
    var ys := Others(m.h, r);
    var data := Gather(m, ys, xs);
    assert |data| == (m.w - 1) * (m.h - 1);
    New(data, m.h - 1, m.w - 1)
  }

  /**
   * `submatrix(n)`: the rows and columns other than `n`, rebuilt with `new(data, h - 1, w - 1)`,
   * whose size assertion holds exactly when `n < w` and `n < h`.
   */
  function SubMatrix(m: Matrix, n: nat): (s: Matrix)
    requires Valid(m) && n < m.w && n < m.h
    ensures Valid(s) && s.h == m.h - 1 && s.w == m.w - 1
    ensures forall y: nat, x: nat :: y < s.h && x < s.w ==> At(s, y, x) == At(m, Skip(y, n), Skip(x, n))
  {
    Cut(m, n, n)
  }

  function Abs(a: real): real
  {
    if a < 0.0 then -a else a
  }

  /** `approx_eq!(f32, a, b)`, by its absolute margin `f32::EPSILON`. */
  predicate ApproxEq(a: real, b: real)
  {
    Abs(a - b) <= Epsilon
  }

  /** Every entry is within the margin of the identity's. */
  predicate ApproxIdentity(m: Matrix)
    requires Valid(m)
  {
    forall y: nat, x: nat :: y < m.h && x < m.w ==> ApproxEq(At(m, y, x), Expected(y, x))
  }

  /** `is_identity`: scans row by row and stops at the first entry off the identity. */
  method IsIdentity(m: Matrix) returns (b: bool)
    requires Valid(m)
    ensures b <==> ApproxIdentity(m)
  {
    IdxInRange(m.w, m.h);
    for y := 0 to m.h
      invariant forall yy: nat, xx: nat :: yy < y && xx < m.w ==> ApproxEq(At(m, yy, xx), Expected(yy, xx))
    {
      for x := 0 to m.w
        invariant forall yy: nat, xx: nat :: (yy < y || (yy == y && xx < x)) && xx < m.w ==>
          ApproxEq(At(m, yy, xx), Expected(yy, xx))
      {
        var index := Idx(m.w, y, x);
        var expected := if x == y then 1.0 else 0.0;
        if !ApproxEq(m.data[index], expected) {
          assert !ApproxEq(At(m, y, x), Expected(y, x));
          return false;
        }
      }
    }
    return true;
  }

  /** An exact identity passes `is_identity`. */
  lemma IdentityIsIdentity(m: Matrix)
    requires Valid(m) && IdentityEntries(m)
    ensures ApproxIdentity(m)
  {
  }

  /** A matrix of zeros with at least one row and column fails `is_identity`: entry (0, 0) is 0. */
  lemma ZerosAreNotIdentity(h: nat, w: nat)
    requires h > 0 && w > 0
    ensures !ApproxIdentity(Zeros(h, w))
  {
    var z := Zeros(h, w);
    assert At(z, 0, 0) == 0.0;
    assert !ApproxEq(At(z, 0, 0), Expected(0, 0));
  }

  /** The sum of absolute values `is_zero` folds. */
  function SumAbs(s: seq<real>): (r: real)
    ensures r >= 0.0
  {
    if s == [] then 0.0 else SumAbs(s[..|s| - 1]) + Abs(s[|s| - 1])
  }

  /** `is_zero`: the absolute values sum to less than `f32::EPSILON`. */
  predicate IsZero(m: Matrix)
  {
    SumAbs(m.data) < Epsilon
  }

  /** The absolute sum is at least the absolute value of each entry. */
  lemma {:induction false} SumAbsBounds(s: seq<real>, i: nat)
    requires i < |s|
    ensures Abs(s[i]) <= SumAbs(s)
    decreases |s|
  {
    if i < |s| - 1 {
      SumAbsBounds(s[..|s| - 1], i);
    }
  }

  /** The absolute sum of zeros is zero. */
  lemma {:induction false} SumAbsZeros(s: seq<real>)
    requires forall i :: 0 <= i < |s| ==> s[i] == 0.0
    ensures SumAbs(s) == 0.0
    decreases |s|
  {
    if s != [] {
      SumAbsZeros(s[..|s| - 1]);
    }
  }

  /** `zeros` passes `is_zero`; an identity with an entry fails it. */
  lemma ZerosAreZero(h: nat, w: nat, m: Matrix)
    requires Valid(m) && IdentityEntries(m) && m.h > 0 && m.w > 0
    ensures IsZero(Zeros(h, w))
    ensures !IsZero(m)
  {
    SumAbsZeros(Zeros(h, w).data);
    IdxInRange(m.w, m.h);
    assert At(m, 0, 0) == 1.0;
    SumAbsBounds(m.data, Idx(m.w, 0, 0));
  }

  /**
   * Which minor the expansion from 4x4 on pairs with entry `n` of row 0: `SameRow` is
   * `submatrix(n)`, leaving out row `n` and column `n`, as the code does; `FirstRow` leaves out
   * row 0 and column `n`, the minor of cofactor expansion along row 0.
   */
  datatype Scheme = SameRow | FirstRow

  /** The minor paired with entry `n` of row 0 under `scheme`. */
  function Minor(m: Matrix, scheme: Scheme, n: nat): (s: Matrix)
    requires Valid(m) && m.h == m.w && n < m.w
    ensures Valid(s) && s.h == m.h - 1 && s.w == m.w - 1
    ensures scheme == SameRow ==> s == SubMatrix(m, n)
    ensures scheme == FirstRow ==> s == Cut(m, 0, n)
  {
    match scheme
    case SameRow => SubMatrix(m, n)
    case FirstRow => Cut(m, 0, n)
  }

  /** The sign of column `n` in the expansion: `+1` when bit 0 of `n` is clear, else `-1`. */
  function Sign(n: nat): real
  {
    if n % 2 == 0 then 1.0 else -1.0
  }

  /** Entries this small are skipped by the expansion. */
  predicate Negligible(a: real)
  {
    Abs(a) <= 2.0 * Epsilon
  }

  lemma SquareCovers(w: nat)
    ensures w <= w * w
  {
    if w > 0 {
      MulMono(1, w, w);
    }
  }

  /**
   * `determinant` for square matrices: closed forms up to 3x3, and from 4x4 on the sum over
   * `n` of `sign(n) * data[n] * minor.determinant()`; `determinant` itself is
   * `Det(m, SameRow)`.
   */
  function Det(m: Matrix, scheme: Scheme): real
    requires Valid(m) && m.h == m.w
    decreases m.h, m.w + 1
  {
    var d := m.data;
    if m.h == 0 then 0.0
    else if m.h == 1 then d[0]
    else if m.h == 2 then d[0] * d[3] - d[1] * d[2]
    else if m.h == 3 then
      d[0] * (d[4] * d[8] - d[5] * d[7])
      - d[1] * (d[3] * d[8] - d[5] * d[6])
      + d[2] * (d[3] * d[7] - d[4] * d[6])
    else Expansion(m, scheme, m.w)
  }

  /** The expansion's running total after the first `k` columns. */
  function Expansion(m: Matrix, scheme: Scheme, k: nat): real
    requires Valid(m) && m.h == m.w && m.w >= 4 && k <= m.w
    decreases m.h, k
  {
    if k == 0 then 0.0 else Expansion(m, scheme, k - 1) + Term(m, scheme, k - 1)
  }

  /** The contribution of column `n`: nothing when `data[n]` is negligible. */
  function Term(m: Matrix, scheme: Scheme, n: nat): real
    requires Valid(m) && m.h == m.w && m.w >= 4 && n < m.w
    decreases m.h, n
  {
    SquareCovers(m.w);
    if Negligible(m.data[n]) then 0.0 else Contribution(n, m.data[n], Det(Minor(m, scheme, n), scheme))
  }

  /** `sign(n) * data[n] * minor` for a column that is not skipped. */
  function Contribution(n: nat, a: real, minor: real): real
  {
    Sign(n) * a * minor
  }

  /** One more column of the expansion: skipped when negligible, else its signed product. */
  lemma ExpansionStep(m: Matrix, n: nat, minor: real)
    requires Valid(m) && m.h == m.w && m.w >= 4 && n < m.w && n < |m.data|
    requires !Negligible(m.data[n]) ==> minor == Det(SubMatrix(m, n), SameRow)
    ensures Negligible(m.data[n]) ==> Expansion(m, SameRow, n + 1) == Expansion(m, SameRow, n)
    ensures !Negligible(m.data[n]) ==>
      Expansion(m, SameRow, n + 1) == Expansion(m, SameRow, n) + Contribution(n, m.data[n], minor)
  {
  }

  /** From 4x4 on the determinant is the full expansion. */
  lemma DetIsExpansion(m: Matrix)
    requires Valid(m) && m.h == m.w && m.w >= 4
    ensures Det(m, SameRow) == Expansion(m, SameRow, m.w)
  {
  }

  /** `determinant`: asserts `h == w`; from 4x4 on a loop accumulates `det` and recurses. */
  method Determinant(m: Matrix) returns (det: real)
    requires Valid(m) && m.h == m.w
    ensures det == Det(m, SameRow)
    decreases m.h
  {
    var d := m.data;
    if m.h == 0 {
      return 0.0;
    } else if m.h == 1 {
      return d[0];
    } else if m.h == 2 {
      return d[0] * d[3] - d[1] * d[2];
    } else if m.h == 3 {
      return d[0] * (d[4] * d[8] - d[5] * d[7])
        - d[1] * (d[3] * d[8] - d[5] * d[6])
        + d[2] * (d[3] * d[7] - d[4] * d[6]);
    }
    SquareCovers(m.w);
    det := 0.0;
    for n := 0 to m.w
      invariant det == Expansion(m, SameRow, n)
    {
      if Abs(d[n]) <= 2.0 * Epsilon {
        ExpansionStep(m, n, 0.0);
        continue;
      }
      var sub := SubMatrix(m, n);
      var subDet := Determinant(sub);
      ExpansionStep(m, n, subDet);
      det := det + Contribution(n, d[n], subDet);
    }
    DetIsExpansion(m);
  }

  /** Leaving out the same row and column of an identity leaves an identity. */
  lemma CutOfIdentity(m: Matrix, n: nat)
    requires Valid(m) && IdentityEntries(m) && n < m.w && n < m.h
    ensures IdentityEntries(Cut(m, n, n))
  {
    var s := Cut(m, n, n);
    forall y: nat, x: nat | y < s.h && x < s.w
      ensures At(s, y, x) == Expected(y, x)
    {
      assert At(s, y, x) == At(m, Skip(y, n), Skip(x, n));
    }
  }

  /** When row 0 is that of an identity only column 0 contributes, and it contributes its minor. */
  lemma {:induction false} ExpansionOfIdentity(m: Matrix, scheme: Scheme, k: nat)
    requires Valid(m) && m.h == m.w && m.w >= 4 && k <= m.w
    requires m.data[0] == 1.0 && forall n :: 1 <= n < m.w ==> m.data[n] == 0.0
    requires Det(Minor(m, scheme, 0), scheme) == 1.0
    ensures Expansion(m, scheme, k) == if k == 0 then 0.0 else 1.0
  {
    SquareCovers(m.w);
    if k > 0 {
      ExpansionOfIdentity(m, scheme, k - 1);
      var n := k - 1;
      if n == 0 {
        assert Contribution(0, 1.0, 1.0) == 1.0;
      } else {
        assert Negligible(m.data[n]);
      }
    }
  }

  /** Row 0 of an identity from 4x4 on: 1, then zeros. */
  lemma IdentityFirstRow(m: Matrix)
    requires Valid(m) && m.h == m.w && m.w >= 4 && IdentityEntries(m)
    ensures m.data[0] == 1.0 && forall n :: 1 <= n < m.w ==> m.data[n] == 0.0
  {
    SquareCovers(m.w);
    assert m.data[0] == At(m, 0, 0);
    forall n | 1 <= n < m.w
      ensures m.data[n] == 0.0
    {
      assert m.data[n] == At(m, 0, n);
    }
  }

  /** The closed forms give 1 on the 1x1, 2x2 and 3x3 identities. */
  lemma SmallDetOfIdentity(m: Matrix, scheme: Scheme)
    requires Valid(m) && m.h == m.w && 0 < m.h < 4 && IdentityEntries(m)
    ensures Det(m, scheme) == 1.0
  {
    if m.w == 1 {
      assert m.data[0] == At(m, 0, 0);
    } else if m.w == 2 {
      IdentityData2(m);
    } else {
      IdentityData3(m);
    }
  }

  /** The entries of a 2x2 identity, in row-major order. */
  lemma IdentityData2(m: Matrix)
    requires Valid(m) && m.h == 2 && m.w == 2 && IdentityEntries(m)
    ensures m.data == [1.0, 0.0, 0.0, 1.0]
  {
    assert m.data[0] == At(m, 0, 0) && m.data[1] == At(m, 0, 1);
    assert m.data[2] == At(m, 1, 0) && m.data[3] == At(m, 1, 1);
  }

  /** The entries of a 3x3 identity, in row-major order. */
  lemma IdentityData3(m: Matrix)
    requires Valid(m) && m.h == 3 && m.w == 3 && IdentityEntries(m)
    ensures m.data == [1.0, 0.0, 0.0, 0.0, 1.0, 0.0, 0.0, 0.0, 1.0]
  {
    assert m.data[0] == At(m, 0, 0) && m.data[1] == At(m, 0, 1) && m.data[2] == At(m, 0, 2);
    assert m.data[3] == At(m, 1, 0) && m.data[4] == At(m, 1, 1) && m.data[5] == At(m, 1, 2);
    assert m.data[6] == At(m, 2, 0) && m.data[7] == At(m, 2, 1) && m.data[8] == At(m, 2, 2);
  }

  /**
   * The determinant of an identity is 1 under either scheme, as the tests expect for 1x1, 2x2,
   * 3x3 and 16x16: both pair entry 0 with the same minor, and the other entries of row 0 are 0.
   */
  lemma {:induction false} DetOfIdentity(m: Matrix, scheme: Scheme)
    requires Valid(m) && m.h == m.w && m.h > 0 && IdentityEntries(m)
    ensures Det(m, scheme) == 1.0
    decreases m.h
  {
    if m.w < 4 {
      SmallDetOfIdentity(m, scheme);
    } else {
      CutOfIdentity(m, 0);
      DetOfIdentity(Minor(m, scheme, 0), scheme);
      IdentityFirstRow(m);
      ExpansionOfIdentity(m, scheme, m.w);
    }
  }

  /** Of a matrix of zeros every column is skipped. */
  lemma {:induction false} ExpansionOfZeros(m: Matrix, scheme: Scheme, k: nat)
    requires Valid(m) && m.h == m.w && m.w >= 4 && k <= m.w
    requires forall i :: 0 <= i < |m.data| ==> m.data[i] == 0.0
    ensures Expansion(m, scheme, k) == 0.0
  {
    if k > 0 {
      ExpansionOfZeros(m, scheme, k - 1);
      SquareCovers(m.w);
      assert Negligible(m.data[k - 1]);
    }
  }

  /** The determinant of a matrix of zeros is 0, as the tests expect for 16x16. */
  lemma DetOfZeros(m: Matrix, scheme: Scheme)
    requires Valid(m) && m.h == m.w
    requires forall i :: 0 <= i < |m.data| ==> m.data[i] == 0.0
    ensures Det(m, scheme) == 0.0
  {
    if m.w >= 4 {
      ExpansionOfZeros(m, scheme, m.w);
    }
  }

  /** The 3x3 matrix of the tests, whose determinant they expect to be -306. */
  lemma DetOfTestMatrix3(scheme: Scheme)
    ensures var m := New([6.0, 1.0, 1.0, 4.0, -2.0, 5.0, 2.0, 8.0, 7.0], 3, 3);
      Det(m, scheme) == -306.0
  {
  }

  /** The 4x4 matrix of the tests, whose determinant they expect to be 17682. */
  function TestMatrix4(): (m: Matrix)
    ensures Valid(m) && m.h == 4 && m.w == 4
  {
    New([1.0, 2.0, 3.0, 4.0, 9.0, 22.0, 92.0, 1.0, 11.0, 34.0, 23.0, 67.0, 7.0, 0.0, 0.0, 0.0], 4, 4)
  }

  /** Row `y` of what is left of a 4x4 matrix once row `r` and column `c` are out. */
  lemma CutOf4x4(m: Matrix, r: nat, c: nat, y: nat)
    requires Valid(m) && m.h == 4 && m.w == 4 && r < 4 && c < 4 && y < 3
    ensures |Cut(m, r, c).data| == 9
    ensures Cut(m, r, c).data[3 * y] == At(m, Skip(y, r), Skip(0, c))
    ensures Cut(m, r, c).data[3 * y + 1] == At(m, Skip(y, r), Skip(1, c))
    ensures Cut(m, r, c).data[3 * y + 2] == At(m, Skip(y, r), Skip(2, c))
  {
    var s := Cut(m, r, c);
    assert s.data[3 * y] == At(m, Skip(y, r), Skip(0, c)) by {
      CutEntry(m, r, c, y, 0);
    }
    assert s.data[3 * y + 1] == At(m, Skip(y, r), Skip(1, c)) by {
      CutEntry(m, r, c, y, 1);
    }
    assert s.data[3 * y + 2] == At(m, Skip(y, r), Skip(2, c)) by {
      CutEntry(m, r, c, y, 2);
    }
  }

  /** Entry (y, x) of what is left of a 4x4 matrix once row `r` and column `c` are out. */
  lemma CutEntry(m: Matrix, r: nat, c: nat, y: nat, x: nat)
    requires Valid(m) && m.h == 4 && m.w == 4 && r < 4 && c < 4 && y < 3 && x < 3
    ensures |Cut(m, r, c).data| == 9 && Cut(m, r, c).data[3 * y + x] == At(m, Skip(y, r), Skip(x, c))
  {
    var s := Cut(m, r, c);
    assert s.data[3 * y + x] == At(s, y, x);
  }

  /** The determinants of the 3x3 minors of the 4x4 test matrix, with row `r` and column `c` out. */
  lemma TestCut00()
    ensures Det(Cut(TestMatrix4(), 0, 0), SameRow) == 0.0 && Det(Cut(TestMatrix4(), 0, 0), FirstRow) == 0.0
  {
    CutOf4x4(TestMatrix4(), 0, 0, 0);
    CutOf4x4(TestMatrix4(), 0, 0, 1);
    CutOf4x4(TestMatrix4(), 0, 0, 2);
  }

  lemma TestCut11()
    ensures Det(Cut(TestMatrix4(), 1, 1), SameRow) == 763.0 && Det(Cut(TestMatrix4(), 1, 1), FirstRow) == 763.0
  {
    CutOf4x4(TestMatrix4(), 1, 1, 0);
    CutOf4x4(TestMatrix4(), 1, 1, 1);
    CutOf4x4(TestMatrix4(), 1, 1, 2);
  }

  lemma TestCut22()
    ensures Det(Cut(TestMatrix4(), 2, 2), SameRow) == -602.0 && Det(Cut(TestMatrix4(), 2, 2), FirstRow) == -602.0
  {
    CutOf4x4(TestMatrix4(), 2, 2, 0);
    CutOf4x4(TestMatrix4(), 2, 2, 1);
    CutOf4x4(TestMatrix4(), 2, 2, 2);
  }

  lemma TestCut33()
    ensures Det(Cut(TestMatrix4(), 3, 3), SameRow) == -820.0 && Det(Cut(TestMatrix4(), 3, 3), FirstRow) == -820.0
  {
    CutOf4x4(TestMatrix4(), 3, 3, 0);
    CutOf4x4(TestMatrix4(), 3, 3, 1);
    CutOf4x4(TestMatrix4(), 3, 3, 2);
  }

  lemma TestCut01()
    ensures Det(Cut(TestMatrix4(), 0, 1), SameRow) == 42987.0 && Det(Cut(TestMatrix4(), 0, 1), FirstRow) == 42987.0
  {
    CutOf4x4(TestMatrix4(), 0, 1, 0);
    CutOf4x4(TestMatrix4(), 0, 1, 1);
    CutOf4x4(TestMatrix4(), 0, 1, 2);
  }

  lemma TestCut02()
    ensures Det(Cut(TestMatrix4(), 0, 2), SameRow) == 10080.0 && Det(Cut(TestMatrix4(), 0, 2), FirstRow) == 10080.0
  {
    CutOf4x4(TestMatrix4(), 0, 2, 0);
    CutOf4x4(TestMatrix4(), 0, 2, 1);
    CutOf4x4(TestMatrix4(), 0, 2, 2);
  }

  lemma TestCut03()
    ensures Det(Cut(TestMatrix4(), 0, 3), SameRow) == -18354.0 && Det(Cut(TestMatrix4(), 0, 3), FirstRow) == -18354.0
  {
    CutOf4x4(TestMatrix4(), 0, 3, 0);
    CutOf4x4(TestMatrix4(), 0, 3, 1);
    CutOf4x4(TestMatrix4(), 0, 3, 2);
  }

  /** A 4x4 determinant is the sum of its four column terms. */
  lemma DetOfFour(m: Matrix, scheme: Scheme)
    requires Valid(m) && m.h == 4 && m.w == 4
    ensures Det(m, scheme) == Term(m, scheme, 0) + Term(m, scheme, 1) + Term(m, scheme, 2) + Term(m, scheme, 3)
  {
    assert Det(m, scheme) == Expansion(m, scheme, 4);
    assert Expansion(m, scheme, 4) == Expansion(m, scheme, 3) + Term(m, scheme, 3);
    assert Expansion(m, scheme, 3) == Expansion(m, scheme, 2) + Term(m, scheme, 2);
    assert Expansion(m, scheme, 2) == Expansion(m, scheme, 1) + Term(m, scheme, 1);
    assert Expansion(m, scheme, 1) == Term(m, scheme, 0);
  }

  /** A column term whose entry is not negligible: its signed product with its minor. */
  lemma TermOf(m: Matrix, scheme: Scheme, n: nat)
    requires Valid(m) && m.h == m.w && m.w >= 4 && n < m.w && 1.0 <= m.data[n]
    ensures Term(m, scheme, n) == Contribution(n, m.data[n], Det(Minor(m, scheme, n), scheme))
  {
    assert !Negligible(m.data[n]);
  }

  /**
   * As written, `determinant` gives -52 on the 4x4 test matrix, not the 17682 the test expects:
   * the minors it pairs with 1, 2, 3 and 4 have determinants 0, 763, -602 and -820.
   */
  lemma DetOfTestMatrix4()
    ensures Det(TestMatrix4(), SameRow) == -52.0
  {
    var m := TestMatrix4();
    assert Term(m, SameRow, 0) == 0.0 by { TestTerm(SameRow, 0); TestCut00(); }
    assert Term(m, SameRow, 1) == -1526.0 by { TestTerm(SameRow, 1); TestCut11(); }
    assert Term(m, SameRow, 2) == -1806.0 by { TestTerm(SameRow, 2); TestCut22(); }
    assert Term(m, SameRow, 3) == 3280.0 by { TestTerm(SameRow, 3); TestCut33(); }
    DetOfFour(m, SameRow);
  }

  /** Expanding along row 0 gives the 17682 the test expects. */
  lemma CofactorDetOfTestMatrix4()
    ensures Det(TestMatrix4(), FirstRow) == 17682.0
  {
    var m := TestMatrix4();
    assert Term(m, FirstRow, 0) == 0.0 by { TestTerm(FirstRow, 0); TestCut00(); }
    assert Term(m, FirstRow, 1) == -85974.0 by { TestTerm(FirstRow, 1); TestCut01(); }
    assert Term(m, FirstRow, 2) == 30240.0 by { TestTerm(FirstRow, 2); TestCut02(); }
    assert Term(m, FirstRow, 3) == 73416.0 by { TestTerm(FirstRow, 3); TestCut03(); }
    DetOfFour(m, FirstRow);
  }

  /** Row 0 of the test matrix is 1, 2, 3, 4, so no column of its expansion is skipped. */
  lemma TestTerm(scheme: Scheme, n: nat)
    requires n < 4
    ensures Term(TestMatrix4(), scheme, n) == Contribution(n, (n + 1) as real, Det(Minor(TestMatrix4(), scheme, n), scheme))
  {
    var m := TestMatrix4();
    assert m.data[n] == (n + 1) as real;
    TermOf(m, scheme, n);
  }

  /**
   * `+`: asserts equal `w` and `h`, adds entry by entry and rebuilds with
   * `new(data, self.w, self.h)`, so the result's height is the operands' width and back.
   */
  function Add(a: Matrix, b: Matrix): (r: Matrix)
    requires Valid(a) && Valid(b) && a.w == b.w && a.h == b.h
    ensures Valid(r) && r.h == a.w && r.w == a.h && |r.data| == |a.data|
    ensures forall i :: 0 <= i < |r.data| ==> r.data[i] == a.data[i] + b.data[i]
  {
    New(seq(|a.data|, i requires 0 <= i < |a.data| => a.data[i] + b.data[i]), a.w, a.h)
  }

  /** `-`: as `+`, subtracting entry by entry. */
  function Sub(a: Matrix, b: Matrix): (r: Matrix)
    requires Valid(a) && Valid(b) && a.w == b.w && a.h == b.h
    ensures Valid(r) && r.h == a.w && r.w == a.h && |r.data| == |a.data|
    ensures forall i :: 0 <= i < |r.data| ==> r.data[i] == a.data[i] - b.data[i]
  {
    New(seq(|a.data|, i requires 0 <= i < |a.data| => a.data[i] - b.data[i]), a.w, a.h)
  }

  /** On square matrices `+` is the entry-wise sum at every position. */
  lemma AddSquare(a: Matrix, b: Matrix)
    requires Valid(a) && Valid(b) && a.w == b.w && a.h == b.h && a.h == a.w
    ensures Add(a, b).h == a.h && Add(a, b).w == a.w
    ensures forall y: nat, x: nat :: y < a.h && x < a.w ==> At(Add(a, b), y, x) == At(a, y, x) + At(b, y, x)
  {
    IdxInRange(a.w, a.h);
  }

  /** On matrices that are not square `+` swaps the shape: a 2x3 sum comes back 3x2. */
  lemma AddSwapsShape()
    ensures var a := New([1.0, 2.0, 3.0, 4.0, 5.0, 6.0], 2, 3);
      a.h == 2 && a.w == 3 && Add(a, a).h == 3 && Add(a, a).w == 2
  {
  }

  /** On square matrices subtracting what was added gives the matrix back. */
  lemma SubAfterAdd(a: Matrix, b: Matrix)
    requires Valid(a) && Valid(b) && a.w == b.w && a.h == b.h && a.h == a.w
    ensures Sub(Add(a, b), b) == a
  {
    assert Sub(Add(a, b), b).data == a.data;
  }

  /** `mul_elementwise`: asserts equal lengths; folds `acc + a[i] * b[i]` from 0. */
  function MulElementwise(a: seq<real>, b: seq<real>): real
    requires |a| == |b|
  {
    if a == [] then 0.0 else MulElementwise(a[..|a| - 1], b[..|b| - 1]) + a[|a| - 1] * b[|b| - 1]
  }

  /** The product of a row with a unit column picks the entry at the unit's position. */
  lemma {:induction false} MulElementwiseUnit(a: seq<real>, b: seq<real>, k: nat)
    requires |a| == |b| && k < |a|
    requires forall i :: 0 <= i < |b| ==> b[i] == Expected(i, k)
    ensures MulElementwise(a, b) == a[k]
    decreases |a|
  {
    var n := |a| - 1;
    if k < n {
      MulElementwiseUnit(a[..n], b[..n], k);
    } else {
      MulElementwiseZeros(a[..n], b[..n]);
    }
  }

  /** Against a column of zeros the fold stays 0. */
  lemma {:induction false} MulElementwiseZeros(a: seq<real>, b: seq<real>)
    requires |a| == |b|
    requires forall i :: 0 <= i < |b| ==> b[i] == 0.0
    ensures MulElementwise(a, b) == 0.0
    decreases |a|
  {
    if a != [] {
      MulElementwiseZeros(a[..|a| - 1], b[..|b| - 1]);
    }
  }

  /** Entry (y, x) of a product: row `y` of `a` times column `x` of `b`. */
  function ProductEntry(a: Matrix, b: Matrix, y: nat, x: nat): real
    requires Valid(a) && Valid(b) && a.w == b.h && y < a.h && x < b.w
  {
    MulElementwise(Row(a, y), Column(b, x))
  }

  /**
   * `*`: asserts `self.w == rhs.h`, fills `data[x + y * rhs.w]` with row `y` of `self` times
   * column `x` of `rhs`, and rebuilds with `new(data, rhs.w, self.h)`.
   */
  method Mul(a: Matrix, b: Matrix) returns (r: Matrix)
    requires Valid(a) && Valid(b) && a.w == b.h
    ensures Valid(r) && r.h == b.w && r.w == a.h
    ensures forall y: nat, x: nat {:trigger Idx(b.w, y, x)} :: y < a.h && x < b.w ==>
      Idx(b.w, y, x) < |r.data| && r.data[Idx(b.w, y, x)] == ProductEntry(a, b, y, x)
  {
    var data := new real[b.w * a.h](_ => 0.0);
    for y := 0 to a.h
      invariant forall yy: nat, xx: nat {:trigger Idx(b.w, yy, xx)} :: yy < y && xx < b.w ==>
        Idx(b.w, yy, xx) < data.Length && data[Idx(b.w, yy, xx)] == ProductEntry(a, b, yy, xx)
    {
      RowFits(b.w, a.h, y);
      FillRow(data, a, b, y);
    }
    assert a.h * b.w == data.Length by {
      MulCommutes(a.h, b.w);
    }
    r := New(data[..], b.w, a.h);
  }

  /** Row `y` of a row-major layout of width `w` is the block from `Idx(w, y, 0)`; rows above lie before it. */
  lemma RowBlock(w: nat, y: nat, yy: nat, xx: nat)
    requires xx < w && yy <= y
    ensures yy == y ==> Idx(w, yy, xx) == Idx(w, y, 0) + xx
    ensures yy < y ==> Idx(w, yy, xx) < Idx(w, y, 0)
  {
    if yy < y {
      MulMono(yy + 1, y, w);
    }
  }

  /** Row `y` of `h` rows of width `w` ends inside the `w * h` entries. */
  lemma RowFits(w: nat, h: nat, y: nat)
    requires y < h
    ensures Idx(w, y, 0) + w <= w * h
  {
    MulMono(y + 1, h, w);
  }

  /** Rows above `y` as they were and row `y` freshly written: the first `y + 1` rows are done. */
  lemma RowsSoFar(a: Matrix, b: Matrix, y: nat, before: seq<real>, after: seq<real>)
    requires Valid(a) && Valid(b) && a.w == b.h && y < a.h
    requires |before| == |after| && Idx(b.w, y, 0) + b.w <= |after|
    requires forall yy: nat, xx: nat {:trigger Idx(b.w, yy, xx)} :: yy < y && xx < b.w ==>
      Idx(b.w, yy, xx) < |before| && before[Idx(b.w, yy, xx)] == ProductEntry(a, b, yy, xx)
    requires forall x :: 0 <= x < b.w ==> after[Idx(b.w, y, 0) + x] == ProductEntry(a, b, y, x)
    requires forall i :: 0 <= i < Idx(b.w, y, 0) ==> after[i] == before[i]
    ensures forall yy: nat, xx: nat {:trigger Idx(b.w, yy, xx)} :: yy <= y && xx < b.w ==>
      Idx(b.w, yy, xx) < |after| && after[Idx(b.w, yy, xx)] == ProductEntry(a, b, yy, xx)
  {
    forall yy: nat, xx: nat | yy <= y && xx < b.w
      ensures Idx(b.w, yy, xx) < |after| && after[Idx(b.w, yy, xx)] == ProductEntry(a, b, yy, xx)
    {
      RowBlock(b.w, y, yy, xx);
    }
  }

  /** The inner loop of `*`: row `y` of the product, written from `y * rhs.w` on. */
  method FillRow(data: array<real>, a: Matrix, b: Matrix, y: nat)
    requires Valid(a) && Valid(b) && a.w == b.h && y < a.h && Idx(b.w, y, 0) + b.w <= data.Length
    requires forall yy: nat, xx: nat {:trigger Idx(b.w, yy, xx)} :: yy < y && xx < b.w ==>
      Idx(b.w, yy, xx) < data.Length && data[Idx(b.w, yy, xx)] == ProductEntry(a, b, yy, xx)
    modifies data
    ensures forall x :: 0 <= x < b.w ==> data[Idx(b.w, y, 0) + x] == ProductEntry(a, b, y, x)
    ensures forall i :: 0 <= i < Idx(b.w, y, 0) ==> data[i] == old(data[i])
    ensures forall yy: nat, xx: nat {:trigger Idx(b.w, yy, xx)} :: yy <= y && xx < b.w ==>
      Idx(b.w, yy, xx) < data.Length && data[Idx(b.w, yy, xx)] == ProductEntry(a, b, yy, xx)
  {
    ghost var before := data[..];
    var start := Idx(b.w, y, 0);
    for x := 0 to b.w
      invariant forall xx :: 0 <= xx < x ==> data[start + xx] == ProductEntry(a, b, y, xx)
      invariant forall i :: 0 <= i < start ==> data[i] == old(data[i])
    {
      data[start + x] := MulElementwise(Row(a, y), Column(b, x));
    }
    RowsSoFar(a, b, y, before, data[..]);
  }

  /** A square matrix times an identity of its size keeps every entry. */
  lemma MulByIdentity(a: Matrix, e: Matrix, y: nat, x: nat)
    requires Valid(a) && Valid(e) && IdentityEntries(e) && e.h == a.w && e.w == a.w
    requires y < a.h && x < a.w
    ensures ProductEntry(a, e, y, x) == At(a, y, x)
  {
    var c := Column(e, x);
    assert forall i :: 0 <= i < |c| ==> c[i] == Expected(i, x);
    MulElementwiseUnit(Row(a, y), c, x);
  }

  /**
   * `*` by a vector: asserts `w == 3`; entry `y` is row `y` times the vector's column, and the
   * result is rebuilt with `new(data, self.h, 1)`.
   */
  method MulVector(m: Matrix, v: V.Vec3) returns (r: Matrix)
    requires Valid(m) && m.w == 3
    ensures Valid(r) && r.h == m.h && r.w == 1
    ensures forall y :: 0 <= y < m.h ==> r.data[y] == MulElementwise(Row(m, y), V.Column(v))
  {
    var data := new real[m.h](_ => 0.0);
    for y := 0 to m.h
      invariant forall yy :: 0 <= yy < y ==> data[yy] == MulElementwise(Row(m, yy), V.Column(v))
    {
      data[y] := MulElementwise(Row(m, y), V.Column(v));
    }
    r := New(data[..], m.h, 1);
  }

  /** The fold over three entries. */
  lemma MulElementwiseThree(p: real, q: real, t: real, x: real, y: real, z: real)
    ensures MulElementwise([p, q, t], [x, y, z]) == p * x + q * y + t * z
  {
    assert [p, q, t][..2] == [p, q] && [x, y, z][..2] == [x, y];
    assert [p, q][..1] == [p] && [x, y][..1] == [x];
    assert [p][..0] == [] && [x][..0] == [];
    assert MulElementwise([p], [x]) == p * x;
    assert MulElementwise([p, q], [x, y]) == p * x + q * y;
  }

  /** Row `y` times the column of `v` is the linear combination of the row's entries. */
  lemma MulVectorEntry(m: Matrix, v: V.Vec3, y: nat)
    requires Valid(m) && m.w == 3 && y < m.h
    ensures MulElementwise(Row(m, y), V.Column(v)) == At(m, y, 0) * v.x + At(m, y, 1) * v.y + At(m, y, 2) * v.z
  {
    assert Row(m, y) == [At(m, y, 0), At(m, y, 1), At(m, y, 2)];
    assert V.Column(v) == [v.x, v.y, v.z];
    MulElementwiseThree(At(m, y, 0), At(m, y, 1), At(m, y, 2), v.x, v.y, v.z);
  }

  /** Indexing a `Vec` that panics past its end. */
  function Get(s: seq<real>, i: nat): (r: Option<real>)
    ensures r.Some? <==> i < |s|
  {
    if i < |s| then Some(s[i]) else None
  }

  /** `From<Vector3f>`: the column `[x, y, z]` as `new(data, 3, 1)`. */
  function FromVector(v: V.Vec3): (m: Matrix)
    ensures Valid(m) && m.h == 3 && m.w == 1
    ensures At(m, 0, 0) == v.x && At(m, 1, 0) == v.y && At(m, 2, 0) == v.z
  {
    New([v.x, v.y, v.z], 3, 1)
  }

  /**
   * `From<Matrix> for Vector3f`: asserts a 1x1 matrix and then reads `data[1]` and `data[2]`,
   * which a valid 1x1 matrix does not have; every conversion fails (`None`).
   */
  function ToVector(m: Matrix): (r: Option<V.Vec3>)
    requires Valid(m)
    ensures r.None?
  {
    if m.h != 1 || m.w != 1 then None
    else
      match (Get(m.data, 0), Get(m.data, 1), Get(m.data, 2))
      case (Some(x), Some(y), Some(z)) => Some(V.Vec3(x, y, z))
      case _ => None
  }

  /** So the conversions are no round trip: a vector made a matrix does not come back. */
  lemma VectorRoundTripFails(v: V.Vec3)
    ensures ToVector(FromVector(v)) == None
  {
  }
}
