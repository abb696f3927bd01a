/** Vectors and square matrices over GF(256). */
module LinearAlgebra {
  import opened Gf256

  type Vector = seq<Byte>
  type Matrix = seq<seq<Byte>>

  ghost predicate IsMatrix(a: Matrix, rows: nat, cols: nat) {
    |a| == rows && forall i :: 0 <= i < rows ==> |a[i]| == cols
  }

  /** Sum of the first n products r[l] * x[l]. */
  function Dot(r: Vector, x: Vector, n: nat): Byte
    requires n <= |r| && n <= |x|
  {
    if n == 0 then ZERO else Add(Dot(r, x, n - 1), Mul(r[n - 1], x[n - 1]))
  }

  /** y = a x. */
  ghost predicate Maps(a: Matrix, x: Vector, y: Vector) {
    IsMatrix(a, |y|, |x|) && forall i :: 0 <= i < |y| ==> Dot(a[i], x, |x|) == y[i]
  }

  ghost function Image(a: Matrix, x: Vector): (y: Vector)
    requires IsMatrix(a, |a|, |x|)
    ensures Maps(a, x, y) && |y| == |a|
  {
    seq(|a|, i requires 0 <= i < |a| => Dot(a[i], x, |x|))
  }

  ghost function Zeros(n: nat): Vector { seq(n, _ => ZERO) }

  ghost function Unit(n: nat, j: nat): Vector { seq(n, i => if i == j then ONE else ZERO) }

  ghost function Column(a: Matrix, j: nat): Vector
    requires forall i :: 0 <= i < |a| ==> j < |a[i]|
  {
    seq(|a|, i requires 0 <= i < |a| => a[i][j])
  }

  /** Some nonzero vector is mapped to zero. */
  ghost predicate Singular(a: Matrix) {
    exists x: Vector {:trigger Maps(a, x, Zeros(|a|))} :: |x| == |a| && x != Zeros(|a|) && Maps(a, x, Zeros(|a|))
  }

  /** b undoes a: y = a x exactly when x = b y. */
  ghost predicate Inverse(a: Matrix, b: Matrix) {
    forall x: Vector, y: Vector {:trigger Maps(a, x, y)} {:trigger Maps(b, y, x)} ::
      |x| == |a| && |y| == |a| ==> (Maps(a, x, y) <==> Maps(b, y, x))
  }

  /** a b is the identity matrix. */
  ghost predicate ProductIsIdentity(a: Matrix, b: Matrix) {
    var n := |a|;
    IsMatrix(a, n, n) && IsMatrix(b, n, n) &&
    forall i, j :: 0 <= i < n && 0 <= j < n ==> Dot(a[i], Column(b, j), n) == if i == j then ONE else ZERO
  }

  // ----- sums of products -----

  lemma {:induction false} DotCongruent(r: Vector, x: Vector, r': Vector, x': Vector, n: nat)
    requires n <= |r| && n <= |x| && n <= |r'| && n <= |x'|
    requires forall l :: 0 <= l < n ==> Mul(r[l], x[l]) == Mul(r'[l], x'[l])
    ensures Dot(r, x, n) == Dot(r', x', n)
  {
    hide Add, Mul;
    if n != 0 { DotCongruent(r, x, r', x', n - 1); }
  }

  lemma {:induction false} DotZero(r: Vector, x: Vector, n: nat)
    requires n <= |r| && n <= |x|
    requires forall l :: 0 <= l < n ==> r[l] == ZERO || x[l] == ZERO
    ensures Dot(r, x, n) == ZERO
  {
    hide Add, Mul;
    if n != 0 {
      DotZero(r, x, n - 1);
      MulZero(r[n - 1]);
      MulZero(x[n - 1]);
      AddZero(ZERO);
    }
  }

  /** One term taken out of the sum. */
  lemma {:induction false} DotSplit(r: Vector, x: Vector, i: nat, n: nat)
    requires i < n <= |r| && n <= |x|
    ensures Dot(r, x, n) == Add(Dot(r[i := ZERO], x, n), Mul(r[i], x[i]))
  {
    hide Add, Mul;
    var r' := r[i := ZERO];
    if i == n - 1 {
      DotCongruent(r, x, r', x, n - 1);
      MulZero(x[i]);
      AddZero(Dot(r', x, n - 1));
    } else {
      DotSplit(r, x, i, n - 1);
      var d, p, q := Dot(r', x, n - 1), Mul(r[i], x[i]), Mul(r[n - 1], x[n - 1]);
      AddAssoc(d, p, q);
      AddComm(p, q);
      AddAssoc(d, q, p);
    }
  }

  lemma {:induction false} DotAdd(r: Vector, s: Vector, t: Vector, x: Vector, n: nat)
    requires n <= |r| && n <= |s| && n <= |t| && n <= |x|
    requires forall l :: 0 <= l < n ==> t[l] == Add(r[l], s[l])
    ensures Dot(t, x, n) == Add(Dot(r, x, n), Dot(s, x, n))
  {
    hide Add, Mul;
    if n == 0 {
      AddZero(ZERO);
    } else {
      DotAdd(r, s, t, x, n - 1);
      MulAddLeft(r[n - 1], s[n - 1], x[n - 1]);
      AddSwap(Dot(r, x, n - 1), Dot(s, x, n - 1), Mul(r[n - 1], x[n - 1]), Mul(s[n - 1], x[n - 1]));
    }
  }

  lemma {:induction false} DotScale(c: Byte, r: Vector, t: Vector, x: Vector, n: nat)
    requires n <= |r| && n <= |t| && n <= |x|
    requires forall l :: 0 <= l < n ==> t[l] == Mul(c, r[l])
    ensures Dot(t, x, n) == Mul(c, Dot(r, x, n))
  {
    hide Add, Mul;
    if n == 0 {
      MulZero(c);
    } else {
      DotScale(c, r, t, x, n - 1);
      MulAssoc(c, r[n - 1], x[n - 1]);
      MulAddRight(c, Dot(r, x, n - 1), Mul(r[n - 1], x[n - 1]));
    }
  }

  /** Exchanging two positions of both vectors changes no sum. */
  lemma DotSwap(r: Vector, x: Vector, i: nat, j: nat, n: nat)
    requires i < n && j < n && n <= |r| && n <= |x|
    ensures Dot(Swap(r, i, j), Swap(x, i, j), n) == Dot(r, x, n)
  {
    hide Add, Mul;
    if i != j {
      var r0 := r[i := ZERO];
      var s, y := Swap(r, i, j), Swap(x, i, j);
      DotSplit(r, x, i, n);
      DotSplit(r0, x, j, n);
      DotSplit(s, y, i, n);
      DotSplit(s[i := ZERO], y, j, n);
      var p, q := Mul(r[i], x[i]), Mul(r[j], x[j]);
      var rest := Dot(r0[j := ZERO], x, n);
      assert s[i := ZERO][j := ZERO] == r0[j := ZERO];
      MulZero(x[i]);
      MulZero(x[j]);
      DotCongruent(r0[j := ZERO], x, r0[j := ZERO], y, n);
      AddAssoc(rest, q, p);
      AddComm(q, p);
      AddAssoc(rest, p, q);
    } else {
      assert Swap(r, i, j) == r && Swap(x, i, j) == x;
    }
  }

  function Swap<T>(s: seq<T>, i: nat, j: nat): (t: seq<T>)
    requires i < |s| && j < |s|
    ensures |t| == |s| && t[i] == s[j] && t[j] == s[i]
    ensures forall k :: 0 <= k < |s| && k != i && k != j ==> t[k] == s[k]
  {
    s[i := s[j]][j := s[i]]
  }

  lemma DotUnit(r: Vector, j: nat, n: nat)
    requires j < n == |r|
    ensures Dot(r, Unit(n, j), n) == r[j]
  {
    hide Add, Mul;
    DotSplit(r, Unit(n, j), j, n);
    DotZero(r[j := ZERO], Unit(n, j), n);
    MulComm(r[j], ONE);
    MulOne(r[j]);
    AddZero(r[j]);
  }
}
