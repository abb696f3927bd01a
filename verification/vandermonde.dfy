/** Polynomials over GF(256), and why any k rows of the systematic generator are independent. */
module Vandermonde {
  import opened Gf256
  import opened LinearAlgebra
  import opened Sequences

  // ----- polynomials and their roots -----

  /** Value at b of the polynomial with coefficients c, lowest first. */
  ghost function Eval(c: Vector, b: Byte): Byte {
    if c == [] then ZERO else Add(c[0], Mul(b, Eval(c[1..], b)))
  }

  /** Quotient of c by the linear factor that vanishes at a. */
  ghost function Quotient(c: Vector, a: Byte): (q: Vector)
    ensures |q| == if c == [] then 0 else |c| - 1
  {
    if |c| <= 1 then [] else [Eval(c[1..], a)] + Quotient(c[1..], a)
  }

  /** c(b) + c(a) = (b + a) q(b). */
  lemma {:induction false} FactorTheorem(c: Vector, a: Byte, b: Byte)
    ensures Add(Eval(c, b), Eval(c, a)) == Mul(Add(b, a), Eval(Quotient(c, a), b))
  {
    hide Add, Mul;
    if c == [] {
      AddZero(ZERO);
      MulZero(Add(b, a));
    } else {
      var c', q' := c[1..], Quotient(c[1..], a);
      var pa, pb, e := Eval(c', a), Eval(c', b), Eval(q', b);
      FactorTheorem(c', a, b);
      // both constant terms are c_0
      AddSwap(c[0], Mul(b, pb), c[0], Mul(a, pa));
      AddSelf(c[0]);
      AddZero(Add(Mul(b, pb), Mul(a, pa)));
      if |c| == 1 {
        MulZero(b);
        MulZero(a);
        MulZero(Add(b, a));
        AddZero(ZERO);
      } else {
        assert Quotient(c, a)[1..] == q';
        assert Eval(Quotient(c, a), b) == Add(pa, Mul(b, e));
        FactorStep(a, b, pa, pb, e);
      }
    }
  }

  lemma FactorStep(a: Byte, b: Byte, pa: Byte, pb: Byte, e: Byte)
    requires Add(pb, pa) == Mul(Add(b, a), e)
    ensures Add(Mul(b, pb), Mul(a, pa)) == Mul(Add(b, a), Add(pa, Mul(b, e)))
  {
    hide Add, Mul;
    var d := Add(b, a);
    // pb = d e + pa
    AddAssoc(pb, pa, pa);
    AddSelf(pa);
    AddZero(pb);
    assert pb == Add(Mul(d, e), pa);
    MulAddRight(b, Mul(d, e), pa);
    AddAssoc(Mul(b, Mul(d, e)), Mul(b, pa), Mul(a, pa));
    MulAddLeft(b, a, pa);
    // b (d e) = d (b e)
    MulAssoc(b, d, e);
    MulComm(b, d);
    MulAssoc(d, b, e);
    AddComm(Mul(d, Mul(b, e)), Mul(d, pa));
    MulAddRight(d, pa, Mul(b, e));
  }

  /** If the quotient vanishes identically, so does every coefficient but the first. */
  lemma {:induction false} QuotientZero(c: Vector, a: Byte)
    requires forall j :: 0 <= j < |Quotient(c, a)| ==> Quotient(c, a)[j] == ZERO
    ensures forall j :: 1 <= j < |c| ==> c[j] == ZERO
  {
    hide Add, Mul;
    if |c| > 1 {
      var c' := c[1..];
      assert Quotient(c, a)[1..] == Quotient(c', a);
      QuotientZero(c', a);
      assert Quotient(c, a)[0] == ZERO;
      EvalConstant(c', a);
    }
  }

  lemma {:induction false} EvalConstant(c: Vector, a: Byte)
    requires c != [] && forall j :: 1 <= j < |c| ==> c[j] == ZERO
    ensures Eval(c, a) == c[0]
  {
    hide Add, Mul;
    if |c| > 1 { EvalConstant(c[1..], a); }
    MulZero(a);
    AddZero(c[0]);
  }

  /** A polynomial with as many roots as coefficients is zero. */
  lemma {:induction false} TooManyRoots(c: Vector, points: seq<Byte>)
    requires |points| == |c| && Distinct(points)
    requires forall i :: 0 <= i < |points| ==> Eval(c, points[i]) == ZERO
    ensures forall j :: 0 <= j < |c| ==> c[j] == ZERO
    decreases |c|
  {
    hide Add, Mul, Eval;
    if c != [] {
      var a, q := points[0], Quotient(c, points[0]);
      forall i | 1 <= i < |points| ensures Eval(q, points[i]) == ZERO {
        RootOfQuotient(c, a, points[i]);
      }
      TooManyRoots(q, points[1..]);
      QuotientZero(c, a);
      EvalConstant(c, a);
    }
  }

  lemma RootOfQuotient(c: Vector, a: Byte, b: Byte)
    requires a != b && Eval(c, a) == ZERO && Eval(c, b) == ZERO
    ensures Eval(Quotient(c, a), b) == ZERO
  {
    hide Add, Mul, Eval;
    FactorTheorem(c, a, b);
    AddZero(ZERO);
    if Eval(Quotient(c, a), b) != ZERO {
      SumNonzero(b, a);
      MulNonzero(Add(b, a), Eval(Quotient(c, a), b));
    }
  }

  lemma SumNonzero(a: Byte, b: Byte)
    requires a != b
    ensures Add(a, b) != ZERO
  {
    hide Add;
    if Add(a, b) == ZERO {
      AddAssoc(a, b, b);
      AddSelf(b);
      AddZero(a);
      AddZero(b);
    }
  }

  // ----- rows of powers -----

  /** Row of the Vandermonde matrix for the point x^t. */
  ghost function PowerRow(t: nat, k: nat): (r: Vector)
    ensures |r| == k
  {
    seq(k, j requires 0 <= j < k => Exp(t * j))
  }

  ghost function PowerMatrix(k: nat): (a: Matrix)
    ensures IsMatrix(a, k, k)
  {
    seq(k, i requires 0 <= i < k => PowerRow(i, k))
  }

  lemma {:induction false} EvalLast(c: Vector, t: nat)
    requires c != []
    ensures var n := |c| - 1; Eval(c, Exp(t)) == Add(Eval(c[..n], Exp(t)), Mul(Exp(t * n), c[n]))
  {
    hide Add, Mul, Exp;
    var n, b := |c| - 1, Exp(t);
    if n == 0 {
      ExpZero();
      MulOne(c[0]);
      MulZero(b);
      AddComm(c[0], ZERO);
    } else {
      var c' := c[1..];
      EvalLast(c', t);
      assert c'[..n - 1] == c[..n][1..];
      MulAddRight(b, Eval(c'[..n - 1], b), Mul(Exp(t * (n - 1)), c[n]));
      MulAssoc(b, Exp(t * (n - 1)), c[n]);
      ExpAdd(t, t * (n - 1));
      assert t + t * (n - 1) == t * n;
      AddAssoc(c[0], Mul(b, Eval(c'[..n - 1], b)), Mul(Exp(t * n), c[n]));
    }
  }

  lemma {:induction false} PowerRowEvaluates(t: nat, k: nat, c: Vector, n: nat)
    requires n <= k && n <= |c|
    ensures Dot(PowerRow(t, k), c, n) == Eval(c[..n], Exp(t))
  {
    hide Add, Mul, Exp;
    if n != 0 {
      PowerRowEvaluates(t, k, c, n - 1);
      EvalLast(c[..n], t);
      assert c[..n][..n - 1] == c[..n - 1];
    }
  }

  /** k distinct powers of x, none of which a nonzero polynomial of degree below k can all have as roots. */
  lemma PowerRowsIndependent(points: seq<nat>, c: Vector)
    requires |points| == |c| && Distinct(points)
    requires forall r :: 0 <= r < |points| ==> points[r] < 255
    requires forall r :: 0 <= r < |points| ==> Dot(PowerRow(points[r], |c|), c, |c|) == ZERO
    ensures c == Zeros(|c|)
  {
    hide Dot, Exp, Eval, PowerRow;
    var roots := seq(|points|, r requires 0 <= r < |points| => Exp(points[r]));
    forall i, j | 0 <= i < j < |roots| ensures roots[i] != roots[j] {
      if points[i] < points[j] { ExpDistinct(points[i], points[j]); } else { ExpDistinct(points[j], points[i]); }
    }
    forall r | 0 <= r < |points| ensures Eval(c, roots[r]) == ZERO {
      PowerRowEvaluates(points[r], |c|, c, |c|);
      assert c[..|c|] == c;
    }
    TooManyRoots(c, roots);
  }

  lemma PowerMatrixNonsingular(k: nat)
    requires k <= 255
    ensures !Singular(PowerMatrix(k))
  {
    hide Dot, PowerRow;
    forall c: Vector | |c| == k && Maps(PowerMatrix(k), c, Zeros(k)) ensures c == Zeros(k) {
      var points: seq<nat> := seq(k, i => i);
      forall r | 0 <= r < k ensures Dot(PowerRow(points[r], k), c, k) == ZERO {
        assert Dot(PowerMatrix(k)[r], c, k) == Zeros(k)[r];
      }
      PowerRowsIndependent(points, c);
    }
  }

  // ----- the systematic generator -----

  /** (r w) x = r (w x). */
  lemma DotAssoc(r: Vector, w: Matrix, g: Vector, x: Vector, y: Vector, k: nat)
    requires |r| == |x| == |y| == |g| == k && IsMatrix(w, k, k) && Maps(w, x, y)
    requires forall j :: 0 <= j < k ==> g[j] == Dot(r, Column(w, j), k)
    ensures Dot(g, x, k) == Dot(r, y, k)
  {
    hide Dot;
    var partial := seq(k, l requires 0 <= l < k => Dot(w[l], x, k));
    PartialAssoc(r, w, g, x, partial, k, k);
    assert partial == y;
  }

  lemma {:induction false} PartialAssoc(r: Vector, w: Matrix, g: Vector, x: Vector, z: Vector, k: nat, n: nat)
    requires |r| == |x| == |z| == |g| == k && IsMatrix(w, k, k) && n <= k
    requires forall j :: 0 <= j < k ==> g[j] == Dot(r, Column(w, j), k)
    requires forall l :: 0 <= l < k ==> z[l] == Dot(w[l], x, n)
    ensures Dot(g, x, n) == Dot(r, z, k)
    decreases n
  {
    hide Add, Mul;
    if n == 0 {
      DotZero(r, z, k);
    } else {
      var z' := seq(k, l requires 0 <= l < k => Dot(w[l], x, n - 1));
      PartialAssoc(r, w, g, x, z', k, n - 1);
      var last := seq(k, l requires 0 <= l < k => Mul(w[l][n - 1], x[n - 1]));
      DotAddRight(r, z', last, z, k);
      DotScaleRight(r, Column(w, n - 1), x[n - 1], last, k);
    }
  }

  lemma {:induction false} DotAddRight(r: Vector, x: Vector, y: Vector, z: Vector, n: nat)
    requires n <= |r| && n <= |x| && n <= |y| && n <= |z|
    requires forall l :: 0 <= l < n ==> z[l] == Add(x[l], y[l])
    ensures Dot(r, z, n) == Add(Dot(r, x, n), Dot(r, y, n))
  {
    hide Add, Mul;
    if n == 0 {
      AddZero(ZERO);
    } else {
      DotAddRight(r, x, y, z, n - 1);
      MulAddRight(r[n - 1], x[n - 1], y[n - 1]);
      AddSwap(Dot(r, x, n - 1), Dot(r, y, n - 1), Mul(r[n - 1], x[n - 1]), Mul(r[n - 1], y[n - 1]));
    }
  }

  lemma {:induction false} DotScaleRight(r: Vector, x: Vector, s: Byte, z: Vector, n: nat)
    requires n <= |r| && n <= |x| && n <= |z|
    requires forall l :: 0 <= l < n ==> z[l] == Mul(x[l], s)
    ensures Dot(r, z, n) == Mul(Dot(r, x, n), s)
  {
    hide Add, Mul;
    if n == 0 {
      MulZero(s);
    } else {
      DotScaleRight(r, x, s, z, n - 1);
      MulAssoc(r[n - 1], x[n - 1], s);
      MulAddLeft(Dot(r, x, n - 1), Mul(r[n - 1], x[n - 1]), s);
    }
  }

  /** g holds the parity rows: powers of the points k, k + 1, ... times the inverse of the power matrix. */
  ghost predicate Systematic(g: Matrix, k: nat, m: nat, w: Matrix) {
    IsMatrix(g, m, k) && IsMatrix(w, k, k) && Inverse(PowerMatrix(k), w) &&
    forall i, j :: 0 <= i < m && 0 <= j < k ==> g[i][j] == Dot(PowerRow(k + i, k), Column(w, j), k)
  }

  /** Row number s of the whole code: a unit row for a data packet, a generator row for a parity packet. */
  ghost function CodeRow(g: Matrix, k: nat, s: nat): (r: Vector)
    requires forall i :: 0 <= i < |g| ==> |g[i]| == k
    requires s < k + |g|
    ensures |r| == k
  {
    if s < k then Unit(k, s) else g[s - k]
  }

  /** Row s of the code, applied to x, evaluates at x^s the polynomial that w makes of x. */
  lemma CodeRowEvaluates(g: Matrix, k: nat, m: nat, w: Matrix, s: nat, x: Vector, c: Vector)
    requires Systematic(g, k, m, w) && s < k + m && |x| == |c| == k && Maps(w, x, c)
    ensures Dot(CodeRow(g, k, s), x, k) == Dot(PowerRow(s, k), c, k)
  {
    hide Dot, PowerRow, Inverse, Maps;
    if s < k {
      DataRow(g, k, m, w, s, x, c);
      UnitDot(x, s, k);
    } else {
      ParityRow(g, k, m, w, s, x, c);
    }
  }

  lemma DataRow(g: Matrix, k: nat, m: nat, w: Matrix, s: nat, x: Vector, c: Vector)
    requires Systematic(g, k, m, w) && s < k && |x| == |c| == k && Maps(w, x, c)
    ensures Dot(PowerRow(s, k), c, k) == x[s]
  {
    hide Dot, PowerRow;
    assert Maps(PowerMatrix(k), c, x);
    assert Dot(PowerMatrix(k)[s], c, k) == x[s];
  }

  lemma ParityRow(g: Matrix, k: nat, m: nat, w: Matrix, s: nat, x: Vector, c: Vector)
    requires Systematic(g, k, m, w) && k <= s < k + m && |x| == |c| == k && Maps(w, x, c)
    ensures Dot(g[s - k], x, k) == Dot(PowerRow(s, k), c, k)
  {
    hide Dot, PowerRow;
    DotAssoc(PowerRow(s, k), w, g[s - k], x, c, k);
  }

  lemma UnitDot(x: Vector, j: nat, n: nat)
    requires j < n == |x|
    ensures Dot(Unit(n, j), x, n) == x[j]
  {
    hide Add, Mul;
    DotSplit(Unit(n, j), x, j, n);
    DotZero(Unit(n, j)[j := ZERO], x, n);
    MulOne(x[j]);
    AddZero(x[j]);
  }

  /** Any k rows of the code are independent, as long as no power of x repeats. */
  lemma AnyRowsNonsingular(g: Matrix, k: nat, m: nat, w: Matrix, sel: seq<nat>, sub: Matrix)
    requires Systematic(g, k, m, w) && k + m <= 255
    requires |sel| == k && Distinct(sel) && forall r :: 0 <= r < k ==> sel[r] < k + m
    requires IsMatrix(sub, k, k) && forall r :: 0 <= r < k ==> sub[r] == CodeRow(g, k, sel[r])
    ensures !Singular(sub)
  {
    hide Dot, PowerRow, CodeRow;
    forall x: Vector | |x| == k && Maps(sub, x, Zeros(k)) ensures x == Zeros(k) {
      var c := Image(w, x);
      forall r | 0 <= r < k ensures Dot(PowerRow(sel[r], k), c, k) == ZERO {
        CodeRowEvaluates(g, k, m, w, sel[r], x, c);
        assert Dot(sub[r], x, k) == Zeros(k)[r];
      }
      PowerRowsIndependent(sel, c);
      assert Maps(PowerMatrix(k), c, x);
      forall i | 0 <= i < k ensures x[i] == ZERO {
        assert Dot(PowerMatrix(k)[i], c, k) == x[i];
        DotZero(PowerMatrix(k)[i], c, k);
      }
    }
  }
}
