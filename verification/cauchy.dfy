/** Generators of the form u v / (x + y): any k rows of the code are independent. */
module Cauchy {

  import opened Gf256
  import opened LinearAlgebra
  import opened Sequences
  import opened Vandermonde
  import opened Erasures

  // ----- arithmetic on polynomials -----

  ghost function Sum(c: Vector, d: Vector): (s: Vector)
    requires |c| == |d|
    ensures |s| == |c|
  {
    seq(|c|, i requires 0 <= i < |c| => Add(c[i], d[i]))
  }

  ghost function Scaled(s: Byte, c: Vector): (r: Vector)
    ensures |r| == |c|
  {
    seq(|c|, i requires 0 <= i < |c| => Mul(s, c[i]))
  }

  /** The product with the linear factor that vanishes at a. */
  ghost function Times(c: Vector, a: Byte): (r: Vector)
    ensures |r| == |c| + 1
  {
    Sum([ZERO] + c, Scaled(a, c) + [ZERO])
  }

  lemma {:induction false} EvalSum(c: Vector, d: Vector, z: Byte)
    requires |c| == |d|
    ensures Eval(Sum(c, d), z) == Add(Eval(c, z), Eval(d, z))
  {
    hide Add, Mul;
    if c == [] {
      AddZero(ZERO);
    } else {
      EvalSum(c[1..], d[1..], z);
      assert Sum(c, d)[1..] == Sum(c[1..], d[1..]);
      MulAddRight(z, Eval(c[1..], z), Eval(d[1..], z));
      AddSwap(c[0], d[0], Mul(z, Eval(c[1..], z)), Mul(z, Eval(d[1..], z)));
    }
  }

  lemma {:induction false} EvalScaled(s: Byte, c: Vector, z: Byte)
    ensures Eval(Scaled(s, c), z) == Mul(s, Eval(c, z))
  {
    hide Add, Mul;
    if c == [] {
      MulZero(s);
    } else {
      EvalScaled(s, c[1..], z);
      assert Scaled(s, c)[1..] == Scaled(s, c[1..]);
      var e := Eval(c[1..], z);
      MulAddRight(s, c[0], Mul(z, e));
      MulAssoc(s, z, e);
      MulComm(s, z);
      MulAssoc(z, s, e);
    }
  }

  lemma {:induction false} EvalPadded(c: Vector, z: Byte)
    ensures Eval(c + [ZERO], z) == Eval(c, z)
  {
    hide Add, Mul;
    if c == [] {
      MulZero(z);
      AddZero(ZERO);
    } else {
      EvalPadded(c[1..], z);
      assert (c + [ZERO])[1..] == c[1..] + [ZERO];
    }
  }

  lemma EvalTimes(c: Vector, a: Byte, z: Byte)
    ensures Eval(Times(c, a), z) == Mul(Add(z, a), Eval(c, z))
  {
    hide Add, Mul;
    EvalSum([ZERO] + c, Scaled(a, c) + [ZERO], z);
    EvalPadded(Scaled(a, c), z);
    EvalScaled(a, c, z);
    assert ([ZERO] + c)[1..] == c;
    AddComm(ZERO, Mul(z, Eval(c, z)));
    AddZero(Mul(z, Eval(c, z)));
    MulAddLeft(z, a, Eval(c, z));
  }

  // ----- the polynomial of a data vector -----

  /** The polynomial that vanishes at the first n points. */
  ghost function Nodes(p: Vector, n: nat): (c: Vector)
    requires n <= |p|
    ensures |c| == n + 1
  {
    if n == 0 then [ONE] else Times(Nodes(p, n - 1), p[n - 1])
  }

  /** The sum, over the first n points, of w times the product of the other linear factors. */
  ghost function Blend(p: Vector, w: Vector, n: nat): (c: Vector)
    requires n <= |w| && n <= |p|
    ensures |c| == n
  {
    if n == 0 then [] else Sum(Times(Blend(p, w, n - 1), p[n - 1]), Scaled(w[n - 1], Nodes(p, n - 1)))
  }

  lemma Apart(p: Vector, s: nat, t: nat)
    requires Distinct(p) && s < |p| && t < |p| && s != t
    ensures Add(p[s], p[t]) != ZERO
  {
    hide Add;
    SumNonzero(p[s], p[t]);
  }

  lemma ZeroOrNot(a: Byte, b: Byte)
    ensures Mul(a, b) == ZERO <==> a == ZERO || b == ZERO
  {
    hide Mul;
    MulZero(a);
    MulZero(b);
    if a != ZERO && b != ZERO {
      MulNonzero(a, b);
    }
  }

  lemma {:induction false} NodesVanish(p: Vector, n: nat, s: nat)
    requires Distinct(p) && n <= |p| && s < |p|
    ensures Eval(Nodes(p, n), p[s]) == ZERO <==> s < n
  {
    hide Add, Mul;
    if n == 0 {
      MulZero(p[s]);
      AddZero(ONE);
    } else {
      NodesVanish(p, n - 1, s);
      EvalTimes(Nodes(p, n - 1), p[n - 1], p[s]);
      ZeroOrNot(Add(p[s], p[n - 1]), Eval(Nodes(p, n - 1), p[s]));
      AddSelf(p[s]);
      if s != n - 1 {
        Apart(p, s, n - 1);
      }
    }
  }

  lemma BlendNext(p: Vector, w: Vector, n: nat, z: Byte)
    requires 0 < n <= |w| && n <= |p|
    ensures Eval(Blend(p, w, n), z) ==
      Add(Mul(Add(z, p[n - 1]), Eval(Blend(p, w, n - 1), z)), Mul(w[n - 1], Eval(Nodes(p, n - 1), z)))
  {
    hide Add, Mul;
    EvalSum(Times(Blend(p, w, n - 1), p[n - 1]), Scaled(w[n - 1], Nodes(p, n - 1)), z);
    EvalTimes(Blend(p, w, n - 1), p[n - 1], z);
    EvalScaled(w[n - 1], Nodes(p, n - 1), z);
  }

  /** At a point of its own the polynomial shows whether there is something. */
  lemma {:induction false} BlendAtData(p: Vector, w: Vector, n: nat, s: nat)
    requires Distinct(p) && s < n <= |w| && n <= |p|
    ensures Eval(Blend(p, w, n), p[s]) == ZERO <==> w[s] == ZERO
  {
    hide Add, Mul;
    BlendNext(p, w, n, p[s]);
    NodesVanish(p, n - 1, s);
    var front, last := Eval(Blend(p, w, n - 1), p[s]), Eval(Nodes(p, n - 1), p[s]);
    ZeroOrNot(Add(p[s], p[n - 1]), front);
    ZeroOrNot(w[n - 1], last);
    if s == n - 1 {
      AddSelf(p[s]);
      AddComm(ZERO, Mul(w[n - 1], last));
      AddZero(Mul(w[n - 1], last));
    } else {
      BlendAtData(p, w, n - 1, s);
      Apart(p, s, n - 1);
      AddZero(Mul(Add(p[s], p[n - 1]), front));
    }
  }

  // ----- the code -----

  /** Every packet has a point p; entry times distance of the points is a product of a factor of the row and one of the
    * column. */
  ghost predicate IsCauchy(g: Matrix, k: nat, m: nat, p: Vector, u: Vector, v: Vector) {
    IsMatrix(g, m, k) && |u| == m && |v| == k && |p| == k + m && Distinct(p) &&
    (forall i :: 0 <= i < m ==> u[i] != ZERO) && (forall j :: 0 <= j < k ==> v[j] != ZERO) &&
    forall i, j :: 0 <= i < m && 0 <= j < k ==> Mul(g[i][j], Add(p[k + i], p[j])) == Mul(u[i], v[j])
  }

  ghost function Products(v: Vector, x: Vector): (w: Vector)
    requires |v| == |x|
    ensures |w| == |x|
  {
    seq(|x|, j requires 0 <= j < |x| => Mul(v[j], x[j]))
  }

  /** At the point of a parity packet the polynomial is, but for factors that are not zero, the parity of the data. */
  lemma {:induction false} BlendAtParity(g: Matrix, k: nat, m: nat, p: Vector, u: Vector, v: Vector, x: Vector, i: nat,
    n: nat)
    requires IsCauchy(g, k, m, p, u, v) && |x| == k && i < m && n <= k
    ensures Mul(u[i], Eval(Blend(p, Products(v, x), n), p[k + i])) == Mul(Eval(Nodes(p, n), p[k + i]), Dot(g[i], x, n))
    decreases n
  {
    hide Add, Mul;
    var t, w := p[k + i], Products(v, x);
    if n == 0 {
      MulZero(u[i]);
      MulZero(Eval(Nodes(p, 0), t));
    } else {
      BlendAtParity(g, k, m, p, u, v, x, i, n - 1);
      BlendNext(p, w, n, t);
      EvalTimes(Nodes(p, n - 1), p[n - 1], t);
      ParityStep(u[i], v[n - 1], x[n - 1], g[i][n - 1], Add(t, p[n - 1]), Eval(Blend(p, w, n - 1), t),
        Eval(Nodes(p, n - 1), t), Dot(g[i], x, n - 1));
    }
  }

  lemma ParityStep(u: Byte, v: Byte, x: Byte, c: Byte, d: Byte, b: Byte, n: Byte, e: Byte)
    requires Mul(c, d) == Mul(u, v) && Mul(u, b) == Mul(n, e)
    ensures Mul(u, Add(Mul(d, b), Mul(Mul(v, x), n))) == Mul(Mul(d, n), Add(e, Mul(c, x)))
  {
    hide Add, Mul;
    MulAddRight(u, Mul(d, b), Mul(Mul(v, x), n));
    MulAddRight(Mul(d, n), e, Mul(c, x));
    calc {
      Mul(u, Mul(d, b));
      { MulAssoc(u, d, b); MulComm(u, d); MulAssoc(d, u, b); }
      Mul(d, Mul(n, e));
      { MulAssoc(d, n, e); }
      Mul(Mul(d, n), e);
    }
    calc {
      Mul(u, Mul(Mul(v, x), n));
      { MulAssoc(u, Mul(v, x), n); MulAssoc(u, v, x); }
      Mul(Mul(Mul(c, d), x), n);
      { MulComm(c, d); MulAssoc(d, c, x); MulAssoc(d, Mul(c, x), n); MulComm(Mul(c, x), n); MulAssoc(d, n, Mul(c, x)); }
      Mul(Mul(d, n), Mul(c, x));
    }
  }

  /** A packet that shows nothing is a root. */
  lemma RootOf(g: Matrix, k: nat, m: nat, p: Vector, u: Vector, v: Vector, x: Vector, s: nat)
    requires IsCauchy(g, k, m, p, u, v) && |x| == k && s < k + m && Dot(CodeRow(g, k, s), x, k) == ZERO
    ensures Eval(Blend(p, Products(v, x), k), p[s]) == ZERO
  {
    hide Add, Mul, Of, Dot;
    if s < k {
      UnitDot(x, s, k);
      MulZero(v[s]);
      BlendAtData(p, Products(v, x), k, s);
    } else {
      BlendAtParity(g, k, m, p, u, v, x, s - k, k);
      MulZero(Eval(Nodes(p, k), p[s]));
      ZeroOrNot(u[s - k], Eval(Blend(p, Products(v, x), k), p[s]));
    }
  }

  lemma ShapeOf(g: Matrix, k: nat, m: nat, p: Vector, u: Vector, v: Vector)
    requires IsCauchy(g, k, m, p, u, v)
    ensures IsMatrix(g, m, k) && |v| == k && |p| == k + m && Distinct(p) && forall j :: 0 <= j < k ==> v[j] != ZERO
  {
  }

  /** Any k rows of the code are independent. */
  lemma CauchyRows(g: Matrix, k: nat, m: nat, p: Vector, u: Vector, v: Vector, sel: seq<nat>, sub: Matrix)
    requires IsCauchy(g, k, m, p, u, v) && |sel| == k && Distinct(sel) && forall r :: 0 <= r < k ==> sel[r] < k + m
    requires IsMatrix(sub, k, k) && forall r :: 0 <= r < k ==> sub[r] == CodeRow(g, k, sel[r])
    ensures !Singular(sub)
  {
    hide Dot, CodeRow, Eval, Blend, Products, IsCauchy, Mul;
    ShapeOf(g, k, m, p, u, v);
    forall x: Vector | |x| == k && Maps(sub, x, Zeros(k)) ensures x == Zeros(k) {
      var q, points := Blend(p, Products(v, x), k), seq(k, r requires 0 <= r < k => p[sel[r]]);
      forall r | 0 <= r < k ensures Eval(q, points[r]) == ZERO {
        assert Dot(sub[r], x, k) == Zeros(k)[r];
        RootOf(g, k, m, p, u, v, x, sel[r]);
      }
      forall i, j | 0 <= i < j < k ensures points[i] != points[j] {
        assert sel[i] != sel[j];
      }
      TooManyRoots(q, points);
      forall j | 0 <= j < k ensures x[j] == ZERO {
        Vanishes(q, p[j]);
        BlendAtData(p, Products(v, x), k, j);
        assert Products(v, x)[j] == Mul(v[j], x[j]) by { ProductAt(v, x, j); }
        ZeroOrNot(v[j], x[j]);
      }
    }
  }

  lemma ProductAt(v: Vector, x: Vector, j: nat)
    requires |v| == |x| && j < |x|
    ensures Products(v, x)[j] == Mul(v[j], x[j])
  {
  }

  lemma Vanishes(c: Vector, z: Byte)
    requires forall j :: 0 <= j < |c| ==> c[j] == ZERO
    ensures Eval(c, z) == ZERO
  {
    if c != [] {
      EvalConstant(c, z);
    }
  }

  /** Any k packets are enough, and fewer are not. */
  lemma CauchyDecodable(g: Matrix, k: nat, m: nat, p: Vector, u: Vector, v: Vector, lost: seq<int>)
    requires IsCauchy(g, k, m, p, u, v) && 0 < k < 256 && |lost| == k + m
    ensures Decodable(g, k, lost) <==> |Received(lost, k + m)| >= k
  {
    hide Singular, IsCauchy;
    ShapeOf(g, k, m, p, u, v);
    var sel := Chosen(lost, k, m);
    if |Received(lost, k + m)| >= k {
      CauchyRows(g, k, m, p, u, v, sel, ChosenRows(g, k, sel));
    } else if Decodable(g, k, lost) {
      TooFewReceived(g, k, lost);
    }
  }
}
