/** One step of in-place inversion exchanges an unknown x_c with an output y_c. */
module Exchange {
  import opened Gf256
  import opened LinearAlgebra

  /** Which outputs have been exchanged, and which original row now stands at each place. */
  datatype Tableau = Tableau(m: Matrix, pivoted: seq<bool>, row: seq<nat>)

  ghost predicate IsTableau(t: Tableau, n: nat) {
    IsMatrix(t.m, n, n) && |t.pivoted| == n && |t.row| == n && forall j :: 0 <= j < n ==> t.row[j] < n
  }

  /** What the tableau is applied to, given x and y = a x: y where exchanged, x elsewhere. */
  ghost function Input(t: Tableau, n: nat, x: Vector, y: Vector): (u: Vector)
    requires IsTableau(t, n) && |x| == n && |y| == n
  {
    seq(n, j requires 0 <= j < n => if t.pivoted[j] then y[t.row[j]] else x[j])
  }

  ghost function Output(t: Tableau, n: nat, x: Vector, y: Vector): (v: Vector)
    requires IsTableau(t, n) && |x| == n && |y| == n
  {
    seq(n, j requires 0 <= j < n => if t.pivoted[j] then x[j] else y[t.row[j]])
  }

  /** The tableau states the same equations as y = a x. */
  ghost predicate Represents(t: Tableau, a: Matrix, n: nat) {
    IsMatrix(a, n, n) && IsTableau(t, n) &&
    forall x: Vector, y: Vector {:trigger Maps(a, x, y)} :: |x| == n && |y| == n ==>
      (Maps(a, x, y) <==> Maps(t.m, Input(t, n, x, y), Output(t, n, x, y)))
  }

  ghost function Start(a: Matrix, n: nat): Tableau {
    Tableau(a, seq(n, _ => false), seq(n, j => j))
  }

  lemma StartRepresents(a: Matrix, n: nat)
    requires IsMatrix(a, n, n)
    ensures Represents(Start(a, n), a, n)
  {
    hide Dot;
    var t := Start(a, n);
    forall x: Vector, y: Vector | |x| == n && |y| == n
      ensures Input(t, n, x, y) == x && Output(t, n, x, y) == y
    {}
  }

  // ----- exchanging rows -----

  ghost function SwapTableau(t: Tableau, i: nat, j: nat): Tableau
    requires i < |t.m| && j < |t.m| && |t.row| == |t.m|
  {
    t.(m := Swap(t.m, i, j), row := Swap(t.row, i, j))
  }

  lemma MapsSwap(m: Matrix, u: Vector, v: Vector, i: nat, j: nat)
    requires i < |m| && j < |m| && |v| == |m| && IsMatrix(m, |m|, |u|)
    ensures Maps(m, u, v) <==> Maps(Swap(m, i, j), u, Swap(v, i, j))
  {
    hide Dot, Swap;
    var m', v' := Swap(m, i, j), Swap(v, i, j);
    if Maps(m', u, v') {
      assert Dot(m'[i], u, |u|) == v'[i] && Dot(m'[j], u, |u|) == v'[j];
      forall k | 0 <= k < |v| ensures Dot(m[k], u, |u|) == v[k] {
        if k != i && k != j { assert Dot(m'[k], u, |u|) == v'[k]; }
      }
    }
  }

  lemma SwapRepresents(t: Tableau, a: Matrix, n: nat, i: nat, j: nat)
    requires Represents(t, a, n) && i < n && j < n && !t.pivoted[i] && !t.pivoted[j]
    ensures Represents(SwapTableau(t, i, j), a, n)
  {
    hide Dot, Maps, Swap;
    var s := SwapTableau(t, i, j);
    forall x: Vector, y: Vector | |x| == n && |y| == n
      ensures Maps(a, x, y) <==> Maps(s.m, Input(s, n, x, y), Output(s, n, x, y))
    {
      var u, v := Input(t, n, x, y), Output(t, n, x, y);
      MapsSwap(t.m, u, v, i, j);
      assert Input(s, n, x, y) == u;
      assert Output(s, n, x, y) == Swap(v, i, j);
    }
  }

  // ----- exchanging x_c and y_c -----

  /** The pivot row: divided by its pivot p, with 1 / p in the pivot's place. */
  ghost function PivotRow(r: Vector, c: nat, p: Byte): (s: Vector)
    requires c < |r| && p != ZERO
    ensures |s| == |r|
  {
    seq(|r|, l requires 0 <= l < |r| => Mul(Inv(p), r[c := ONE][l]))
  }

  /** Another row, with d times the new pivot row added in place of its entry d. */
  ghost function Reduced(r: Vector, c: nat, pivot: Vector): (s: Vector)
    requires c < |r| == |pivot|
    ensures |s| == |r|
  {
    seq(|r|, l requires 0 <= l < |r| => Add(r[c := ZERO][l], Mul(r[c], pivot[l])))
  }

  ghost function Pivoted(m: Matrix, n: nat, c: nat): (p: Matrix)
    requires IsMatrix(m, n, n) && c < n && m[c][c] != ZERO
    ensures IsMatrix(p, n, n)
  {
    var row := PivotRow(m[c], c, m[c][c]);
    seq(n, i requires 0 <= i < n => if i == c then row else Reduced(m[i], c, row))
  }

  lemma PivotRowDot(r: Vector, c: nat, p: Byte, u: Vector, w: Byte)
    requires c < |r| == |u| && p == r[c] && p != ZERO
    ensures Dot(r, u, |u|) == w <==> Dot(PivotRow(r, c, p), u[c := w], |u|) == u[c]
  {
    hide Add, Mul, Dot, Inv;
    var n, s, u' := |u|, PivotRow(r, c, p), u[c := w];
    var rest := Dot(r[c := ZERO], u, n);
    DotSplit(r, u, c, n);
    // the new row applied to u' is (rest + w) / p
    DotScale(Inv(p), r[c := ONE], s, u', n);
    DotSplit(r[c := ONE], u', c, n);
    assert r[c := ONE][c := ZERO] == r[c := ZERO];
    RestUnchanged(r, c, u, w);
    MulOne(w);
    assert Dot(s, u', n) == Mul(Inv(p), Add(rest, w));
    SolveForUnknown(rest, p, u[c], w);
  }

  lemma RestUnchanged(r: Vector, c: nat, u: Vector, w: Byte)
    requires c < |r| == |u|
    ensures Dot(r[c := ZERO], u[c := w], |u|) == Dot(r[c := ZERO], u, |u|)
  {
    hide Add, Mul;
    MulZero(w);
    MulZero(u[c]);
    DotCongruent(r[c := ZERO], u, r[c := ZERO], u[c := w], |u|);
  }

  /** rest + p x = w exactly when x = (rest + w) / p. */
  lemma SolveForUnknown(rest: Byte, p: Byte, x: Byte, w: Byte)
    requires p != ZERO
    ensures Add(rest, Mul(p, x)) == w <==> Mul(Inv(p), Add(rest, w)) == x
  {
    hide Add, Mul, Inv;
    MulInv(p);
    if Add(rest, Mul(p, x)) == w {
      AddAssoc(rest, rest, Mul(p, x));
      AddSelf(rest);
      AddZero(Mul(p, x));
      MulAssoc(Inv(p), p, x);
      MulOne(x);
    } else if Mul(Inv(p), Add(rest, w)) == x {
      MulAssoc(p, Inv(p), Add(rest, w));
      MulOne(Add(rest, w));
      AddAssoc(rest, rest, w);
      AddSelf(rest);
      AddZero(w);
    }
  }

  /** When the pivot row gives u_c, the reduced row gives the same sum as before. */
  lemma ReducedDot(r: Vector, c: nat, pivot: Vector, u: Vector, w: Byte)
    requires c < |r| == |u| == |pivot| && Dot(pivot, u[c := w], |u|) == u[c]
    ensures Dot(Reduced(r, c, pivot), u[c := w], |u|) == Dot(r, u, |u|)
  {
    hide Add, Mul, Dot;
    var n, u', d := |u|, u[c := w], r[c];
    var scaled := seq(n, l requires 0 <= l < n => Mul(d, pivot[l]));
    DotAdd(r[c := ZERO], scaled, Reduced(r, c, pivot), u', n);
    DotScale(d, pivot, scaled, u', n);
    RestUnchanged(r, c, u, w);
    DotSplit(r, u, c, n);
  }

  lemma MapsPivot(m: Matrix, n: nat, c: nat, u: Vector, v: Vector)
    requires IsMatrix(m, n, n) && c < n && m[c][c] != ZERO && |u| == n && |v| == n
    ensures Maps(m, u, v) <==> Maps(Pivoted(m, n, c), u[c := v[c]], v[c := u[c]])
  {
    hide Dot, PivotRow, Reduced;
    var p, u', v' := Pivoted(m, n, c), u[c := v[c]], v[c := u[c]];
    PivotRowDot(m[c], c, m[c][c], u, v[c]);
    assert p[c] == PivotRow(m[c], c, m[c][c]);
    if Dot(m[c], u, n) == v[c] {
      forall i | 0 <= i < n && i != c ensures Dot(p[i], u', n) == Dot(m[i], u, n) {
        ReducedDot(m[i], c, p[c], u, v[c]);
      }
    }
    if Maps(p, u', v') {
      assert Dot(p[c], u', n) == v'[c];
      forall i | 0 <= i < n ensures Dot(m[i], u, n) == v[i] {
        if i != c { assert Dot(p[i], u', n) == v'[i]; }
      }
    }
  }

  ghost function PivotTableau(t: Tableau, n: nat, c: nat): Tableau
    requires IsTableau(t, n) && c < n && t.m[c][c] != ZERO
  {
    t.(m := Pivoted(t.m, n, c), pivoted := t.pivoted[c := true])
  }

  lemma PivotRepresents(t: Tableau, a: Matrix, n: nat, c: nat)
    requires Represents(t, a, n) && c < n && t.m[c][c] != ZERO && !t.pivoted[c]
    ensures Represents(PivotTableau(t, n, c), a, n)
  {
    hide Dot, Maps, Pivoted;
    var s := PivotTableau(t, n, c);
    forall x: Vector, y: Vector | |x| == n && |y| == n
      ensures Maps(a, x, y) <==> Maps(s.m, Input(s, n, x, y), Output(s, n, x, y))
    {
      var u, v := Input(t, n, x, y), Output(t, n, x, y);
      MapsPivot(t.m, n, c, u, v);
      assert Input(s, n, x, y) == u[c := v[c]];
      assert Output(s, n, x, y) == v[c := u[c]];
    }
  }

  // ----- no pivot left -----

  /** If every entry outside the exchanged rows and columns is zero, the matrix is singular. */
  lemma NoPivotSingular(t: Tableau, a: Matrix, n: nat, c: nat)
    requires Represents(t, a, n) && c < n && !t.pivoted[c]
    requires forall i, j :: 0 <= i < n && 0 <= j < n && !t.pivoted[i] && !t.pivoted[j] ==> t.m[i][j] == ZERO
    ensures Singular(a)
  {
    hide Dot;
    var x: Vector := seq(n, j requires 0 <= j < n => if t.pivoted[j] then t.m[j][c] else if j == c then ONE else ZERO);
    var y := Zeros(n);
    var u, v := Input(t, n, x, y), Output(t, n, x, y);
    forall i | 0 <= i < n ensures Dot(t.m[i], u, n) == v[i] {
      assert u == Unit(n, c);
      DotUnit(t.m[i], c, n);
    }
    assert Maps(t.m, u, v);
    assert Maps(a, x, y);
    assert x[c] == ONE && y[c] == ZERO;
  }

  // ----- undoing the row exchanges -----

  /** x = m w, where w lists y in the order the rows ended up in. */
  ghost predicate Solves(m: Matrix, row: seq<nat>, a: Matrix, n: nat) {
    IsMatrix(a, n, n) && IsMatrix(m, n, n) && |row| == n && (forall j :: 0 <= j < n ==> row[j] < n) &&
    forall x: Vector, y: Vector {:trigger Maps(a, x, y)} :: |x| == n && |y| == n ==>
      (Maps(a, x, y) <==> Maps(m, Permuted(y, row), x))
  }

  ghost function Permuted(y: Vector, row: seq<nat>): Vector
    requires forall j :: 0 <= j < |row| ==> row[j] < |y|
  {
    seq(|row|, j requires 0 <= j < |row| => y[row[j]])
  }

  lemma AllPivotedSolves(t: Tableau, a: Matrix, n: nat)
    requires Represents(t, a, n) && forall j :: 0 <= j < n ==> t.pivoted[j]
    ensures Solves(t.m, t.row, a, n)
  {
    hide Dot, Maps;
    forall x: Vector, y: Vector | |x| == n && |y| == n
      ensures Maps(a, x, y) <==> Maps(t.m, Permuted(y, t.row), x)
    {
      assert Input(t, n, x, y) == Permuted(y, t.row);
      assert Output(t, n, x, y) == x;
    }
  }

  ghost function SwapColumns(m: Matrix, n: nat, i: nat, j: nat): (s: Matrix)
    requires IsMatrix(m, n, n) && i < n && j < n
    ensures IsMatrix(s, n, n)
  {
    seq(n, k requires 0 <= k < n => Swap(m[k], i, j))
  }

  lemma MapsSwapColumns(m: Matrix, n: nat, i: nat, j: nat, w: Vector, x: Vector)
    requires IsMatrix(m, n, n) && i < n && j < n && |w| == n && |x| == n
    ensures Maps(m, w, x) <==> Maps(SwapColumns(m, n, i, j), Swap(w, i, j), x)
  {
    hide Dot;
    var s := SwapColumns(m, n, i, j);
    forall k | 0 <= k < n ensures Dot(s[k], Swap(w, i, j), n) == Dot(m[k], w, n) {
      DotSwap(m[k], w, i, j, n);
    }
  }

  lemma SwapColumnsSolves(m: Matrix, row: seq<nat>, a: Matrix, n: nat, i: nat, j: nat)
    requires Solves(m, row, a, n) && i < n && j < n
    ensures Solves(SwapColumns(m, n, i, j), Swap(row, i, j), a, n)
  {
    hide Dot, Maps, Swap, SwapColumns;
    var s, row' := SwapColumns(m, n, i, j), Swap(row, i, j);
    forall x: Vector, y: Vector | |x| == n && |y| == n
      ensures Maps(a, x, y) <==> Maps(s, Permuted(y, row'), x)
    {
      MapsSwapColumns(m, n, i, j, Permuted(y, row), x);
      assert Permuted(y, row') == Swap(Permuted(y, row), i, j);
    }
  }

  // ----- what the result is -----

  lemma SolvesInverse(m: Matrix, row: seq<nat>, a: Matrix, n: nat)
    requires Solves(m, row, a, n) && forall j :: 0 <= j < n ==> row[j] == j
    ensures Inverse(a, m)
  {
    hide Dot, Maps;
    forall x: Vector, y: Vector | |x| == n && |y| == n ensures Permuted(y, row) == y {}
  }

  lemma InverseSymmetric(a: Matrix, b: Matrix)
    requires |a| == |b| && Inverse(a, b)
    ensures Inverse(b, a)
  {
    hide Dot, Maps;
  }

  lemma InverseProduct(a: Matrix, b: Matrix, n: nat)
    requires IsMatrix(a, n, n) && IsMatrix(b, n, n) && Inverse(a, b)
    ensures ProductIsIdentity(b, a)
  {
    hide Dot;
    forall i, j | 0 <= i < n && 0 <= j < n
      ensures Dot(b[i], Column(a, j), n) == if i == j then ONE else ZERO
    {
      var x, y := Unit(n, j), Column(a, j);
      forall k | 0 <= k < n ensures Dot(a[k], x, n) == y[k] { DotUnit(a[k], j, n); }
      assert Maps(a, x, y);
      assert Maps(b, y, x);
      assert Dot(b[i], y, n) == x[i];
    }
  }

  lemma InverseNonsingular(a: Matrix, b: Matrix, n: nat)
    requires IsMatrix(a, n, n) && IsMatrix(b, n, n) && Inverse(a, b)
    ensures !Singular(a)
  {
    hide Dot;
    forall x: Vector | |x| == n && Maps(a, x, Zeros(n)) ensures x == Zeros(n) {
      assert Maps(b, Zeros(n), x);
      forall i | 0 <= i < n ensures x[i] == ZERO { DotZero(b[i], Zeros(n), n); }
    }
  }
}
