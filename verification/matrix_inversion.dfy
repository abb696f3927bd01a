/** In-place Gauss-Jordan inversion with full pivoting. */
module MatrixInversion {
  import opened Gf256
  import opened LinearAlgebra
  import opened Exchange
  import opened GfTables

  const RS_BOUND := 256

  ghost function Contents(m: array2<Byte>): (a: Matrix)
    reads m
    ensures IsMatrix(a, m.Length0, m.Length1)
    ensures forall i, j :: 0 <= i < m.Length0 && 0 <= j < m.Length1 ==> a[i][j] == m[i, j]
  {
    seq(m.Length0, i requires 0 <= i < m.Length0 reads m =>
      seq(m.Length1, j requires 0 <= j < m.Length1 reads m => m[i, j]))
  }

  ghost predicate Square(m: array2<Byte>, n: nat) {
    m.Length0 == n && m.Length1 == n
  }

  /** The unpivoted rows and columns of the search, as the flags record them. */
  ghost predicate Flags(ipiv: array<nat>, pivoted: seq<bool>, n: nat)
    reads ipiv
  {
    n <= ipiv.Length && |pivoted| == n && forall j :: 0 <= j < n ==> ipiv[j] == if pivoted[j] then 1 else 0
  }

  /** Largest entry among the rows and columns not yet pivoted; the last one found wins. */
  method FindPivot(m: array2<Byte>, ipiv: array<nat>, n: nat, ghost pivoted: seq<bool>, ghost free: nat)
    returns (irow: nat, icol: nat)
    requires Square(m, n) && Flags(ipiv, pivoted, n) && free < n && !pivoted[free]
    ensures irow < n && icol < n && !pivoted[irow] && !pivoted[icol]
    ensures forall j, k :: 0 <= j < n && 0 <= k < n && !pivoted[j] && !pivoted[k] ==>
              m[j, k].Value() <= m[irow, icol].Value()
  {
    var big := ZERO;
    irow, icol := 0, 0;
    ghost var found := false;
    for j := 0 to n
      invariant j > free ==> found
      invariant found ==> irow < n && icol < n && !pivoted[irow] && !pivoted[icol] && big == m[irow, icol]
      invariant !found ==> big == ZERO
      invariant forall j', k :: 0 <= j' < j && 0 <= k < n && !pivoted[j'] && !pivoted[k] ==>
                  m[j', k].Value() <= big.Value()
    {
      if ipiv[j] != 1 {
        for k := 0 to n
          invariant j > free || (j == free && k > free) ==> found
          invariant found ==> irow < n && icol < n && !pivoted[irow] && !pivoted[icol] && big == m[irow, icol]
          invariant !found ==> big == ZERO
          invariant forall j', k' :: 0 <= j' < j && 0 <= k' < n && !pivoted[j'] && !pivoted[k'] ==>
                      m[j', k'].Value() <= big.Value()
          invariant forall k' :: 0 <= k' < k && !pivoted[k'] ==> m[j, k'].Value() <= big.Value()
        {
          if ipiv[k] == 0 {
            if m[j, k].Value() >= big.Value() {
              big := m[j, k];
              irow, icol := j, k;
              found := true;
            }
          } else if ipiv[k] > 1 {
            // a flag is never raised twice, so this error return is never taken
            assert false;
          }
        }
      }
    }
  }

  method SwapRows(m: array2<Byte>, n: nat, i: nat, j: nat)
    requires Square(m, n) && i < n && j < n
    modifies m
    ensures Contents(m) == Swap(old(Contents(m)), i, j)
  {
    for l := 0 to n
      invariant forall r, c :: 0 <= r < n && 0 <= c < n ==>
                  m[r, c] == old(m[if c < l && r == i then j else if c < l && r == j then i else r, c])
    {
      m[i, l], m[j, l] := m[j, l], m[i, l];
    }
    ghost var now, was := Contents(m), Swap(old(Contents(m)), i, j);
    assert forall r :: 0 <= r < n ==> now[r] == was[r];
  }

  method SwapCols(m: array2<Byte>, n: nat, i: nat, j: nat)
    requires Square(m, n) && i < n && j < n
    modifies m
    ensures Contents(m) == SwapColumns(old(Contents(m)), n, i, j)
  {
    for k := 0 to n
      invariant forall r, c :: 0 <= r < n && 0 <= c < n ==>
                  m[r, c] == old(m[r, if r < k && c == i then j else if r < k && c == j then i else c])
    {
      m[k, i], m[k, j] := m[k, j], m[k, i];
    }
    ghost var now, was := Contents(m), SwapColumns(old(Contents(m)), n, i, j);
    assert forall r :: 0 <= r < n ==> now[r] == was[r];
  }

  method DividePivotRow(m: array2<Byte>, n: nat, c: nat, t: Tables)
    requires Square(m, n) && c < n && m[c, c] != ZERO && t.Valid()
    modifies m
    ensures Contents(m) == old(Contents(m))[c := PivotRow(old(Contents(m))[c], c, old(m[c, c]))]
  {
    hide Mul, Inv;
    var p := m[c, c];
    ghost var start := old(Contents(m))[c][c := ONE];
    m[c, c] := ONE;
    for l := 0 to n
      invariant forall i, j :: 0 <= i < n && 0 <= j < n && i != c ==> m[i, j] == old(m[i, j])
      invariant forall j :: 0 <= j < n ==> m[c, j] == if j < l then Mul(Inv(p), start[j]) else start[j]
    {
      if m[c, l] != ZERO {
        t.OverIsMulInv(m[c, l], p);
        m[c, l] := t.Over(m[c, l], p);
      } else {
        MulZero(Inv(p));
      }
    }
    ghost var now, was := Contents(m), old(Contents(m))[c := PivotRow(old(Contents(m))[c], c, old(m[c, c]))];
    assert now[c] == was[c];
    assert forall r :: 0 <= r < n ==> now[r] == was[r];
  }

  method ReduceRow(m: array2<Byte>, n: nat, c: nat, i: nat, t: Tables)
    requires Square(m, n) && c < n && i < n && i != c && t.Valid()
    modifies m
    ensures Contents(m) == old(Contents(m))[i := Reduced(old(Contents(m))[i], c, old(Contents(m))[c])]
  {
    hide Mul, Add, Tables.Accumulate, Tables.Valid;
    var d := m[i, c];
    ghost var start, pivot := old(Contents(m))[i][c := ZERO], old(Contents(m))[c];
    m[i, c] := ZERO;
    for l := 0 to n
      invariant t.Valid() && forall r, j :: 0 <= r < n && 0 <= j < n && r != i ==> m[r, j] == old(m[r, j])
      invariant forall j :: 0 <= j < n ==> m[i, j] == if j < l then Add(start[j], Mul(d, pivot[j])) else start[j]
    {
      assert m[c, l] == pivot[l];
      MulComm(pivot[l], d);
      t.AccumulateIsAdd(m[i, l], pivot[l], d);
      m[i, l] := t.Accumulate(m[i, l], m[c, l], d);
    }
    ghost var now, was := Contents(m), old(Contents(m))[i := Reduced(old(Contents(m))[i], c, old(Contents(m))[c])];
    assert now[i] == was[i];
    assert forall r :: 0 <= r < n ==> now[r] == was[r];
  }

  /** The exchange step on the array: divide the pivot row, then clear the pivot column elsewhere. */
  method ExchangeAt(m: array2<Byte>, n: nat, c: nat, t: Tables)
    requires Square(m, n) && c < n && m[c, c] != ZERO && t.Valid()
    modifies m
    ensures Contents(m) == Pivoted(old(Contents(m)), n, c)
  {
    hide PivotRow, Reduced;
    ghost var was := Contents(m);
    DividePivotRow(m, n, c, t);
    ghost var row := PivotRow(was[c], c, was[c][c]);
    for i := 0 to n
      invariant forall r :: 0 <= r < n ==>
                  Contents(m)[r] == if r == c then row else if r < i then Reduced(was[r], c, row) else was[r]
    {
      if i != c {
        ReduceRow(m, n, c, i, t);
      }
    }
    assert Contents(m) == Pivoted(was, n, c);
  }

  ghost function Count(s: seq<bool>): (c: nat)
    ensures c <= |s|
  {
    if s == [] then 0 else Count(s[..|s| - 1]) + if s[|s| - 1] then 1 else 0
  }

  lemma {:induction false} CountSet(s: seq<bool>, c: nat)
    requires c < |s| && !s[c]
    ensures Count(s[c := true]) == Count(s) + 1
  {
    var n := |s| - 1;
    if c == n {
      assert s[c := true][..n] == s[..n];
    } else {
      CountSet(s[..n], c);
      assert s[c := true][..n] == s[..n][c := true];
    }
  }

  lemma {:induction false} CountFree(s: seq<bool>)
    ensures Count(s) == |s| <==> forall j :: 0 <= j < |s| ==> s[j]
  {
    if s != [] { CountFree(s[..|s| - 1]); }
  }

  lemma {:induction false} CountNone(n: nat)
    ensures Count(seq(n, _ => false)) == 0
  {
    if n != 0 {
      assert seq(n, _ => false)[..n - 1] == seq(n - 1, _ => false);
      CountNone(n - 1);
    }
  }

  /** The row order after each of the recorded exchanges, starting from the original order. */
  ghost predicate History(rows: seq<seq<nat>>, indxr: array<nat>, indxc: array<nat>, n: nat, i: nat)
    reads indxr, indxc
  {
    i <= indxr.Length && i <= indxc.Length && |rows| == i + 1 && rows[0] == seq(n, j => j) &&
    (forall l :: 0 <= l <= i ==> |rows[l]| == n) &&
    forall l :: 0 <= l < i ==> indxr[l] < n && indxc[l] < n && rows[l + 1] == Swap(rows[l], indxr[l], indxc[l])
  }

  /** Restore the column order: undo the recorded exchanges, the last one first. */
  method Unscramble(m: array2<Byte>, n: nat, indxr: array<nat>, indxc: array<nat>, ghost rows: seq<seq<nat>>,
    ghost a: Matrix)
    requires Square(m, n) && History(rows, indxr, indxc, n, n) && Solves(Contents(m), rows[n], a, n)
    modifies m
    ensures Inverse(a, Contents(m))
  {
    hide Swap, SwapColumns, Solves, Inverse;
    var l := n;
    while l > 0
      invariant 0 <= l <= n && History(rows, indxr, indxc, n, n)
      invariant Solves(Contents(m), rows[l], a, n)
    {
      l := l - 1;
      ghost var now := Contents(m);
      if indxr[l] != indxc[l] {
        SwapCols(m, n, indxr[l], indxc[l]);
        SwapColumnsSolves(now, rows[l + 1], a, n, indxr[l], indxc[l]);
      }
      SwapTwice(rows[l], indxr[l], indxc[l]);
    }
    SolvesInverse(Contents(m), rows[0], a, n);
  }

  lemma SwapTwice<T>(s: seq<T>, i: nat, j: nat)
    requires i < |s| && j < |s|
    ensures Swap(Swap(s, i, j), i, j) == s
    ensures i == j ==> Swap(s, i, j) == s
  {}

  /** What the loop over pivots maintains: the array states the equations of a, with i of them exchanged. */
  ghost predicate Progress(m: array2<Byte>, ipiv: array<nat>, indxr: array<nat>, indxc: array<nat>,
                           s: Tableau, rows: seq<seq<nat>>, a: Matrix, n: nat, i: nat)
    reads m, ipiv, indxr, indxc
  {
    Square(m, n) && Represents(s, a, n) && IsTableau(s, n) && s.m == Contents(m) &&
    Flags(ipiv, s.pivoted, n) && Count(s.pivoted) == i &&
    History(rows, indxr, indxc, n, i) && rows[i] == s.row
  }

  /** Choose a pivot, bring it to the diagonal and record the exchange. */
  method BringPivot(m: array2<Byte>, ipiv: array<nat>, indxr: array<nat>, indxc: array<nat>, n: nat, i: nat,
                    ghost s0: Tableau, ghost rows0: seq<seq<nat>>, ghost a: Matrix)
    returns (icol: nat, ghost s: Tableau, ghost rows: seq<seq<nat>>)
    requires i < n <= ipiv.Length && n <= indxr.Length && n <= indxc.Length
    requires ipiv != indxr && ipiv != indxc && indxr != indxc
    requires Progress(m, ipiv, indxr, indxc, s0, rows0, a, n, i)
    modifies m, ipiv, indxr, indxc
    ensures icol < n && IsTableau(s, n) && !s.pivoted[icol] && Represents(s, a, n) && s.m == Contents(m)
    ensures Flags(ipiv, s.pivoted[icol := true], n) && Count(s.pivoted) == i
    ensures History(rows, indxr, indxc, n, i + 1) && rows[i + 1] == s.row
    ensures s.m[icol][icol] == ZERO ==> Singular(a)
  {
    hide Represents, Singular, Swap;
    CountFree(s0.pivoted);
    ghost var free :| 0 <= free < n && !s0.pivoted[free];
    var irow;
    irow, icol := FindPivot(m, ipiv, n, s0.pivoted, free);
    if m[irow, icol].Value() == 0 {
      NothingLeft(m, s0, a, n, irow, icol);
    }
    s, rows := SwapTableau(s0, irow, icol), rows0 + [Swap(s0.row, irow, icol)];
    SwapRepresents(s0, a, n, irow, icol);
    SwapTwice(s0.m, irow, icol);
    SwappedEntry(s0.m, irow, icol);
    ipiv[icol] := ipiv[icol] + 1;
    if irow != icol {
      SwapRows(m, n, irow, icol);
    }
    Record(indxr, indxc, n, i, irow, icol, rows0);
  }

  method Record(indxr: array<nat>, indxc: array<nat>, n: nat, i: nat, irow: nat, icol: nat, ghost rows: seq<seq<nat>>)
    requires indxr != indxc && i < indxr.Length && i < indxc.Length && irow < n && icol < n
    requires History(rows, indxr, indxc, n, i)
    modifies indxr, indxc
    ensures History(rows + [Swap(rows[i], irow, icol)], indxr, indxc, n, i + 1)
  {
    hide Swap;
    indxr[i] := irow;
    indxc[i] := icol;
  }

  /** One round of the elimination. */
  method PivotRound(m: array2<Byte>, ipiv: array<nat>, indxr: array<nat>, indxc: array<nat>, n: nat, i: nat, t: Tables,
                    ghost s0: Tableau, ghost rows0: seq<seq<nat>>, ghost a: Matrix)
    returns (ok: bool, ghost s: Tableau, ghost rows: seq<seq<nat>>)
    requires i < n <= ipiv.Length && n <= indxr.Length && n <= indxc.Length && t.Valid()
    requires ipiv != indxr && ipiv != indxc && indxr != indxc && t.log != ipiv && t.log != indxr && t.log != indxc
    requires Progress(m, ipiv, indxr, indxc, s0, rows0, a, n, i)
    modifies m, ipiv, indxr, indxc
    ensures ok ==> Progress(m, ipiv, indxr, indxc, s, rows, a, n, i + 1)
    ensures !ok ==> Singular(a)
  {
    hide Represents, Singular, Pivoted, Count;
    var icol;
    icol, s, rows := BringPivot(m, ipiv, indxr, indxc, n, i, s0, rows0, a);
    if m[icol, icol] == ZERO {
      return false, s, rows;
    }
    PivotRepresents(s, a, n, icol);
    CountSet(s.pivoted, icol);
    s := PivotTableau(s, n, icol);
    ExchangeAt(m, n, icol, t);
    ok := true;
  }

  lemma SwappedEntry(m: Matrix, i: nat, j: nat)
    requires i < |m| && j < |m| && j < |m[i]|
    ensures Swap(m, i, j)[j] == m[i]
  {}

  /**
   * Invert m in place. The result is 0 with the inverse in m, or -1 when the size is out of bounds
   * or the matrix is singular.
   */
  method MatrixInv(m: array2<Byte>, n: int, t: Tables) returns (ret: int)
    requires n > 0 ==> Square(m, n)
    requires t.Valid()
    modifies m
    ensures ret == 0 || ret == -1
    ensures n <= 0 || n >= RS_BOUND ==> ret == -1
    ensures 0 < n < RS_BOUND ==> (ret == -1 <==> Singular(old(Contents(m))))
    ensures ret == 0 ==> Inverse(old(Contents(m)), Contents(m))
    ensures ret == 0 ==> ProductIsIdentity(Contents(m), old(Contents(m)))
    ensures ret == 0 ==> ProductIsIdentity(old(Contents(m)), Contents(m))
  {
    if n >= RS_BOUND || n <= 0 {
      return -1;
    }
    hide Solves, Inverse, Singular, ProductIsIdentity;
    ghost var a := Contents(m);
    var indxc, indxr, ipiv := new nat[RS_BOUND], new nat[RS_BOUND], new nat[RS_BOUND](_ => 0);
    var ok, rows := Eliminate(m, n, ipiv, indxr, indxc, t);
    if !ok {
      return -1;
    }
    Unscramble(m, n, indxr, indxc, rows, a);
    InverseIsProduct(a, Contents(m), n);
    ret := 0;
  }

  lemma InverseIsProduct(a: Matrix, b: Matrix, n: nat)
    requires IsMatrix(a, n, n) && IsMatrix(b, n, n) && Inverse(a, b)
    ensures !Singular(a) && ProductIsIdentity(a, b) && ProductIsIdentity(b, a)
  {
    hide Inverse, Singular, ProductIsIdentity;
    InverseNonsingular(a, b, n);
    InverseSymmetric(a, b);
    InverseProduct(a, b, n);
    InverseProduct(b, a, n);
  }

  method Eliminate(m: array2<Byte>, n: nat, ipiv: array<nat>, indxr: array<nat>, indxc: array<nat>, t: Tables)
    returns (ok: bool, ghost rows: seq<seq<nat>>)
    requires Square(m, n) && t.Valid()
    requires ipiv.Length == indxr.Length == indxc.Length == RS_BOUND > n
    requires forall j :: 0 <= j < ipiv.Length ==> ipiv[j] == 0
    requires ipiv != indxr && ipiv != indxc && indxr != indxc && t.log != ipiv && t.log != indxr && t.log != indxc
    modifies m, ipiv, indxr, indxc
    ensures !ok ==> Singular(old(Contents(m)))
    ensures ok ==> History(rows, indxr, indxc, n, n) && Solves(Contents(m), rows[n], old(Contents(m)), n)
  {
    ghost var a := Contents(m);
    ghost var s;
    s, rows := Start(a, n), [seq(n, j => j)];
    Begun(m, ipiv, indxr, indxc, n);
    hide Progress, Solves, Singular;
    for i := 0 to n
      invariant t.Valid() && Progress(m, ipiv, indxr, indxc, s, rows, a, n, i)
    {
      ok, s, rows := PivotRound(m, ipiv, indxr, indxc, n, i, t, s, rows, a);
      if !ok {
        return;
      }
    }
    ok := true;
    Finished(m, ipiv, indxr, indxc, s, rows, a, n);
  }

  lemma Begun(m: array2<Byte>, ipiv: array<nat>, indxr: array<nat>, indxc: array<nat>, n: nat)
    requires Square(m, n) && n <= ipiv.Length && forall j :: 0 <= j < ipiv.Length ==> ipiv[j] == 0
    ensures Progress(m, ipiv, indxr, indxc, Start(Contents(m), n), [seq(n, j => j)], Contents(m), n, 0)
  {
    hide Represents;
    StartRepresents(Contents(m), n);
    CountNone(n);
  }

  lemma Finished(m: array2<Byte>, ipiv: array<nat>, indxr: array<nat>, indxc: array<nat>,
                 s: Tableau, rows: seq<seq<nat>>, a: Matrix, n: nat)
    requires Progress(m, ipiv, indxr, indxc, s, rows, a, n, n)
    ensures History(rows, indxr, indxc, n, n) && Solves(Contents(m), rows[n], a, n)
  {
    hide Represents, Solves;
    CountFree(s.pivoted);
    AllPivotedSolves(s, a, n);
  }

  /** A largest entry of zero means every candidate is zero. */
  lemma NothingLeft(m: array2<Byte>, s: Tableau, a: Matrix, n: nat, irow: nat, icol: nat)
    requires Square(m, n) && Represents(s, a, n) && s.m == Contents(m)
    requires irow < n && icol < n && !s.pivoted[irow] && !s.pivoted[icol]
    requires m[irow, icol].Value() == 0
    requires forall j, k :: 0 <= j < n && 0 <= k < n && !s.pivoted[j] && !s.pivoted[k] ==>
               m[j, k].Value() <= m[irow, icol].Value()
    ensures Singular(a)
  {
    forall j, k | 0 <= j < n && 0 <= k < n && !s.pivoted[j] && !s.pivoted[k] ensures s.m[j][k] == ZERO {
      ValueInjective(m[j, k], ZERO);
    }
    NoPivotSingular(s, a, n, icol);
  }
}
