/** Which loss patterns can be repaired. */
module Erasures {
  import opened Gf256
  import opened LinearAlgebra
  import opened Exchange
  import opened MatrixInversion
  import opened Sequences
  import opened Vandermonde

  /** Packets 0 .. n - 1 marked as received, in order. */
  ghost function Received(lost: seq<int>, n: nat): (s: seq<nat>)
    requires n <= |lost|
    ensures forall r :: 0 <= r < |s| ==> s[r] < n && lost[s[r]] == 1
    ensures forall i, j :: 0 <= i < j < |s| ==> s[i] < s[j]
    ensures |s| <= n
  {
    if n == 0 then []
    else Received(lost, n - 1) + if lost[n - 1] == 1 then [n - 1] else []
  }

  lemma {:induction false} ReceivedMonotone(l: seq<int>, i: nat, n: nat)
    requires i <= n <= |l|
    ensures Received(l, i) <= Received(l, n)
    decreases n
  {
    if i < n { ReceivedMonotone(l, i, n - 1); }
  }

  /** Packets 0 .. n - 1 not marked as received, in order. */
  ghost function Missing(lost: seq<int>, n: nat): seq<nat>
    requires n <= |lost|
  {
    if n == 0 then []
    else Missing(lost, n - 1) + if lost[n - 1] == 1 then [] else [n - 1]
  }

  lemma {:induction false} MissingFacts(lost: seq<int>, n: nat)
    requires n <= |lost|
    ensures forall r :: 0 <= r < |Missing(lost, n)| ==> Missing(lost, n)[r] < n && lost[Missing(lost, n)[r]] != 1
    ensures Distinct(Missing(lost, n))
    ensures |Missing(lost, n)| + |Received(lost, n)| == n
    ensures forall i :: 0 <= i < n && lost[i] != 1 ==> i in Missing(lost, n)
  {
    hide Missing, Received;
    if n == 0 {
      NothingYet(lost);
    } else {
      MissingFacts(lost, n - 1);
      MissingStep(lost, n - 1);
      ReceivedStep(lost, n - 1);
      OneMissing(lost, n, Missing(lost, n - 1), Missing(lost, n));
    }
  }

  lemma OneMissing(lost: seq<int>, n: nat, before: seq<nat>, after: seq<nat>)
    requires 0 < n <= |lost| && after == (if lost[n - 1] == 1 then before else before + [n - 1]) && Distinct(before)
    requires forall r :: 0 <= r < |before| ==> before[r] < n - 1 && lost[before[r]] != 1
    requires forall i :: 0 <= i < n - 1 && lost[i] != 1 ==> i in before
    ensures Distinct(after) && |after| == |before| + if lost[n - 1] == 1 then 0 else 1
    ensures forall r :: 0 <= r < |after| ==> after[r] < n && lost[after[r]] != 1
    ensures forall i :: 0 <= i < n && lost[i] != 1 ==> i in after
  {
    forall i | 0 <= i < n && lost[i] != 1 ensures i in after {
      if i < n - 1 {
        assert i in before;
      }
    }
  }

  lemma NothingYet(lost: seq<int>)
    ensures Missing(lost, 0) == [] && Received(lost, 0) == []
  {
  }

  lemma MissingStep(l: seq<int>, i: nat)
    requires i < |l|
    ensures Missing(l, i + 1) == if l[i] == 1 then Missing(l, i) else Missing(l, i) + [i]
  {}

  lemma ReceivedStep(l: seq<int>, i: nat)
    requires i <= |l|
    ensures Received(l, 0) == []
    ensures i < |l| ==> Received(l, i + 1) == if l[i] == 1 then Received(l, i) + [i] else Received(l, i)
  {}

  /** The packets a decoder works from: the first k received ones. */
  ghost function Chosen(lost: seq<int>, k: nat, m: nat): (s: seq<nat>)
    requires |lost| == k + m
    ensures |s| <= k && forall r :: 0 <= r < |s| ==> s[r] < k + m && lost[s[r]] == 1
    ensures Distinct(s)
  {
    var s := Received(lost, k + m);
    if |s| > k then s[..k] else s
  }

  /** Their rows of the code, with zero rows where packets are lacking. */
  ghost function ChosenRows(g: Matrix, k: nat, sel: seq<nat>): (a: Matrix)
    requires forall i :: 0 <= i < |g| ==> |g[i]| == k
    requires forall r :: 0 <= r < |sel| ==> sel[r] < k + |g|
    ensures IsMatrix(a, k, k)
  {
    var a := seq(k, r requires 0 <= r < k => if r < |sel| then CodeRow(g, k, sel[r]) else Zeros(k));
    assert forall r :: 0 <= r < k ==> a[r] == (if r < |sel| then CodeRow(g, k, sel[r]) else Zeros(k));
    a
  }

  /** The rows at hand determine the data. */
  ghost predicate Decodable(g: Matrix, k: nat, lost: seq<int>) {
    (forall i :: 0 <= i < |g| ==> |g[i]| == k) && |lost| == k + |g| &&
    0 < k < 256 && !Singular(ChosenRows(g, k, Chosen(lost, k, |g|)))
  }

  // ----- singular or invertible -----

  /** Row orders after each exchange of an elimination. */
  ghost predicate SwapHistory(rows: seq<seq<nat>>, swaps: seq<(nat, nat)>, n: nat) {
    |rows| == |swaps| + 1 && rows[0] == seq(n, j => j) && (forall l :: 0 <= l < |rows| ==> |rows[l]| == n) &&
    forall l :: 0 <= l < |swaps| ==>
      swaps[l].0 < n && swaps[l].1 < n && rows[l + 1] == Swap(rows[l], swaps[l].0, swaps[l].1)
  }

  /** Every square matrix is singular or has an inverse. */
  lemma Dichotomy(a: Matrix, n: nat) returns (b: Matrix)
    requires IsMatrix(a, n, n)
    ensures IsMatrix(b, n, n)
    ensures Singular(a) || (Inverse(a, b) && ProductIsIdentity(a, b))
  {
    hide Represents, Singular, Inverse, ProductIsIdentity, Solves, Pivoted, Swap;
    var t := Start(a, n);
    var swaps, rows: seq<seq<nat>> := [], [t.row];
    StartRepresents(a, n);
    CountNone(n);
    var i := 0;
    while i < n
      invariant 0 <= i <= n && Represents(t, a, n) && IsTableau(t, n) && Count(t.pivoted) == i
      invariant SwapHistory(rows, swaps, n) && |swaps| == i && rows[i] == t.row
    {
      CountFree(t.pivoted);
      if j: nat, k: nat :| j < n && k < n && !t.pivoted[j] && !t.pivoted[k] && t.m[j][k] != ZERO {
        HistoryGrows(rows, swaps, n, t.row, j, k);
        swaps, rows := swaps + [(j, k)], rows + [Swap(t.row, j, k)];
        t := Round(t, a, n, j, k);
        i := i + 1;
      } else {
        var c :| 0 <= c < n && !t.pivoted[c];
        NoPivotSingular(t, a, n, c);
        return a;
      }
    }
    CountFree(t.pivoted);
    AllPivotedSolves(t, a, n);
    b := UndoSwaps(t.m, a, n, swaps, rows);
    InverseSymmetric(a, b);
    InverseProduct(b, a, n);
  }

  /** One exchange of an elimination. */
  lemma Round(t: Tableau, a: Matrix, n: nat, j: nat, k: nat) returns (next: Tableau)
    requires IsTableau(t, n) && Represents(t, a, n) && j < n && k < n && !t.pivoted[j] && !t.pivoted[k] &&
      t.m[j][k] != ZERO
    ensures IsTableau(next, n) && Represents(next, a, n) && next.row == Swap(t.row, j, k) &&
      Count(next.pivoted) == Count(t.pivoted) + 1
  {
    hide Represents, Pivoted, Swap;
    SwapRepresents(t, a, n, j, k);
    SwappedRow(t.m, j, k);
    var swapped := SwapTableau(t, j, k);
    PivotRepresents(swapped, a, n, k);
    CountSet(swapped.pivoted, k);
    next := PivotTableau(swapped, n, k);
  }

  lemma HistoryGrows(rows: seq<seq<nat>>, swaps: seq<(nat, nat)>, n: nat, row: seq<nat>, j: nat, k: nat)
    requires SwapHistory(rows, swaps, n) && rows[|swaps|] == row && j < n && k < n
    ensures |row| == n && SwapHistory(rows + [Swap(row, j, k)], swaps + [(j, k)], n)
  {
  }

  lemma SwappedRow(m: Matrix, i: nat, j: nat)
    requires i < |m| && j < |m|
    ensures Swap(m, i, j)[j] == m[i]
  {}

  lemma UndoSwaps(m: Matrix, a: Matrix, n: nat, swaps: seq<(nat, nat)>, rows: seq<seq<nat>>) returns (b: Matrix)
    requires SwapHistory(rows, swaps, n) && IsMatrix(m, n, n) && IsMatrix(a, n, n)
    requires Solves(m, rows[|swaps|], a, n)
    ensures IsMatrix(b, n, n) && Inverse(a, b)
  {
    hide Solves, Inverse, Swap, SwapColumns;
    b := m;
    var l := |swaps|;
    while l > 0
      invariant 0 <= l <= |swaps| && IsMatrix(b, n, n) && Solves(b, rows[l], a, n)
    {
      l := l - 1;
      SwapColumnsSolves(b, rows[l + 1], a, n, swaps[l].0, swaps[l].1);
      SwapTwice(rows[l], swaps[l].0, swaps[l].1);
      b := SwapColumns(b, n, swaps[l].0, swaps[l].1);
    }
    SolvesInverse(b, rows[0], a, n);
  }

  /** A zero row makes a matrix singular. */
  lemma ZeroRowSingular(a: Matrix, n: nat, r: nat)
    requires IsMatrix(a, n, n) && r < n && a[r] == Zeros(n)
    ensures Singular(a)
  {
    hide Singular, Inverse, Dot;
    var b := Dichotomy(a, n);
    DotZero(a[r], Column(b, r), n);
  }

  /** So do two equal rows. */
  lemma EqualRowsSingular(a: Matrix, n: nat, r: nat, s: nat)
    requires IsMatrix(a, n, n) && r < n && s < n && r != s && a[r] == a[s]
    ensures Singular(a)
  {
    hide Singular, Inverse, Dot;
    var b := Dichotomy(a, n);
    assert Dot(a[r], Column(b, r), n) == Dot(a[s], Column(b, r), n);
  }

  // ----- which patterns are decodable -----

  lemma TooFewReceived(g: Matrix, k: nat, lost: seq<int>)
    requires Decodable(g, k, lost)
    ensures |Received(lost, k + |g|)| >= k
  {
    hide Singular;
    var sel := Chosen(lost, k, |g|);
    if |sel| < k {
      ZeroRowSingular(ChosenRows(g, k, sel), k, k - 1);
    }
  }

  /** As long as k + m <= 255, any k packets are enough. */
  lemma EnoughReceived(g: Matrix, k: nat, m: nat, w: Matrix, lost: seq<int>)
    requires Systematic(g, k, m, w) && 0 < k && k + m <= 255 && |lost| == k + m
    ensures Decodable(g, k, lost) <==> |Received(lost, k + m)| >= k
  {
    hide Singular, Systematic;
    assert IsMatrix(g, m, k) by { SystematicShape(g, k, m, w); }
    var sel := Chosen(lost, k, m);
    if |Received(lost, k + m)| >= k {
      AnyRowsNonsingular(g, k, m, w, sel, ChosenRows(g, k, sel));
    } else if Decodable(g, k, lost) {
      TooFewReceived(g, k, lost);
    }
  }

  lemma SystematicShape(g: Matrix, k: nat, m: nat, w: Matrix)
    requires Systematic(g, k, m, w)
    ensures IsMatrix(g, m, k)
  {}

  /** Every pattern with at least k packets received can be repaired. */
  ghost predicate RepairsAll(g: Matrix, k: nat, m: nat) {
    forall lost: seq<int> :: |lost| == k + m && |Received(lost, k + m)| >= k ==> Decodable(g, k, lost)
  }

  /** Exactly when: with k of at least two, the points x^0, x^1, ... must not come round again. */
  lemma RepairsAllExactly(g: Matrix, k: nat, m: nat, w: Matrix)
    requires Systematic(g, k, m, w) && 0 < k <= 255
    ensures RepairsAll(g, k, m) <==> k == 1 || k + m <= 255
  {
    hide Singular, Systematic, Decodable;
    if k + m <= 255 {
      forall lost: seq<int> | |lost| == k + m && |Received(lost, k + m)| >= k ensures Decodable(g, k, lost) {
        EnoughReceived(g, k, m, w, lost);
      }
    } else if k == 1 {
      forall lost: seq<int> | |lost| == k + m && |Received(lost, k + m)| >= k ensures Decodable(g, k, lost) {
        SinglePacket(g, m, w, lost);
      }
    } else {
      var lost := RepeatedPointPattern(g, k, m, w);
    }
  }

  /** Row 255 of the code repeats row 0. */
  lemma RowRepeats(g: Matrix, k: nat, m: nat, w: Matrix)
    requires Systematic(g, k, m, w) && 0 < k <= 255 && k + m > 255
    ensures IsMatrix(g, m, k) && CodeRow(g, k, 255) == CodeRow(g, k, 0)
  {
    hide Exp, Dot, Inverse;
    forall j | 0 <= j < k ensures Exp(255 * j) == Exp(0 * j) {
      ExpMod(255 * j);
      assert 255 * j % 255 == 0;
    }
    assert PowerRow(255, k) == PowerRow(0, k);
    assert PowerMatrix(k)[0] == PowerRow(0, k);
    InverseSymmetric(PowerMatrix(k), w);
    InverseProduct(w, PowerMatrix(k), k);
    forall j | 0 <= j < k ensures g[255 - k][j] == Unit(k, 0)[j] {
      assert g[255 - k][j] == Dot(PowerRow(k + (255 - k), k), Column(w, j), k);
    }
    assert g[255 - k] == Unit(k, 0);
  }

  /** Losing packet 1 while receiving packet 0 twice over, as itself and as packet 255, cannot be repaired. */
  lemma RepeatedPointPattern(g: Matrix, k: nat, m: nat, w: Matrix) returns (lost: seq<int>)
    requires Systematic(g, k, m, w) && 2 <= k <= 255 && k + m > 255
    ensures |lost| == k + m && |Received(lost, k + m)| >= k && !Decodable(g, k, lost)
  {
    hide Singular, Systematic;
    RowRepeats(g, k, m, w);
    lost := seq(k + m, i => if i == 0 || 2 <= i < k || i == 255 then 1 else 0);
    PatternPrefix(lost, k, k);
    PatternTail(lost, k, k + m);
    var sel := Chosen(lost, k, m);
    var a := ChosenRows(g, k, sel);
    assert a[0] == CodeRow(g, k, 0);
    assert a[k - 1] == CodeRow(g, k, 255);
    EqualRowsSingular(a, k, 0, k - 1);
  }

  lemma {:induction false} PatternPrefix(lost: seq<int>, k: nat, n: nat)
    requires 2 <= n <= k <= 255 && n <= |lost|
    requires forall i :: 0 <= i < |lost| ==> lost[i] == if i == 0 || 2 <= i < k || i == 255 then 1 else 0
    ensures Received(lost, n) == [0] + seq(n - 2, i => i + 2)
  {
    if n == 2 {
      assert Received(lost, 1) == Received(lost, 0) + [0];
    } else {
      PatternPrefix(lost, k, n - 1);
      assert seq(n - 2, i => i + 2) == seq(n - 3, i => i + 2) + [n - 1];
    }
  }

  lemma {:induction false} PatternTail(lost: seq<int>, k: nat, n: nat)
    requires 2 <= k <= 255 && k <= n <= |lost|
    requires forall i :: 0 <= i < |lost| ==> lost[i] == if i == 0 || 2 <= i < k || i == 255 then 1 else 0
    ensures Received(lost, n) == [0] + seq(k - 2, i => i + 2) + if n > 255 then [255] else []
    decreases n
  {
    if n == k {
      PatternPrefix(lost, k, k);
    } else {
      PatternTail(lost, k, n - 1);
    }
  }

  /** With a single data packet every row is a nonzero multiple of it. */
  lemma SinglePacket(g: Matrix, m: nat, w: Matrix, lost: seq<int>)
    requires Systematic(g, 1, m, w) && |lost| == 1 + m && |Received(lost, 1 + m)| >= 1
    ensures Decodable(g, 1, lost)
  {
    hide Inverse, Exp, Add, Mul, Dot;
    var sel := Chosen(lost, 1, m);
    var a := ChosenRows(g, 1, sel);
    InverseSymmetric(PowerMatrix(1), w);
    InverseProduct(w, PowerMatrix(1), 1);
    assert PowerMatrix(1)[0] == PowerRow(0, 1);
    assert Dot(PowerRow(0, 1), Column(w, 0), 1) == ONE;
    assert PowerRow(sel[0], 1) == PowerRow(0, 1);
    assert a[0] == Unit(1, 0);
    forall x: Vector | |x| == 1 && Maps(a, x, Zeros(1)) ensures x == Zeros(1) {
      UnitDot(x, 0, 1);
      assert Dot(a[0], x, 1) == Zeros(1)[0];
    }
  }

  // ----- a single loss -----

  /** A product with a vector that has one entry. */
  lemma {:induction false} DotOnly(r: Vector, x: Vector, p: nat, n: nat)
    requires p < |x| && n <= |r| && n <= |x| && p < |r| && forall j :: 0 <= j < |x| && j != p ==> x[j] == ZERO
    ensures Dot(r, x, n) == if n > p then Mul(r[p], x[p]) else ZERO
  {
    hide Add, Mul;
    if n > 0 {
      DotOnly(r, x, p, n - 1);
      AddZero(Mul(r[p], x[p]));
      AddZero(ZERO);
      MulZero(r[n - 1]);
    }
  }

  /** All data packets but p arrived, and parity packet r is the first to arrive. */
  ghost predicate LosesOne(lost: seq<int>, k: nat, m: nat, p: nat, r: nat) {
    |lost| == k + m && p < k && r < m && lost[p] != 1 && lost[k + r] == 1 &&
    forall i :: 0 <= i < k + r && i != p ==> (lost[i] == 1 <==> i < k)
  }

  /** The numbers below n but p, in order. */
  ghost function Others(n: nat, p: nat): seq<nat> {
    if n <= p then seq(n, i => i) else seq(n - 1, i => if i < p then i else i + 1)
  }

  lemma OthersNext(n: nat, p: nat)
    ensures Others(n + 1, p) == if n == p then Others(n, p) else Others(n, p) + [n]
  {
  }

  lemma {:induction false} DataReceived(lost: seq<int>, k: nat, p: nat, n: nat)
    requires n <= k <= |lost| && p < k && forall i :: 0 <= i < k ==> (lost[i] == 1 <==> i != p)
    ensures Received(lost, n) == Others(n, p)
  {
    if n > 0 {
      DataReceived(lost, k, p, n - 1);
      OthersNext(n - 1, p);
      assert Received(lost, n) == Received(lost, n - 1) + if lost[n - 1] == 1 then [n - 1] else [];
      hide Others;
    }
  }

  lemma {:induction false} NoneReceived(lost: seq<int>, from: nat, n: nat)
    requires from <= n <= |lost| && forall i :: from <= i < n ==> lost[i] != 1
    ensures Received(lost, n) == Received(lost, from)
    decreases n
  {
    if n > from {
      NoneReceived(lost, from, n - 1);
    }
  }

  /** The rows a decoder works from: those of the other data packets, and the parity row. */
  lemma RowsAtHand(lost: seq<int>, k: nat, m: nat, p: nat, r: nat)
    requires LosesOne(lost, k, m, p, r)
    ensures |lost| == k + m && p < k && r < m && Chosen(lost, k, m) == Others(k, p) + [k + r]
  {
    hide *;
    LosesMeans(lost, k, m, p, r);
    DataReceived(lost, k, p, k);
    NoneReceived(lost, k, k + r);
    ParityReceived(lost, k, m, p, r);
    ReceivedMonotone(lost, k + r + 1, k + m);
    OthersLength(k, p);
    assert Received(lost, k) + [k + r] == Others(k, p) + [k + r];
    ChosenIs(lost, k, m, Received(lost, k + r + 1));
  }

  lemma ChosenIs(lost: seq<int>, k: nat, m: nat, front: seq<nat>)
    requires |lost| == k + m && front <= Received(lost, k + m) && |front| == k
    ensures Chosen(lost, k, m) == front
  {
    hide Received;
  }

  lemma LosesMeans(lost: seq<int>, k: nat, m: nat, p: nat, r: nat)
    requires LosesOne(lost, k, m, p, r)
    ensures |lost| == k + m && p < k && r < m
    ensures (forall i :: 0 <= i < k ==> (lost[i] == 1 <==> i != p)) && forall i :: k <= i < k + r ==> lost[i] != 1
  {
  }

  lemma OthersLength(k: nat, p: nat)
    requires p < k
    ensures |Others(k, p)| == k - 1
  {
  }

  lemma ParityReceived(lost: seq<int>, k: nat, m: nat, p: nat, r: nat)
    requires LosesOne(lost, k, m, p, r)
    ensures |lost| == k + m && p < k && r < m && Received(lost, k + r + 1) == Received(lost, k + r) + [k + r]
  {
  }

  /** With one data packet lost and one parity packet at hand, the data is determined exactly when the parity packet
    * depends on the lost one. */
  lemma SingleLossExactly(g: Matrix, k: nat, m: nat, lost: seq<int>, p: nat, r: nat)
    requires IsMatrix(g, m, k) && 0 < k < 256 && LosesOne(lost, k, m, p, r)
    ensures Decodable(g, k, lost) <==> g[r][p] != ZERO
  {
    hide Singular, Chosen, LosesOne, Received, ChosenRows, CodeRow, Others;
    RowsAtHand(lost, k, m, p, r);
    var a := ChosenRows(g, k, Chosen(lost, k, m));
    AtHand(g, k, Chosen(lost, k, m), p, r);
    SingleLossRows(a, k, p);
  }

  lemma AtHand(g: Matrix, k: nat, sel: seq<nat>, p: nat, r: nat)
    requires IsMatrix(g, |g|, k) && p < k && r < |g| && sel == Others(k, p) + [k + r]
    requires forall j :: 0 <= j < |sel| ==> sel[j] < k + |g|
    ensures var a := ChosenRows(g, k, sel);
      a[k - 1] == g[r] && forall j :: 0 <= j < k - 1 ==> a[j] == Unit(k, Others(k, p)[j])
  {
  }

  lemma SingleLossRows(a: Matrix, k: nat, p: nat)
    requires IsMatrix(a, k, k) && p < k && forall j :: 0 <= j < k - 1 ==> a[j] == Unit(k, Others(k, p)[j])
    ensures Singular(a) <==> a[k - 1][p] == ZERO
  {
    hide Dot, Others;
    if a[k - 1][p] == ZERO {
      NothingShows(a, k, p);
    } else {
      forall x: Vector | |x| == k && Maps(a, x, Zeros(k)) ensures x == Zeros(k) {
        AllZero(a, k, p, x);
      }
    }
  }

  lemma NothingShows(a: Matrix, k: nat, p: nat)
    requires IsMatrix(a, k, k) && p < k && a[k - 1][p] == ZERO
    requires forall j :: 0 <= j < k - 1 ==> a[j] == Unit(k, Others(k, p)[j])
    ensures Singular(a)
  {
    hide Dot, Mul;
    var x := Unit(k, p);
    MulZero(ONE);
    forall j | 0 <= j < k ensures Dot(a[j], x, k) == Zeros(k)[j] {
      DotOnly(a[j], x, p, k);
    }
    assert x[p] != Zeros(k)[p];
    assert Maps(a, x, Zeros(k));
  }

  lemma AllZero(a: Matrix, k: nat, p: nat, x: Vector)
    requires IsMatrix(a, k, k) && |x| == k && p < k && a[k - 1][p] != ZERO
    requires forall j :: 0 <= j < k - 1 ==> a[j] == Unit(k, Others(k, p)[j])
    requires Maps(a, x, Zeros(k))
    ensures x == Zeros(k)
  {
    hide Dot, Mul;
    forall i | 0 <= i < k && i != p ensures x[i] == ZERO {
      var j := if i < p then i else i - 1;
      assert Dot(a[j], x, k) == Zeros(k)[j] && Others(k, p)[j] == i;
      UnitDot(x, i, k);
    }
    DotOnly(a[k - 1], x, p, k);
    assert Dot(a[k - 1], x, k) == Zeros(k)[k - 1];
    if x[p] != ZERO {
      MulNonzero(a[k - 1][p], x[p]);
    }
  }
}
