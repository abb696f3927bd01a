/** Reed-Solomon erasure code: building the generator and recovering lost packets. */
module RsFec {
  import opened Gf256
  import opened LinearAlgebra
  import opened Exchange
  import opened GfTables
  import opened MatrixInversion
  import opened Vandermonde
  import opened Erasures
  import opened CapturedCode

  class Code {
    const k: nat
    const m: nat
    const generator: array2<Byte>

    constructor (k: nat, m: nat)
      ensures this.k == k && this.m == m && fresh(generator)
      ensures generator.Length0 == m && generator.Length1 == k
      ensures forall i, j :: 0 <= i < m && 0 <= j < k ==> generator[i, j] == ZERO
    {
      this.k, this.m := k, m;
      generator := new Byte[m, k]((i, j) => ZERO);
    }

    /** The number of parity packets arrives in one byte. */
    ghost predicate Valid() {
      generator.Length0 == m && generator.Length1 == k && m <= 255
    }

    /** The generator was computed from the rows of powers. */
    ghost predicate Computed()
      reads generator
    {
      Valid() && exists w: Matrix :: Systematic(Contents(generator), k, m, w)
    }

    /** The generator is the captured one. */
    ghost predicate IsCaptured()
      reads generator
    {
      Valid() && k == 100 && m == 5 && Contents(generator) == CapturedMatrix()
    }

    /** The generator is the captured one, or no power of x comes round again in it. */
    ghost predicate Dependable()
      reads generator
    {
      (Computed() && 0 < k && k + m <= 255) || IsCaptured()
    }
  }

  /** c += a b. */
  method MatrixMul(a: array2<Byte>, b: array2<Byte>, c: array2<Byte>, left: nat, mid: nat, right: nat, t: Tables)
    requires a.Length0 == left && a.Length1 == mid && b.Length0 == mid && b.Length1 == right
    requires c.Length0 == left && c.Length1 == right && c != a && c != b && t.Valid()
    modifies c
    ensures forall i, j :: 0 <= i < left && 0 <= j < right ==>
              c[i, j] == Add(old(c[i, j]), Dot(Contents(a)[i], Column(Contents(b), j), mid))
  {
    hide Add, Dot;
    ghost var sa, sb := Contents(a), Contents(b);
    for i := 0 to left
      invariant forall i', j' :: 0 <= i' < left && 0 <= j' < right ==>
                  c[i', j'] == if i' < i then Add(old(c[i', j']), Dot(sa[i'], Column(sb, j'), mid)) else old(c[i', j'])
    {
      for j := 0 to right
        invariant forall i', j' :: 0 <= i' < left && 0 <= j' < right ==>
                    c[i', j'] == if i' < i || (i' == i && j' < j)
                                 then Add(old(c[i', j']), Dot(sa[i'], Column(sb, j'), mid)) else old(c[i', j'])
      {
        AccumulateEntry(a, b, c, i, j, mid, t);
      }
    }
  }

  method AccumulateEntry(a: array2<Byte>, b: array2<Byte>, c: array2<Byte>, i: nat, j: nat, mid: nat, t: Tables)
    requires i < a.Length0 && a.Length1 == mid && b.Length0 == mid && j < b.Length1
    requires i < c.Length0 && j < c.Length1 && c != a && c != b && t.Valid()
    modifies c
    ensures c[i, j] == Add(old(c[i, j]), Dot(Contents(a)[i], Column(Contents(b), j), mid))
    ensures forall i', j' :: 0 <= i' < c.Length0 && 0 <= j' < c.Length1 && !(i' == i && j' == j) ==>
              c[i', j'] == old(c[i', j'])
  {
    hide Add, Mul, Tables.Accumulate, Tables.Valid;
    ghost var r, x, start := Contents(a)[i], Column(Contents(b), j), c[i, j];
    AddZero(start);
    for l := 0 to mid
      invariant t.Valid() && c[i, j] == Add(start, Dot(r, x, l))
      invariant forall i', j' :: 0 <= i' < c.Length0 && 0 <= j' < c.Length1 && !(i' == i && j' == j) ==>
                  c[i', j'] == old(c[i', j'])
    {
      assert r[l] == a[i, l] && x[l] == b[l, j];
      AddAssoc(start, Dot(r, x, l), Mul(r[l], x[l]));
      t.AccumulateIsAdd(c[i, j], r[l], x[l]);
      c[i, j] := t.Accumulate(c[i, j], a[i, l], b[l, j]);
    }
  }

  /** The powers of the points first, first + 1, ..., one row each. */
  method FillPowers(a: array2<Byte>, rows: nat, cols: nat, first: nat, t: Tables)
    requires a.Length0 == rows && a.Length1 == cols && t.Valid()
    modifies a
    ensures forall i :: 0 <= i < rows ==> Contents(a)[i] == PowerRow(first + i, cols)
  {
    hide Exp;
    for i := 0 to rows
      invariant forall i', j :: 0 <= i' < i && 0 <= j < cols ==> a[i', j] == Exp((first + i') * j)
    {
      FillRow(a, i, cols, first + i, t);
    }
  }

  method FillRow(a: array2<Byte>, i: nat, cols: nat, p: nat, t: Tables)
    requires i < a.Length0 && a.Length1 == cols && t.Valid()
    modifies a
    ensures forall j :: 0 <= j < cols ==> a[i, j] == Exp(p * j)
    ensures forall i', j :: 0 <= i' < a.Length0 && i' != i && 0 <= j < cols ==> a[i', j] == old(a[i', j])
  {
    hide Exp;
    for j := 0 to cols
      invariant forall j' :: 0 <= j' < j ==> a[i, j'] == Exp(p * j')
      invariant forall i', j' :: 0 <= i' < a.Length0 && i' != i && 0 <= j' < cols ==> a[i', j'] == old(a[i', j'])
    {
      ExpMod(p * j);
      a[i, j] := t.exp[(p * j) % RS_SIZE];
    }
  }

  /** The generator for k data and m parity packets; none exists when k is 0 or above 255. For 100 and 5 it is the
    * captured one. */
  method New(k: nat, m: nat, t: Tables) returns (code: Code?)
    requires t.Valid() && m <= 255
    ensures code == null <==> k == 0 || k > 255
    ensures code != null ==> fresh(code) && fresh(code.generator) && code.Valid() && code.k == k && code.m == m
    ensures code != null ==> if k == 100 && m == 5 then code.IsCaptured() else code.Computed()
  {
    if k == 100 && m == 5 {
      code := NewCaptured();
    } else {
      code := NewComputed(k, m, t);
    }
  }

  method NewCaptured() returns (code: Code)
    ensures fresh(code) && fresh(code.generator) && code.IsCaptured()
  {
    hide Captured;
    code := new Code(100, 5);
    for i := 0 to 5
      invariant forall i', j :: 0 <= i' < i && 0 <= j < 100 ==> code.generator[i', j] == Captured(i', j)
    {
      for j := 0 to 100
        invariant forall i', j' :: 0 <= i' < i && 0 <= j' < 100 ==> code.generator[i', j'] == Captured(i', j')
        invariant forall j' :: 0 <= j' < j ==> code.generator[i, j'] == Captured(i, j')
      {
        code.generator[i, j] := Captured(i, j);
      }
    }
    ghost var now, was := Contents(code.generator), CapturedMatrix();
    forall i | 0 <= i < 5 ensures now[i] == was[i] {
      assert forall j :: 0 <= j < 100 ==> now[i][j] == was[i][j];
    }
  }

  method NewComputed(k: nat, m: nat, t: Tables) returns (code: Code?)
    requires t.Valid() && m <= 255
    ensures code == null <==> k == 0 || k > 255
    ensures code != null ==> fresh(code) && fresh(code.generator) && code.k == k && code.m == m && code.Computed()
  {
    hide Exp, PowerRow, Dot, Add, Inverse, Singular;
    var left, right := new Byte[m, k], new Byte[k, k];
    FillPowers(left, m, k, k, t);
    FillPowers(right, k, k, 0, t);
    assert Contents(right) == PowerMatrix(k);
    var ret := MatrixInv(right, k, t);
    if k <= 255 { PowerMatrixNonsingular(k); }
    if ret != 0 {
      return null;
    }
    code := new Code(k, m);
    ghost var w := Contents(right);
    MatrixMul(left, right, code.generator, m, k, k, t);
    forall i, j | 0 <= i < m && 0 <= j < k
      ensures Contents(code.generator)[i][j] == Dot(PowerRow(k + i, k), Column(w, j), k)
    {
      AddZero(Dot(Contents(left)[i], Column(w, j), k));
    }
    assert Systematic(Contents(code.generator), k, m, w);
  }

  // ----- decoding -----

  /** Contents of packet buffers, as values. */
  ghost function Values(p: seq<array?<Byte>>): (v: seq<Vector>)
    reads set i | 0 <= i < |p| && p[i] != null :: p[i]
    ensures |v| == |p|
    ensures forall i :: 0 <= i < |p| ==> v[i] == if p[i] == null then [] else p[i][..]
  {
    seq(|p|, i requires 0 <= i < |p| reads (if 0 <= i < |p| && p[i] != null then {p[i]} else {}) =>
      if p[i] == null then [] else p[i][..])
  }

  /** What packet s of the code carries at position r when the data packets are orig. */
  ghost function CodeByte(orig: seq<Vector>, g: Matrix, k: nat, s: nat, r: nat): Byte
    requires |orig| == k && (forall i :: 0 <= i < k ==> r < |orig[i]|)
    requires (forall i :: 0 <= i < |g| ==> |g[i]| == k) && s < k + |g|
  {
    if s < k then orig[s][r] else Dot(g[s - k], Column(orig, r), k)
  }

  /** The received packets are those of the data packets orig, each of size bytes. */
  ghost predicate Encodes(orig: seq<Vector>, g: Matrix, k: nat, size: nat, lost: seq<int>, data: seq<Vector>,
    fec: seq<Vector>) {
    |orig| == k && (forall i :: 0 <= i < k ==> |orig[i]| == size) &&
    (forall i :: 0 <= i < |g| ==> |g[i]| == k) && |lost| == k + |g| && |data| == k && |fec| == |g| &&
    forall s :: 0 <= s < k + |g| && lost[s] == 1 ==>
      size <= |PacketValue(data, fec, k, s)| &&
      forall r :: 0 <= r < size ==> PacketValue(data, fec, k, s)[r] == CodeByte(orig, g, k, s, r)
  }

  ghost function PacketValue(data: seq<Vector>, fec: seq<Vector>, k: nat, s: nat): Vector
    requires |data| == k && s < k + |fec|
  {
    if s < k then data[s] else fec[s - k]
  }

  /** Packets are separate buffers of at least size bytes; a lost parity packet has none. */
  ghost predicate Buffers(code: Code, data: seq<array<Byte>>, fec: seq<array?<Byte>>, lost: seq<int>, size: nat) {
    code.Valid() && |data| == code.k && |fec| == code.m && |lost| == code.k + code.m &&
    (forall i :: 0 <= i < |lost| ==> lost[i] == 0 || lost[i] == 1) &&
    (forall i :: 0 <= i < |data| ==> data[i].Length >= size) &&
    (forall i :: 0 <= i < |fec| && lost[code.k + i] == 1 ==> fec[i] != null && fec[i].Length >= size) &&
    (forall i, j :: 0 <= i < j < |data| ==> data[i] != data[j]) &&
    (forall i, j :: 0 <= i < |data| && 0 <= j < |fec| ==> data[i] != fec[j])
  }

  /** The first count rows are those of the first received packets among 0 .. n - 1; the rest are zero. */
  ghost predicate RowsFor(a: Matrix, g: Matrix, k: nat, l: seq<int>, n: nat, count: nat) {
    (forall i :: 0 <= i < |g| ==> |g[i]| == k) && n <= |l| <= k + |g| && IsMatrix(a, k, k) &&
    count == |Received(l, n)| &&
    forall r :: 0 <= r < k ==> a[r] == if r < count then CodeRow(g, k, Received(l, n)[r]) else Zeros(k)
  }

  lemma RowsForReceived(a: Matrix, g: Matrix, k: nat, l: seq<int>, i: nat, count: nat)
    requires RowsFor(a, g, k, l, i, count) && i < |l| && l[i] == 1 && count < k
    ensures RowsFor(a[count := CodeRow(g, k, i)], g, k, l, i + 1, count + 1)
  {
    hide CodeRow, Zeros;
  }

  lemma RowsForLost(a: Matrix, g: Matrix, k: nat, l: seq<int>, i: nat, count: nat)
    requires RowsFor(a, g, k, l, i, count) && i < |l| && l[i] != 1
    ensures RowsFor(a, g, k, l, i + 1, count)
  {}

  lemma RowsForSpare(a: Matrix, g: Matrix, k: nat, l: seq<int>, i: nat, count: nat)
    requires RowsFor(a, g, k, l, i, count) && count < k
    ensures i < k ==> count <= i
    ensures a[count] == Zeros(k)
  {}

  /** The rows are complete when all packets were looked at, or k of them were found. */
  lemma RowsForAll(a: Matrix, g: Matrix, k: nat, l: seq<int>, i: nat, count: nat)
    requires RowsFor(a, g, k, l, i, count) && |l| == k + |g| && (i == |l| || count == k)
    ensures a == ChosenRows(g, k, Chosen(l, k, |g|))
  {
    hide CodeRow, Zeros;
    ReceivedMonotone(l, i, |l|);
    var b := ChosenRows(g, k, Chosen(l, k, |g|));
    assert forall r :: 0 <= r < k ==> a[r] == b[r];
  }

  /** A unit row for every data packet received; the lost data packets are listed, at most m of them. */
  method CollectData(code: Code, lost: array<int>, sub: array2<Byte>, lostIds: array<nat>)
    returns (ok: bool, count: nat, lostCount: nat)
    requires code.Valid() && lost.Length == code.k + code.m && Square(sub, code.k) && lostIds.Length == 256
    requires Contents(sub) == seq(code.k, r => Zeros(code.k)) && sub != code.generator
    modifies sub, lostIds
    ensures ok ==> RowsFor(Contents(sub), Contents(code.generator), code.k, lost[..], code.k, count)
    ensures ok ==> lostCount <= 256 && lostIds[..lostCount] == Missing(lost[..], code.k)
    ensures !ok ==> |Missing(lost[..], code.k)| > code.m
  {
    hide Zeros, RowsFor, Missing;
    var k, m := code.k, code.m;
    ghost var l, g := lost[..], Contents(code.generator);
    count, lostCount := 0, 0;
    NoneYet(g, k, l);
    for i := 0 to k
      invariant RowsFor(Contents(sub), g, k, l, i, count) && count <= i
      invariant lostCount <= m && lostIds[..lostCount] == Missing(l, i)
    {
      MissingStep(l, i);
      if lost[i] == 1 {
        RowsForSpare(Contents(sub), g, k, l, i, count);
        RowsForReceived(Contents(sub), g, k, l, i, count);
        SetUnit(sub, k, count, i);
        count := count + 1;
      } else if lostCount < m {
        RowsForLost(Contents(sub), g, k, l, i, count);
        lostIds[lostCount] := i;
        lostCount := lostCount + 1;
        assert lostIds[..lostCount] == lostIds[..lostCount - 1] + [i];
      } else {
        MissingMonotone(l, i + 1, k);
        return false, count, lostCount;
      }
    }
    ok := true;
  }

  lemma NoneYet(g: Matrix, k: nat, l: seq<int>)
    requires (forall i :: 0 <= i < |g| ==> |g[i]| == k) && |l| <= k + |g|
    ensures RowsFor(seq(k, r => Zeros(k)), g, k, l, 0, 0) && Missing(l, 0) == []
  {}

  method SetUnit(sub: array2<Byte>, k: nat, r: nat, i: nat)
    requires Square(sub, k) && r < k && i < k && Contents(sub)[r] == Zeros(k)
    modifies sub
    ensures Contents(sub) == old(Contents(sub))[r := Unit(k, i)]
  {
    assert forall j :: 0 <= j < k ==> sub[r, j] == Zeros(k)[j] by {
      assert forall j :: 0 <= j < k ==> sub[r, j] == Contents(sub)[r][j];
    }
    sub[r, i] := ONE;
    ghost var now, was := Contents(sub), old(Contents(sub))[r := Unit(k, i)];
    assert now[r] == was[r];
    assert forall r' :: 0 <= r' < k ==> now[r'] == was[r'];
  }

  /** A generator row for every parity packet received, until there are k rows. */
  method CollectParity(code: Code, lost: array<int>, sub: array2<Byte>, count0: nat)
    requires code.Valid() && lost.Length == code.k + code.m && Square(sub, code.k) && sub != code.generator
    requires RowsFor(Contents(sub), Contents(code.generator), code.k, lost[..], code.k, count0)
    modifies sub
    ensures Contents(sub) == ChosenRows(Contents(code.generator), code.k, Chosen(lost[..], code.k, code.m))
  {
    hide RowsFor;
    var k, m, count := code.k, code.m, count0;
    ghost var l, g := lost[..], Contents(code.generator);
    assert count <= k by { RowsForBound(Contents(sub), g, k, l, count); }
    var i := k;
    while i < k + m
      invariant k <= i <= k + m && count <= k
      invariant RowsFor(Contents(sub), g, k, l, i, count)
    {
      if lost[i] == 1 {
        if count < k {
          RowsForReceived(Contents(sub), g, k, l, i, count);
          CopyRow(code, sub, count, i - k);
          count := count + 1;
        } else {
          break;
        }
      } else {
        RowsForLost(Contents(sub), g, k, l, i, count);
      }
      i := i + 1;
    }
    RowsForAll(Contents(sub), g, k, l, i, count);
  }

  lemma RowsForBound(a: Matrix, g: Matrix, k: nat, l: seq<int>, count: nat)
    requires RowsFor(a, g, k, l, k, count)
    ensures count <= k
  {}

  method CopyRow(code: Code, sub: array2<Byte>, r: nat, i: nat)
    requires code.Valid() && Square(sub, code.k) && r < code.k && i < code.m && sub != code.generator
    modifies sub
    ensures Contents(sub) == old(Contents(sub))[r := Contents(code.generator)[i]]
  {
    for j := 0 to code.k
      invariant forall j' :: 0 <= j' < j ==> sub[r, j'] == code.generator[i, j']
      invariant forall r', j' :: 0 <= r' < code.k && r' != r && 0 <= j' < code.k ==> sub[r', j'] == old(sub[r', j'])
    {
      sub[r, j] := code.generator[i, j];
    }
    ghost var now, was := Contents(sub), old(Contents(sub))[r := Contents(code.generator)[i]];
    assert now[r] == was[r];
    assert forall r' :: 0 <= r' < code.k ==> now[r'] == was[r'];
  }

  lemma {:induction false} MissingMonotone(l: seq<int>, i: nat, n: nat)
    requires i <= n <= |l|
    ensures |Missing(l, i)| <= |Missing(l, n)|
    decreases n
  {
    if i < n {
      MissingMonotone(l, i, n - 1);
      MissingStep(l, n - 1);
      hide Missing;
    }
  }

  /** The first k received packets, in order. */
  method GatherReceived(code: Code, data: seq<array<Byte>>, fec: seq<array?<Byte>>, lost: array<int>, ghost size: nat)
    returns (recv: seq<array<Byte>>)
    requires Buffers(code, data, fec, lost[..], size) && code.k > 0
    requires |Chosen(lost[..], code.k, code.m)| == code.k
    ensures |recv| == code.k
    ensures forall l :: 0 <= l < code.k ==> recv[l] == Packet(data, fec, code.k, Chosen(lost[..], code.k, code.m)[l])
  {
    hide Received, Chosen, Buffers, Packet;
    var k, n := code.k, code.k + code.m;
    ghost var l := lost[..];
    Lengths(code, data, fec, l, size);
    recv := [];
    var i := 0;
    ghost var ids: seq<nat> := [];
    ReceivedStep(l, 0);
    while i < n
      invariant 0 <= i <= n && |recv| == |ids| < k && ids == Received(l, i)
      invariant forall r :: 0 <= r < |ids| ==> ids[r] < n && recv[r] == Packet(data, fec, k, ids[r])
      decreases n - i
    {
      ReceivedStep(l, i);
      Present(code, data, fec, l, size, i);
      if lost[i] != 0 {
        var p := if i < k then data[i] else fec[i - k];
        recv := recv + [p];
        ids := ids + [i];
      }
      i := i + 1;
      if |recv| == k {
        break;
      }
    }
    Gathered(l, k, code.m, i, ids);
  }

  /** The first k packets that arrived are the chosen ones. */
  lemma Gathered(l: seq<int>, k: nat, m: nat, i: nat, ids: seq<nat>)
    requires |l| == k + m && i <= k + m && ids == Received(l, i) && |ids| <= k && (i == k + m || |ids| == k)
    requires |Chosen(l, k, m)| == k
    ensures ids == Chosen(l, k, m)
  {
    hide Received, Chosen;
    ChosenPrefix(l, k, m);
    ReceivedMonotone(l, i, k + m);
  }

  lemma Lengths(code: Code, data: seq<array<Byte>>, fec: seq<array?<Byte>>, l: seq<int>, size: nat)
    requires Buffers(code, data, fec, l, size)
    ensures |data| == code.k && |fec| == code.m && |l| == code.k + code.m
  {
  }

  /** A packet that arrived has a buffer. */
  lemma Present(code: Code, data: seq<array<Byte>>, fec: seq<array?<Byte>>, l: seq<int>, size: nat, i: nat)
    requires Buffers(code, data, fec, l, size) && i < |l|
    ensures |data| == code.k && |fec| == code.m && |l| == code.k + code.m && (l[i] == 0 || l[i] == 1)
    ensures l[i] != 0 && i >= code.k ==> fec[i - code.k] != null
    ensures Packet(data, fec, code.k, i) == if i < code.k then data[i] else fec[i - code.k]
  {
    if i >= code.k {
      assert i == code.k + (i - code.k);
    }
  }

  lemma ChosenPrefix(l: seq<int>, k: nat, m: nat)
    requires |l| == k + m
    ensures |Chosen(l, k, m)| <= |Received(l, k + m)|
    ensures forall r :: 0 <= r < |Chosen(l, k, m)| ==> Chosen(l, k, m)[r] == Received(l, k + m)[r]
  {}

  function Packet(data: seq<array<Byte>>, fec: seq<array?<Byte>>, k: nat, s: nat): array?<Byte>
    requires |data| == k && s < k + |fec|
  {
    if s < k then data[s] else fec[s - k]
  }

  /** Rebuild one packet: row cur of the inverse applied to the received packets, byte by byte. */
  method RecoverPacket(inv: array2<Byte>, k: nat, cur: nat, recv: seq<array<Byte>>, target: array<Byte>, size: nat,
                       t: Tables, ghost vals: seq<Vector>)
    requires Square(inv, k) && cur < k && |recv| == k && size <= target.Length && t.Valid()
    requires Holds(recv, vals, size) && target !in recv && target != t.exp
    modifies target
    ensures forall r :: 0 <= r < size ==> target[r] == Dot(Contents(inv)[cur], Column(vals, r), k)
    ensures target[size..] == old(target[size..])
  {
    hide Add, Mul, Tables.Accumulate, Tables.Valid;
    ghost var row := Contents(inv)[cur];
    for r := 0 to size
      invariant forall r' :: 0 <= r' < r ==> target[r'] == ZERO
      invariant target[size..] == old(target[size..])
    {
      target[r] := ZERO;
    }
    for r := 0 to size
      invariant t.Valid() && Holds(recv, vals, size)
      invariant forall r' :: r <= r' < size ==> target[r'] == ZERO
      invariant forall r' :: 0 <= r' < r ==> target[r'] == Dot(row, Column(vals, r'), k)
      invariant target[size..] == old(target[size..])
    {
      RecoverByte(inv, k, cur, recv, target, r, size, t, vals);
    }
  }

  /** The buffers hold these values, at least size bytes each. */
  ghost predicate Holds(recv: seq<array<Byte>>, vals: seq<Vector>, size: nat)
    reads recv
  {
    |vals| == |recv| && forall l :: 0 <= l < |recv| ==> vals[l] == recv[l][..] && size <= |vals[l]|
  }

  method RecoverByte(inv: array2<Byte>, k: nat, cur: nat, recv: seq<array<Byte>>, target: array<Byte>, r: nat,
                     size: nat, t: Tables, ghost vals: seq<Vector>)
    requires Square(inv, k) && cur < k && |recv| == k && r < size <= target.Length && t.Valid()
    requires Holds(recv, vals, size) && target !in recv && target != t.exp && target[r] == ZERO
    modifies target
    ensures target[r] == Dot(Contents(inv)[cur], Column(vals, r), k)
    ensures forall r' :: 0 <= r' < target.Length && r' != r ==> target[r'] == old(target[r'])
  {
    hide Add, Mul, Tables.Accumulate, Tables.Valid;
    ghost var row, x := Contents(inv)[cur], Column(vals, r);
    for l := 0 to k
      invariant t.Valid() && target[r] == Dot(row, x, l)
      invariant forall r' :: 0 <= r' < target.Length && r' != r ==> target[r'] == old(target[r'])
    {
      assert row[l] == inv[cur, l];
      assert x[l] == recv[l][r];
      t.AccumulateIsAdd(target[r], row[l], x[l]);
      target[r] := t.Accumulate(target[r], inv[cur, l], recv[l][r]);
    }
  }

  lemma {:induction false} ReceivedGrowth(l: seq<int>, k: nat, m: nat)
    requires k + m <= |l|
    ensures |Received(l, k + m)| <= |Received(l, k)| + m
  {
    if m != 0 { ReceivedGrowth(l, k, m - 1); }
  }

  lemma TooManyMissing(g: Matrix, k: nat, l: seq<int>)
    requires |l| == k + |g| && |Missing(l, k)| > |g|
    ensures !Decodable(g, k, l)
  {
    hide Decodable, Received, Missing;
    if Decodable(g, k, l) {
      TooFewReceived(g, k, l);
      MissingFacts(l, k);
      ReceivedGrowth(l, k, |g|);
    }
  }

  /** The inverse of the chosen rows, applied to the chosen packets, gives back the data. */
  lemma RecoveredByte(orig: seq<Vector>, g: Matrix, k: nat, size: nat, l: seq<int>, data: seq<Vector>, fec: seq<Vector>,
                      inv: Matrix, vals: seq<Vector>, i: nat, r: nat)
    requires Encodes(orig, g, k, size, l, data, fec) && i < k && r < size
    requires |Chosen(l, k, |g|)| == k && |vals| == k && IsMatrix(inv, k, k)
    requires Inverse(ChosenRows(g, k, Chosen(l, k, |g|)), inv)
    requires forall j :: 0 <= j < k ==> size <= |vals[j]| && vals[j] == PacketValue(data, fec, k, Chosen(l, k, |g|)[j])
    ensures Dot(inv[i], Column(vals, r), k) == orig[i][r]
  {
    hide Dot, Chosen;
    var sel := Chosen(l, k, |g|);
    var a, x, u := ChosenRows(g, k, sel), Column(orig, r), Column(vals, r);
    forall j | 0 <= j < k ensures Dot(a[j], x, k) == u[j] {
      assert u[j] == CodeByte(orig, g, k, sel[j], r);
      if sel[j] < k { UnitDot(x, sel[j], k); }
    }
    assert Maps(a, x, u);
    assert Maps(inv, u, x);
  }

  /**
   * Recover the lost data packets. The result is 0 exactly when the rows of the packets at hand determine
   * the data; then every data packet holds its original bytes, and no other byte has changed.
   */
  method Decode(code: Code, data: seq<array<Byte>>, fec: seq<array?<Byte>>, lost: array<int>, size: nat, t: Tables)
    returns (ret: int)
    requires Buffers(code, data, fec, lost[..], size) && t.Valid() && t.exp !in data
    modifies data
    ensures ret == 0 || ret == -1
    ensures ret == 0 <==> Decodable(Contents(code.generator), code.k, lost[..])
    ensures code.Dependable() ==> (ret == 0 <==> |Received(lost[..], code.k + code.m)| >= code.k)
    ensures ret == -1 ==> forall i :: 0 <= i < code.k ==> data[i][..] == old(data[i][..])
    ensures forall i :: 0 <= i < code.k && lost[i] == 1 ==> data[i][..] == old(data[i][..])
    ensures forall i :: 0 <= i < code.k ==> data[i][size..] == old(data[i][size..])
    ensures ret == 0 ==> forall orig: seq<Vector> ::
              Encodes(orig, Contents(code.generator), code.k, size, lost[..], old(Values(data)), old(Values(fec))) ==>
              forall i :: 0 <= i < code.k ==> data[i][..size] == orig[i]
  {
    hide Singular, Received, Chosen, ChosenRows, CodeRow, Inverse, Encodes, Missing, Decodable, Tables.Valid,
      Code.Dependable;
    Promises(code, lost[..]);
    ghost var dv, fv := Values(data), Values(fec);
    var inv, lostIds, lostCount;
    ret, inv, lostIds, lostCount := Invert(code, lost, t);
    if ret == 0 {
      assert Values(data) == dv && Values(fec) == fv;
      Recover(code, data, fec, lost, size, t, inv, lostIds, lostCount);
    }
  }

  /** The first half of decoding: the rows of the packets at hand are inverted, and the lost data packets listed. */
  method Invert(code: Code, lost: array<int>, t: Tables)
    returns (ret: int, sub: array2<Byte>, lostIds: array<nat>, lostCount: nat)
    requires code.Valid() && lost.Length == code.k + code.m && t.Valid()
    ensures fresh(sub) && fresh(lostIds) && (ret == 0 || ret == -1)
    ensures ret == 0 <==> Decodable(Contents(code.generator), code.k, lost[..])
    ensures ret == 0 ==>
      Square(sub, code.k) && lostCount <= lostIds.Length && lostIds[..lostCount] == Missing(lost[..], code.k)
    ensures ret == 0 ==> |Chosen(lost[..], code.k, code.m)| == code.k > 0
    ensures ret == 0 ==>
      Inverse(ChosenRows(Contents(code.generator), code.k, Chosen(lost[..], code.k, code.m)), Contents(sub))
  {
    hide Singular, Received, Chosen, ChosenRows, CodeRow, Inverse, Missing, ProductIsIdentity, Decodable, Tables.Valid;
    ghost var l, g := lost[..], Contents(code.generator);
    sub := ZeroMatrix(code.k);
    lostIds := new nat[256](_ => 0);
    var ok, count;
    ok, count, lostCount := CollectData(code, lost, sub, lostIds);
    if !ok {
      TooManyMissing(g, code.k, l);
      ret := -1;
      return;
    }
    CollectParity(code, lost, sub, count);
    DecodableIs(g, code.k, l);
    ret := MatrixInv(sub, code.k, t);
    if ret == 0 {
      TooFewReceived(g, code.k, l);
      ChosenFull(l, code.k, code.m);
    }
  }

  /** With the generators that New makes any k packets are enough, as long as no power of x comes round again. */
  lemma Promises(code: Code, l: seq<int>)
    requires code.Valid() && |l| == code.k + code.m
    ensures code.Dependable() ==>
      (Decodable(Contents(code.generator), code.k, l) <==> |Received(l, code.k + code.m)| >= code.k)
  {
    hide Decodable, Systematic, Received, Captured;
    if code.Computed() && 0 < code.k && code.k + code.m <= 255 {
      var w: Matrix :| Systematic(Contents(code.generator), code.k, code.m, w);
      EnoughReceived(Contents(code.generator), code.k, code.m, w, l);
    }
    if code.IsCaptured() {
      CapturedDecodable(l);
    }
  }

  /** The second half of decoding: gather the received packets and write the lost ones. */
  method Recover(code: Code, data: seq<array<Byte>>, fec: seq<array?<Byte>>, lost: array<int>, size: nat, t: Tables,
                 inv: array2<Byte>, lostIds: array<nat>, lostCount: nat)
    requires Buffers(code, data, fec, lost[..], size) && t.Valid() && t.exp !in data
    requires Square(inv, code.k) && lostCount <= lostIds.Length && lostIds[..lostCount] == Missing(lost[..], code.k)
    requires |Chosen(lost[..], code.k, code.m)| == code.k > 0
    requires Inverse(ChosenRows(Contents(code.generator), code.k, Chosen(lost[..], code.k, code.m)), Contents(inv))
    modifies data
    ensures forall i :: 0 <= i < code.k && lost[i] == 1 ==> data[i][..] == old(data[i][..])
    ensures forall i :: 0 <= i < code.k ==> data[i][size..] == old(data[i][size..])
    ensures forall orig: seq<Vector> ::
              Encodes(orig, Contents(code.generator), code.k, size, lost[..], old(Values(data)), old(Values(fec))) ==>
              forall i :: 0 <= i < code.k ==> data[i][..size] == orig[i]
  {
    hide Chosen, Inverse, Encodes, Missing, Tables.Valid;
    var k, m := code.k, code.m;
    ghost var l, g, dv, fv := lost[..], Contents(code.generator), Values(data), Values(fec);
    var recv := GatherReceived(code, data, fec, lost, size);
    ghost var vals := ChosenValues(l, k, m, dv, fv);
    RebuildAll(code, data, fec, lost, size, t, inv, recv, lostIds, lostCount, vals);
    forall orig: seq<Vector>, i | Encodes(orig, g, k, size, l, dv, fv) && 0 <= i < k
      ensures |orig| == k && data[i][..size] == orig[i]
    {
      EncodesShape(orig, g, k, size, l, dv, fv);
      RecoveredPacket(orig, g, k, size, l, dv, fv, Contents(inv), data[i][..], i);
    }
  }

  lemma EncodesShape(orig: seq<Vector>, g: Matrix, k: nat, size: nat, lost: seq<int>, data: seq<Vector>,
    fec: seq<Vector>)
    requires Encodes(orig, g, k, size, lost, data, fec)
    ensures |orig| == k
  {}

  method ZeroMatrix(k: nat) returns (a: array2<Byte>)
    ensures fresh(a) && Square(a, k) && Contents(a) == seq(k, r => Zeros(k))
  {
    a := new Byte[k, k]((i, j) => ZERO);
    ghost var now, was := Contents(a), seq(k, r => Zeros(k));
    assert forall r :: 0 <= r < k ==> now[r] == was[r];
  }

  lemma ChosenFull(l: seq<int>, k: nat, m: nat)
    requires |l| == k + m && |Received(l, k + m)| >= k
    ensures |Chosen(l, k, m)| == k
  {}

  lemma DecodableIs(g: Matrix, k: nat, l: seq<int>)
    requires (forall i :: 0 <= i < |g| ==> |g[i]| == k) && |l| == k + |g|
    ensures Decodable(g, k, l) <==> 0 < k < 256 && !Singular(ChosenRows(g, k, Chosen(l, k, |g|)))
  {}

  /** The packets a decoder works from, as values. */
  ghost function ChosenValues(l: seq<int>, k: nat, m: nat, data: seq<Vector>, fec: seq<Vector>): (vals: seq<Vector>)
    requires |l| == k + m && |data| == k && |fec| == m && |Chosen(l, k, m)| == k
    ensures |vals| == k
  {
    seq(k, j requires 0 <= j < k => PacketValue(data, fec, k, Chosen(l, k, m)[j]))
  }

  /** Packet i after a decode: as before if received, else made from the inverse; nothing beyond size moves. */
  ghost predicate Rebuilt(after: Vector, before: Vector, vals: seq<Vector>, inv: Matrix, k: nat, size: nat,
    received: bool, i: nat) {
    i < k && |vals| == k && IsMatrix(inv, k, k) && (forall j :: 0 <= j < k ==> size <= |vals[j]|) &&
    |after| == |before| && size <= |after| && after[size..] == before[size..] &&
    if received then after == before
    else forall r :: 0 <= r < size ==> after[r] == Dot(inv[i], Column(vals, r), k)
  }

  lemma RecoveredPacket(orig: seq<Vector>, g: Matrix, k: nat, size: nat, l: seq<int>, data: seq<Vector>,
                        fec: seq<Vector>, inv: Matrix, after: Vector, i: nat)
    requires Encodes(orig, g, k, size, l, data, fec) && |Chosen(l, k, |g|)| == k && i < k
    requires IsMatrix(inv, k, k) && Inverse(ChosenRows(g, k, Chosen(l, k, |g|)), inv)
    requires Rebuilt(after, data[i], ChosenValues(l, k, |g|, data, fec), inv, k, size, l[i] == 1, i)
    ensures |after| >= size && after[..size] == orig[i]
  {
    hide Chosen, Inverse, Dot;
    forall r | 0 <= r < size ensures after[r] == orig[i][r] {
      if l[i] == 1 {
        assert PacketValue(data, fec, k, i)[r] == CodeByte(orig, g, k, i, r);
      } else {
        RecoveredByte(orig, g, k, size, l, data, fec, inv, ChosenValues(l, k, |g|, data, fec), i, r);
      }
    }
  }

  lemma NotAmongReceived(code: Code, data: seq<array<Byte>>, fec: seq<array?<Byte>>, l: seq<int>, size: nat,
                         recv: seq<array<Byte>>, i: nat)
    requires Buffers(code, data, fec, l, size) && |Chosen(l, code.k, code.m)| == code.k == |recv|
    requires forall j :: 0 <= j < code.k ==> recv[j] == Packet(data, fec, code.k, Chosen(l, code.k, code.m)[j])
    requires i < code.k && l[i] != 1
    ensures data[i] !in recv
  {
    hide Chosen;
    forall j | 0 <= j < |recv| ensures recv[j] != data[i] {
      assert l[Chosen(l, code.k, code.m)[j]] == 1;
    }
  }

  /** Write every lost data packet from the received ones. */
  method RebuildAll(code: Code, data: seq<array<Byte>>, fec: seq<array?<Byte>>, lost: array<int>, size: nat, t: Tables,
                    inv: array2<Byte>, recv: seq<array<Byte>>, lostIds: array<nat>, lostCount: nat,
                    ghost vals: seq<Vector>)
    requires Buffers(code, data, fec, lost[..], size) && t.Valid() && t.exp !in data
    requires Square(inv, code.k) && lostCount <= lostIds.Length && lostIds[..lostCount] == Missing(lost[..], code.k)
    requires |Chosen(lost[..], code.k, code.m)| == code.k == |recv| == |vals|
    requires forall j :: 0 <= j < code.k ==> recv[j] == Packet(data, fec, code.k, Chosen(lost[..], code.k, code.m)[j])
    requires Holds(recv, vals, size)
    modifies data
    ensures forall i :: 0 <= i < code.k ==>
              Rebuilt(data[i][..], old(data[i][..]), vals, Contents(inv), code.k, size, lost[i] == 1, i)
  {
    hide Chosen, Missing, Rebuilt, Tables.Valid, Holds, Received;
    ghost var l, ids := lost[..], Missing(lost[..], code.k);
    MissingFacts(l, code.k);
    forall j | 0 <= j < lostCount ensures data[ids[j]] !in recv {
      NotAmongReceived(code, data, fec, l, size, recv, ids[j]);
    }
    for i := 0 to lostCount
      invariant t.Valid() && Holds(recv, vals, size)
      invariant forall p :: 0 <= p < code.k && l[p] == 1 ==> data[p][..] == old(data[p][..])
      invariant forall j :: i <= j < lostCount ==> data[ids[j]][..] == old(data[ids[j]][..])
      invariant forall j :: 0 <= j < i ==>
                  Rebuilt(data[ids[j]][..], old(data[ids[j]][..]), vals, Contents(inv), code.k, size, false, ids[j])
    {
      assert lostIds[i] == lostIds[..lostCount][i];
      WriteLost(inv, code.k, lostIds[i], recv, data[lostIds[i]], size, t, vals);
    }
    forall i | 0 <= i < code.k
      ensures Rebuilt(data[i][..], old(data[i][..]), vals, Contents(inv), code.k, size, lost[i] == 1, i)
    {
      if l[i] == 1 {
        RebuiltReceived(data[i][..], recv, vals, Contents(inv), code.k, size, i);
      } else {
        var j :| 0 <= j < |ids| && ids[j] == i;
      }
    }
  }

  lemma RebuiltReceived(before: Vector, recv: seq<array<Byte>>, vals: seq<Vector>, inv: Matrix, k: nat, size: nat,
    i: nat)
    requires i < k == |vals| && Holds(recv, vals, size) && IsMatrix(inv, k, k) && size <= |before|
    ensures Rebuilt(before, before, vals, inv, k, size, true, i)
  {}

  method WriteLost(inv: array2<Byte>, k: nat, cur: nat, recv: seq<array<Byte>>, target: array<Byte>, size: nat,
                   t: Tables, ghost vals: seq<Vector>)
    requires Square(inv, k) && cur < k && |recv| == k && size <= target.Length && t.Valid()
    requires Holds(recv, vals, size) && target !in recv && target != t.exp
    modifies target
    ensures Rebuilt(target[..], old(target[..]), vals, Contents(inv), k, size, false, cur)
    ensures t.Valid() && Holds(recv, vals, size)
  {
    hide Dot;
    RecoverPacket(inv, k, cur, recv, target, size, t, vals);
  }
}
