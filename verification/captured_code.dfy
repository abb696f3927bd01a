/** The generator captured from a running sender, for 100 data and 5 parity packets: any 100 of the 105 packets are
  * enough. */
module CapturedCode {

  import opened Gf256
  import opened LinearAlgebra
  import opened Sequences
  import opened Vandermonde
  import opened Erasures
  import opened Cauchy

  // ----- bytes as machine words -----

  predicate Has(v: bv8, m: bv8) { v & m != 0 }

  function Bits(v: bv8): Byte {
    Byte(Has(v, 0x80), Has(v, 0x40), Has(v, 0x20), Has(v, 0x10), Has(v, 8), Has(v, 4), Has(v, 2), Has(v, 1))
  }

  function Shifted(r: bv8): bv8 { (r << 1) ^ if r & 0x80 != 0 then 0x1d else 0 }

  /** One step of Horner's rule. */
  function Taken(r: bv8, on: bool, b: bv8): bv8 { Shifted(r) ^ if on then b else 0 }

  function Upper(a: bv8, b: bv8): bv8 {
    Taken(Taken(Taken(Taken(0, Has(a, 0x80), b), Has(a, 0x40), b), Has(a, 0x20), b), Has(a, 0x10), b)
  }

  /** The product of two bytes. */
  function Product(a: bv8, b: bv8): bv8 {
    Taken(Taken(Taken(Taken(Upper(a, b), Has(a, 8), b), Has(a, 4), b), Has(a, 2), b), Has(a, 1), b)
  }

  lemma HasAdd(a: bv8, b: bv8, m: bv8)
    requires m == 0x80 || m == 0x40 || m == 0x20 || m == 0x10 || m == 8 || m == 4 || m == 2 || m == 1
    ensures Has(a ^ b, m) == (Has(a, m) != Has(b, m))
  {
  }

  lemma EachAdds(a: bv8, b: bv8, c: bv8)
    requires c == a ^ b
    ensures Has(c, 0x80) == (Has(a, 0x80) != Has(b, 0x80)) && Has(c, 0x40) == (Has(a, 0x40) != Has(b, 0x40))
    ensures Has(c, 0x20) == (Has(a, 0x20) != Has(b, 0x20)) && Has(c, 0x10) == (Has(a, 0x10) != Has(b, 0x10))
    ensures Has(c, 8) == (Has(a, 8) != Has(b, 8)) && Has(c, 4) == (Has(a, 4) != Has(b, 4))
    ensures Has(c, 2) == (Has(a, 2) != Has(b, 2)) && Has(c, 1) == (Has(a, 1) != Has(b, 1))
  {
    hide Has;
    HasAdd(a, b, 0x80);
    HasAdd(a, b, 0x40);
    HasAdd(a, b, 0x20);
    HasAdd(a, b, 0x10);
    HasAdd(a, b, 8);
    HasAdd(a, b, 4);
    HasAdd(a, b, 2);
    HasAdd(a, b, 1);
  }

  lemma BitsAdd(a: bv8, b: bv8, c: bv8)
    requires c == a ^ b
    ensures Bits(c) == Add(Bits(a), Bits(b))
  {
    EachAdds(a, b, c);
    hide Has;
    var x, y, z := Bits(a), Bits(b), Bits(c);
    assert z.b7 == (x.b7 != y.b7) && z.b6 == (x.b6 != y.b6) && z.b5 == (x.b5 != y.b5) && z.b4 == (x.b4 != y.b4);
    assert z.b3 == (x.b3 != y.b3) && z.b2 == (x.b2 != y.b2) && z.b1 == (x.b1 != y.b1) && z.b0 == (x.b0 != y.b0);
    hide Bits;
  }

  lemma BitsZero(a: bv8)
    ensures Bits(a) == ZERO <==> a == 0
  {
  }

  lemma BitsSame(a: bv8, b: bv8)
    requires Bits(a) == Bits(b)
    ensures a == b
  {
    BitsAdd(a, b, a ^ b);
    BitsZero(a ^ b);
    hide Bits;
    AddSelf(Bits(a));
    assert a ^ b == 0;
  }

  lemma TakenIs(r: bv8, on: bool, b: bv8)
    ensures Bits(Taken(r, on, b)) == Horner(Bits(r), on, Bits(b))
  {
    hide Bits, Shifted, Add, Double;
    BitsAdd(Shifted(r), if on then b else 0, Taken(r, on, b));
    ShiftedIs(r);
    BitsZero(0);
  }

  lemma ShiftedIs(r: bv8)
    ensures Bits(Shifted(r)) == Double(Bits(r))
  {
  }

  lemma BitsHas(a: bv8)
    ensures var v := Bits(a);
      v.b7 == Has(a, 0x80) && v.b6 == Has(a, 0x40) && v.b5 == Has(a, 0x20) && v.b4 == Has(a, 0x10) &&
      v.b3 == Has(a, 8) && v.b2 == Has(a, 4) && v.b1 == Has(a, 2) && v.b0 == Has(a, 1)
  {
    hide Has;
  }

  lemma UpperIs(a: bv8, b: bv8)
    ensures Bits(Upper(a, b)) == High(Bits(a), ZERO, Bits(b))
  {
    BitsZero(0);
    BitsHas(a);
    hide Taken, Horner, Has, Bits;
    var r7 := Taken(0, Has(a, 0x80), b);
    var r6 := Taken(r7, Has(a, 0x40), b);
    var r5 := Taken(r6, Has(a, 0x20), b);
    TakenIs(0, Has(a, 0x80), b);
    TakenIs(r7, Has(a, 0x40), b);
    TakenIs(r6, Has(a, 0x20), b);
    TakenIs(r5, Has(a, 0x10), b);
  }

  lemma ProductIs(a: bv8, b: bv8)
    ensures Bits(Product(a, b)) == Mul(Bits(a), Bits(b))
  {
    hide Taken, Horner, Has, Bits, Upper, High, Mul;
    MulIs(Bits(a), Bits(b));
    UpperIs(a, b);
    BitsHas(a);
    var r4 := Upper(a, b);
    var r3 := Taken(r4, Has(a, 8), b);
    var r2 := Taken(r3, Has(a, 4), b);
    var r1 := Taken(r2, Has(a, 2), b);
    TakenIs(r4, Has(a, 8), b);
    TakenIs(r3, Has(a, 4), b);
    TakenIs(r2, Has(a, 2), b);
    TakenIs(r1, Has(a, 1), b);
  }

  // ----- the points -----

  function Small(x: nat): bv8 { if x == 0 then 0 else if x == 1 then 1 else if x == 2 then 2 else 3 }

  function Base(g: nat): bv8
    requires g < 64
  {
    (g as bv8) << 2
  }

  /** A number below 256 as a word. */
  function Word(s: nat): bv8
    requires s < 256
  {
    Base(s / 4) ^ Small(s % 4)
  }

  lemma ThereAndBack(s: nat)
    requires s < 64
    ensures (s as bv8) as nat == s
  {
  }

  lemma Below(s: nat)
    requires s < 64
    ensures (s as bv8) < 64
  {
  }

  lemma Parts(g: bv8, x: bv8)
    requires g < 64 && x < 4
    ensures ((g << 2) ^ x) >> 2 == g && ((g << 2) ^ x) & 3 == x
  {
  }

  lemma WordSame(s: nat, t: nat)
    requires s < 256 && t < 256 && Word(s) == Word(t)
    ensures s == t
  {
    var g, h := s / 4, t / 4;
    Below(g);
    Below(h);
    ThereAndBack(g);
    ThereAndBack(h);
    Parts(g as bv8, Small(s % 4));
    Parts(h as bv8, Small(t % 4));
    assert s % 4 == t % 4;
    assert s == 4 * g + s % 4 && t == 4 * h + t % 4;
  }

  // ----- the table -----

  /** Coefficients of four columns. */
  datatype Quad = Quad(c0: bv8, c1: bv8, c2: bv8, c3: bv8) {
    function At(x: nat): bv8 {
      if x == 0 then c0 else if x == 1 then c1 else if x == 2 then c2 else c3
    }
  }

  /** Four columns, the first of them 4 * at: their coefficients in the first and in the last row. A coefficient of the
    * first row times the exclusive or of 100 and the number of its column is the same all over the group, `scale`; in
    * the last row, with 104 for 100, it is 22 times that. */
  datatype Group = Group(at: nat, first: Quad, last: Quad, scale: bv8) {
    predicate Fits() {
      at < 25 && scale != 0 && var base := Base(at);
      Product(first.c0, 0x64 ^ base) == scale && Product(first.c1, 0x65 ^ base) == scale &&
      Product(first.c2, 0x66 ^ base) == scale && Product(first.c3, 0x67 ^ base) == scale &&
      Product(last.c0, 0x68 ^ base) == Product(0x16, scale) && Product(last.c1, 0x69 ^ base) == Product(0x16, scale) &&
      Product(last.c2, 0x6a ^ base) == Product(0x16, scale) && Product(last.c3, 0x6b ^ base) == Product(0x16, scale)
    }
  }

  const C0 := Group(0, Quad(0x20, 0x85, 0x89, 0xdf), Quad(0x3c, 0x66, 0xa8, 0x11), 0x1c)
  const C1 := Group(1, Quad(0xd0, 0x65, 0xb2, 0xf4), Quad(0xcc, 0xfa, 0x41, 0x6f), 0x21)
  const C2 := Group(2, Quad(0x44, 0x56, 0x3f, 0x25), Quad(0x0a, 0x26, 0x39, 0xf6), 0xaf)
  const C3 := Group(3, Quad(0x73, 0x51, 0x48, 0x62), Quad(0xa0, 0xab, 0x97, 0x84), 0xe8)
  const C4 := Group(4, Quad(0x75, 0x74, 0x91, 0x7d), Quad(0x82, 0x69, 0xd4, 0x43), 0xc0)
  const C5 := Group(5, Quad(0xfa, 0xaf, 0x25, 0x9d), Quad(0xb9, 0xdc, 0x1d, 0xfe), 0x41)
  const C6 := Group(6, Quad(0xdf, 0x9b, 0x94, 0xc7), Quad(0xb0, 0xe2, 0x4e, 0x60), 0xa7)
  const C7 := Group(7, Quad(0x53, 0x65, 0xa0, 0x81), Quad(0x08, 0x83, 0x29, 0x24), 0x30)
  const C8 := Group(8, Quad(0xde, 0x07, 0xf8, 0x3f), Quad(0xdb, 0xd8, 0xce, 0x12), 0xc6)
  const C9 := Group(9, Quad(0x09, 0x94, 0xdf, 0x5c), Quad(0x8d, 0x99, 0x4b, 0x3c), 0x7a)
  const C10 := Group(10, Quad(0x7d, 0x3e, 0x24, 0xc5), Quad(0x8b, 0x14, 0x0d, 0x4d), 0x10)
  const C11 := Group(11, Quad(0xd4, 0x7c, 0xf4, 0xfe), Quad(0xa4, 0x60, 0xe0, 0x47), 0xcd)
  const C12 := Group(12, Quad(0x71, 0x7f, 0x2d, 0x46), Quad(0xeb, 0xe8, 0x70, 0x17), 0x8b)
  const C13 := Group(13, Quad(0x43, 0x0e, 0x10, 0x38), Quad(0x20, 0xfd, 0x61, 0x65), 0x49)
  const C14 := Group(14, Quad(0xe6, 0xeb, 0x45, 0x90), Quad(0x45, 0xc2, 0xcc, 0x2f), 0x25)
  const C15 := Group(15, Quad(0x25, 0xc2, 0x08, 0x37), Quad(0xc7, 0xce, 0xb5, 0x65), 0xea)
  const C16 := Group(16, Quad(0xe0, 0x9e, 0xb7, 0x84), Quad(0x0d, 0x74, 0x26, 0x32), 0xf6)
  const C17 := Group(17, Quad(0x55, 0x98, 0x50, 0xd0), Quad(0x39, 0x76, 0x3a, 0x5e), 0x72)
  const C18 := Group(18, Quad(0xf1, 0x15, 0x30, 0xdf), Quad(0x21, 0x20, 0xb5, 0xd9), 0x73)
  const C19 := Group(19, Quad(0xa2, 0x7c, 0x3b, 0xee), Quad(0x75, 0x59, 0xf5, 0xf2), 0x80)
  const C20 := Group(20, Quad(0x6b, 0xaa, 0xc8, 0x20), Quad(0x3d, 0xb4, 0x91, 0x50), 0xae)
  const C21 := Group(21, Quad(0xce, 0xf9, 0x38, 0x26), Quad(0x23, 0xaa, 0x74, 0xf2), 0x84)
  const C22 := Group(22, Quad(0xb7, 0x80, 0x76, 0x2f), Quad(0xae, 0x94, 0x03, 0x71), 0xeb)
  const C23 := Group(23, Quad(0xa5, 0xeb, 0x33, 0x13), Quad(0xcd, 0xf0, 0x97, 0xa5), 0xda)
  const C24 := Group(24, Quad(0x1b, 0x1c, 0x12, 0x14), Quad(0xf5, 0xe8, 0xc4, 0xd8), 0x6c)

  const TABLE: seq<Group> := [
    C0, C1, C2, C3, C4, C5, C6, C7, C8, C9, C10, C11, C12,
    C13, C14, C15, C16, C17, C18, C19, C20, C21, C22, C23, C24]

  /** The coefficients of columns 4 * g to 4 * g + 3. */
  function Columns(g: nat): Group {
    if g < |TABLE| then TABLE[g] else C0
  }

  lemma Fits0()
    ensures C0.Fits() && C1.Fits()
  {
  }

  lemma Fits2()
    ensures C2.Fits() && C3.Fits()
  {
  }

  lemma Fits4()
    ensures C4.Fits() && C5.Fits()
  {
  }

  lemma Fits6()
    ensures C6.Fits() && C7.Fits()
  {
  }

  lemma Fits8()
    ensures C8.Fits() && C9.Fits()
  {
  }

  lemma Fits10()
    ensures C10.Fits() && C11.Fits()
  {
  }

  lemma Fits12()
    ensures C12.Fits() && C13.Fits()
  {
  }

  lemma Fits14()
    ensures C14.Fits() && C15.Fits()
  {
  }

  lemma Fits16()
    ensures C16.Fits() && C17.Fits()
  {
  }

  lemma Fits18()
    ensures C18.Fits() && C19.Fits()
  {
  }

  lemma Fits20()
    ensures C20.Fits() && C21.Fits()
  {
  }

  lemma Fits22()
    ensures C22.Fits() && C23.Fits()
  {
  }

  lemma Fits24()
    ensures C24.Fits()
  {
  }

  lemma LowFit(g: nat)
    requires g < 12
    ensures Columns(g).at == g && Columns(g).Fits()
  {
    hide Group.Fits;
    Fits0();
    Fits2();
    Fits4();
    Fits6();
    Fits8();
    Fits10();
  }

  lemma HighFit(g: nat)
    requires 12 <= g < 25
    ensures Columns(g).at == g && Columns(g).Fits()
  {
    hide Group.Fits;
    Fits12();
    Fits14();
    Fits16();
    Fits18();
    Fits20();
    Fits22();
    Fits24();
  }

  lemma ColumnsFit(g: nat)
    requires g < 25
    ensures Columns(g).at == g && Columns(g).Fits()
  {
    hide *;
    if g < 12 {
      LowFit(g);
    } else {
      HighFit(g);
    }
  }

  /** Exclusive or of numbers below 4. */
  function Xor(a: nat, b: nat): (c: nat)
    requires a < 4 && b < 4
    ensures c < 4
  {
    (if a % 2 == b % 2 then 0 else 1) + if a / 2 == b / 2 then 0 else 2
  }

  /** The coefficient in row i and column j: rows 0 to 3 permute the first row within groups of four columns. */
  function Captured(i: nat, j: nat): Byte {
    if i > 4 || j >= 100 then ZERO
    else Bits(if i < 4 then Columns(j / 4).first.At(Xor(j % 4, i)) else Columns(j / 4).last.At(j % 4))
  }

  ghost function CapturedMatrix(): Matrix {
    seq(5, i requires 0 <= i => seq(100, j requires 0 <= j => Captured(i, j)))
  }

  // ----- the code behind the table -----

  /** The point of a packet is its number. */
  ghost function Points(): Vector {
    seq(105, s requires 0 <= s < 105 => Bits(Word(s)))
  }

  ghost function RowFactors(): Vector { [ONE, ONE, ONE, ONE, Bits(0x16)] }

  ghost function ColumnFactors(): Vector {
    seq(100, j requires 0 <= j < 100 => Bits(Columns(j / 4).scale))
  }

  function Spot(first: bv8, g: nat, x: nat): bv8
    requires g < 64
  {
    first ^ Base(g) ^ Small(x)
  }

  /** The distance of a parity packet and a data packet, as the table has it. */
  function Gap(i: nat, j: nat): bv8
    requires i < 5 && j < 100
  {
    if i < 4 then Spot(0x64, j / 4, Xor(j % 4, i)) else Spot(0x68, j / 4, j % 4)
  }

  /** What a group promises of one of its columns. */
  lemma Fitting(c: Group, g: nat, x: nat)
    requires x < 4 && c.at == g && c.Fits()
    ensures Mul(Bits(c.first.At(x)), Bits(Spot(0x64, g, x))) == Bits(c.scale)
    ensures Mul(Bits(c.last.At(x)), Bits(Spot(0x68, g, x))) == Mul(Bits(0x16), Bits(c.scale))
    ensures Bits(c.scale) != ZERO
  {
    hide Product, Mul, Bits, Base;
    BitsZero(c.scale);
    BitsZero(0);
    ProductIs(c.first.At(x), Spot(0x64, g, x));
    ProductIs(c.last.At(x), Spot(0x68, g, x));
    ProductIs(0x16, c.scale);
    Regroup(Base(g));
  }

  lemma Regroup(b: bv8)
    ensures 0x64 ^ b ^ 0 == 0x64 ^ b && 0x64 ^ b ^ 1 == 0x65 ^ b && 0x64 ^ b ^ 2 == 0x66 ^ b && 0x64 ^ b ^ 3 == 0x67 ^ b
    ensures 0x68 ^ b ^ 0 == 0x68 ^ b && 0x68 ^ b ^ 1 == 0x69 ^ b && 0x68 ^ b ^ 2 == 0x6a ^ b && 0x68 ^ b ^ 3 == 0x6b ^ b
  {
  }

  lemma Distance(i: nat, j: nat)
    requires i < 5 && j < 100
    ensures Word(100 + i) ^ Word(j) == Gap(i, j)
  {
    assert Base(25) == 0x64 && Base(26) == 0x68;
    hide Base;
    assert (100 + i) / 4 == (if i < 4 then 25 else 26) && (100 + i) % 4 == if i < 4 then i else 0;
    var b, y, z := Base(j / 4), Small(j % 4), Small((100 + i) % 4);
    Shuffle(b, y, z);
    assert i < 4 ==> y ^ z == Small(Xor(j % 4, i));
  }

  lemma Shuffle(b: bv8, y: bv8, z: bv8)
    ensures (0x64 ^ z) ^ (b ^ y) == 0x64 ^ b ^ (y ^ z) && (0x68 ^ 0) ^ (b ^ y) == 0x68 ^ b ^ y
  {
  }

  lemma Entry(i: nat, j: nat)
    requires i < 5 && j < 100
    ensures Mul(Captured(i, j), Bits(Gap(i, j))) == Mul(RowFactors()[i], ColumnFactors()[j])
    ensures ColumnFactors()[j] != ZERO
  {
    hide *;
    var c, at := Columns(j / 4), if i < 4 then Xor(j % 4, i) else j % 4;
    ColumnsFit(j / 4);
    CapturedAt(i, j);
    FactorsAt(i, j);
    GapAt(i, j);
    Fitting(c, j / 4, at);
    MulOne(Bits(c.scale));
  }

  lemma CapturedAt(i: nat, j: nat)
    requires i < 5 && j < 100
    ensures Captured(i, j) == Bits(if i < 4 then Columns(j / 4).first.At(Xor(j % 4, i))
      else Columns(j / 4).last.At(j % 4))
  {
    hide Columns, Bits;
  }

  lemma GapAt(i: nat, j: nat)
    requires i < 5 && j < 100
    ensures Gap(i, j) == if i < 4 then Spot(0x64, j / 4, Xor(j % 4, i)) else Spot(0x68, j / 4, j % 4)
  {
  }

  lemma FactorsAt(i: nat, j: nat)
    requires i < 5 && j < 100
    ensures RowFactors()[i] == (if i < 4 then ONE else Bits(0x16)) && ColumnFactors()[j] == Bits(Columns(j / 4).scale)
  {
    hide Columns, Bits;
  }

  lemma PointsDistinct()
    ensures Distinct(Points()) && |Points()| == 105
  {
    hide Bits, Word;
    var p := Points();
    forall s, t | 0 <= s < 105 && 0 <= t < 105 && p[s] == p[t] ensures s == t {
      BitsSame(Word(s), Word(t));
      WordSame(s, t);
    }
  }

  lemma CauchyEntry(i: nat, j: nat)
    requires i < 5 && j < 100
    ensures Mul(CapturedMatrix()[i][j], Add(Points()[100 + i], Points()[j])) == Mul(RowFactors()[i], ColumnFactors()[j])
  {
    hide Captured, Mul, Add, Bits, Word, Gap, RowFactors, ColumnFactors;
    Entry(i, j);
    Distance(i, j);
    BitsAdd(Word(100 + i), Word(j), Gap(i, j));
  }

  /** The captured generator is a Cauchy matrix over the numbers of the packets. */
  lemma CapturedIsCauchy()
    ensures IsCauchy(CapturedMatrix(), 100, 5, Points(), RowFactors(), ColumnFactors())
  {
    hide Captured, Mul, Add, Bits, Word, Columns, Points;
    PointsDistinct();
    BitsZero(0x16);
    var g, p := CapturedMatrix(), Points();
    forall i, j | 0 <= i < 5 && 0 <= j < 100
      ensures Mul(g[i][j], Add(p[100 + i], p[j])) == Mul(RowFactors()[i], ColumnFactors()[j]) {
      CauchyEntry(i, j);
    }
    forall j | 0 <= j < 100 ensures ColumnFactors()[j] != ZERO {
      Entry(0, j);
    }
  }

  /** Any 100 of the 105 packets are enough, and fewer are not. */
  lemma CapturedDecodable(lost: seq<int>)
    requires |lost| == 105
    ensures Decodable(CapturedMatrix(), 100, lost) <==> |Received(lost, 105)| >= 100
  {
    hide *;
    CapturedIsCauchy();
    CauchyDecodable(CapturedMatrix(), 100, 5, Points(), RowFactors(), ColumnFactors(), lost);
  }
}
