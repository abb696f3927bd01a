/** The field GF(256): bytes are polynomials over GF(2), multiplied modulo x^8 + x^4 + x^3 + x^2 + 1. */
module Gf256 {
  /** A byte by its bits: b_i is the coefficient of x^i. */
  datatype Byte = Byte(b7: bool, b6: bool, b5: bool, b4: bool, b3: bool, b2: bool, b1: bool, b0: bool)
  {
    /** The number the byte denotes, for comparisons and table indices. */
    function Value(): (v: nat)
      ensures v < 256
    {
      (if b7 then 128 else 0) + (if b6 then 64 else 0) + (if b5 then 32 else 0) + (if b4 then 16 else 0) +
      (if b3 then 8 else 0) + (if b2 then 4 else 0) + (if b1 then 2 else 0) + (if b0 then 1 else 0)
    }
  }

  const ZERO := Byte(false, false, false, false, false, false, false, false)
  const ONE := Byte(false, false, false, false, false, false, false, true)

  /** The byte that denotes v. */
  function Of(v: nat): (b: Byte)
    requires v < 256
  {
    Byte(v / 128 % 2 == 1, v / 64 % 2 == 1, v / 32 % 2 == 1, v / 16 % 2 == 1,
         v / 8 % 2 == 1, v / 4 % 2 == 1, v / 2 % 2 == 1, v % 2 == 1)
  }

  lemma ValueInjective(a: Byte, b: Byte)
    requires a.Value() == b.Value()
    ensures a == b
  {}

  // ----- addition -----

  /** Sum of polynomials, which is bitwise exclusive or. */
  function Add(a: Byte, b: Byte): Byte {
    Byte(a.b7 != b.b7, a.b6 != b.b6, a.b5 != b.b5, a.b4 != b.b4,
         a.b3 != b.b3, a.b2 != b.b2, a.b1 != b.b1, a.b0 != b.b0)
  }

  lemma AddComm(a: Byte, b: Byte)
    ensures Add(a, b) == Add(b, a)
  {}

  lemma AddAssoc(a: Byte, b: Byte, c: Byte)
    ensures Add(Add(a, b), c) == Add(a, Add(b, c))
  {}

  lemma AddZero(a: Byte)
    ensures Add(a, ZERO) == a && Add(ZERO, a) == a
  {}

  lemma AddSelf(a: Byte)
    ensures Add(a, a) == ZERO
  {}

  lemma AddSwap(a: Byte, b: Byte, c: Byte, d: Byte)
    ensures Add(Add(a, b), Add(c, d)) == Add(Add(a, c), Add(b, d))
  {}

  // ----- multiplication -----

  /** Product by x: shift left, and subtract the modulus when a term in x^8 appears. */
  function Double(a: Byte): Byte {
    Byte(a.b6, a.b5, a.b4, a.b3 != a.b7, a.b2 != a.b7, a.b1 != a.b7, a.b0, a.b7)
  }

  function Scale(on: bool, b: Byte): Byte { if on then b else ZERO }

  /** One step of Horner's rule: r * x + p * b. */
  function Horner(r: Byte, p: bool, b: Byte): Byte { Add(Double(r), Scale(p, b)) }

  function Horner4(r: Byte, p: bool, q: bool, s: bool, t: bool, b: Byte): Byte {
    Horner(Horner(Horner(Horner(r, p, b), q, b), s, b), t, b)
  }

  /** The four high (or low) coefficients of a, as Horner's rule uses them. */
  function High(a: Byte, r: Byte, b: Byte): Byte { Horner4(r, a.b7, a.b6, a.b5, a.b4, b) }

  function Low(a: Byte, r: Byte, b: Byte): Byte { Horner4(r, a.b3, a.b2, a.b1, a.b0, b) }

  /** Horner's rule over all coefficients, the highest first. */
  function Rounds(r: Byte, ps: seq<bool>, b: Byte): Byte
    decreases |ps|
  {
    if ps == [] then r else Rounds(Horner(r, ps[0], b), ps[1..], b)
  }

  /** Product of polynomials modulo x^8 + x^4 + x^3 + x^2 + 1. */
  function Mul(a: Byte, b: Byte): Byte {
    Rounds(ZERO, [a.b7, a.b6, a.b5, a.b4, a.b3, a.b2, a.b1, a.b0], b)
  }

  lemma FourRounds(r: Byte, p: bool, q: bool, s: bool, t: bool, rest: seq<bool>, b: Byte)
    ensures Rounds(r, [p, q, s, t] + rest, b) == Rounds(Horner4(r, p, q, s, t, b), rest, b)
  {
    hide Horner;
    var r1 := Horner(r, p, b);
    var r2 := Horner(r1, q, b);
    OneRound(r, p, [q, s, t] + rest, b);
    OneRound(r1, q, [s, t] + rest, b);
    OneRound(r2, s, [t] + rest, b);
    OneRound(Horner(r2, s, b), t, rest, b);
    assert [p] + ([q, s, t] + rest) == [p, q, s, t] + rest && [q] + ([s, t] + rest) == [q, s, t] + rest;
    assert [s] + ([t] + rest) == [s, t] + rest;
  }

  lemma OneRound(r: Byte, p: bool, rest: seq<bool>, b: Byte)
    ensures Rounds(r, [p] + rest, b) == Rounds(Horner(r, p, b), rest, b)
  {
    hide Horner;
    assert ([p] + rest)[1..] == rest;
  }

  lemma MulIs(a: Byte, b: Byte)
    ensures Mul(a, b) == Low(a, High(a, ZERO, b), b)
  {
    hide Horner4;
    var low := [a.b3, a.b2, a.b1, a.b0];
    assert [a.b7, a.b6, a.b5, a.b4, a.b3, a.b2, a.b1, a.b0] == [a.b7, a.b6, a.b5, a.b4] + low;
    FourRounds(ZERO, a.b7, a.b6, a.b5, a.b4, low, b);
    assert low == low + [];
    FourRounds(High(a, ZERO, b), a.b3, a.b2, a.b1, a.b0, [], b);
  }

  lemma DoubleLinear(a: Byte, b: Byte)
    ensures Double(Add(a, b)) == Add(Double(a), Double(b))
  {}

  lemma ScaleAddLeft(p: bool, q: bool, b: Byte)
    ensures Scale(p != q, b) == Add(Scale(p, b), Scale(q, b))
  {}

  lemma ScaleAddRight(p: bool, b: Byte, c: Byte)
    ensures Scale(p, Add(b, c)) == Add(Scale(p, b), Scale(p, c))
  {}

  lemma HornerAddLeft(r: Byte, s: Byte, o: bool, p: bool, q: bool, b: Byte)
    requires o == (p != q)
    ensures Horner(Add(r, s), o, b) == Add(Horner(r, p, b), Horner(s, q, b))
  {
    hide Add, Double, Scale;
    DoubleLinear(r, s);
    ScaleAddLeft(p, q, b);
    AddSwap(Double(r), Double(s), Scale(p, b), Scale(q, b));
  }

  lemma HornerAddRight(r: Byte, s: Byte, p: bool, b: Byte, c: Byte)
    ensures Horner(Add(r, s), p, Add(b, c)) == Add(Horner(r, p, b), Horner(s, p, c))
  {
    hide Add, Double, Scale;
    DoubleLinear(r, s);
    ScaleAddRight(p, b, c);
    AddSwap(Double(r), Double(s), Scale(p, b), Scale(p, c));
  }

  lemma Horner4AddLeft(r: Byte, r': Byte, s: seq<bool>, p: seq<bool>, q: seq<bool>, b: Byte)
    requires |s| == |p| == |q| == 4
    requires s[0] == (p[0] != q[0]) && s[1] == (p[1] != q[1]) && s[2] == (p[2] != q[2]) && s[3] == (p[3] != q[3])
    ensures Horner4(Add(r, r'), s[0], s[1], s[2], s[3], b)
         == Add(Horner4(r, p[0], p[1], p[2], p[3], b), Horner4(r', q[0], q[1], q[2], q[3], b))
  {
    hide Add, Horner;
    var r1, r1' := Horner(r, p[0], b), Horner(r', q[0], b);
    var r2, r2' := Horner(r1, p[1], b), Horner(r1', q[1], b);
    HornerAddLeft(r, r', s[0], p[0], q[0], b);
    HornerAddLeft(r1, r1', s[1], p[1], q[1], b);
    HornerAddLeft(r2, r2', s[2], p[2], q[2], b);
    HornerAddLeft(Horner(r2, p[2], b), Horner(r2', q[2], b), s[3], p[3], q[3], b);
  }

  lemma BitsOfSum(a: Byte, b: Byte)
    ensures var s := Add(a, b);
            && s.b7 == (a.b7 != b.b7) && s.b6 == (a.b6 != b.b6) && s.b5 == (a.b5 != b.b5) && s.b4 == (a.b4 != b.b4)
            && s.b3 == (a.b3 != b.b3) && s.b2 == (a.b2 != b.b2) && s.b1 == (a.b1 != b.b1) && s.b0 == (a.b0 != b.b0)
  {}

  lemma HighAddLeft(a: Byte, a': Byte, r: Byte, r': Byte, b: Byte)
    ensures High(Add(a, a'), Add(r, r'), b) == Add(High(a, r, b), High(a', r', b))
  {
    hide Add, Horner4;
    BitsOfSum(a, a');
    var s := Add(a, a');
    Horner4AddLeft(r, r', [s.b7, s.b6, s.b5, s.b4], [a.b7, a.b6, a.b5, a.b4], [a'.b7, a'.b6, a'.b5, a'.b4], b);
  }

  lemma LowAddLeft(a: Byte, a': Byte, r: Byte, r': Byte, b: Byte)
    ensures Low(Add(a, a'), Add(r, r'), b) == Add(Low(a, r, b), Low(a', r', b))
  {
    hide Add, Horner4;
    BitsOfSum(a, a');
    var s := Add(a, a');
    Horner4AddLeft(r, r', [s.b3, s.b2, s.b1, s.b0], [a.b3, a.b2, a.b1, a.b0], [a'.b3, a'.b2, a'.b1, a'.b0], b);
  }

  lemma Horner4AddRight(r: Byte, r': Byte, p: bool, q: bool, s: bool, t: bool, b: Byte, c: Byte)
    ensures Horner4(Add(r, r'), p, q, s, t, Add(b, c)) == Add(Horner4(r, p, q, s, t, b), Horner4(r', p, q, s, t, c))
  {
    hide Add, Horner;
    var r1, r1' := Horner(r, p, b), Horner(r', p, c);
    var r2, r2' := Horner(r1, q, b), Horner(r1', q, c);
    HornerAddRight(r, r', p, b, c);
    HornerAddRight(r1, r1', q, b, c);
    HornerAddRight(r2, r2', s, b, c);
    HornerAddRight(Horner(r2, s, b), Horner(r2', s, c), t, b, c);
  }

  lemma MulAddLeft(a: Byte, b: Byte, c: Byte)
    ensures Mul(Add(a, b), c) == Add(Mul(a, c), Mul(b, c))
  {
    MulIs(Add(a, b), c);
    MulIs(a, c);
    MulIs(b, c);
    hide Add, Horner4, Mul;
    AddZero(ZERO);
    HighAddLeft(a, b, ZERO, ZERO, c);
    LowAddLeft(a, b, High(a, ZERO, c), High(b, ZERO, c), c);
  }

  lemma MulAddRight(a: Byte, b: Byte, c: Byte)
    ensures Mul(a, Add(b, c)) == Add(Mul(a, b), Mul(a, c))
  {
    MulIs(a, Add(b, c));
    MulIs(a, b);
    MulIs(a, c);
    hide Add, Horner4, Mul;
    AddZero(ZERO);
    Horner4AddRight(ZERO, ZERO, a.b7, a.b6, a.b5, a.b4, b, c);
    Horner4AddRight(Horner4(ZERO, a.b7, a.b6, a.b5, a.b4, b), Horner4(ZERO, a.b7, a.b6, a.b5, a.b4, c),
                    a.b3, a.b2, a.b1, a.b0, b, c);
  }

  lemma MulZero(a: Byte)
    ensures Mul(a, ZERO) == ZERO && Mul(ZERO, a) == ZERO
  {
    hide Add, Mul;
    MulAddRight(a, ZERO, ZERO);
    MulAddLeft(ZERO, ZERO, a);
    AddSelf(Mul(ZERO, a));
    AddSelf(Mul(a, ZERO));
    AddZero(ZERO);
  }

  const X7 := Byte(true, false, false, false, false, false, false, false)

  lemma HornerPlain(r: Byte, b: Byte)
    ensures Horner4(ZERO, true, false, false, false, b) == Double(Double(Double(b)))
    ensures Horner4(r, false, false, false, false, b) == Double(Double(Double(Double(r))))
    ensures Horner4(ZERO, false, false, false, false, b) == ZERO
    ensures Horner4(ZERO, false, false, false, true, b) == b
    ensures Horner4(r, true, true, false, true, b) == Add(Double(Double(Add(Double(Add(Double(r), b)), b))), b)
  {
    hide Add, Double;
    assert Double(ZERO) == ZERO by { DoubleZero(); }
    AddZero(b);
    AddZero(ZERO);
    AddZero(Double(b));
    AddZero(Double(Double(b)));
    AddZero(Double(Double(Double(b))));
    AddZero(Double(r));
    AddZero(Double(Double(r)));
    AddZero(Double(Double(Double(r))));
    AddZero(Double(Double(Double(Double(r)))));
    AddZero(Double(Add(Double(Add(Double(r), b)), b)));
  }

  lemma DoubleZero()
    ensures Double(ZERO) == ZERO
  {}

  lemma MulX7(b: Byte)
    ensures Mul(X7, b) == Double(Double(Double(Double(Double(Double(Double(b)))))))
  {
    MulIs(X7, b);
    hide Double, Horner4, Mul;
    HornerPlain(Double(Double(Double(b))), b);
  }

  lemma MulOne(b: Byte)
    ensures Mul(ONE, b) == b
  {
    MulIs(ONE, b);
    hide Horner4, Mul;
    HornerPlain(ZERO, b);
  }

  /** The modulus: x^8 = x^4 + x^3 + x^2 + 1. */
  lemma MulX8(b: Byte)
    ensures Mul(Double(X7), b) == Add(Double(Double(Add(Double(Add(Double(b), b)), b))), b)
  {
    assert Double(X7) == Byte(false, false, false, true, true, true, false, true);
    MulIs(Double(X7), b);
    hide Double, Horner4, Add, Mul;
    HornerPlain(b, b);
  }

  lemma ReductionBits(b: Byte)
    ensures var l := Double(Double(Double(Double(Double(Double(Double(Double(b))))))));
            var r := Add(Double(Double(Add(Double(Add(Double(b), b)), b))), b);
            l.b7 == r.b7 && l.b6 == r.b6 && l.b5 == r.b5 && l.b4 == r.b4 &&
            l.b3 == r.b3 && l.b2 == r.b2 && l.b1 == r.b1 && l.b0 == r.b0
  {}

  lemma Reduction(b: Byte)
    ensures Mul(Double(X7), b) == Double(Mul(X7, b))
  {
    hide Mul, Add, Double;
    MulX7(b);
    MulX8(b);
    ReductionBits(b);
  }

  lemma BitsOfDouble(a: Byte)
    ensures !a.b7 ==> Double(a) == Byte(a.b6, a.b5, a.b4, a.b3, a.b2, a.b1, a.b0, false)
  {}

  lemma HornerNone(r: Byte, b: Byte)
    ensures Horner(r, false, b) == Double(r)
  {
    hide Add;
    AddZero(Double(r));
  }

  lemma MulDoubleLow(a: Byte, b: Byte)
    requires !a.b7
    ensures Mul(Double(a), b) == Double(Mul(a, b))
  {
    MulIs(Double(a), b);
    MulIs(a, b);
    hide Add, Horner, Double, Mul;
    BitsOfDouble(a);
    HornerNone(ZERO, b);
    DoubleZero();
    HornerNone(Mul(a, b), b);
  }

  lemma MulDoubleLeft(a: Byte, b: Byte)
    ensures Mul(Double(a), b) == Double(Mul(a, b))
  {
    hide Mul;
    if a.b7 {
      var low := a.(b7 := false);
      SplitTop(a);
      hide Add, Double;
      MulAddLeft(low, X7, b);
      DoubleLinear(low, X7);
      MulAddLeft(Double(low), Double(X7), b);
      MulDoubleLow(low, b);
      Reduction(b);
      DoubleLinear(Mul(low, b), Mul(X7, b));
    } else {
      MulDoubleLow(a, b);
    }
  }

  lemma SplitTop(a: Byte)
    requires a.b7
    ensures a == Add(a.(b7 := false), X7)
  {}

  // ----- powers of x -----

  function Exp(n: nat): Byte {
    if n == 0 then ONE else Double(Exp(n - 1))
  }

  lemma {:induction false} ExpAdd(m: nat, n: nat)
    ensures Mul(Exp(m), Exp(n)) == Exp(m + n)
  {
    hide Mul, Double;
    if m == 0 {
      MulOne(Exp(n));
    } else {
      ExpAdd(m - 1, n);
      MulDoubleLeft(Exp(m - 1), Exp(n));
    }
  }

  /** Multiplication by x^4, bit by bit. */
  function TimesX4(a: Byte): Byte {
    Byte(a.b7 != a.b3, (a.b7 != a.b6) != a.b2, ((a.b7 != a.b6) != a.b5) != a.b1, ((a.b6 != a.b5) != a.b4) != a.b0,
         (a.b7 != a.b5) != a.b4, a.b6 != a.b4, a.b5, a.b4)
  }

  lemma TimesX4Closed(a: Byte)
    ensures TimesX4(a) == Double(Double(Double(Double(a))))
  {
    var l, r := TimesX4(a), Double(Double(Double(Double(a))));
    assert l.b7 == r.b7 && l.b6 == r.b6 && l.b5 == r.b5 && l.b4 == r.b4;
    assert l.b3 == r.b3 && l.b2 == r.b2 && l.b1 == r.b1 && l.b0 == r.b0;
  }

  /** Multiplication by x^8, bit by bit. */
  function TimesX8(a: Byte): Byte {
    Byte((a.b5 != a.b4) != a.b3, (a.b4 != a.b3) != a.b2, ((a.b7 != a.b3) != a.b2) != a.b1,
         ((a.b6 != a.b2) != a.b1) != a.b0, ((a.b4 != a.b3) != a.b1) != a.b0, (((a.b7 != a.b5) != a.b4) != a.b2) != a.b0,
         ((a.b7 != a.b6) != a.b5) != a.b1, ((a.b6 != a.b5) != a.b4) != a.b0)
  }

  lemma TimesX8Closed(a: Byte)
    ensures TimesX8(a) == TimesX4(TimesX4(a))
  {
    var l, r := TimesX8(a), TimesX4(TimesX4(a));
    assert l.b7 == r.b7 && l.b6 == r.b6 && l.b5 == r.b5 && l.b4 == r.b4;
    assert l.b3 == r.b3 && l.b2 == r.b2 && l.b1 == r.b1 && l.b0 == r.b0;
  }

  /** Multiplication by x^17, bit by bit. */
  function TimesX17(a: Byte): Byte {
    Byte((((a.b7 != a.b6) != a.b5) != a.b3) != a.b0, ((a.b6 != a.b5) != a.b4) != a.b2, ((a.b5 != a.b4) != a.b3) != a.b1,
         ((a.b4 != a.b3) != a.b2) != a.b0, ((((a.b7 != a.b6) != a.b5) != a.b2) != a.b1) != a.b0,
         ((a.b7 != a.b4) != a.b3) != a.b1, (a.b7 != a.b5) != a.b2, ((a.b7 != a.b6) != a.b4) != a.b1)
  }

  lemma TimesX17Closed(a: Byte)
    ensures TimesX17(a) == Double(TimesX8(TimesX8(a)))
  {
    var l, r := TimesX17(a), Double(TimesX8(TimesX8(a)));
    assert l.b7 == r.b7 && l.b6 == r.b6 && l.b5 == r.b5 && l.b4 == r.b4;
    assert l.b3 == r.b3 && l.b2 == r.b2 && l.b1 == r.b1 && l.b0 == r.b0;
  }

  lemma ExpX17(n: nat, a: Byte)
    requires Exp(n) == a
    ensures Exp(n + 17) == TimesX17(a)
  {
    hide Double, TimesX4, TimesX8, TimesX17;
    ExpX4(n);
    ExpX4(n + 4);
    ExpX4(n + 8);
    ExpX4(n + 12);
    TimesX8Closed(a);
    TimesX8Closed(TimesX8(a));
    TimesX17Closed(a);
  }

  lemma ExpX4(n: nat)
    ensures Exp(n + 4) == TimesX4(Exp(n))
  {
    hide Double, TimesX4;
    TimesX4Closed(Exp(n));
    assert Exp(n + 2) == Double(Exp(n + 1));
  }

  lemma ExpTwo(n: nat)
    ensures Exp(n + 2) == Double(Double(Exp(n)))
  {
    hide Double;
    assert Exp(n + 2) == Double(Exp(n + 1));
  }

  lemma ExpZero()
    ensures Exp(0) == ONE
  {}

  /** x^255 = 1, but neither x^51 nor x^85 nor x^15 is. */
  lemma ExpPowers(n: nat)
    ensures n == 255 ==> Exp(n) == ONE
    ensures n == 51 || n == 85 || n == 15 ==> Exp(n) != ONE
  {
    hide Exp;
    ExpZero();
    ExpX17(0, Byte(false, false, false, false, false, false, false, true));
    ExpX17(17, Byte(true, false, false, true, true, false, false, false));
    ExpX17(34, Byte(false, true, false, false, true, true, true, false));
    ExpX17(51, Byte(false, false, false, false, true, false, true, false));
    ExpX17(68, Byte(true, false, false, true, true, false, false, true));
    ExpX17(85, Byte(true, true, false, true, false, true, true, false));
    ExpX17(102, Byte(false, true, false, false, false, true, false, false));
    ExpX17(119, Byte(true, false, false, true, false, false, true, true));
    ExpX17(136, Byte(false, true, false, false, true, true, true, true));
    ExpX17(153, Byte(true, false, false, true, false, false, true, false));
    ExpX17(170, Byte(true, true, false, true, false, true, true, true));
    ExpX17(187, Byte(true, true, false, true, true, true, false, false));
    ExpX17(204, Byte(true, true, false, true, true, true, false, true));
    ExpX17(221, Byte(false, true, false, false, false, true, false, true));
    ExpX17(238, Byte(false, false, false, false, true, false, true, true));
    if Exp(15) == ONE {
      assert Exp(17) == Double(Double(ONE)) by { ExpTwo(15); }
      assert false;
    }
  }

  // ----- x generates every nonzero byte -----

  lemma ExpPeriod(n: nat)
    ensures Exp(n + 255) == Exp(n)
  {
    hide Mul, Exp;
    ExpPowers(255);
    ExpAdd(255, n);
    MulOne(Exp(n));
  }

  lemma {:induction false} ExpMod(n: nat)
    ensures Exp(n) == Exp(n % 255)
  {
    if n >= 255 {
      ExpMod(n - 255);
      ExpPeriod(n - 255);
    }
  }

  lemma {:induction false} ExpMultiple(d: nat, q: nat)
    requires Exp(d) == ONE
    ensures Exp(d * q) == ONE
  {
    hide Mul, Exp;
    if q == 0 {
      ExpZero();
    } else {
      ExpMultiple(d, q - 1);
      ExpAdd(d * (q - 1), d);
      MulOne(ONE);
      assert d * q == d * (q - 1) + d;
    }
  }

  /** A proper divisor of 255 divides 85, 51 or 15. */
  lemma ProperDivisor(d: nat, q: nat)
    requires d * q == 255 && q > 1
    ensures (exists k: nat :: d * k == 85) || (exists k: nat :: d * k == 51) || (exists k: nat :: d * k == 15)
  {
    if q % 3 == 0 {
      var k := q / 3;
      assert d * k * 3 == 255;
      assert d * k == 85;
    } else if q % 5 == 0 {
      var k := q / 5;
      assert d * k * 5 == 255;
      assert d * k == 51;
    } else if q % 17 == 0 {
      var k := q / 17;
      assert d * k * 17 == 255;
      assert d * k == 15;
    } else {
      DivisorOf255(d, q);
      assert false;
    }
  }

  lemma ProductBound(d: nat, q: nat, m: nat)
    requires q >= m
    ensures d * q >= d * m
  {}

  lemma DivisorOf255(d: nat, q: nat)
    requires d * q == 255 && q > 1
    ensures q % 3 == 0 || q % 5 == 0 || q % 17 == 0
  {
    if q < 17 {
      assert q == 2 || q == 3 || q == 4 || q == 5 || q == 6 || q == 7 || q == 8 || q == 9 || q == 10 || q == 11
          || q == 12 || q == 13 || q == 14 || q == 15 || q == 16;
    } else {
      ProductBound(d, q, 17);
      assert d == 0 || d == 1 || d == 2 || d == 3 || d == 4 || d == 5 || d == 6 || d == 7 || d == 8 || d == 9
          || d == 10 || d == 11 || d == 12 || d == 13 || d == 14 || d == 15;
    }
  }

  lemma {:induction false} ExpNotOne(d: nat)
    requires 0 < d < 255
    ensures Exp(d) != ONE
  {
    hide Mul, Exp;
    if Exp(d) == ONE {
      var q, s := 255 / d, 255 % d;
      ExpPowers(255);
      ExpPowers(51);
      ExpPowers(85);
      ExpPowers(15);
      ExpMultiple(d, q);
      assert 255 == d * q + s;
      ExpAdd(d * q, s);
      MulOne(Exp(s));
      if s != 0 {
        ExpNotOne(s);
      } else {
        ProperDivisor(d, q);
        if k: nat :| d * k == 85 { ExpMultiple(d, k); }
        else if k: nat :| d * k == 51 { ExpMultiple(d, k); }
        else { var k: nat :| d * k == 15; ExpMultiple(d, k); }
      }
      assert false;
    }
  }

  lemma DoubleInjective(a: Byte, b: Byte)
    requires Double(a) == Double(b)
    ensures a == b
  {
    var l, r := Double(a), Double(b);
    assert l.b0 == r.b0 && l.b1 == r.b1 && l.b2 == r.b2 && l.b3 == r.b3;
    assert l.b4 == r.b4 && l.b5 == r.b5 && l.b6 == r.b6 && l.b7 == r.b7;
  }

  lemma {:induction false} ExpCancel(i: nat, d: nat)
    requires Exp(i) == Exp(i + d)
    ensures Exp(d) == ONE
  {
    hide Double;
    if i != 0 {
      DoubleInjective(Exp(i - 1), Exp(i - 1 + d));
      ExpCancel(i - 1, d);
    }
  }

  lemma ExpDistinct(i: nat, j: nat)
    requires i < j < 255
    ensures Exp(i) != Exp(j)
  {
    hide Exp;
    if Exp(i) == Exp(j) {
      ExpCancel(i, j - i);
      ExpNotOne(j - i);
    }
  }

  lemma {:induction false} ExpNonzero(n: nat)
    ensures Exp(n) != ZERO
  {
    if n != 0 {
      ExpNonzero(n - 1);
      DoubleZero();
      if Exp(n) == ZERO { DoubleInjective(Exp(n - 1), ZERO); }
    }
  }

  /** The numbers of the first n powers of x. */
  ghost function Powers(n: nat): set<nat> {
    set i | 0 <= i < n :: Exp(i).Value()
  }

  lemma {:induction false} PowersSize(n: nat)
    requires n <= 255
    ensures |Powers(n)| == n
  {
    hide Exp;
    if n != 0 {
      PowersSize(n - 1);
      var v := Exp(n - 1).Value();
      assert Powers(n) == Powers(n - 1) + {v};
      if v in Powers(n - 1) {
        var i :| 0 <= i < n - 1 && Exp(i).Value() == v;
        ValueInjective(Exp(i), Exp(n - 1));
        ExpDistinct(i, n - 1);
      }
    }
  }

  lemma {:induction false} RangeSize(s: set<nat>, n: nat)
    requires forall v :: v in s ==> 0 < v <= n
    ensures |s| <= n
    ensures |s| == n ==> forall v :: 0 < v <= n ==> v in s
  {
    if n == 0 {
      assert s == {};
    } else {
      RangeSize(s - {n}, n - 1);
      if n !in s { assert s - {n} == s; }
    }
  }

  lemma ExpSurjective(a: Byte)
    requires a != ZERO
    ensures exists i: nat :: i < 255 && Exp(i) == a
  {
    hide Exp;
    forall v | v in Powers(255) ensures 0 < v <= 255 {
      var i :| 0 <= i < 255 && Exp(i).Value() == v;
      ExpNonzero(i);
      if v == 0 { ValueInjective(Exp(i), ZERO); }
    }
    PowersSize(255);
    RangeSize(Powers(255), 255);
    if a.Value() == 0 { ValueInjective(a, ZERO); }
    assert a.Value() in Powers(255);
    var i :| 0 <= i < 255 && Exp(i).Value() == a.Value();
    ValueInjective(Exp(i), a);
  }

  // ----- logarithms and the field laws -----

  ghost function Log(a: Byte): (i: nat)
    requires a != ZERO
    ensures i < 255 && Exp(i) == a
  {
    ExpSurjective(a);
    var i: nat :| i < 255 && Exp(i) == a;
    i
  }

  /** How the tables multiply: add the logarithms modulo 255. */
  lemma MulExp(a: Byte, i: nat, b: Byte, j: nat)
    requires a == Exp(i) && b == Exp(j)
    ensures Mul(a, b) == Exp((i + j) % 255)
  {
    hide Mul, Exp;
    ExpAdd(i, j);
    ExpMod(i + j);
  }

  lemma MulNonzero(a: Byte, b: Byte)
    requires a != ZERO && b != ZERO
    ensures Mul(a, b) != ZERO
  {
    hide Mul, Exp;
    ExpAdd(Log(a), Log(b));
    ExpNonzero(Log(a) + Log(b));
  }

  lemma MulComm(a: Byte, b: Byte)
    ensures Mul(a, b) == Mul(b, a)
  {
    hide Mul, Exp;
    if a == ZERO { MulZero(b); }
    else if b == ZERO { MulZero(a); }
    else {
      ExpAdd(Log(a), Log(b));
      ExpAdd(Log(b), Log(a));
    }
  }

  lemma MulAssoc(a: Byte, b: Byte, c: Byte)
    ensures Mul(Mul(a, b), c) == Mul(a, Mul(b, c))
  {
    hide Mul, Exp;
    if a == ZERO || b == ZERO || c == ZERO {
      MulZero(a);
      MulZero(b);
      MulZero(c);
      MulZero(Mul(a, b));
      MulZero(Mul(b, c));
    } else {
      var i, j, k := Log(a), Log(b), Log(c);
      ExpAdd(i, j);
      ExpAdd(i + j, k);
      ExpAdd(j, k);
      ExpAdd(i, j + k);
    }
  }

  /** The inverse of a nonzero byte. */
  ghost function Inv(a: Byte): Byte
    requires a != ZERO
  {
    Exp(255 - Log(a))
  }

  lemma MulInv(a: Byte)
    requires a != ZERO
    ensures Mul(a, Inv(a)) == ONE && Mul(Inv(a), a) == ONE
  {
    hide Mul, Exp;
    ExpAdd(Log(a), 255 - Log(a));
    ExpPowers(255);
    MulComm(a, Inv(a));
  }
}
