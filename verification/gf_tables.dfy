/** The logarithm tables, filled once and used for every product. */
module GfTables {
  import opened Gf256

  const RS_SIZE := 255

  class Tables {
    const exp: array<Byte>
    const log: array<nat>

    /** Every product the tables give is the product of the field. */
    ghost predicate Valid()
      reads exp, log
    {
      exp.Length == 256 && log.Length == 256 && exp[RS_SIZE] == ZERO && log[0] == RS_SIZE &&
      (forall i :: 0 <= i < RS_SIZE ==> exp[i] == Exp(i)) &&
      (forall i {:trigger Exp(i)} :: 0 <= i < RS_SIZE ==> log[Exp(i).Value()] == i)
    }

    constructor ()
      ensures Valid() && fresh(exp) && fresh(log)
    {
      exp := new Byte[256];
      log := new nat[256];
      new;
      FillExp();
      FillLog();
    }

    method FillExp()
      requires exp.Length == 256
      modifies exp
      ensures exp[RS_SIZE] == ZERO && forall i :: 0 <= i < RS_SIZE ==> exp[i] == Exp(i)
    {
      hide Double;
      exp[RS_SIZE] := ZERO;
      var x := ONE;
      for i := 0 to RS_SIZE
        invariant x == Exp(i) && exp[RS_SIZE] == ZERO
        invariant forall k :: 0 <= k < i ==> exp[k] == Exp(k)
      {
        exp[i] := x;
        x := Shifted(x);
        ShiftedIsDouble(exp[i]);
      }
    }

    method FillLog()
      requires exp.Length == 256 && log.Length == 256
      requires exp[RS_SIZE] == ZERO && forall i :: 0 <= i < RS_SIZE ==> exp[i] == Exp(i)
      modifies log
      ensures Valid()
    {
      hide Exp;
      for i := 0 to RS_SIZE + 1
        invariant forall k {:trigger Exp(k)} :: 0 <= k < i && k < RS_SIZE ==> log[Exp(k).Value()] == k
        invariant i == RS_SIZE + 1 ==> log[0] == RS_SIZE
      {
        log[exp[i].Value()] := i;
        forall k | 0 <= k < i ensures k < RS_SIZE && Exp(k).Value() != exp[i].Value() {
          if Exp(k).Value() == exp[i].Value() {
            ValueInjective(Exp(k), exp[i]);
            if i < RS_SIZE { ExpDistinct(k, i); } else { ExpNonzero(k); }
          }
        }
      }
    }

    /** The product of two nonzero bytes: add their logarithms. */
    function Times(a: Byte, b: Byte): Byte
      requires Valid() && a != ZERO && b != ZERO
      reads exp, log
    {
      LogEntry(a);
      LogEntry(b);
      exp[(log[a.Value()] + log[b.Value()]) % RS_SIZE]
    }

    /** The quotient of two nonzero bytes: subtract their logarithms. */
    function Over(a: Byte, p: Byte): Byte
      requires Valid() && a != ZERO && p != ZERO
      reads exp, log
    {
      LogEntry(a);
      LogEntry(p);
      exp[(log[a.Value()] + (RS_SIZE - log[p.Value()])) % RS_SIZE]
    }

    lemma TimesIsMul(a: Byte, b: Byte)
      requires Valid() && a != ZERO && b != ZERO
      ensures Times(a, b) == Mul(a, b)
    {
      hide Mul, Exp;
      LogEntry(a);
      LogEntry(b);
      MulExp(a, Log(a), b, Log(b));
    }

    lemma OverIsMulInv(a: Byte, p: Byte)
      requires Valid() && a != ZERO && p != ZERO
      ensures Over(a, p) == Mul(Inv(p), a)
    {
      hide Mul, Exp;
      LogEntry(a);
      LogEntry(p);
      MulExp(Inv(p), RS_SIZE - Log(p), a, Log(a));
    }

    /** acc + a b, skipping zero factors, which have no logarithm. */
    function Accumulate(acc: Byte, a: Byte, b: Byte): Byte
      requires Valid()
      reads exp, log
    {
      if a != ZERO && b != ZERO then Add(acc, Times(a, b)) else acc
    }

    lemma AccumulateIsAdd(acc: Byte, a: Byte, b: Byte)
      requires Valid()
      ensures Accumulate(acc, a, b) == Add(acc, Mul(a, b))
    {
      hide Mul, Add, Times;
      if a != ZERO && b != ZERO {
        TimesIsMul(a, b);
      } else {
        MulZero(a);
        MulZero(b);
        AddZero(acc);
      }
    }

    lemma LogEntry(a: Byte)
      requires Valid() && a != ZERO
      ensures log[a.Value()] == Log(a) < RS_SIZE
    {
      hide Exp;
      assert Exp(Log(a)) == a;
    }
  }

  /** Shift left by one; when a ninth bit appears, drop it and add x^4 + x^3 + x^2 + 1. */
  function Shifted(x: Byte): Byte {
    var y := Byte(x.b6, x.b5, x.b4, x.b3, x.b2, x.b1, x.b0, false);
    if x.b7 then Add(y, Byte(false, false, false, true, true, true, false, true)) else y
  }

  lemma ShiftedIsDouble(x: Byte)
    ensures Shifted(x) == Double(x)
  {
    var l, r := Shifted(x), Double(x);
    assert l.b7 == r.b7 && l.b6 == r.b6 && l.b5 == r.b5 && l.b4 == r.b4;
    assert l.b3 == r.b3 && l.b2 == r.b2 && l.b1 == r.b1 && l.b0 == r.b0;
  }
}
