/** The sizes of chunks as they are written: which number hexadecimal digits stand for, and how a body is encoded. */
module ChunkedHex {
  import opened ChunkedDecoder
  import opened ChunkedGrammar
  import opened Sequences

  const LOWER := "0123456789abcdef"
  const UPPER := "0123456789ABCDEF"

  /** The digit for a number below 16, in either case. */
  function Digit(d: nat, upper: bool): Octet
    requires d < 16
  {
    (if upper then UPPER[d] else LOWER[d]) as int
  }

  /** A byte is read as the number whose digit it is, in either case, and as no digit when it is none of these. */
  lemma HexExactly(ch: Octet, d: nat)
    requires d < 16
    ensures HexValue(ch) == d <==> ch == Digit(d, false) || ch == Digit(d, true)
    ensures IsHex(ch) <==> exists e: nat :: e < 16 && (ch == Digit(e, false) || ch == Digit(e, true))
  {
    if IsHex(ch) {
      ReadAs(ch);
    }
    hide Digit;
    forall e: nat | e < 16 ensures HexValue(Digit(e, false)) == HexValue(Digit(e, true)) == e {
      WrittenAs(e, false);
      WrittenAs(e, true);
    }
  }

  lemma ReadAs(ch: Octet)
    requires IsHex(ch)
    ensures var d := HexValue(ch); 0 <= d < 16 && (ch == Digit(d, false) || ch == Digit(d, true))
  {
  }

  lemma WrittenAs(d: nat, upper: bool)
    requires d < 16
    ensures HexValue(Digit(d, upper)) == d
  {
  }

  // ----- numbers -----

  ghost function Rest(upper: nat -> bool): nat -> bool {
    (k: nat) => upper(k + 1)
  }

  /** A number in hexadecimal; `upper` chooses the case of each digit, counted from the last one. */
  ghost function HexOf(n: nat, upper: nat -> bool): (digits: seq<Octet>)
    ensures digits != []
  {
    (if n < 16 then [] else HexOf(n / 16, Rest(upper))) + [Digit(n % 16, upper(0))]
  }

  ghost predicate AllHex(digits: seq<Octet>) {
    forall i :: 0 <= i < |digits| ==> IsHex(digits[i])
  }

  lemma {:induction false} NumberSnoc(v: nat, digits: seq<Octet>, ch: Octet)
    requires AllHex(digits) && IsHex(ch)
    ensures AllHex(digits + [ch]) && NumberFrom(v, digits + [ch]) == NumberFrom(v, digits) * 16 + HexValue(ch)
    decreases |digits|
  {
    if digits != [] {
      NumberSnoc(v * 16 + HexValue(digits[0]), digits[1..], ch);
      assert (digits + [ch])[1..] == digits[1..] + [ch];
    }
  }

  /** What is written is read as the number it stands for. */
  lemma {:induction false} HexRead(n: nat, upper: nat -> bool)
    ensures AllHex(HexOf(n, upper)) && NumberFrom(0, HexOf(n, upper)) == n
    decreases n
  {
    WrittenAs(n % 16, upper(0));
    hide Digit, HexValue;
    var front := if n < 16 then [] else HexOf(n / 16, Rest(upper));
    if n >= 16 {
      HexRead(n / 16, Rest(upper));
    }
    NumberSnoc(0, front, Digit(n % 16, upper(0)));
  }

  ghost function Power(k: nat): nat {
    if k == 0 then 1 else 16 * Power(k - 1)
  }

  lemma {:induction false} HexShort(n: nat, upper: nat -> bool, k: nat)
    requires 0 < k && n < Power(k)
    ensures |HexOf(n, upper)| <= k
    decreases k
  {
    hide Digit;
    if n >= 16 {
      HexShort(n / 16, Rest(upper), k - 1);
    }
  }

  lemma SixteenDigits()
    ensures Power(16) == UINT64_MAX + 1
  {
    assert Power(8) == 0x1_0000_0000;
  }

  // ----- a body in chunks -----

  /** One chunk with its size in front. */
  ghost function Encoded(data: seq<Octet>, upper: nat -> bool): seq<Octet> {
    HexOf(|data|, upper) + [CR, LF] + data + [CR, LF]
  }

  ghost function EncodedAll(pieces: seq<seq<Octet>>, upper: nat -> bool): seq<Octet> {
    if pieces == [] then [] else Encoded(pieces[0], upper) + EncodedAll(pieces[1..], upper)
  }

  /** A body in chunks, and the chunk of size zero that ends it. */
  ghost function EncodedBody(pieces: seq<seq<Octet>>, upper: nat -> bool): seq<Octet> {
    EncodedAll(pieces, upper) + [Digit(0, false), CR, LF, CR, LF]
  }

  /** The chunks an encoded body consists of. */
  ghost function Chunks(pieces: seq<seq<Octet>>, upper: nat -> bool): seq<Chunk> {
    seq(|pieces|, i requires 0 <= i < |pieces| => Chunk(SizeLine(HexOf(|pieces[i]|, upper), None), pieces[i]))
  }

  lemma ChunkValid(data: seq<Octet>, upper: nat -> bool)
    requires 0 < |data| <= UINT64_MAX
    ensures var c := Chunk(SizeLine(HexOf(|data|, upper), None), data); c.Valid() && c.Bytes() == Encoded(data, upper)
  {
    hide HexOf, NumberFrom, SizeLine.Valid;
    SizeValid(|data|, upper);
    Regrouped(HexOf(|data|, upper), data);
  }

  lemma Regrouped(digits: seq<Octet>, data: seq<Octet>)
    ensures digits + [CR, LF] + (data + [CR, LF]) == digits + [CR, LF] + data + [CR, LF]
  {
  }

  lemma SizeValid(n: nat, upper: nat -> bool)
    requires n <= UINT64_MAX
    ensures var line := SizeLine(HexOf(n, upper), None); line.Valid() && NumberFrom(0, line.digits) == n
  {
    hide HexOf, NumberFrom, Power, IsHex;
    HexRead(n, upper);
    SixteenDigits();
    HexShort(n, upper, 16);
  }

  lemma {:induction false} ChunksAre(pieces: seq<seq<Octet>>, upper: nat -> bool)
    requires forall i :: 0 <= i < |pieces| ==> 0 < |pieces[i]| <= UINT64_MAX
    ensures ChunkBytes(Chunks(pieces, upper)) == EncodedAll(pieces, upper)
    ensures forall i :: 0 <= i < |pieces| ==> Chunks(pieces, upper)[i].Valid()
    decreases |pieces|
  {
    hide HexOf, Chunk.Valid, Chunk.Bytes, Encoded;
    if pieces != [] {
      var data := pieces[0];
      ChunkValid(data, upper);
      ChunksAre(pieces[1..], upper);
      assert Chunks(pieces, upper)[1..] == Chunks(pieces[1..], upper);
      forall i | 0 < i < |pieces| ensures Chunks(pieces, upper)[i].Valid() {
        assert Chunks(pieces, upper)[i] == Chunks(pieces[1..], upper)[i - 1];
      }
    }
  }

  lemma {:induction false} BodiesAre(pieces: seq<seq<Octet>>, upper: nat -> bool)
    ensures Bodies(Chunks(pieces, upper)) == Flatten(pieces)
    decreases |pieces|
  {
    hide HexOf;
    if pieces != [] {
      BodiesAre(pieces[1..], upper);
      assert Chunks(pieces, upper)[1..] == Chunks(pieces[1..], upper);
      FlattenCons(pieces);
    }
  }

  lemma {:induction false} FlattenCons(pieces: seq<seq<Octet>>)
    requires pieces != []
    ensures Flatten(pieces) == pieces[0] + Flatten(pieces[1..])
    decreases |pieces|
  {
    var n := |pieces| - 1;
    if n > 0 {
      FlattenCons(pieces[..n]);
      assert pieces[..n][1..] == pieces[1..][..n - 1];
    }
  }

  lemma EncodedIs(pieces: seq<seq<Octet>>, upper: nat -> bool)
    requires forall i :: 0 <= i < |pieces| ==> 0 < |pieces[i]| <= UINT64_MAX
    ensures var msg := Message(Chunks(pieces, upper), SizeLine([Digit(0, false)], None), []);
      msg.Valid() && msg.Bytes() == EncodedBody(pieces, upper) && msg.Body() == Flatten(pieces)
  {
    hide HexOf, Chunk.Valid, Encoded;
    ChunksAre(pieces, upper);
    BodiesAre(pieces, upper);
    WrittenAs(0, false);
    var last := SizeLine([Digit(0, false)], None);
    assert NumberFrom(0, last.digits) == 0;
    assert last.Bytes() + [CR, LF] + TrailerBytes([]) == [Digit(0, false), CR, LF, CR, LF];
  }

  /** A body cut into chunks and written with their sizes in hexadecimal is decoded to that body, in however many pieces
    * it comes in. */
  lemma EncodedDecodes(pieces: seq<seq<Octet>>, upper: nat -> bool, arriving: seq<seq<Octet>>)
    requires forall i :: 0 <= i < |pieces| ==> 0 < |pieces[i]| <= UINT64_MAX
    requires Flatten(arriving) == EncodedBody(pieces, upper)
    ensures FeedAll(INITIAL, arriving).state == Done && EmitAll(INITIAL, arriving) == Flatten(pieces)
  {
    hide *;
    EncodedIs(pieces, upper);
    DecodesInPieces(Message(Chunks(pieces, upper), SizeLine([Digit(0, false)], None), []), arriving);
  }
}
