/** Streaming decoder for the chunked transfer coding of section 7.1 of RFC 9112. */
module ChunkedDecoder {
  type Octet = x: int | 0 <= x < 256

  const MAX_SIZE_LINE := 4096
  const MAX_TRAILER_SIZE := 8192
  const UINT64_MAX := 0xFFFF_FFFF_FFFF_FFFF

  const CR: Octet := 13
  const LF: Octet := 10
  const TAB: Octet := 9
  const SEMICOLON: Octet := 59
  const DEL: Octet := 127

  datatype State =
    Size | Extension | SizeLf | Data | DataCr | DataLf | TrailerStart | Trailer | TrailerLf | TrailerEndLf | Done |
    Error

  datatype Result = DecodeError | NeedMore | DecodeDone

  /** The decoder's fields. */
  datatype Fields = Fields(state: State, chunkSize: nat, chunkRemaining: nat, sizeLineLength: nat,
                           trailerSize: nat, sawSizeDigit: bool)

  const INITIAL := Fields(Size, 0, 0, 0, 0, false)

  function HexValue(ch: Octet): int {
    if 48 <= ch <= 57 then ch - 48
    else if 97 <= ch <= 102 then ch - 97 + 10
    else if 65 <= ch <= 70 then ch - 65 + 10
    else -1
  }

  predicate IsHex(ch: Octet) { HexValue(ch) >= 0 }

  // ----- one byte at a time -----

  function Fail(f: Fields): Fields { f.(state := Error) }

  /** The decoder's fields after one more byte. */
  function Step(f: Fields, ch: Octet): Fields {
    match f.state
    case Size =>
      var g := f.(sizeLineLength := f.sizeLineLength + 1);
      if g.sizeLineLength > MAX_SIZE_LINE then Fail(g)
      else if IsHex(ch) then
        if f.chunkSize * 16 + HexValue(ch) > UINT64_MAX then Fail(g)
        else g.(chunkSize := f.chunkSize * 16 + HexValue(ch), sawSizeDigit := true)
      else if ch == SEMICOLON && f.sawSizeDigit then g.(state := Extension)
      else if ch == CR && f.sawSizeDigit then g.(state := SizeLf)
      else Fail(g)
    case Extension =>
      var g := f.(sizeLineLength := f.sizeLineLength + 1);
      if g.sizeLineLength > MAX_SIZE_LINE then Fail(g)
      else if ch == CR then g.(state := SizeLf)
      else if ExtensionByte(ch) then g
      else Fail(g)
    case SizeLf =>
      if ch != LF then Fail(f)
      else f.(chunkRemaining := f.chunkSize, state := if f.chunkSize == 0 then TrailerStart else Data)
    case Data =>
      if f.chunkRemaining <= 1 then f.(chunkRemaining := 0, state := DataCr)
      else f.(chunkRemaining := f.chunkRemaining - 1)
    case DataCr => if ch != CR then Fail(f) else f.(state := DataLf)
    case DataLf =>
      if ch != LF then Fail(f)
      else f.(state := Size, chunkSize := 0, sizeLineLength := 0, sawSizeDigit := false)
    case TrailerStart =>
      var g := f.(trailerSize := f.trailerSize + 1);
      if g.trailerSize > MAX_TRAILER_SIZE then Fail(g)
      else if ch == CR then g.(state := TrailerEndLf)
      else if ch == LF then Fail(g)
      else g.(state := Trailer)
    case Trailer =>
      var g := f.(trailerSize := f.trailerSize + 1);
      if g.trailerSize > MAX_TRAILER_SIZE then Fail(g)
      else if ch == CR then g.(state := TrailerLf)
      else if ch == LF then Fail(g)
      else g
    case TrailerLf =>
      var g := f.(trailerSize := f.trailerSize + 1);
      if g.trailerSize > MAX_TRAILER_SIZE || ch != LF then Fail(g) else g.(state := TrailerStart)
    case TrailerEndLf =>
      var g := f.(trailerSize := f.trailerSize + 1);
      if g.trailerSize > MAX_TRAILER_SIZE || ch != LF then Fail(g) else g.(state := Done)
    case Done => Fail(f)
    case Error => f
  }

  /** Visible characters, blanks and bytes above the ASCII range. */
  predicate ExtensionByte(ch: Octet) { ch != LF && ch != CR && (ch >= 32 || ch == TAB) && ch != DEL }

  /** The decoder's fields after a whole input. */
  ghost function Run(f: Fields, input: seq<Octet>): Fields {
    if input == [] then f else Step(Run(f, input[..|input| - 1]), input[|input| - 1])
  }

  /** The data bytes passed on along the way. */
  ghost function Output(f: Fields, input: seq<Octet>): seq<Octet> {
    if input == [] then []
    else
      var n := |input| - 1;
      Output(f, input[..n]) + if Run(f, input[..n]).state == Data then [input[n]] else []
  }

  function ResultOf(s: State): Result {
    if s == Error then DecodeError else if s == Done then DecodeDone else NeedMore
  }

  /** In the data state some data is still to come. */
  ghost predicate Good(f: Fields) {
    f.state == Data ==> f.chunkRemaining > 0
  }

  // ----- cutting the input into pieces -----

  lemma {:induction false} RunConcat(f: Fields, a: seq<Octet>, b: seq<Octet>)
    ensures Run(f, a + b) == Run(Run(f, a), b)
    ensures Output(f, a + b) == Output(f, a) + Output(Run(f, a), b)
  {
    hide Step;
    if b == [] {
      assert a + b == a;
    } else {
      var n := |b| - 1;
      RunConcat(f, a, b[..n]);
      assert (a + b)[..|a + b| - 1] == a + b[..n];
      assert Output(f, a) + Output(Run(f, a), b) ==
             Output(f, a) + Output(Run(f, a), b[..n]) + if Run(Run(f, a), b[..n]).state == Data then [b[n]] else [];
    }
  }

  lemma RunOne(f: Fields, ch: Octet)
    ensures Run(f, [ch]) == Step(f, ch) && Output(f, [ch]) == if f.state == Data then [ch] else []
  {
    hide Step;
    assert [ch][..0] == [];
  }

  lemma RunCons(f: Fields, ch: Octet, rest: seq<Octet>)
    ensures Run(f, [ch] + rest) == Run(Step(f, ch), rest)
    ensures Output(f, [ch] + rest) == (if f.state == Data then [ch] else []) + Output(Step(f, ch), rest)
  {
    hide Step, Run, Output;
    RunConcat(f, [ch], rest);
    RunOne(f, ch);
  }

  lemma RunSnoc(f: Fields, input: seq<Octet>, n: nat)
    requires n < |input|
    ensures Run(f, input[..n + 1]) == Step(Run(f, input[..n]), input[n])
    ensures Run(f, input[..n]).state != Data ==> Output(f, input[..n + 1]) == Output(f, input[..n])
  {
    hide Step;
    assert input[..n + 1][..n] == input[..n];
  }

  lemma RunNothing(f: Fields)
    ensures Run(f, []) == f && Output(f, []) == []
  {}

  ghost function Flatten(pieces: seq<seq<Octet>>): seq<Octet> {
    if pieces == [] then [] else Flatten(pieces[..|pieces| - 1]) + pieces[|pieces| - 1]
  }

  /** Fields after feeding the pieces one call after another. */
  ghost function FeedAll(f: Fields, pieces: seq<seq<Octet>>): Fields {
    if pieces == [] then f else Run(FeedAll(f, pieces[..|pieces| - 1]), pieces[|pieces| - 1])
  }

  ghost function EmitAll(f: Fields, pieces: seq<seq<Octet>>): seq<Octet> {
    if pieces == [] then []
    else
      var n := |pieces| - 1;
      EmitAll(f, pieces[..n]) + Output(FeedAll(f, pieces[..n]), pieces[n])
  }

  /** However the input is cut up, the fields, and so the last result, and the data are those of a single call. */
  lemma {:induction false} SplitInvariance(f: Fields, pieces: seq<seq<Octet>>)
    ensures FeedAll(f, pieces) == Run(f, Flatten(pieces))
    ensures EmitAll(f, pieces) == Output(f, Flatten(pieces))
  {
    hide Step;
    if pieces != [] {
      var n := |pieces| - 1;
      SplitInvariance(f, pieces[..n]);
      RunConcat(f, Flatten(pieces[..n]), pieces[n]);
    }
  }

  lemma {:induction false} RunGood(f: Fields, input: seq<Octet>)
    requires Good(f)
    ensures Good(Run(f, input))
  {
    if input != [] { RunGood(f, input[..|input| - 1]); }
  }

  lemma {:induction false} RunError(f: Fields, input: seq<Octet>)
    requires f.state == Error
    ensures Run(f, input) == f && Output(f, input) == []
  {
    if input != [] { RunError(f, input[..|input| - 1]); }
  }

  /** Whole stretches of chunk data at once. */
  lemma {:induction false} RunData(f: Fields, data: seq<Octet>)
    requires f.state == Data && |data| <= f.chunkRemaining && f.chunkRemaining > 0
    ensures Run(f, data) == f.(chunkRemaining := f.chunkRemaining - |data|,
                               state := if |data| == f.chunkRemaining then DataCr else Data)
    ensures Output(f, data) == data
  {
    if data != [] {
      var n := |data| - 1;
      RunData(f, data[..n]);
      assert data == data[..n] + [data[n]];
    }
  }

  // ----- the decoder -----

  class Decoder {
    var state: State
    var chunkSize: nat
    var chunkRemaining: nat
    var sizeLineLength: nat
    var trailerSize: nat
    var sawSizeDigit: bool

    ghost function View(): Fields
      reads this
    {
      Fields(state, chunkSize, chunkRemaining, sizeLineLength, trailerSize, sawSizeDigit)
    }

    constructor ()
      ensures View() == INITIAL
    {
      state, chunkSize, chunkRemaining, sizeLineLength, trailerSize, sawSizeDigit := Size, 0, 0, 0, 0, false;
    }

    /**
     * Feed one piece of input. The fields advance as by single steps; emitted is the data handed on,
     * and consumed is how much was accepted before an error.
     */
    method Feed(input: seq<Octet>) returns (result: Result, consumed: nat, emitted: seq<Octet>)
      requires Good(View())
      modifies this
      ensures View() == Run(old(View()), input) && Good(View())
      ensures emitted == Output(old(View()), input)
      ensures result == ResultOf(state)
      ensures (result == DecodeDone <==> state == Done) && (result == DecodeError <==> state == Error)
      ensures result != DecodeError ==> consumed == |input|
      ensures old(state) == Error ==> consumed == 0
      ensures result == DecodeError && old(state) != Error ==>
                consumed < |input| && Run(old(View()), input[..consumed]).state != Error
                && Run(old(View()), input[..consumed + 1]).state == Error
    {
      hide Run, Output, Step;
      consumed, emitted := 0, [];
      ghost var start := View();
      RunNothing(start);
      if state == Error {
        RunError(start, input);
        return DecodeError, 0, [];
      }
      if state == Done {
        if input == [] {
          return DecodeDone, 0, [];
        }
        DoneFails(start, input, 0);
        state := Error;
        return DecodeError, 0, [];
      }
      while consumed < |input|
        invariant 0 <= consumed <= |input|
        invariant View() == Run(start, input[..consumed]) && Good(View()) && state != Error && state != Done
        invariant emitted == Output(start, input[..consumed])
        decreases |input| - consumed
      {
        if state == Data {
          ghost var before := View();
          var piece := TakeData(input[consumed..]);
          RunConcat(start, input[..consumed], piece);
          assert input[..consumed + |piece|] == input[..consumed] + piece;
          emitted := emitted + piece;
          consumed := consumed + |piece|;
        } else {
          RunSnoc(start, input, consumed);
          Advance(input[consumed]);
          if state == Error {
            AfterError(start, input, consumed);
            return DecodeError, consumed, emitted;
          }
          StepGood(Run(start, input[..consumed]), input[consumed]);
          consumed := consumed + 1;
          if state == Done {
            assert input[..|input|] == input;
            if consumed != |input| {
              DoneFails(start, input, consumed);
              state := Error;
              return DecodeError, consumed, emitted;
            }
            return DecodeDone, consumed, emitted;
          }
        }
      }
      assert input[..|input|] == input;
      result := NeedMore;
    }

    /** Take as much chunk data as there is, up to the end of the chunk. */
    method TakeData(rest: seq<Octet>) returns (piece: seq<Octet>)
      requires state == Data && chunkRemaining > 0 && rest != []
      modifies this
      ensures 0 < |piece| <= |rest| && piece == rest[..|piece|]
      ensures View() == Run(old(View()), piece) && piece == Output(old(View()), piece)
      ensures Good(View()) && state != Error && state != Done
    {
      var emitLen := if chunkRemaining < |rest| then chunkRemaining else |rest|;
      piece := rest[..emitLen];
      RunData(View(), piece);
      hide Run, Output;
      chunkRemaining := chunkRemaining - emitLen;
      if chunkRemaining == 0 {
        state := DataCr;
      }
    }

    /** What the decoder does with one byte that is not chunk data. */
    method Advance(ch: Octet)
      requires state != Data && state != Done && state != Error
      modifies this
      ensures View() == Step(old(View()), ch)
    {
      match state {
        case Size =>
          sizeLineLength := sizeLineLength + 1;
          if sizeLineLength > MAX_SIZE_LINE { state := Error; return; }
          var digit := HexValue(ch);
          if digit >= 0 {
            if chunkSize > (UINT64_MAX - digit) / 16 { state := Error; return; }
            chunkSize := chunkSize * 16 + digit;
            sawSizeDigit := true;
          } else if ch == SEMICOLON && sawSizeDigit {
            state := Extension;
          } else if ch == CR && sawSizeDigit {
            state := SizeLf;
          } else {
            state := Error;
          }
        case Extension =>
          sizeLineLength := sizeLineLength + 1;
          if sizeLineLength > MAX_SIZE_LINE { state := Error; return; }
          if ch == CR {
            state := SizeLf;
          } else if ch == LF || (ch < 32 && ch != TAB) || ch == DEL {
            state := Error;
          }
        case SizeLf =>
          if ch != LF { state := Error; return; }
          chunkRemaining := chunkSize;
          state := if chunkSize == 0 then TrailerStart else Data;
        case DataCr =>
          state := if ch != CR then Error else DataLf;
        case DataLf =>
          if ch != LF { state := Error; return; }
          state := Size;
          chunkSize, sizeLineLength, sawSizeDigit := 0, 0, false;
        case TrailerStart =>
          trailerSize := trailerSize + 1;
          if trailerSize > MAX_TRAILER_SIZE { state := Error; return; }
          state := if ch == CR then TrailerEndLf else if ch == LF then Error else Trailer;
        case Trailer =>
          trailerSize := trailerSize + 1;
          if trailerSize > MAX_TRAILER_SIZE { state := Error; return; }
          if ch == CR {
            state := TrailerLf;
          } else if ch == LF {
            state := Error;
          }
        case TrailerLf =>
          trailerSize := trailerSize + 1;
          state := if trailerSize > MAX_TRAILER_SIZE || ch != LF then Error else TrailerStart;
        case TrailerEndLf =>
          trailerSize := trailerSize + 1;
          state := if trailerSize > MAX_TRAILER_SIZE || ch != LF then Error else Done;
      }
    }

    /** The input is over: only a complete message is a success. */
    method Finish() returns (result: Result)
      modifies this
      ensures result == if old(state) == Done then DecodeDone else DecodeError
      ensures View() == if old(state) == Done then old(View()) else old(View()).(state := Error)
    {
      if state == Error { return DecodeError; }
      if state == Done { return DecodeDone; }
      state := Error;
      result := DecodeError;
    }
  }

  lemma StepGood(f: Fields, ch: Octet)
    requires Good(f)
    ensures Good(Step(f, ch))
  {}

  /** Once byte number n has caused an error, nothing after it matters. */
  lemma AfterError(f: Fields, input: seq<Octet>, n: nat)
    requires n < |input| && Step(Run(f, input[..n]), input[n]).state == Error && Run(f, input[..n]).state != Data
    ensures Run(f, input) == Step(Run(f, input[..n]), input[n]) && Output(f, input) == Output(f, input[..n])
    ensures Run(f, input[..n + 1]).state == Error
  {
    hide Step, Run, Output;
    assert input == input[..n + 1] + input[n + 1..];
    RunConcat(f, input[..n + 1], input[n + 1..]);
    RunSnoc(f, input, n);
    RunError(Run(f, input[..n + 1]), input[n + 1..]);
  }

  /** Any byte after the end of the message is an error. */
  lemma DoneFails(f: Fields, input: seq<Octet>, n: nat)
    requires n < |input| && Run(f, input[..n]).state == Done
    ensures Run(f, input) == Run(f, input[..n]).(state := Error) && Output(f, input) == Output(f, input[..n])
    ensures Run(f, input[..n + 1]).state == Error
  {
    hide Run, Output;
    AfterError(f, input, n);
  }
}
