/** The language the decoder accepts: chunked messages with the decoder's own limits, in which an extension is any run
  * of printable bytes after a semicolon that follows the digits at once. */
module ChunkedGrammar {
  import opened ChunkedDecoder
  import opened Sequences

  /** chunk-size [ chunk-ext ] */
  datatype SizeLine = SizeLine(digits: seq<Octet>, extension: Option<seq<Octet>>)
  {
    ghost function Bytes(): seq<Octet> {
      match extension
      case None => digits
      case Some(e) => digits + [SEMICOLON] + e
    }

    ghost predicate Valid() {
      digits != [] && (forall i :: 0 <= i < |digits| ==> IsHex(digits[i])) &&
      NumberFrom(0, digits) <= UINT64_MAX &&
      (extension.Some? ==> forall i :: 0 <= i < |extension.value| ==> ExtensionByte(extension.value[i])) &&
      |Bytes()| + 1 <= MAX_SIZE_LINE
    }
  }

  /** Number written by hexadecimal digits, continuing from v. */
  ghost function NumberFrom(v: nat, digits: seq<Octet>): nat
    requires forall i :: 0 <= i < |digits| ==> IsHex(digits[i])
    decreases |digits|
  {
    if digits == [] then v else assert IsHex(digits[0]); NumberFrom(v * 16 + HexValue(digits[0]), digits[1..])
  }

  datatype Chunk = Chunk(line: SizeLine, data: seq<Octet>)
  {
    ghost predicate Valid() {
      line.Valid() && data != [] && NumberFrom(0, line.digits) == |data|
    }

    ghost function Bytes(): seq<Octet> { line.Bytes() + [CR, LF] + (data + [CR, LF]) }
  }

  datatype Message = Message(chunks: seq<Chunk>, last: SizeLine, trailers: seq<seq<Octet>>)
  {
    ghost predicate Valid() {
      (forall i :: 0 <= i < |chunks| ==> chunks[i].Valid()) &&
      last.Valid() && NumberFrom(0, last.digits) == 0 &&
      (forall i :: 0 <= i < |trailers| ==> TrailerLine(trailers[i])) &&
      |TrailerBytes(trailers)| <= MAX_TRAILER_SIZE
    }

    ghost function Bytes(): seq<Octet> {
      ChunkBytes(chunks) + (last.Bytes() + [CR, LF] + TrailerBytes(trailers))
    }

    /** The decoded body. */
    ghost function Body(): seq<Octet> { Bodies(chunks) }
  }

  ghost predicate TrailerLine(line: seq<Octet>) {
    line != [] && forall i :: 0 <= i < |line| ==> line[i] != CR && line[i] != LF
  }

  ghost function ChunkBytes(chunks: seq<Chunk>): seq<Octet> {
    if chunks == [] then [] else chunks[0].Bytes() + ChunkBytes(chunks[1..])
  }

  ghost function Bodies(chunks: seq<Chunk>): seq<Octet> {
    if chunks == [] then [] else chunks[0].data + Bodies(chunks[1..])
  }

  /** The trailer lines and the empty line that ends the message. */
  ghost function TrailerBytes(lines: seq<seq<Octet>>): seq<Octet> {
    if lines == [] then [CR, LF] else lines[0] + [CR, LF] + TrailerBytes(lines[1..])
  }

  /** At the start of a chunk-size line. */
  ghost predicate AtLine(f: Fields) {
    f.state == Size && f.chunkSize == 0 && f.sizeLineLength == 0 && !f.sawSizeDigit
  }

  // ----- everything in the grammar is accepted -----

  lemma {:induction false} NumberGrows(v: nat, digits: seq<Octet>)
    requires forall i :: 0 <= i < |digits| ==> IsHex(digits[i])
    ensures NumberFrom(v, digits) >= v
    decreases |digits|
  {
    if digits != [] { NumberGrows(v * 16 + HexValue(digits[0]), digits[1..]); }
  }

  lemma {:induction false} RunDigits(f: Fields, digits: seq<Octet>)
    requires f.state == Size && forall i :: 0 <= i < |digits| ==> IsHex(digits[i])
    requires NumberFrom(f.chunkSize, digits) <= UINT64_MAX && f.sizeLineLength + |digits| <= MAX_SIZE_LINE
    ensures Run(f, digits) == f.(chunkSize := NumberFrom(f.chunkSize, digits),
                                 sizeLineLength := f.sizeLineLength + |digits|,
                                 sawSizeDigit := f.sawSizeDigit || digits != [])
    ensures Output(f, digits) == []
    decreases |digits|
  {
    if digits != [] {
      var rest := digits[1..];
      var g := Step(f, digits[0]);
      NumberGrows(f.chunkSize * 16 + HexValue(digits[0]), rest);
      assert g == f.(chunkSize := f.chunkSize * 16 + HexValue(digits[0]),
                     sizeLineLength := f.sizeLineLength + 1, sawSizeDigit := true);
      hide Step, Run, Output;
      RunDigits(g, rest);
      RunCons(f, digits[0], rest);
      assert digits == [digits[0]] + rest;
    }
  }

  lemma {:induction false} RunExtension(f: Fields, e: seq<Octet>)
    requires f.state == Extension && forall i :: 0 <= i < |e| ==> ExtensionByte(e[i])
    requires f.sizeLineLength + |e| <= MAX_SIZE_LINE
    ensures Run(f, e) == f.(sizeLineLength := f.sizeLineLength + |e|) && Output(f, e) == []
    decreases |e|
  {
    if e != [] {
      var g := Step(f, e[0]);
      assert g == f.(sizeLineLength := f.sizeLineLength + 1);
      hide Step, Run, Output;
      RunExtension(g, e[1..]);
      RunCons(f, e[0], e[1..]);
      assert e == [e[0]] + e[1..];
    }
  }

  /** Fields after a whole size line. */
  ghost function AfterLine(f: Fields, line: SizeLine): Fields
    requires line.Valid()
  {
    var n := NumberFrom(0, line.digits);
    f.(state := if n == 0 then TrailerStart else Data, chunkSize := n, chunkRemaining := n,
       sizeLineLength := |line.Bytes()| + 1, sawSizeDigit := true)
  }

  lemma RunTwo(f: Fields, a: Octet, b: Octet)
    requires f.state != Data && Step(f, a).state != Data
    ensures Run(f, [a, b]) == Step(Step(f, a), b) && Output(f, [a, b]) == []
  {
    hide Step, Run, Output;
    RunCons(f, a, [b]);
    RunOne(Step(f, a), b);
    assert [a, b] == [a] + [b];
  }

  lemma RunLine(f: Fields, line: SizeLine)
    requires AtLine(f) && line.Valid()
    ensures Run(f, line.Bytes() + [CR, LF]) == AfterLine(f, line) && Output(f, line.Bytes() + [CR, LF]) == []
  {
    hide Run, Output, NumberFrom;
    var n := NumberFrom(0, line.digits);
    RunDigits(f, line.digits);
    var g := Run(f, line.digits);
    var h := g;
    match line.extension {
      case None =>
      case Some(e) =>
        var x := Step(g, SEMICOLON);
        assert x == g.(state := Extension, sizeLineLength := g.sizeLineLength + 1);
        RunExtension(x, e);
        RunCons(g, SEMICOLON, e);
        RunConcat(f, line.digits, [SEMICOLON] + e);
        assert line.Bytes() == line.digits + ([SEMICOLON] + e);
        h := Run(x, e);
    }
    assert Run(f, line.Bytes()) == h && Output(f, line.Bytes()) == [];
    assert Step(h, CR) == h.(state := SizeLf, sizeLineLength := h.sizeLineLength + 1);
    RunTwo(h, CR, LF);
    RunConcat(f, line.Bytes(), [CR, LF]);
  }

  lemma RunChunk(f: Fields, c: Chunk)
    requires AtLine(f) && c.Valid()
    ensures Run(f, c.Bytes()) == f.(chunkRemaining := 0) && Output(f, c.Bytes()) == c.data
  {
    hide Run, Output, NumberFrom;
    var head := c.line.Bytes() + [CR, LF];
    RunLine(f, c.line);
    var g := AfterLine(f, c.line);
    RunData(g, c.data);
    var h := Run(g, c.data);
    assert Step(h, CR) == h.(state := DataLf);
    RunTwo(h, CR, LF);
    RunConcat(g, c.data, [CR, LF]);
    RunConcat(f, head, c.data + [CR, LF]);
    assert [] + (c.data + []) == c.data;
  }

  lemma {:induction false} RunChunks(f: Fields, chunks: seq<Chunk>)
    requires AtLine(f) && forall i :: 0 <= i < |chunks| ==> chunks[i].Valid()
    ensures AtLine(Run(f, ChunkBytes(chunks))) && Run(f, ChunkBytes(chunks)).trailerSize == f.trailerSize
    ensures Output(f, ChunkBytes(chunks)) == Bodies(chunks)
    decreases |chunks|
  {
    if chunks == [] {
      RunNothing(f);
    } else {
      hide Run, Output, Step;
      RunChunk(f, chunks[0]);
      RunConcat(f, chunks[0].Bytes(), ChunkBytes(chunks[1..]));
      RunChunks(f.(chunkRemaining := 0), chunks[1..]);
    }
  }

  lemma {:induction false} RunTrailerLine(f: Fields, line: seq<Octet>)
    requires f.state == Trailer && f.trailerSize + |line| <= MAX_TRAILER_SIZE
    requires forall i :: 0 <= i < |line| ==> line[i] != CR && line[i] != LF
    ensures Run(f, line) == f.(trailerSize := f.trailerSize + |line|) && Output(f, line) == []
    decreases |line|
  {
    if line != [] {
      var g := Step(f, line[0]);
      assert g == f.(trailerSize := f.trailerSize + 1);
      hide Step, Run, Output;
      RunTrailerLine(g, line[1..]);
      RunCons(f, line[0], line[1..]);
      assert line == [line[0]] + line[1..];
    }
  }

  lemma {:induction false} RunTrailers(f: Fields, lines: seq<seq<Octet>>)
    requires f.state == TrailerStart && f.trailerSize + |TrailerBytes(lines)| <= MAX_TRAILER_SIZE
    requires forall i :: 0 <= i < |lines| ==> TrailerLine(lines[i])
    ensures Run(f, TrailerBytes(lines)).state == Done && Output(f, TrailerBytes(lines)) == []
    decreases |lines|
  {
    hide Run, Output;
    if lines == [] {
      RunTwo(f, CR, LF);
    } else {
      var line, rest := lines[0], TrailerBytes(lines[1..]);
      var g := Step(f, line[0]);
      assert g == f.(state := Trailer, trailerSize := f.trailerSize + 1);
      RunTrailerLine(g, line[1..]);
      RunCons(f, line[0], line[1..]);
      assert line == [line[0]] + line[1..];
      var h := Run(f, line);
      assert h == f.(state := Trailer, trailerSize := f.trailerSize + |line|);
      RunTwo(h, CR, LF);
      var k := Run(h, [CR, LF]);
      assert k == f.(trailerSize := f.trailerSize + |line| + 2);
      RunConcat(f, line, [CR, LF]);
      RunConcat(f, line + [CR, LF], rest);
      RunTrailers(k, lines[1..]);
    }
  }

  /** Every message of the grammar is decoded to its body. */
  lemma GrammarAccepted(msg: Message)
    requires msg.Valid()
    ensures Run(INITIAL, msg.Bytes()).state == Done && Output(INITIAL, msg.Bytes()) == msg.Body()
  {
    hide Run, Output, Step;
    RunChunks(INITIAL, msg.chunks);
    var f := Run(INITIAL, ChunkBytes(msg.chunks));
    var head := msg.last.Bytes() + [CR, LF];
    RunLine(f, msg.last);
    RunTrailers(AfterLine(f, msg.last), msg.trailers);
    RunConcat(f, head, TrailerBytes(msg.trailers));
    RunConcat(INITIAL, ChunkBytes(msg.chunks), head + TrailerBytes(msg.trailers));
    assert msg.Body() + ([] + []) == msg.Body();
  }

  // ----- everything accepted is in the grammar -----

  /** a, the end of its line, and then b. */
  ghost function Ended(a: seq<Octet>, b: seq<Octet>): seq<Octet> { a + [CR, LF] + b }

  lemma EndedCons(ch: Octet, a: seq<Octet>, b: seq<Octet>)
    ensures [ch] + Ended(a, b) == Ended([ch] + a, b)
  {
    assert [ch] + (a + [CR, LF] + b) == [ch] + a + [CR, LF] + b;
  }

  lemma EndedLonger(a: seq<Octet>, b: seq<Octet>)
    ensures |b| < |Ended(a, b)|
  {}

  lemma EndedNow(b: seq<Octet>)
    ensures [CR] + ([LF] + b) == Ended([], b)
  {}

  lemma EndedChunk(c: Chunk, b: seq<Octet>)
    ensures Ended(c.line.Bytes(), Ended(c.data, b)) == c.Bytes() + b
  {
    var l := c.line.Bytes();
    assert l + [CR, LF] + (c.data + [CR, LF] + b) == l + [CR, LF] + (c.data + [CR, LF]) + b;
  }

  lemma First(f: Fields, input: seq<Octet>)
    requires Run(f, input).state == Done && f.state != Done
    ensures input != [] && Step(f, input[0]).state != Error && Run(Step(f, input[0]), input[1..]).state == Done
  {
    hide Step, Run;
    if input == [] {
      RunNothing(f);
    } else {
      RunCons(f, input[0], input[1..]);
      assert input == [input[0]] + input[1..];
      if Step(f, input[0]).state == Error { RunError(Step(f, input[0]), input[1..]); }
    }
  }

  lemma ExpectLf(f: Fields, input: seq<Octet>) returns (rest: seq<Octet>)
    requires Run(f, input).state == Done
    requires f.state == SizeLf || f.state == DataLf || f.state == TrailerLf || f.state == TrailerEndLf
    ensures input == [LF] + rest && Step(f, LF).state != Error && Run(Step(f, LF), rest).state == Done
  {
    First(f, input);
    hide Run;
    rest := input[1..];
  }

  lemma {:induction false} ParseExtension(f: Fields, input: seq<Octet>) returns (e: seq<Octet>, rest: seq<Octet>)
    requires f.state == Extension && Run(f, input).state == Done
    ensures input == Ended(e, rest) && f.sizeLineLength + |e| + 1 <= MAX_SIZE_LINE
    ensures forall i :: 0 <= i < |e| ==> ExtensionByte(e[i])
    decreases |input|
  {
    First(f, input);
    hide Run, Ended;
    var g := Step(f, input[0]);
    assert input == [input[0]] + input[1..];
    if input[0] == CR {
      rest := ExpectLf(g, input[1..]);
      e := [];
      EndedNow(rest);
    } else {
      e, rest := ParseExtension(g, input[1..]);
      EndedCons(input[0], e, rest);
      e := [input[0]] + e;
    }
  }

  /** What a byte of a size line can be when it is accepted. */
  lemma SizeStep(f: Fields, ch: Octet)
    requires f.state == Size && Step(f, ch).state != Error
    ensures var line := f.(sizeLineLength := f.sizeLineLength + 1);
      line.sizeLineLength <= MAX_SIZE_LINE &&
      if IsHex(ch) then
        f.chunkSize * 16 + HexValue(ch) <= UINT64_MAX &&
        Step(f, ch) == line.(chunkSize := f.chunkSize * 16 + HexValue(ch), sawSizeDigit := true)
      else
        f.sawSizeDigit &&
        ((ch == SEMICOLON && Step(f, ch) == line.(state := Extension)) ||
          (ch == CR && Step(f, ch) == line.(state := SizeLf)))
  {
  }

  /** The input is a size line that continues at f, and the rest. */
  ghost predicate SizeParsed(f: Fields, input: seq<Octet>, line: SizeLine, rest: seq<Octet>) {
    input == Ended(line.Bytes(), rest) &&
    (forall i :: 0 <= i < |line.digits| ==> IsHex(line.digits[i])) &&
    (f.sawSizeDigit || line.digits != []) &&
    NumberFrom(f.chunkSize, line.digits) <= UINT64_MAX &&
    (line.extension.Some? ==> forall i :: 0 <= i < |line.extension.value| ==> ExtensionByte(line.extension.value[i])) &&
    f.sizeLineLength + |line.Bytes()| + 1 <= MAX_SIZE_LINE
  }

  /** The end of a size line: an optional extension, or nothing. */
  lemma ParseSizeEnd(f: Fields, ch: Octet, tail: seq<Octet>) returns (line: SizeLine, rest: seq<Octet>)
    requires f.state == Size && !IsHex(ch) && f.chunkSize <= UINT64_MAX
    requires Step(f, ch).state != Error && Run(Step(f, ch), tail).state == Done
    ensures SizeParsed(f, [ch] + tail, line, rest)
  {
    SizeStep(f, ch);
    hide Run, Ended, Step;
    if ch == SEMICOLON {
      var e;
      e, rest := ParseExtension(Step(f, ch), tail);
      line := SizeLine([], Some(e));
      assert line.Bytes() == [SEMICOLON] + e;
      EndedCons(ch, e, rest);
    } else {
      rest := ExpectLf(Step(f, ch), tail);
      line := SizeLine([], None);
      EndedNow(rest);
    }
  }

  lemma OneMoreDigit(ch: Octet, tail: SizeLine, v: nat) returns (line: SizeLine)
    requires IsHex(ch) && forall i :: 0 <= i < |tail.digits| ==> IsHex(tail.digits[i])
    ensures line == SizeLine([ch] + tail.digits, tail.extension) && line.Bytes() == [ch] + tail.Bytes()
    ensures forall i :: 0 <= i < |line.digits| ==> IsHex(line.digits[i])
    ensures NumberFrom(v, line.digits) == NumberFrom(v * 16 + HexValue(ch), tail.digits)
  {
    line := SizeLine([ch] + tail.digits, tail.extension);
    assert line.digits[1..] == tail.digits;
  }

  lemma MoreParsed(f: Fields, ch: Octet, tail: seq<Octet>, line': SizeLine, rest: seq<Octet>) returns (line: SizeLine)
    requires f.state == Size && IsHex(ch) && Step(f, ch).state != Error && SizeParsed(Step(f, ch), tail, line', rest)
    ensures SizeParsed(f, [ch] + tail, line, rest)
  {
    SizeStep(f, ch);
    hide Step, Ended, NumberFrom;
    line := OneMoreDigit(ch, line', f.chunkSize);
    EndedCons(ch, line'.Bytes(), rest);
  }

  lemma {:induction false} ParseSize(f: Fields, input: seq<Octet>) returns (line: SizeLine, rest: seq<Octet>)
    requires f.state == Size && Run(f, input).state == Done && f.chunkSize <= UINT64_MAX
    ensures SizeParsed(f, input, line, rest)
    decreases |input|
  {
    First(f, input);
    var ch, tail := input[0], input[1..];
    assert input == [ch] + tail;
    SizeStep(f, ch);
    hide Run, Step, SizeParsed;
    if IsHex(ch) {
      line, rest := ParseSize(Step(f, ch), tail);
      line := MoreParsed(f, ch, tail, line, rest);
    } else {
      line, rest := ParseSizeEnd(f, ch, tail);
    }
  }

  lemma ParseLine(f: Fields, input: seq<Octet>) returns (line: SizeLine, rest: seq<Octet>)
    requires AtLine(f) && Run(f, input).state == Done
    ensures line.Valid() && input == Ended(line.Bytes(), rest) && Run(AfterLine(f, line), rest).state == Done
  {
    hide Run, Step, NumberFrom;
    line, rest := ParseSize(f, input);
    RunLine(f, line);
    RunConcat(f, line.Bytes() + [CR, LF], rest);
  }

  lemma ParseData(f: Fields, input: seq<Octet>) returns (data: seq<Octet>, rest: seq<Octet>)
    requires f.state == Data && f.chunkRemaining > 0 && Run(f, input).state == Done
    ensures |data| == f.chunkRemaining && input == Ended(data, rest)
    ensures Run(f.(state := Size, chunkRemaining := 0, chunkSize := 0, sizeLineLength := 0, sawSizeDigit := false),
      rest).state == Done
  {
    hide Run;
    var n := f.chunkRemaining;
    if |input| <= n {
      RunData(f, input);
    } else {
      data := input[..n];
      var tail := input[n..];
      RunData(f, data);
      RunConcat(f, data, tail);
      assert input == data + tail;
      var g := f.(chunkRemaining := 0, state := DataCr);
      First(g, tail);
      assert tail[0] == CR && tail == [CR] + tail[1..];
      rest := ExpectLf(Step(g, CR), tail[1..]);
      assert input == data + ([CR] + ([LF] + rest));
    }
  }

  lemma TrailerStep(f: Fields, ch: Octet)
    requires f.state == Trailer && Step(f, ch).state != Error
    ensures ch != LF &&
      Step(f, ch) == f.(state := if ch == CR then TrailerLf else Trailer, trailerSize := f.trailerSize + 1)
  {}

  lemma TrailerLfStep(f: Fields)
    requires f.state == TrailerLf && Step(f, LF).state != Error
    ensures Step(f, LF) == f.(state := TrailerStart, trailerSize := f.trailerSize + 1)
  {}

  lemma {:induction false} ParseTrailerLine(f: Fields, input: seq<Octet>) returns (line: seq<Octet>, rest: seq<Octet>)
    requires f.state == Trailer && Run(f, input).state == Done
    ensures input == Ended(line, rest) && forall i :: 0 <= i < |line| ==> line[i] != CR && line[i] != LF
    ensures Run(f.(state := TrailerStart, trailerSize := f.trailerSize + |line| + 2), rest).state == Done
    decreases |input|
  {
    hide Run, Ended, Step;
    First(f, input);
    TrailerStep(f, input[0]);
    var g := Step(f, input[0]);
    assert input == [input[0]] + input[1..];
    if input[0] == CR {
      rest := ExpectLf(g, input[1..]);
      TrailerLfStep(g);
      line := [];
      EndedNow(rest);
    } else {
      line, rest := ParseTrailerLine(g, input[1..]);
      EndedCons(input[0], line, rest);
      line := [input[0]] + line;
    }
  }

  lemma {:induction false} ParseTrailers(f: Fields, input: seq<Octet>) returns (lines: seq<seq<Octet>>)
    requires f.state == TrailerStart && Run(f, input).state == Done
    ensures input == TrailerBytes(lines) && f.trailerSize + |input| <= MAX_TRAILER_SIZE
    ensures forall i :: 0 <= i < |lines| ==> TrailerLine(lines[i])
    decreases |input|
  {
    First(f, input);
    hide Run;
    var g := Step(f, input[0]);
    assert input == [input[0]] + input[1..];
    if input[0] == CR {
      var rest := ExpectLf(g, input[1..]);
      if rest != [] { NothingAfterDone(Step(g, LF), rest); }
      lines := [];
    } else {
      var line, rest := ParseTrailerLine(g, input[1..]);
      var h := g.(state := TrailerStart, trailerSize := g.trailerSize + |line| + 2);
      assert h == f.(trailerSize := f.trailerSize + |line| + 3) && input[0] != LF;
      hide Step;
      lines := ParseTrailers(h, rest);
      EndedCons(input[0], line, rest);
      lines := [[input[0]] + line] + lines;
    }
  }

  lemma NothingAfterDone(f: Fields, rest: seq<Octet>)
    requires f.state == Done && rest != []
    ensures Run(f, rest).state == Error
  {
    assert rest[..0] == [];
    DoneFails(f, rest, 0);
  }

  lemma {:induction false} ParseMessage(f: Fields, input: seq<Octet>) returns (msg: Message)
    requires AtLine(f) && f.trailerSize == 0 && Run(f, input).state == Done
    ensures msg.Valid() && msg.Bytes() == input
    decreases |input|
  {
    hide Run, Step, Ended, NumberFrom;
    var line, rest := ParseLine(f, input);
    var g := AfterLine(f, line);
    if NumberFrom(0, line.digits) == 0 {
      var trailers := ParseTrailers(g, rest);
      msg := Message([], line, trailers);
      LastChunk(msg);
    } else {
      var data, rest' := ParseData(g, rest);
      EndedLonger(line.Bytes(), rest);
      EndedLonger(data, rest');
      var msg' := ParseMessage(
        g.(state := Size, chunkRemaining := 0, chunkSize := 0, sizeLineLength := 0, sawSizeDigit := false), rest');
      EndedChunk(Chunk(line, data), rest');
      msg := OneMoreChunk(Chunk(line, data), msg');
    }
  }

  lemma LastChunk(msg: Message)
    requires msg.chunks == []
    ensures msg.Bytes() == Ended(msg.last.Bytes(), TrailerBytes(msg.trailers))
  {}

  lemma OneMoreChunk(c: Chunk, tail: Message) returns (msg: Message)
    requires c.Valid() && tail.Valid()
    ensures msg.Valid() && msg.Bytes() == c.Bytes() + tail.Bytes()
  {
    msg := Message([c] + tail.chunks, tail.last, tail.trailers);
    assert msg.chunks[1..] == tail.chunks;
  }

  // ----- main results -----

  /** The decoder ends in Done exactly on the messages of the grammar. */
  lemma AcceptsExactly(input: seq<Octet>)
    ensures Run(INITIAL, input).state == Done <==> exists msg: Message :: msg.Valid() && msg.Bytes() == input
  {
    hide Run, Step;
    if Run(INITIAL, input).state == Done {
      var msg := ParseMessage(INITIAL, input);
    }
    forall msg: Message | msg.Valid() && msg.Bytes() == input ensures Run(INITIAL, input).state == Done {
      GrammarAccepted(msg);
    }
  }

  /** A message cut into any pieces is decoded to its body; in particular its body is unique. */
  lemma DecodesInPieces(msg: Message, pieces: seq<seq<Octet>>)
    requires msg.Valid() && Flatten(pieces) == msg.Bytes()
    ensures FeedAll(INITIAL, pieces).state == Done && EmitAll(INITIAL, pieces) == msg.Body()
  {
    hide Run, Step;
    SplitInvariance(INITIAL, pieces);
    GrammarAccepted(msg);
  }

  lemma BodyUnique(msg: Message, other: Message)
    requires msg.Valid() && other.Valid() && msg.Bytes() == other.Bytes()
    ensures msg.Body() == other.Body()
  {
    hide Run, Step;
    GrammarAccepted(msg);
    GrammarAccepted(other);
  }
}
