/** The chunked transfer coding as section 7.1 of RFC 9112 writes it, and which of its messages the decoder accepts. */
module ChunkedRfc {

  import opened ChunkedDecoder
  import opened ChunkedGrammar
  import opened Sequences

  const SPACE: Octet := 32
  const QUOTE: Octet := 34
  const COLON: Octet := 58
  const EQUALS: Octet := 61
  const BACKSLASH: Octet := 92

  /** BWS and OWS are made of these. */
  predicate Blank(ch: Octet) { ch == SPACE || ch == TAB }

  /** tchar, section 5.6.2 of RFC 9110. */
  predicate TokenByte(ch: Octet) {
    48 <= ch <= 57 || 65 <= ch <= 90 || 94 <= ch <= 122 || 35 <= ch <= 39 ||
    ch == 33 || ch == 42 || ch == 43 || ch == 45 || ch == 46 || ch == 124 || ch == 126
  }

  ghost predicate Blanks(s: seq<Octet>) {
    forall i :: 0 <= i < |s| ==> Blank(s[i])
  }

  ghost predicate Token(s: seq<Octet>) {
    s != [] && forall i :: 0 <= i < |s| ==> TokenByte(s[i])
  }

  /** A part of a quoted string, section 5.6.4 of RFC 9110: qdtext or quoted-pair. */
  datatype Part = Text(ch: Octet) | Pair(ch: Octet) {
    ghost predicate Valid() {
      if Pair? then ch == TAB || 32 <= ch <= 126 || ch >= 128
      else ch == TAB || ch == 32 || ch == 33 || 35 <= ch <= 91 || 93 <= ch <= 126 || ch >= 128
    }

    ghost function Bytes(): seq<Octet> {
      if Text? then [ch] else [BACKSLASH, ch]
    }
  }

  ghost function PartBytes(parts: seq<Part>): seq<Octet> {
    if parts == [] then [] else parts[0].Bytes() + PartBytes(parts[1..])
  }

  /** chunk-ext-val */
  datatype Value = Word(token: seq<Octet>) | Quoted(parts: seq<Part>) {
    ghost predicate Valid() {
      if Word? then Token(token) else forall i :: 0 <= i < |parts| ==> parts[i].Valid()
    }

    ghost function Bytes(): seq<Octet> {
      if Word? then token else [QUOTE] + PartBytes(parts) + [QUOTE]
    }
  }

  /** BWS "=" BWS chunk-ext-val */
  datatype Setting = Setting(before: seq<Octet>, after: seq<Octet>, value: Value) {
    ghost predicate Valid() { Blanks(before) && Blanks(after) && value.Valid() }

    ghost function Bytes(): seq<Octet> { before + [EQUALS] + after + value.Bytes() }
  }

  /** BWS ";" BWS chunk-ext-name [ BWS "=" BWS chunk-ext-val ] */
  datatype Parameter = Parameter(before: seq<Octet>, after: seq<Octet>, name: seq<Octet>, setting: Option<Setting>) {
    ghost predicate Valid() {
      Blanks(before) && Blanks(after) && Token(name) && (setting.Some? ==> setting.value.Valid())
    }

    ghost function Tail(): seq<Octet> {
      after + name + if setting.Some? then setting.value.Bytes() else []
    }

    ghost function Bytes(): seq<Octet> { before + ([SEMICOLON] + Tail()) }
  }

  ghost function ParameterBytes(ps: seq<Parameter>): seq<Octet> {
    if ps == [] then [] else ps[0].Bytes() + ParameterBytes(ps[1..])
  }

  /** chunk-size [ chunk-ext ] */
  datatype Line = Line(digits: seq<Octet>, parameters: seq<Parameter>) {
    ghost predicate Valid() {
      digits != [] && (forall i :: 0 <= i < |digits| ==> IsHex(digits[i])) &&
      forall i :: 0 <= i < |parameters| ==> parameters[i].Valid()
    }

    ghost function Bytes(): seq<Octet> { digits + ParameterBytes(parameters) }

    ghost predicate InLimits()
      requires Valid()
    {
      NumberFrom(0, digits) <= UINT64_MAX && |Bytes()| + 1 <= MAX_SIZE_LINE
    }

    /** No blank stands between the digits and the first semicolon. */
    ghost predicate Tight() {
      parameters == [] || parameters[0].before == []
    }
  }

  datatype RfcChunk = RfcChunk(line: Line, data: seq<Octet>) {
    ghost predicate Valid() { line.Valid() && data != [] && NumberFrom(0, line.digits) == |data| }

    ghost function Bytes(): seq<Octet> { line.Bytes() + [CR, LF] + (data + [CR, LF]) }
  }

  /** field-name ":" and a value with the blanks around it, section 5 of RFC 9112. */
  datatype Field = Field(name: seq<Octet>, value: seq<Octet>) {
    ghost predicate Valid() {
      Token(name) && forall i :: 0 <= i < |value| ==> value[i] == TAB || 32 <= value[i] <= 126 || value[i] >= 128
    }

    ghost function Bytes(): seq<Octet> { name + [COLON] + value }
  }

  ghost function FieldLines(fields: seq<Field>): seq<seq<Octet>> {
    seq(|fields|, i requires 0 <= i < |fields| => fields[i].Bytes())
  }

  datatype RfcMessage = RfcMessage(chunks: seq<RfcChunk>, last: Line, trailers: seq<Field>) {
    ghost predicate Valid() {
      (forall i :: 0 <= i < |chunks| ==> chunks[i].Valid()) && last.Valid() &&
      (forall i :: 0 <= i < |last.digits| ==> last.digits[i] == 48) &&
      forall i :: 0 <= i < |trailers| ==> trailers[i].Valid()
    }

    /** The limits of the decoder. */
    ghost predicate InLimits()
      requires Valid()
    {
      (forall i :: 0 <= i < |chunks| ==> chunks[i].line.InLimits()) && last.InLimits() &&
      |TrailerBytes(FieldLines(trailers))| <= MAX_TRAILER_SIZE
    }

    ghost predicate Tight() {
      AllTight(chunks) && last.Tight()
    }

    ghost function Bytes(): seq<Octet> {
      RfcChunkBytes(chunks) + (last.Bytes() + [CR, LF] + TrailerBytes(FieldLines(trailers)))
    }

    ghost function Body(): seq<Octet> { RfcBodies(chunks) }
  }

  ghost function RfcChunkBytes(chunks: seq<RfcChunk>): seq<Octet> {
    if chunks == [] then [] else chunks[0].Bytes() + RfcChunkBytes(chunks[1..])
  }

  ghost function RfcBodies(chunks: seq<RfcChunk>): seq<Octet> {
    if chunks == [] then [] else chunks[0].data + RfcBodies(chunks[1..])
  }

  // ----- extensions are made of bytes the decoder lets pass -----

  /** The bytes the decoder lets pass in an extension are the blanks, the visible characters, and all above the ASCII
    * range; no control character is among them. */
  lemma PassedExactly(ch: Octet)
    ensures ExtensionByte(ch) <==> Blank(ch) || 0x21 <= ch <= 0x7E || ch >= 0x80
  {
  }

  ghost predicate Passes(s: seq<Octet>) {
    forall i :: 0 <= i < |s| ==> ExtensionByte(s[i])
  }

  lemma PassesBoth(a: seq<Octet>, b: seq<Octet>)
    requires Passes(a) && Passes(b)
    ensures Passes(a + b)
  {
  }

  lemma {:induction false} PartsPass(parts: seq<Part>)
    requires forall i :: 0 <= i < |parts| ==> parts[i].Valid()
    ensures Passes(PartBytes(parts))
  {
    if parts != [] {
      PartsPass(parts[1..]);
      PassesBoth(parts[0].Bytes(), PartBytes(parts[1..]));
    }
  }

  lemma ValuePasses(v: Value)
    requires v.Valid()
    ensures Passes(v.Bytes())
  {
    if v.Quoted? {
      PartsPass(v.parts);
      hide PartBytes;
      PassesBoth([QUOTE], PartBytes(v.parts));
      PassesBoth([QUOTE] + PartBytes(v.parts), [QUOTE]);
    }
  }

  lemma TailPasses(p: Parameter)
    requires p.Valid()
    ensures Passes(p.Tail())
  {
    PassesBoth(p.after, p.name);
    if p.setting.Some? {
      var a := p.setting.value;
      ValuePasses(a.value);
      PassesBoth(a.before, [EQUALS]);
      PassesBoth(a.before + [EQUALS], a.after);
      hide Value.Bytes, Value.Valid, Passes;
      PassesBoth(a.before + [EQUALS] + a.after, a.value.Bytes());
      PassesBoth(p.after + p.name, a.Bytes());
    }
  }

  lemma {:induction false} ParametersPass(ps: seq<Parameter>)
    requires forall i :: 0 <= i < |ps| ==> ps[i].Valid()
    ensures Passes(ParameterBytes(ps))
  {
    if ps != [] {
      ParametersPass(ps[1..]);
      TailPasses(ps[0]);
      PassesBoth([SEMICOLON], ps[0].Tail());
      PassesBoth(ps[0].before, [SEMICOLON] + ps[0].Tail());
      PassesBoth(ps[0].Bytes(), ParameterBytes(ps[1..]));
    }
  }

  /** The line in the decoder's terms. */
  ghost function Plain(line: Line): SizeLine {
    SizeLine(line.digits, if line.parameters == [] then None
      else Some(line.parameters[0].Tail() + ParameterBytes(line.parameters[1..])))
  }

  lemma PlainLine(line: Line)
    requires line.Valid() && line.InLimits() && line.Tight()
    ensures Plain(line).Valid() && Plain(line).Bytes() == line.Bytes()
  {
    var ps := line.parameters;
    if ps != [] {
      ParametersPass(ps[1..]);
      TailPasses(ps[0]);
      PassesBoth(ps[0].Tail(), ParameterBytes(ps[1..]));
      hide NumberFrom, Parameter.Tail;
      var e := ps[0].Tail() + ParameterBytes(ps[1..]);
      assert ps[0].Bytes() == [SEMICOLON] + ps[0].Tail();
      assert [SEMICOLON] + ps[0].Tail() + ParameterBytes(ps[1..]) == [SEMICOLON] + e;
      assert line.digits + ([SEMICOLON] + e) == line.digits + [SEMICOLON] + e;
    } else {
      assert line.digits + [] == line.digits;
    }
  }

  /** A blank after the digits ends decoding. */
  lemma LooseLine(f: Fields, line: Line, rest: seq<Octet>)
    requires AtLine(f) && line.Valid() && line.InLimits() && !line.Tight()
    ensures Run(f, line.Bytes() + rest).state == Error
  {
    hide Run, Output, NumberFrom;
    RunDigits(f, line.digits);
    var g := Run(f, line.digits);
    var p := line.parameters[0];
    var ch := p.before[0];
    assert Step(g, ch).state == Error;
    var tail := line.Bytes()[|line.digits|..] + rest;
    assert line.Bytes() + rest == line.digits + tail;
    assert tail[0] == ch && tail == [ch] + tail[1..];
    RunConcat(f, line.digits, tail);
    RunCons(g, ch, tail[1..]);
    RunError(Step(g, ch), tail[1..]);
  }

  ghost function PlainChunk(c: RfcChunk): Chunk { Chunk(Plain(c.line), c.data) }

  /** The decoder's fields after whole chunks. */
  ghost function AfterChunks(f: Fields, chunks: seq<RfcChunk>): Fields {
    if chunks == [] then f else f.(chunkRemaining := 0)
  }

  ghost predicate AllTight(chunks: seq<RfcChunk>) {
    forall i :: 0 <= i < |chunks| ==> chunks[i].line.Tight()
  }

  lemma TightSplit(chunks: seq<RfcChunk>)
    requires chunks != []
    ensures AllTight(chunks) <==> chunks[0].line.Tight() && AllTight(chunks[1..])
  {
    assert chunks == [chunks[0]] + chunks[1..];
  }

  lemma OneRfcChunk(f: Fields, c: RfcChunk, rest: seq<Octet>)
    requires AtLine(f) && c.Valid() && c.line.InLimits()
    ensures c.line.Tight() ==> Run(f, c.Bytes() + rest) == Run(f.(chunkRemaining := 0), rest) &&
                               Output(f, c.Bytes() + rest) == c.data + Output(f.(chunkRemaining := 0), rest)
    ensures !c.line.Tight() ==> Run(f, c.Bytes() + rest).state == Error
  {
    hide Run, Output, NumberFrom, Step, Line.Bytes, Line.InLimits, Line.Tight;
    if c.line.Tight() {
      PlainLine(c.line);
      assert PlainChunk(c).Bytes() == c.Bytes();
      RunChunk(f, PlainChunk(c));
      RunConcat(f, c.Bytes(), rest);
    } else {
      var tail := [CR, LF] + (c.data + [CR, LF]) + rest;
      assert c.Bytes() + rest == c.line.Bytes() + tail;
      LooseLine(f, c.line, tail);
    }
  }

  /** Chunks pass until a line has a blank after its digits. */
  lemma {:induction false} RunRfcChunks(f: Fields, chunks: seq<RfcChunk>, rest: seq<Octet>)
    requires AtLine(f) && forall i :: 0 <= i < |chunks| ==> chunks[i].Valid() && chunks[i].line.InLimits()
    ensures AllTight(chunks) ==> Run(f, RfcChunkBytes(chunks) + rest) == Run(AfterChunks(f, chunks), rest)
    ensures AllTight(chunks) ==>
      Output(f, RfcChunkBytes(chunks) + rest) == RfcBodies(chunks) + Output(AfterChunks(f, chunks), rest)
    ensures !AllTight(chunks) ==> Run(f, RfcChunkBytes(chunks) + rest).state == Error
    decreases |chunks|
  {
    if chunks == [] {
      assert RfcChunkBytes(chunks) + rest == rest && RfcBodies(chunks) + Output(f, rest) == Output(f, rest);
    } else {
      var c, more := chunks[0], RfcChunkBytes(chunks[1..]);
      var bodies := RfcBodies(chunks[1..]);
      assert RfcChunkBytes(chunks) == c.Bytes() + more && RfcBodies(chunks) == c.data + bodies;
      TightSplit(chunks);
      hide Run, Output, NumberFrom, Step, Line.InLimits, Line.Tight, AllTight, RfcChunk.Bytes, RfcChunkBytes, RfcBodies;
      OneRfcChunk(f, c, more + rest);
      RunRfcChunks(f.(chunkRemaining := 0), chunks[1..], rest);
      Assoc(c.Bytes(), more, rest);
      Assoc(c.data, bodies, Output(AfterChunks(f, chunks), rest));
    }
  }

  lemma Assoc(a: seq<Octet>, b: seq<Octet>, c: seq<Octet>)
    ensures a + b + c == a + (b + c)
  {
  }

  lemma {:induction false} Zeros(digits: seq<Octet>)
    requires forall i :: 0 <= i < |digits| ==> digits[i] == 48
    ensures (forall i :: 0 <= i < |digits| ==> IsHex(digits[i])) && NumberFrom(0, digits) == 0
  {
    if digits != [] {
      Zeros(digits[1..]);
    }
  }

  lemma FieldIsLine(field: Field)
    requires field.Valid()
    ensures TrailerLine(field.Bytes())
  {
  }

  /** The end of the message after the chunks. */
  lemma RunRfcEnd(f: Fields, last: Line, trailers: seq<Field>)
    requires AtLine(f) && f.trailerSize == 0 && RfcMessage([], last, trailers).Valid() &&
      RfcMessage([], last, trailers).InLimits()
    ensures var end := last.Bytes() + [CR, LF] + TrailerBytes(FieldLines(trailers));
      if last.Tight() then Run(f, end).state == Done && Output(f, end) == [] else Run(f, end).state == Error
  {
    hide Run, Output, NumberFrom, Step, Line.Bytes;
    var lines := FieldLines(trailers);
    if last.Tight() {
      PlainLine(last);
      Zeros(last.digits);
      forall i | 0 <= i < |lines| ensures TrailerLine(lines[i]) {
        FieldIsLine(trailers[i]);
      }
      RunLine(f, Plain(last));
      RunTrailers(AfterLine(f, Plain(last)), lines);
      RunConcat(f, last.Bytes() + [CR, LF], TrailerBytes(lines));
    } else {
      var tail := [CR, LF] + TrailerBytes(lines);
      assert last.Bytes() + [CR, LF] + TrailerBytes(lines) == last.Bytes() + tail;
      LooseLine(f, last, tail);
    }
  }

  /** A message of the standard within the decoder's limits is decoded to its body exactly when no size line has a blank
    * before its first semicolon; otherwise it is an error. */
  lemma RfcAccepted(msg: RfcMessage)
    requires msg.Valid() && msg.InLimits()
    ensures Run(INITIAL, msg.Bytes()).state == if msg.Tight() then Done else Error
    ensures msg.Tight() ==> Output(INITIAL, msg.Bytes()) == msg.Body()
  {
    hide Run, Output, NumberFrom, Step, Line.Bytes, Line.Tight, AllTight, Line.InLimits;
    var end := msg.last.Bytes() + [CR, LF] + TrailerBytes(FieldLines(msg.trailers));
    RunRfcChunks(INITIAL, msg.chunks, end);
    RunRfcEnd(AfterChunks(INITIAL, msg.chunks), msg.last, msg.trailers);
    assert msg.Body() + [] == msg.Body();
  }

  lemma OneParameter(p: Parameter)
    ensures ParameterBytes([p]) == p.Bytes() && ParameterBytes([]) == []
  {
    assert [p][1..] == [] && p.Bytes() + [] == p.Bytes();
  }

  /** An input that the standard allows and the decoder rejects: a body of one byte whose size line is "1 ;a". */
  lemma BlankRejected()
    ensures
      var msg := RfcMessage([RfcChunk(Line([49], [Parameter([SPACE], [], [97], None)]), [120])], Line([48], []), []);
      msg.Valid() && msg.InLimits() && Run(INITIAL, msg.Bytes()).state == Error
  {
    var line := Line([49], [Parameter([SPACE], [], [97], None)]);
    var msg := RfcMessage([RfcChunk(line, [120])], Line([48], []), []);
    assert NumberFrom(0, [49]) == 1 && NumberFrom(0, [48]) == 0;
    assert line.parameters[0].Bytes() == [SPACE, SEMICOLON, 97];
    OneParameter(line.parameters[0]);
    assert FieldLines([]) == [];
    RfcAccepted(msg);
    assert !msg.chunks[0].line.Tight();
  }
}
