/**
 The streaming meter: a tee that passes response bytes through, parses token usage
 line by line, appends a timeout trailer, and reports once.

 JSON decoding and white-space trimming are library calls; they appear as arbitrary
 functions, so everything here holds whatever they do.
 */
module Stream {
  import opened Wrappers
  import opened Text
  import opened Lines

  datatype Tokens = Tokens(input: int, output: int)
  datatype OpenAIChunk = OpenAIChunk(model: string, usage: Option<Tokens>)
  datatype Message = Message(model: string, usage: Option<Tokens>)
  datatype AnthropicChunk = AnthropicChunk(kind: string, message: Option<Message>, usage: Option<Tokens>)

  datatype Library = Library(
    trimSpace: Bytes -> Bytes,
    decodeOpenAI: Bytes -> Option<OpenAIChunk>,
    decodeAnthropic: Bytes -> Option<AnthropicChunk>)

  datatype Provider = OpenAI | Anthropic | Unknown

  datatype Usage = Usage(model: string, input: int, output: int)

  const NO_USAGE := Usage("", 0, 0)

  // ---- One line ------------------------------------------------------------------------

  function ParseOpenAI(u: Usage, c: OpenAIChunk): Usage {
    var v := if u.model == "" && c.model != "" then u.(model := c.model) else u;
    if c.usage.Some? then v.(input := c.usage.value.input, output := c.usage.value.output) else v
  }

  function ParseAnthropic(u: Usage, c: AnthropicChunk): Usage {
    if c.kind == "message_start" && c.message.Some? then
      var m := c.message.value;
      var v := if m.model != "" then u.(model := m.model) else u;
      if m.usage.Some? then v.(input := m.usage.value.input, output := m.usage.value.output) else v
    else if c.kind == "message_delta" && c.usage.Some? && c.usage.value.output > 0 then
      u.(output := c.usage.value.output)
    else u
  }

  // The line without carriage returns at its end.
  function TrimReturns(line: Bytes): (r: Bytes)
    ensures r <= line && (r == [] || r[|r| - 1] != '\r')
    ensures forall i :: |r| <= i < |line| ==> line[i] == '\r'
  {
    if line != [] && line[|line| - 1] == '\r' then TrimReturns(line[..|line| - 1]) else line
  }

  // The payload of a data line, if the line carries one.
  function Payload(lib: Library, line: Bytes): Option<Bytes> {
    if !("data: " <= line) then None
    else
      var p := lib.trimSpace(line[6..]);
      if p == [] || p == "[DONE]" then None else Some(p)
  }

  function ParseLine(lib: Library, provider: Provider, u: Usage, line: Bytes): Usage {
    match Payload(lib, line)
    case None => u
    case Some(p) =>
      match provider
      case OpenAI => (match lib.decodeOpenAI(p) case None => u case Some(c) => ParseOpenAI(u, c))
      case Anthropic => (match lib.decodeAnthropic(p) case None => u case Some(c) => ParseAnthropic(u, c))
      case Unknown => u
  }

  // What a chunk does to the usage. The first model named stays, and every usage object
  // replaces both counts.
  lemma OpenAIChunkMeaning(u: Usage, model: string, input: int, output: int)
    ensures ParseOpenAI(u, OpenAIChunk(model, Some(Tokens(input, output)))) ==
            Usage(if u.model == "" then model else u.model, input, output)
    ensures ParseOpenAI(u, OpenAIChunk(model, None)) ==
            Usage(if u.model == "" then model else u.model, u.input, u.output)
  {
  }

  // The start of a message names the model and both counts, a delta moves the output count
  // if it is positive, and no other event counts.
  lemma AnthropicEventMeaning(u: Usage, c: AnthropicChunk, model: string, input: int, output: int)
    ensures c.kind == "message_start" && c.message == Some(Message(model, Some(Tokens(input, output)))) ==>
              ParseAnthropic(u, c) == Usage(if model == "" then u.model else model, input, output)
    ensures c.kind == "message_start" && c.message == Some(Message(model, None)) ==>
              ParseAnthropic(u, c) == Usage(if model == "" then u.model else model, u.input, u.output)
    ensures c.kind == "message_delta" && c.usage == Some(Tokens(input, output)) ==>
              ParseAnthropic(u, c) == Usage(u.model, u.input, if output > 0 then output else u.output)
    ensures c.kind != "message_start" && c.kind != "message_delta" ==> ParseAnthropic(u, c) == u
    ensures c.kind == "message_start" && c.message.None? ==> ParseAnthropic(u, c) == u
    ensures c.kind == "message_delta" && c.usage.None? ==> ParseAnthropic(u, c) == u
  {
  }

  // What a line does to the usage: only a data line with a payload that decodes counts, and
  // neither an empty payload nor the end marker does.
  lemma DataLine(lib: Library, u: Usage, rest: Bytes)
    ensures var p := lib.trimSpace(rest);
            var silent := p == "" || p == "[DONE]";
            && (silent ==> forall provider :: ParseLine(lib, provider, u, "data: " + rest) == u)
            && (!silent && lib.decodeOpenAI(p).Some? ==>
                  ParseLine(lib, OpenAI, u, "data: " + rest) == ParseOpenAI(u, lib.decodeOpenAI(p).value))
            && (!silent && lib.decodeAnthropic(p).Some? ==>
                  ParseLine(lib, Anthropic, u, "data: " + rest) == ParseAnthropic(u, lib.decodeAnthropic(p).value))
            && (lib.decodeOpenAI(p).None? ==> ParseLine(lib, OpenAI, u, "data: " + rest) == u)
            && (lib.decodeAnthropic(p).None? ==> ParseLine(lib, Anthropic, u, "data: " + rest) == u)
            && ParseLine(lib, Unknown, u, "data: " + rest) == u
  {
    assert ("data: " + rest)[6..] == rest;
    assert "data: " <= "data: " + rest;
  }

  lemma OtherLine(lib: Library, provider: Provider, u: Usage, line: Bytes)
    requires |line| < 6 || line[..6] != "data: "
    ensures ParseLine(lib, provider, u, line) == u
  {
  }

  // A whole stream read as one: the data line of a chunk, ended by LF or CR LF, counts.
  lemma ChunkCounts(lib: Library, u: Usage, b: Bytes, crs: nat)
    requires lib.trimSpace(b) == b && b != "" && b != "[DONE]" && b[|b| - 1] != '\r' && '\n' !in b
    ensures var chunk := "data: " + b + seq(crs, i => '\r') + "\n";
            && (lib.decodeOpenAI(b).Some? ==>
                  Feed(lib, OpenAI, Tap([], u), chunk) == Tap([], ParseOpenAI(u, lib.decodeOpenAI(b).value)))
            && (lib.decodeAnthropic(b).Some? ==>
                  Feed(lib, Anthropic, Tap([], u), chunk) == Tap([], ParseAnthropic(u, lib.decodeAnthropic(b).value)))
  {
    var line := "data: " + b + seq(crs, i => '\r');
    LineAlone(line);
    TrimsReturns("data: " + b, crs);
    DataLine(lib, u, b);
    OneLine(lib, OpenAI, u, line);
    OneLine(lib, Anthropic, u, line);
    hide ParseLine, Fold;
    assert [] + (line + "\n") == line + "\n";
  }

  lemma OneLine(lib: Library, provider: Provider, u: Usage, line: Bytes)
    ensures Fold(lib, provider, u, [line]) == ParseLine(lib, provider, u, TrimReturns(line))
  {
    assert [line][1..] == [];
  }

  lemma LineAlone(line: Bytes)
    requires '\n' !in line
    ensures Complete(line + "\n") == [line] && Rest(line + "\n") == []
  {
    assert Join([line]) == line + "\n" + Join([]) == line + "\n" by { assert [line][1..] == []; }
    assert Join([line]) + [] == line + "\n";
    JoinThenSplit([line], []);
  }

  lemma {:induction false} TrimsReturns(line: Bytes, n: nat)
    requires line != [] && line[|line| - 1] != '\r'
    ensures TrimReturns(line + seq(n, i => '\r')) == line
  {
    var all := line + seq(n, i => '\r');
    if n == 0 {
      assert all == line;
    } else {
      assert all[..|all| - 1] == line + seq(n - 1, i => '\r');
      TrimsReturns(line, n - 1);
    }
  }

  // The per-line update folded over complete lines.
  function Fold(lib: Library, provider: Provider, u: Usage, lines: seq<Bytes>): Usage
    decreases lines
  {
    if lines == [] then u
    else Fold(lib, provider, ParseLine(lib, provider, u, TrimReturns(lines[0])), lines[1..])
  }

  lemma {:induction false} FoldConcat(lib: Library, provider: Provider, u: Usage, a: seq<Bytes>, b: seq<Bytes>)
    ensures Fold(lib, provider, u, a + b) == Fold(lib, provider, Fold(lib, provider, u, a), b)
    decreases a
  {
    if a == [] {
      assert a + b == b;
    } else {
      FoldConcat(lib, provider, ParseLine(lib, provider, u, TrimReturns(a[0])), a[1..], b);
      assert (a + b)[1..] == a[1..] + b;
    }
  }

  // ---- Chunking independence ---------------------------------------------------------------

  datatype Tap = Tap(partial: Bytes, usage: Usage)

  const FRESH_TAP := Tap([], NO_USAGE)

  function Feed(lib: Library, provider: Provider, t: Tap, chunk: Bytes): Tap {
    var buffer := t.partial + chunk;
    Tap(Rest(buffer), Fold(lib, provider, t.usage, Complete(buffer)))
  }

  function FeedAll(lib: Library, provider: Provider, t: Tap, chunks: seq<Bytes>): Tap
    decreases chunks
  {
    if chunks == [] then t else FeedAll(lib, provider, Feed(lib, provider, t, chunks[0]), chunks[1..])
  }

  function Flatten(chunks: seq<Bytes>): Bytes {
    if chunks == [] then [] else chunks[0] + Flatten(chunks[1..])
  }

  lemma FeedTwice(lib: Library, provider: Provider, t: Tap, a: Bytes, b: Bytes)
    ensures Feed(lib, provider, Feed(lib, provider, t, a), b) == Feed(lib, provider, t, a + b)
  {
    SplitConcat(t.partial + a, b);
    assert t.partial + a + b == t.partial + (a + b);
    FoldConcat(lib, provider, t.usage, Complete(t.partial + a), Complete(Rest(t.partial + a) + b));
  }

  lemma FeedNothing(lib: Library, provider: Provider, t: Tap)
    requires '\n' !in t.partial
    ensures Feed(lib, provider, t, []) == t
  {
    assert t.partial + [] == t.partial;
    assert IndexNewline(t.partial) < 0;
  }

  // However the stream is cut into reads, the meter ends where one whole read would.
  lemma {:induction false} ChunkingIndependence(lib: Library, provider: Provider, t: Tap, chunks: seq<Bytes>)
    requires '\n' !in t.partial
    ensures FeedAll(lib, provider, t, chunks) == Feed(lib, provider, t, Flatten(chunks))
    decreases chunks
  {
    if chunks == [] {
      FeedNothing(lib, provider, t);
    } else {
      ChunkingIndependence(lib, provider, Feed(lib, provider, t, chunks[0]), chunks[1..]);
      FeedTwice(lib, provider, t, chunks[0], Flatten(chunks[1..]));
    }
  }

  // From a fresh meter the result is the fold over the newline-terminated lines only.
  lemma WholeStream(lib: Library, provider: Provider, chunks: seq<Bytes>)
    ensures var s := Flatten(chunks);
            FeedAll(lib, provider, FRESH_TAP, chunks) == Tap(Rest(s), Fold(lib, provider, NO_USAGE, Complete(s)))
  {
    ChunkingIndependence(lib, provider, FRESH_TAP, chunks);
    assert [] + Flatten(chunks) == Flatten(chunks);
  }

  // ---- What the fold means, for OpenAI streams -----------------------------------------------

  function ChunkOf(lib: Library, line: Bytes): Option<OpenAIChunk> {
    match Payload(lib, TrimReturns(line))
    case None => None
    case Some(p) => lib.decodeOpenAI(p)
  }

  // The first model named.
  function FirstModel(lib: Library, lines: seq<Bytes>): string {
    if lines == [] then ""
    else
      var c := ChunkOf(lib, lines[0]);
      if c.Some? && c.value.model != "" then c.value.model else FirstModel(lib, lines[1..])
  }

  // The last usage object sent.
  function LastTokens(lib: Library, lines: seq<Bytes>): Option<Tokens> {
    if lines == [] then None
    else
      var c := ChunkOf(lib, lines[|lines| - 1]);
      if c.Some? && c.value.usage.Some? then c.value.usage else LastTokens(lib, lines[..|lines| - 1])
  }

  lemma FoldSnoc(lib: Library, provider: Provider, u: Usage, lines: seq<Bytes>, line: Bytes)
    ensures Fold(lib, provider, u, lines + [line]) ==
            ParseLine(lib, provider, Fold(lib, provider, u, lines), TrimReturns(line))
  {
    FoldConcat(lib, provider, u, lines, [line]);
  }

  lemma {:induction false} FirstModelSnoc(lib: Library, lines: seq<Bytes>, line: Bytes)
    ensures FirstModel(lib, lines + [line]) ==
            if FirstModel(lib, lines) != "" then FirstModel(lib, lines)
            else if ChunkOf(lib, line).Some? then ChunkOf(lib, line).value.model else ""
  {
    if lines == [] {
      assert lines + [line] == [line];
    } else {
      FirstModelSnoc(lib, lines[1..], line);
      assert (lines + [line])[1..] == lines[1..] + [line];
    }
  }

  // An OpenAI stream is billed to the first model named, for the last usage sent.
  lemma {:induction false} OpenAIUsage(lib: Library, lines: seq<Bytes>)
    ensures var u := Fold(lib, OpenAI, NO_USAGE, lines);
            var t := LastTokens(lib, lines);
            && u.model == FirstModel(lib, lines)
            && Tokens(u.input, u.output) == if t.Some? then t.value else Tokens(0, 0)
  {
    if lines != [] {
      var init, line := lines[..|lines| - 1], lines[|lines| - 1];
      assert lines == init + [line];
      OpenAIUsage(lib, init);
      FoldSnoc(lib, OpenAI, NO_USAGE, init, line);
      FirstModelSnoc(lib, init, line);
      hide Fold, FirstModel, TrimReturns, Payload;
    }
  }

  // ---- What the fold means, for Anthropic streams -----------------------------------------------

  function EventOf(lib: Library, line: Bytes): Option<AnthropicChunk> {
    match Payload(lib, TrimReturns(line))
    case None => None
    case Some(p) => lib.decodeAnthropic(p)
  }

  // The message of a message_start line.
  function StartOf(lib: Library, line: Bytes): Option<Message> {
    var e := EventOf(lib, line);
    if e.Some? && e.value.kind == "message_start" then e.value.message else None
  }

  // The output count a line announces, from either kind of event.
  function OutputOf(lib: Library, line: Bytes): Option<int> {
    var m, e := StartOf(lib, line), EventOf(lib, line);
    if m.Some? && m.value.usage.Some? then Some(m.value.usage.value.output)
    else if e.Some? && e.value.kind == "message_delta" && e.value.usage.Some? && e.value.usage.value.output > 0 then
      Some(e.value.usage.value.output)
    else None
  }

  // The last line for which `f` has an answer, or a default.
  function LastAnswer<T>(lines: seq<Bytes>, f: Bytes -> Option<T>, none: T): T {
    if lines == [] then none
    else
      var a := f(lines[|lines| - 1]);
      if a.Some? then a.value else LastAnswer(lines[..|lines| - 1], f, none)
  }

  function ModelIn(lib: Library): Bytes -> Option<string> {
    (line: Bytes) =>
      var m := StartOf(lib, line);
      if m.Some? && m.value.model != "" then Some(m.value.model) else None
  }

  function InputIn(lib: Library): Bytes -> Option<int> {
    (line: Bytes) =>
      var m := StartOf(lib, line);
      if m.Some? && m.value.usage.Some? then Some(m.value.usage.value.input) else None
  }

  function OutputIn(lib: Library): Bytes -> Option<int> {
    (line: Bytes) => OutputOf(lib, line)
  }

  // An Anthropic stream is billed to the last started model, for the last input count
  // started and the last output count announced by either kind of event.
  lemma {:induction false} AnthropicUsage(lib: Library, lines: seq<Bytes>)
    ensures Fold(lib, Anthropic, NO_USAGE, lines) ==
            Usage(LastAnswer(lines, ModelIn(lib), ""),
                  LastAnswer(lines, InputIn(lib), 0),
                  LastAnswer(lines, OutputIn(lib), 0))
  {
    if lines != [] {
      var init, line := lines[..|lines| - 1], lines[|lines| - 1];
      assert lines == init + [line];
      AnthropicUsage(lib, init);
      FoldSnoc(lib, Anthropic, NO_USAGE, init, line);
      hide Fold, TrimReturns, Payload;
    }
  }

  // ---- Trailer ---------------------------------------------------------------------------------

  function Decimal(n: nat): string {
    if n < 10 then ['0' + n as char] else Decimal(n / 10) + ['0' + (n % 10) as char]
  }

  function Trailer(seconds: int): (t: Bytes)
    ensures |t| > 0 && t[0] == ':'
  {
    if seconds > 0 then ": rein upstream timeout after " + Decimal(seconds) + " seconds\n\n"
    else ": rein upstream timeout\n\n"
  }

  lemma {:induction false} DecimalDigits(n: nat)
    ensures '\n' !in Decimal(n)
  {
    if n >= 10 {
      DecimalDigits(n / 10);
    }
  }

  // The decimal digits mean the number.
  lemma {:induction false} DecimalValue(n: nat)
    ensures (forall i :: 0 <= i < |Decimal(n)| ==> '0' <= Decimal(n)[i] <= '9') && Decimal(n) != []
    ensures ValueOf(Decimal(n)) == n
    ensures n > 0 ==> Decimal(n)[0] != '0'
  {
    if n < 10 {
      assert Decimal(n)[..0] == [];
    } else {
      DecimalValue(n / 10);
      assert Decimal(n)[..|Decimal(n)| - 1] == Decimal(n / 10);
    }
  }

  lemma TrailerExamples()
    ensures Trailer(0) == ": rein upstream timeout\n\n"
    ensures Trailer(30) == ": rein upstream timeout after 30 seconds\n\n"
  {
    assert Decimal(30) == Decimal(3) + "0" == "30";
  }

  // The trailer is one comment line and an empty one.
  lemma TrailerLines(seconds: int)
    ensures exists comment :: ":" <= comment && '\n' !in comment && Trailer(seconds) == Join([comment, ""])
  {
    var comment := ": rein upstream timeout";
    if seconds > 0 {
      DecimalDigits(seconds);
      comment := ": rein upstream timeout after " + Decimal(seconds) + " seconds";
    }
    JoinTwo(comment, "");
    assert Trailer(seconds) == comment + "\n" + ("" + "\n");
  }

  lemma JoinTwo(a: Bytes, b: Bytes)
    ensures Join([a, b]) == a + "\n" + (b + "\n")
  {
    assert [a, b][1..] == [b] && [b][1..] == [];
    assert Join([b]) == b + "\n" + Join([]) == b + "\n";
  }

  // A parser that stands at the start of a line is left untouched by the trailer.
  lemma TrailerIsIgnored(lib: Library, provider: Provider, u: Usage, seconds: int)
    ensures Feed(lib, provider, Tap([], u), Trailer(seconds)) == Tap([], u)
  {
    TrailerLines(seconds);
    hide Trailer;
    var trailer := Trailer(seconds);
    var comment :| ":" <= comment && '\n' !in comment && trailer == Join([comment, ""]);
    assert [] + trailer == trailer && trailer + [] == trailer;
    JoinThenSplit([comment, ""], []);
    NoDataInComment(lib, provider, u, comment);
  }

  lemma NoDataInComment(lib: Library, provider: Provider, u: Usage, comment: Bytes)
    requires ":" <= comment
    ensures Fold(lib, provider, u, [comment, ""]) == u
  {
    TrimKeepsColon(comment);
    assert TrimReturns(comment)[0] == ':' && "data: "[0] == 'd';
    assert ParseLine(lib, provider, u, TrimReturns(comment)) == u;
    assert ParseLine(lib, provider, u, TrimReturns("")) == u;
    hide ParseLine, TrimReturns;
    assert [comment, ""][1..] == [""] && [""][1..] == [];
    assert Fold(lib, provider, u, []) == u;
  }

  lemma {:induction false} TrimKeepsColon(line: Bytes)
    requires ":" <= line
    ensures ":" <= TrimReturns(line)
  {
    if line[|line| - 1] == '\r' {
      TrimKeepsColon(line[..|line| - 1]);
    }
  }

  // ---- The tee -----------------------------------------------------------------------------------

  datatype Err = NoErr | EOF | Other(text: string)

  // What a Read of the upstream body gives, and whether the deadline had passed by then.
  datatype BodyRead = BodyRead(data: Bytes, err: Err, expired: bool)

  // The fixed parts of a meter. `deadline` is absent for callers without a context.
  datatype Setup = Setup(lib: Library, provider: Provider, deadline: Option<int>, callback: bool)

  datatype Meter = Meter(tap: Tap, pending: Bytes, ended: bool, reported: bool)

  const FRESH_METER := Meter(FRESH_TAP, [], false, false)

  function Least(a: nat, b: nat): nat {
    if a < b then a else b
  }

  // One Read with a buffer of `size` bytes; `body` is consulted only if need be.
  function ReadStep(z: Setup, m: Meter, size: nat, body: BodyRead): (Meter, Bytes, Err) {
    if m.pending != [] then
      var n := Least(size, |m.pending|);
      (m.(pending := m.pending[n..]), m.pending[..n], if n == |m.pending| then EOF else NoErr)
    else if m.ended then (m, [], EOF)
    else
      var fed := if body.data != [] then m.(tap := Feed(z.lib, z.provider, m.tap, body.data)) else m;
      if body.err.NoErr? then (fed, body.data, NoErr)
      else if z.deadline.Some? && body.expired then
        (fed.(pending := Trailer(z.deadline.value), ended := true), body.data, NoErr)
      else (fed, body.data, body.err)
  }

  function CloseStep(z: Setup, m: Meter): (Meter, seq<Usage>) {
    var u := m.tap.usage;
    (m.(reported := true),
     if !m.reported && z.callback && (u.input > 0 || u.output > 0) then [u] else [])
  }

  // ---- The in-place meter -------------------------------------------------------------------------

  class StreamMeter {
    const setup: Setup
    var partial: Bytes
    var model: string
    var inputTok: int
    var outputTok: int
    var reported: bool
    var pending: Bytes
    var ended: bool
    var reports: seq<Usage>            // calls of onDone

    constructor (setup: Setup)
      ensures this.setup == setup && View() == FRESH_METER && reports == []
    {
      this.setup := setup;
      partial, model, inputTok, outputTok := [], "", 0, 0;
      reported, pending, ended, reports := false, [], false, [];
    }

    function Counted(): Usage
      reads this
    {
      Usage(model, inputTok, outputTok)
    }

    function View(): Meter
      reads this
    {
      Meter(Tap(partial, Counted()), pending, ended, reported)
    }

    method Consume(chunk: Bytes)
      modifies this`partial, this`model, this`inputTok, this`outputTok
      ensures Tap(partial, Counted()) == old(Feed(setup.lib, setup.provider, Tap(partial, Counted()), chunk))
    {
      partial := partial + chunk;
      ghost var want := Fold(setup.lib, setup.provider, Counted(), Complete(partial));
      ghost var left := Rest(partial);
      while true
        invariant Fold(setup.lib, setup.provider, Counted(), Complete(partial)) == want
        invariant Rest(partial) == left
        decreases |partial|
      {
        var idx := IndexNewline(partial);
        if idx < 0 {
          return;
        }
        var line := TrimReturns(partial[..idx]);
        partial := partial[idx + 1..];
        ParseLineInto(line);
      }
    }

    method ParseLineInto(line: Bytes)
      modifies this`model, this`inputTok, this`outputTok
      ensures Counted() == old(ParseLine(setup.lib, setup.provider, Counted(), line))
    {
      var payload := Payload(setup.lib, line);
      if payload.None? {
        return;
      }
      match setup.provider {
        case OpenAI =>
          var chunk := setup.lib.decodeOpenAI(payload.value);
          if chunk.Some? {
            if model == "" && chunk.value.model != "" {
              model := chunk.value.model;
            }
            if chunk.value.usage.Some? {
              inputTok, outputTok := chunk.value.usage.value.input, chunk.value.usage.value.output;
            }
          }
        case Anthropic =>
          var chunk := setup.lib.decodeAnthropic(payload.value);
          if chunk.Some? {
            ParseAnthropicInto(chunk.value);
          }
        case Unknown =>
      }
    }

    method ParseAnthropicInto(chunk: AnthropicChunk)
      modifies this`model, this`inputTok, this`outputTok
      ensures Counted() == old(ParseAnthropic(Counted(), chunk))
    {
      if chunk.kind == "message_start" {
        if chunk.message.Some? {
          if chunk.message.value.model != "" {
            model := chunk.message.value.model;
          }
          if chunk.message.value.usage.Some? {
            inputTok := chunk.message.value.usage.value.input;
            outputTok := chunk.message.value.usage.value.output;
          }
        }
      } else if chunk.kind == "message_delta" {
        if chunk.usage.Some? && chunk.usage.value.output > 0 {
          outputTok := chunk.usage.value.output;
        }
      }
    }

    method Read(size: nat, body: BodyRead) returns (out: Bytes, err: Err)
      modifies this
      ensures (View(), out, err) == old(ReadStep(setup, View(), size, body))
      ensures reports == old(reports)
    {
      if |pending| > 0 {
        var n := Least(size, |pending|);
        out := pending[..n];
        pending := pending[n..];
        if |pending| == 0 {
          return out, EOF;
        }
        return out, NoErr;
      }
      if ended {
        return [], EOF;
      }
      out := body.data;
      if |body.data| > 0 {
        Consume(body.data);
      }
      if body.err.NoErr? {
        return out, NoErr;
      }
      if setup.deadline.Some? && body.expired {
        pending := Trailer(setup.deadline.value);
        ended := true;
        return out, NoErr;
      }
      return out, body.err;
    }

    method Close()
      modifies this
      ensures View() == old(CloseStep(setup, View()).0)
      ensures reports == old(reports + CloseStep(setup, View()).1)
    {
      if !reported {
        reported := true;
        if setup.callback && (inputTok > 0 || outputTok > 0) {
          reports := reports + [Counted()];
        }
      }
    }
  }
}

/** What a reader of the tee receives, and when usage is reported. */
module StreamTee {
  import opened Wrappers
  import opened Lines
  import opened Stream

  datatype Call = Call(size: nat, body: BodyRead)

  datatype Drained = Drained(meter: Meter, out: Bytes, err: Err)

  // A caller that reads until the first error.
  function Drive(z: Setup, m: Meter, calls: seq<Call>): Drained
    decreases calls
  {
    if calls == [] then Drained(m, [], NoErr)
    else
      var (m', out, err) := ReadStep(z, m, calls[0].size, calls[0].body);
      if !err.NoErr? then Drained(m', out, err)
      else
        var rest := Drive(z, m', calls[1..]);
        rest.(out := out + rest.out)
  }

  // The first read that the upstream body fails, or the number of reads.
  function FirstFail(calls: seq<Call>): (f: nat)
    ensures f <= |calls|
  {
    if calls == [] || !calls[0].body.err.NoErr? then 0 else 1 + FirstFail(calls[1..])
  }

  // Bytes the upstream body gives up to and including read `n - 1`.
  function Given(calls: seq<Call>, n: nat): Bytes
    requires n <= |calls|
    decreases n
  {
    if n == 0 then [] else calls[0].body.data + Given(calls[1..], n - 1)
  }

  function Sizes(calls: seq<Call>): nat {
    if calls == [] then 0 else calls[0].size + Sizes(calls[1..])
  }

  // A pending trailer is handed out in order, whatever the buffer sizes.
  lemma {:induction false} TrailerDrains(z: Setup, m: Meter, calls: seq<Call>)
    requires m.pending != [] && m.ended
    ensures var r := Drive(z, m, calls);
            var n := Least(Sizes(calls), |m.pending|);
            && r.out == m.pending[..n] && r.meter == m.(pending := m.pending[n..])
            && r.err == if n == |m.pending| then EOF else NoErr
    decreases calls
  {
    hide ReadStep;
    if calls == [] {
      assert m.pending[0..] == m.pending;
    } else {
      var k := Least(calls[0].size, |m.pending|);
      DrainOne(z, m, calls[0]);
      if k < |m.pending| {
        var m' := m.(pending := m.pending[k..]);
        TrailerDrains(z, m', calls[1..]);
        DrainRest(m.pending, k, Least(Sizes(calls[1..]), |m'.pending|));
      }
    }
  }

  lemma DrainOne(z: Setup, m: Meter, c: Call)
    requires m.pending != []
    ensures var n := Least(c.size, |m.pending|);
            ReadStep(z, m, c.size, c.body) ==
            (m.(pending := m.pending[n..]), m.pending[..n], if n == |m.pending| then EOF else NoErr)
  {
  }

  lemma DrainRest(pending: Bytes, k: nat, n: nat)
    requires k + n <= |pending|
    ensures pending[..k] + pending[k..][..n] == pending[..k + n]
    ensures pending[k..][n..] == pending[k + n..]
  {
  }

  // The deadline had passed at the failing read.
  predicate TimesOut(z: Setup, body: BodyRead) {
    !body.err.NoErr? && z.deadline.Some? && body.expired
  }

  // Tee correctness, for every body and every sequence of buffer sizes. Before the body
  // fails the caller has exactly the upstream bytes. If it fails, the caller gets them
  // and the error, or, past the deadline, them and as much of one trailer as its
  // buffers hold, then EOF. The parsed usage is that of the upstream bytes alone.
  lemma {:induction false} TeeCorrect(z: Setup, m: Meter, calls: seq<Call>)
    requires m.pending == [] && !m.ended && '\n' !in m.tap.partial
    ensures var r := Drive(z, m, calls);
            var f := FirstFail(calls);
            if f == |calls| then
              r.out == Given(calls, f) && r.err == NoErr
              && r.meter == m.(tap := Feed(z.lib, z.provider, m.tap, Given(calls, f)))
            else
              var upstream := Given(calls, f + 1);
              && r.meter.tap == Feed(z.lib, z.provider, m.tap, upstream)
              && r.meter.reported == m.reported
              && if TimesOut(z, calls[f].body) then
                   var trailer := Trailer(z.deadline.value);
                   var n := Least(Sizes(calls[f + 1..]), |trailer|);
                   && r.out == upstream + trailer[..n] && r.meter.pending == trailer[n..]
                   && r.err == if n == |trailer| then EOF else NoErr
                 else r.out == upstream && r.err == calls[f].body.err && r.meter.pending == []
    decreases calls
  {
    hide Feed, Trailer, ReadStep;
    if calls == [] {
      FeedNothing(z.lib, z.provider, m.tap);
    } else {
      var body := calls[0].body;
      var (m', out, err) := ReadStep(z, m, calls[0].size, body);
      FirstRead(z, m, calls[0]);
      assert Given(calls, 1) == body.data + [] == body.data;
      if body.err.NoErr? {
        TeeCorrect(z, m', calls[1..]);
        var f := FirstFail(calls[1..]);
        var rest := Given(calls[1..], if f == |calls[1..]| then f else f + 1);
        FeedTwice(z.lib, z.provider, m.tap, body.data, rest);
        TeeStep(z, m, calls, rest);
      } else if TimesOut(z, body) {
        TrailerDrains(z, m', calls[1..]);
      }
    }
  }

  // The first read feeds its bytes, even none.
  lemma FirstRead(z: Setup, m: Meter, c: Call)
    requires m.pending == [] && !m.ended && '\n' !in m.tap.partial
    ensures var (m', out, err) := ReadStep(z, m, c.size, c.body);
            && out == c.body.data && m'.reported == m.reported
            && m'.tap == Feed(z.lib, z.provider, m.tap, c.body.data) && '\n' !in m'.tap.partial
            && (c.body.err.NoErr? ==> err == NoErr && m' == m.(tap := m'.tap))
            && (TimesOut(z, c.body) ==> err == NoErr && m'.ended && m'.pending == Trailer(z.deadline.value))
            && (!c.body.err.NoErr? && !TimesOut(z, c.body) ==> err == c.body.err && m'.pending == [])
  {
    FeedNothing(z.lib, z.provider, m.tap);
  }

  lemma TeeStep(z: Setup, m: Meter, calls: seq<Call>, rest: Bytes)
    requires calls != [] && calls[0].body.err.NoErr?
    requires var f := FirstFail(calls[1..]); rest == Given(calls[1..], if f == |calls[1..]| then f else f + 1)
    ensures FirstFail(calls) == 1 + FirstFail(calls[1..])
    ensures var f := FirstFail(calls); Given(calls, if f == |calls| then f else f + 1) == calls[0].body.data + rest
    ensures var f := FirstFail(calls); f < |calls| ==> calls[f + 1..] == calls[1..][f..]
  {
  }

  // Once the buffers have room for it, the whole trailer arrives, once.
  lemma WholeTrailerOnce(z: Setup, calls: seq<Call>)
    requires var f := FirstFail(calls);
             f < |calls| && TimesOut(z, calls[f].body) && Sizes(calls[f + 1..]) >= |Trailer(z.deadline.value)|
    ensures var f := FirstFail(calls);
            var r := Drive(z, FRESH_METER, calls);
            && r.out == Given(calls, f + 1) + Trailer(z.deadline.value) && r.err == EOF
            && r.meter.tap == Feed(z.lib, z.provider, FRESH_TAP, Given(calls, f + 1))
  {
    hide Feed, Trailer, ReadStep, Drive, Given;
    TeeCorrect(z, FRESH_METER, calls);
    var t := Trailer(z.deadline.value);
    assert t[..|t|] == t;
  }

  // ---- Reporting -------------------------------------------------------------------------------

  datatype Op = ReadOp(call: Call) | CloseOp

  function Apply(z: Setup, m: Meter, op: Op): (Meter, seq<Usage>) {
    match op
    case ReadOp(c) => (ReadStep(z, m, c.size, c.body).0, [])
    case CloseOp => CloseStep(z, m)
  }

  function MeterAfter(z: Setup, ops: seq<Op>): Meter {
    if ops == [] then FRESH_METER else Apply(z, MeterAfter(z, ops[..|ops| - 1]), ops[|ops| - 1]).0
  }

  function Reports(z: Setup, ops: seq<Op>): seq<Usage> {
    if ops == [] then []
    else Reports(z, ops[..|ops| - 1]) + Apply(z, MeterAfter(z, ops[..|ops| - 1]), ops[|ops| - 1]).1
  }

  function FirstClose(ops: seq<Op>): (f: nat)
    ensures f <= |ops|
    ensures f < |ops| ==> ops[f].CloseOp?
    ensures forall i :: 0 <= i < f ==> ops[i].ReadOp?
  {
    if ops == [] || ops[0].CloseOp? then 0 else 1 + FirstClose(ops[1..])
  }

  lemma {:induction false} ReportedIffClosed(z: Setup, ops: seq<Op>)
    ensures MeterAfter(z, ops).reported <==> exists i :: 0 <= i < |ops| && ops[i].CloseOp?
  {
    if ops != [] {
      ReportedIffClosed(z, ops[..|ops| - 1]);
      hide Feed, Trailer;
    }
  }

  // Over any mix of Read and Close, usage is reported at most once: at the first Close,
  // with what had been parsed by then, and only if any token was counted.
  lemma {:induction false} ReportOnce(z: Setup, ops: seq<Op>)
    ensures var f := FirstClose(ops);
            var u := MeterAfter(z, ops[..f]).tap.usage;
            Reports(z, ops) == if f < |ops| && z.callback && (u.input > 0 || u.output > 0) then [u] else []
  {
    hide ReadStep;
    if ops != [] {
      var init, op := ops[..|ops| - 1], ops[|ops| - 1];
      ReportOnce(z, init);
      ReportedIffClosed(z, init);
      var g := FirstClose(init);
      FirstCloseSnoc(ops);
      hide FirstClose;
      if g < |init| {
        assert init[g].CloseOp?;
      } else {
        assert init[..g] == init;
      }
    }
  }

  lemma FirstCloseSnoc(ops: seq<Op>)
    requires ops != []
    ensures var init := ops[..|ops| - 1];
            var f, g := FirstClose(ops), FirstClose(init);
            && init[..g] == ops[..g]
            && if g < |init| then f == g else f == if ops[|init|].CloseOp? then |init| else |ops|
  {
    var init := ops[..|ops| - 1];
    var f, g := FirstClose(ops), FirstClose(init);
    assert forall i :: 0 <= i < |init| ==> ops[i] == init[i];
    if g < |init| {
      assert ops[g].CloseOp?;
    }
  }
}
