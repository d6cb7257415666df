/** The event stream of the AI assistant: the server that prints it and the client that
    reads it back from chunks cut anywhere. Text is UTF-16, as the client sees it. */
module Sse {
  import opened PyData

  type CodeUnit = u: int | 0 <= u < 0x1_0000

  type Text = seq<CodeUnit>

  const NL: CodeUnit := 10
  const QUOTE: CodeUnit := 34
  const BACKSLASH: CodeUnit := 92
  /** `data:` */
  const FIELD: Text := [100, 97, 116, 97, 58]
  /** `[DONE]` */
  const DONE: Text := [91, 68, 79, 78, 69, 93]
  /** `{"__error__": ` */
  const ERROR_OPEN: Text := [123, 34, 95, 95, 101, 114, 114, 111, 114, 95, 95, 34, 58, 32]
  /** `}` */
  const ERROR_CLOSE: Text := [125]

  // ----- json.dumps for strings -----

  function HexDigit(d: int): CodeUnit
    requires 0 <= d < 16
  {
    if d < 10 then 48 + d else 87 + d
  }

  function EncodeUnit(u: CodeUnit): Text {
    if u == QUOTE || u == BACKSLASH then [BACKSLASH, u]
    else if u == 10 then [BACKSLASH, 110]
    else if u == 13 then [BACKSLASH, 114]
    else if u == 9 then [BACKSLASH, 116]
    else if u == 12 then [BACKSLASH, 102]
    else if u == 8 then [BACKSLASH, 98]
    else if 32 <= u <= 126 then [u]
    else [BACKSLASH, 117, HexDigit(u / 4096), HexDigit(u / 256 % 16), HexDigit(u / 16 % 16), HexDigit(u % 16)]
  }

  function EncodeAll(s: Text): Text {
    if s == [] then [] else EncodeUnit(s[0]) + EncodeAll(s[1..])
  }

  /** `json.dumps(s)` */
  function Dumps(s: Text): Text {
    [QUOTE] + EncodeAll(s) + [QUOTE]
  }

  // ----- JSON.parse -----

  function HexValue(u: CodeUnit): (r: Option<int>)
    ensures r.Some? ==> 0 <= r.value < 16
  {
    if 48 <= u <= 57 then Some(u - 48)
    else if 97 <= u <= 102 then Some(u - 87)
    else if 65 <= u <= 70 then Some(u - 55)
    else None
  }

  function HexUnit(a: CodeUnit, b: CodeUnit, c: CodeUnit, d: CodeUnit): Option<CodeUnit> {
    var p, q, r, s := HexValue(a), HexValue(b), HexValue(c), HexValue(d);
    if p.Some? && q.Some? && r.Some? && s.Some? then Some(p.value * 4096 + q.value * 256 + r.value * 16 + s.value)
    else None
  }

  function Escaped(u: CodeUnit): Option<CodeUnit> {
    if u == QUOTE || u == BACKSLASH || u == 47 then Some(u)
    else if u == 110 then Some(10)
    else if u == 114 then Some(13)
    else if u == 116 then Some(9)
    else if u == 102 then Some(12)
    else if u == 98 then Some(8)
    else None
  }

  function Cons(u: CodeUnit, rest: Option<Text>): Option<Text> {
    match rest case None => None case Some(s) => Some([u] + s)
  }

  /** The rest of a string literal after its opening quote; nothing may follow the closing one. */
  function ParseString(t: Text): Option<Text> {
    if t == [] || t[0] < 32 then None
    else if t[0] == QUOTE then (if |t| == 1 then Some([]) else None)
    else if t[0] != BACKSLASH then Cons(t[0], ParseString(t[1..]))
    else if |t| >= 2 && Escaped(t[1]).Some? then Cons(Escaped(t[1]).value, ParseString(t[2..]))
    else if |t| >= 6 && t[1] == 117 && HexUnit(t[2], t[3], t[4], t[5]).Some? then
      Cons(HexUnit(t[2], t[3], t[4], t[5]).value, ParseString(t[6..]))
    else None
  }

  datatype Json = JString(s: Text) | JError(message: Text) | JOther | Invalid

  predicate IsErrorObject(data: Text) {
    && |data| >= |ERROR_OPEN| + 2 && ERROR_OPEN <= data && data[|ERROR_OPEN|] == QUOTE && data[|data| - 1] == 125
    && ParseString(data[|ERROR_OPEN| + 1..|data| - 1]).Some?
  }

  /** String literals and the server's error object; `other` decides everything else. */
  function ParseJson(other: Text -> Json, data: Text): Json {
    if data != [] && data[0] == QUOTE then
      (match ParseString(data[1..]) case None => Invalid case Some(s) => JString(s))
    else if IsErrorObject(data) then JError(ParseString(data[|ERROR_OPEN| + 1..|data| - 1]).value)
    else other(data)
  }

  lemma Digits(u: CodeUnit, a: int, b: int, c: int, d: int)
    requires 0 <= a && 0 <= b < 16 && 0 <= c < 16 && 0 <= d < 16 && u == a * 4096 + b * 256 + c * 16 + d
    ensures a < 16 && u / 4096 == a && u / 256 == a * 16 + b && u / 16 == a * 256 + b * 16 + c && u % 16 == d
    ensures u / 256 % 16 == b && u / 16 % 16 == c
  {
  }

  lemma HexRoundTrip(u: CodeUnit)
    ensures HexValue(HexDigit(u / 4096)) == Some(u / 4096) && HexValue(HexDigit(u / 256 % 16)) == Some(u / 256 % 16)
    ensures HexValue(HexDigit(u / 16 % 16)) == Some(u / 16 % 16) && HexValue(HexDigit(u % 16)) == Some(u % 16)
    ensures u / 4096 * 4096 + u / 256 % 16 * 256 + u / 16 % 16 * 16 + u % 16 == u
  {
    var q, d := u / 16, u % 16;
    var r, c := q / 16, q % 16;
    var a, b := r / 16, r % 16;
    Digits(u, a, b, c, d);
  }

  lemma UnitRoundTrip(u: CodeUnit, rest: Text)
    ensures ParseString(EncodeUnit(u) + rest) == Cons(u, ParseString(rest))
  {
    var e := EncodeUnit(u);
    var t := e + rest;
    assert t[|e|..] == rest;
    assert forall i | 0 <= i < |e| :: t[i] == e[i];
    if |e| == 6 {
      HexRoundTrip(u);
      assert Escaped(t[1]) == None;
    }
  }

  lemma {:induction false} EncodeRoundTrip(s: Text)
    ensures ParseString(EncodeAll(s) + [QUOTE]) == Some(s)
  {
    if s == [] {
      assert EncodeAll(s) + [QUOTE] == [QUOTE];
    } else {
      EncodeRoundTrip(s[1..]);
      UnitRoundTrip(s[0], EncodeAll(s[1..]) + [QUOTE]);
      assert EncodeAll(s) + [QUOTE] == EncodeUnit(s[0]) + (EncodeAll(s[1..]) + [QUOTE]);
      assert [s[0]] + s[1..] == s;
    }
  }

  /** What the server encodes, the client decodes. */
  lemma DumpsRoundTrip(s: Text, other: Text -> Json)
    ensures ParseJson(other, Dumps(s)) == JString(s)
  {
    EncodeRoundTrip(s);
    assert Dumps(s)[1..] == EncodeAll(s) + [QUOTE];
  }

  function ErrorObject(message: Text): Text {
    ERROR_OPEN + Dumps(message) + ERROR_CLOSE
  }

  lemma ErrorRoundTrip(message: Text, other: Text -> Json)
    ensures ParseJson(other, ErrorObject(message)) == JError(message)
  {
    EncodeRoundTrip(message);
    var data := ErrorObject(message);
    assert data[|ERROR_OPEN| + 1..|data| - 1] == EncodeAll(message) + [QUOTE];
  }

  // ----- the server -----

  /** How the provider's stream ends. */
  datatype Ending = Finished | Broke(error: Text)

  function Frame(data: Text): Text {
    FIELD + [32] + data + [NL, NL]
  }

  function Frames(chunks: seq<Text>): Text {
    if chunks == [] then [] else Frames(chunks[..|chunks| - 1]) + Frame(Dumps(chunks[|chunks| - 1]))
  }

  function Closing(ending: Ending): Text {
    (match ending case Finished => [] case Broke(e) => Frame(ErrorObject(e))) + Frame(DONE)
  }

  lemma FramesGrow(chunks: seq<Text>, i: nat)
    requires i < |chunks|
    ensures Frames(chunks[..i + 1]) == Frames(chunks[..i]) + Frame(Dumps(chunks[i]))
  {
    assert chunks[..i + 1][..i] == chunks[..i];
  }

  lemma FramesEnd(frames: Text, ending: Ending)
    ensures frames + Closing(ending) ==
            if ending.Broke? then frames + Frame(ErrorObject(ending.error)) + Frame(DONE) else frames + Frame(DONE)
  {
    if ending.Broke? {
      Regroup(frames, Frame(ErrorObject(ending.error)), Frame(DONE));
    }
  }

  method EventStream(chunks: seq<Text>, ending: Ending) returns (output: Text)
    ensures output == Frames(chunks) + Closing(ending)
  {
    output := [];
    for i := 0 to |chunks|
      invariant output == Frames(chunks[..i])
    {
      FramesGrow(chunks, i);
      output := output + Frame(Dumps(chunks[i]));
    }
    assert chunks[..|chunks|] == chunks;
    FramesEnd(output, ending);
    if ending.Broke? {
      output := output + Frame(ErrorObject(ending.error));
    }
    output := output + Frame(DONE);
  }

  // ----- the client -----

  /** `text.split('\n')` */
  function Lines(t: Text): (ls: seq<Text>)
    ensures |ls| >= 1
  {
    if t == [] then [[]]
    else
      var rest := Lines(t[1..]);
      if t[0] == NL then [[]] + rest else [[t[0]] + rest[0]] + rest[1..]
  }

  predicate IsSpace(u: CodeUnit) {
    9 <= u <= 13 || u == 32 || u == 160 || u == 0x1680 || 0x2000 <= u <= 0x200a || u == 0x2028 || u == 0x2029
    || u == 0x202f || u == 0x205f || u == 0x3000 || u == 0xfeff
  }

  function TrimStart(t: Text): Text {
    if t != [] && IsSpace(t[0]) then TrimStart(t[1..]) else t
  }

  function TrimEnd(t: Text): Text {
    if t != [] && IsSpace(t[|t| - 1]) then TrimEnd(t[..|t| - 1]) else t
  }

  datatype Effect = Nothing | Yields(s: Text) | Throws(message: Text)

  function ReadLine(parse: Text -> Json, line: Text): Effect {
    if !(FIELD <= line) then Nothing
    else
      var data := TrimEnd(TrimStart(line[5..]));
      if data == [] || data == DONE then Nothing
      else match parse(data)
        case JString(s) => Yields(s)
        case JError(m) => Throws(m)
        case _ => Nothing
  }

  /** What was yielded, and the error that was thrown, if any. */
  datatype Outcome = Outcome(yielded: seq<Text>, error: Option<Text>)

  /** An error ends the reading. */
  function Add(before: Outcome, effect: Effect): Outcome {
    if before.error.Some? then before
    else match effect
      case Nothing => before
      case Yields(s) => Outcome(before.yielded + [s], None)
      case Throws(m) => Outcome(before.yielded, Some(m))
  }

  function ReadLines(parse: Text -> Json, lines: seq<Text>): Outcome {
    if lines == [] then Outcome([], None)
    else Add(ReadLines(parse, lines[..|lines| - 1]), ReadLine(parse, lines[|lines| - 1]))
  }

  /** What a text means to the client: its complete lines, read in order. */
  function ReadText(parse: Text -> Json, t: Text): Outcome {
    ReadLines(parse, Lines(t)[..|Lines(t)| - 1])
  }

  ghost function Joined(chunks: seq<Text>): Text {
    if chunks == [] then [] else Joined(chunks[..|chunks| - 1]) + chunks[|chunks| - 1]
  }

  /** `a` is cut at its line feeds; what follows only continues its last line. */
  lemma {:induction false} LinesOfMore(a: Text, b: Text)
    ensures var n := |Lines(a)| - 1; Lines(a + b) == Lines(a)[..n] + Lines(Lines(a)[n] + b)
  {
    if a == [] {
      assert a + b == b && Lines(a)[0] + b == b && Lines(a)[..0] == [];
    } else {
      LinesOfMore(a[1..], b);
      assert (a + b)[1..] == a[1..] + b && (a + b)[0] == a[0];
      LinesCons(a[0], Lines(a[1..]), Lines(a), Lines(a[1..] + b), Lines(a + b), b);
    }
  }

  lemma LinesCons(u: CodeUnit, rest: seq<Text>, all: seq<Text>, restMore: seq<Text>, allMore: seq<Text>, b: Text)
    requires |rest| >= 1 && |restMore| >= 1
    requires restMore == rest[..|rest| - 1] + Lines(rest[|rest| - 1] + b)
    requires all == if u == NL then [[]] + rest else [[u] + rest[0]] + rest[1..]
    requires allMore == if u == NL then [[]] + restMore else [[u] + restMore[0]] + restMore[1..]
    ensures allMore == all[..|all| - 1] + Lines(all[|all| - 1] + b)
  {
    var m := |rest| - 1;
    var tail := Lines(rest[m] + b);
    if u == NL {
      assert all[..m + 1] == [[]] + rest[..m] && all[m + 1] == rest[m];
    } else if m == 0 {
      OnlyLineGrows(u, rest[0], b);
      assert rest[..0] == [] && all[..0] == [] && restMore == tail;
    } else {
      FirstLineGrows(u, rest, tail);
    }
  }

  lemma OnlyLineGrows(u: CodeUnit, line: Text, b: Text)
    requires u != NL
    ensures var more := Lines(line + b);
            Lines([u] + line + b) == [[u] + more[0]] + more[1..]
  {
    assert ([u] + line + b)[1..] == line + b;
  }

  lemma FirstLineGrows(u: CodeUnit, rest: seq<Text>, tail: seq<Text>)
    requires |rest| > 1
    ensures var m := |rest| - 1;
            var all, more := [[u] + rest[0]] + rest[1..], rest[..m] + tail;
            all[m] == rest[m] && [[u] + more[0]] + more[1..] == all[..m] + tail
  {
    var m := |rest| - 1;
    assert (rest[..m] + tail)[1..] == rest[1..m] + tail;
    assert ([[u] + rest[0]] + rest[1..])[..m] == [[u] + rest[0]] + rest[1..m];
  }

  /** What was read first, and then more. */
  ghost function Both(first: Outcome, more: Outcome): Outcome {
    if first.error.Some? then first else Outcome(first.yielded + more.yielded, more.error)
  }

  lemma AddToBoth(first: Outcome, more: Outcome, effect: Effect)
    ensures Add(Both(first, more), effect) == Both(first, Add(more, effect))
  {
    if effect.Yields? {
      assert first.yielded + (more.yielded + [effect.s]) == first.yielded + more.yielded + [effect.s];
    }
  }

  lemma {:induction false} ReadMore(parse: Text -> Json, lines: seq<Text>, more: seq<Text>)
    ensures ReadLines(parse, lines + more) == Both(ReadLines(parse, lines), ReadLines(parse, more))
  {
    if more == [] {
      assert lines + more == lines;
    } else {
      var n := |more| - 1;
      ReadMore(parse, lines, more[..n]);
      assert (lines + more)[..|lines| + n] == lines + more[..n];
      AddToBoth(ReadLines(parse, lines), ReadLines(parse, more[..n]), ReadLine(parse, more[n]));
    }
  }

  /** The loop over the complete lines of one chunk. */
  method ReadLinesInto(parse: Text -> Json, lines: seq<Text>, before: seq<Text>)
    returns (yielded: seq<Text>, error: Option<Text>)
    ensures yielded == before + ReadLines(parse, lines).yielded && error == ReadLines(parse, lines).error
  {
    yielded, error := before, None;
    for k := 0 to |lines|
      invariant ReadLines(parse, lines[..k]).error == None && yielded == before + ReadLines(parse, lines[..k]).yielded
    {
      assert lines[..k + 1][..k] == lines[..k];
      match ReadLine(parse, lines[k])
      case Nothing =>
      case Yields(s) => yielded := yielded + [s];
      case Throws(m) =>
        ThrownStays(parse, lines, k + 1);
        return yielded, Some(m);
    }
    assert lines[..|lines|] == lines;
  }

  lemma TextOfMore(parse: Text -> Json, a: Text, b: Text)
    ensures var buffer := Lines(a)[|Lines(a)| - 1] + b;
            var first, more := ReadText(parse, a), ReadText(parse, buffer);
            && Lines(a + b)[|Lines(a + b)| - 1] == Lines(buffer)[|Lines(buffer)| - 1]
            && ReadText(parse, a + b) ==
                 if first.error.Some? then first else Outcome(first.yielded + more.yielded, more.error)
  {
    var n := |Lines(a)| - 1;
    var tail := Lines(Lines(a)[n] + b);
    LinesOfMore(a, b);
    assert Lines(a + b)[..|Lines(a + b)| - 1] == Lines(a)[..n] + tail[..|tail| - 1];
    ReadMore(parse, Lines(a)[..n], tail[..|tail| - 1]);
  }

  /** The chunked reader: whatever the cuts, it yields what the whole text means. */
  method StreamAIGenerate(parse: Text -> Json, chunks: seq<Text>) returns (yielded: seq<Text>, error: Option<Text>)
    ensures Outcome(yielded, error) == ReadText(parse, Joined(chunks))
  {
    var buffer: Text := [];
    yielded, error := [], None;
    ghost var sofar: Text := [];
    for i := 0 to |chunks|
      invariant sofar == Joined(chunks[..i])
      invariant error == None && buffer == Lines(sofar)[|Lines(sofar)| - 1]
                && ReadText(parse, sofar) == Outcome(yielded, None)
    {
      JoinedNext(chunks, i);
      TextOfMore(parse, sofar, chunks[i]);
      sofar := sofar + chunks[i];
      buffer := buffer + chunks[i];
      var lines := Lines(buffer);
      buffer := lines[|lines| - 1];
      yielded, error := ReadLinesInto(parse, lines[..|lines| - 1], yielded);
      if error.Some? {
        AllChunks(parse, chunks, i + 1);
        return;
      }
    }
    assert chunks[..|chunks|] == chunks;
  }

  lemma JoinedNext(chunks: seq<Text>, i: nat)
    requires i < |chunks|
    ensures Joined(chunks[..i + 1]) == Joined(chunks[..i]) + chunks[i]
  {
    assert chunks[..i + 1][..i] == chunks[..i];
  }

  lemma ThrownStays(parse: Text -> Json, lines: seq<Text>, k: nat)
    requires k <= |lines| && ReadLines(parse, lines[..k]).error.Some?
    ensures ReadLines(parse, lines) == ReadLines(parse, lines[..k])
  {
    assert lines == lines[..k] + lines[k..];
    ReadMore(parse, lines[..k], lines[k..]);
  }

  lemma {:induction false} AllChunks(parse: Text -> Json, chunks: seq<Text>, i: nat)
    requires i <= |chunks| && ReadText(parse, Joined(chunks[..i])).error.Some?
    ensures ReadText(parse, Joined(chunks)) == ReadText(parse, Joined(chunks[..i]))
    decreases |chunks| - i
  {
    if i == |chunks| {
      assert chunks[..i] == chunks;
    } else {
      assert chunks[..i + 1][..i] == chunks[..i];
      TextOfMore(parse, Joined(chunks[..i]), chunks[i]);
      AllChunks(parse, chunks, i + 1);
    }
  }

  // ----- the two together -----

  ghost predicate OneLine(t: Text) {
    NL !in t
  }

  lemma {:induction false} LinesOfLine(line: Text, rest: Text)
    requires OneLine(line)
    ensures Lines(line + [NL] + rest) == [line] + Lines(rest)
  {
    var t := line + [NL] + rest;
    if line == [] {
      assert t[1..] == rest;
    } else {
      LinesOfLine(line[1..], rest);
      assert t[1..] == line[1..] + [NL] + rest;
      assert [line[0]] + line[1..] == line;
    }
  }

  lemma {:induction false} EncodedOneLine(s: Text)
    ensures OneLine(EncodeAll(s)) && OneLine(Dumps(s)) && OneLine(ErrorObject(s))
  {
    if s != [] {
      EncodedOneLine(s[1..]);
      assert OneLine(EncodeUnit(s[0]));
    }
  }

  lemma Trimmed(data: Text)
    requires data != [] && !IsSpace(data[0]) && !IsSpace(data[|data| - 1])
    ensures TrimEnd(TrimStart([32] + data)) == data
  {
    var padded: Text := [32] + data;
    assert padded[1..] == data && IsSpace(padded[0]);
    assert TrimStart(padded) == TrimStart(padded[1..]);
  }

  function Then(effect: Effect, later: Outcome): Outcome {
    match effect
    case Nothing => later
    case Yields(s) => Outcome([s] + later.yielded, later.error)
    case Throws(m) => Outcome([], Some(m))
  }

  lemma ReadFirst(parse: Text -> Json, line: Text, more: seq<Text>)
    ensures ReadLines(parse, [line] + more) == Then(ReadLine(parse, line), ReadLines(parse, more))
  {
    var one: seq<Text> := [line];
    ReadOne(parse, line, one);
    ReadMore(parse, one, more);
  }

  lemma ReadOne(parse: Text -> Json, line: Text, one: seq<Text>)
    requires one == [line]
    ensures ReadLines(parse, one) == Then(ReadLine(parse, line), Outcome([], None))
  {
    assert one[..0] == [];
  }

  lemma LinesOfFrame(line: Text, rest: Text)
    requires OneLine(line)
    ensures Lines(line + [NL, NL] + rest) == [line] + ([[]] + Lines(rest))
  {
    var empty: Text := [];
    assert line + [NL, NL] + rest == line + [NL] + (empty + [NL] + rest);
    LinesOfLine(line, empty + [NL] + rest);
    LinesOfLine(empty, rest);
  }

  function DataEffect(parse: Text -> Json, data: Text): Effect {
    if data == DONE then Nothing
    else match parse(data) case JString(s) => Yields(s) case JError(m) => Throws(m) case _ => Nothing
  }

  lemma LineEffect(parse: Text -> Json, data: Text)
    requires data != [] && !IsSpace(data[0]) && !IsSpace(data[|data| - 1])
    ensures ReadLine(parse, FIELD + [32] + data) == DataEffect(parse, data)
  {
    var line := FIELD + [32] + data;
    Trimmed(data);
    assert line[5..] == [32] + data;
  }

  /** A frame is read as its data. */
  lemma FrameRead(parse: Text -> Json, data: Text, rest: Text)
    requires OneLine(data) && data != [] && !IsSpace(data[0]) && !IsSpace(data[|data| - 1])
    ensures ReadText(parse, Frame(data) + rest) == Then(DataEffect(parse, data), ReadText(parse, rest))
  {
    var line := FIELD + [32] + data;
    LineEffect(parse, data);
    TwoLinesRead(parse, line, rest);
    assert Frame(data) == line + [NL, NL];
  }

  lemma TwoLinesRead(parse: Text -> Json, line: Text, rest: Text)
    requires OneLine(line)
    ensures ReadText(parse, line + [NL, NL] + rest) == Then(ReadLine(parse, line), ReadText(parse, rest))
  {
    LinesOfFrame(line, rest);
    var ls, all := Lines(rest), Lines(line + [NL, NL] + rest);
    var complete := ls[..|ls| - 1];
    assert all[..|all| - 1] == [line] + ([[]] + complete);
    ReadFirst(parse, line, [[]] + complete);
    ReadFirst(parse, [], complete);
  }

  /** The client's parser; `other` is its behaviour on what the server never sends. */
  ghost predicate Parses(parse: Text -> Json, other: Text -> Json) {
    forall d :: parse(d) == ParseJson(other, d)
  }

  lemma ChunkRead(parse: Text -> Json, other: Text -> Json, chunk: Text, rest: Text)
    requires Parses(parse, other)
    ensures ReadText(parse, Frame(Dumps(chunk)) + rest) == Then(Yields(chunk), ReadText(parse, rest))
  {
    EncodedOneLine(chunk);
    DumpsRoundTrip(chunk, other);
    FrameRead(parse, Dumps(chunk), rest);
  }

  lemma {:induction false} FramesRead(parse: Text -> Json, other: Text -> Json, chunks: seq<Text>, rest: Text)
    requires Parses(parse, other)
    ensures var later := ReadText(parse, rest);
            ReadText(parse, Frames(chunks) + rest) == Outcome(chunks + later.yielded, later.error)
    decreases |chunks|
  {
    if chunks == [] {
      assert Frames(chunks) + rest == rest;
    } else {
      var n := |chunks| - 1;
      var last := chunks[n];
      var frame := Frame(Dumps(last));
      FramesRead(parse, other, chunks[..n], frame + rest);
      Regroup(Frames(chunks[..n]), frame, rest);
      ChunkRead(parse, other, last, rest);
      LastApart(chunks, ReadText(parse, rest).yielded);
    }
  }

  lemma LastApart(chunks: seq<Text>, more: seq<Text>)
    requires chunks != []
    ensures chunks[..|chunks| - 1] + ([chunks[|chunks| - 1]] + more) == chunks + more
  {
  }

  lemma Regroup(a: Text, b: Text, c: Text)
    ensures a + b + c == a + (b + c)
  {
  }

  lemma ClosingRead(parse: Text -> Json, other: Text -> Json, ending: Ending)
    requires Parses(parse, other)
    ensures ReadText(parse, Closing(ending)) == Outcome([], match ending case Finished => None case Broke(e) => Some(e))
  {
    var nothing: Text := [];
    assert Frame(DONE) + nothing == Frame(DONE);
    FrameRead(parse, DONE, nothing);
    if ending.Broke? {
      EncodedOneLine(ending.error);
      ErrorRoundTrip(ending.error, other);
      FrameRead(parse, ErrorObject(ending.error), Frame(DONE));
    } else {
      assert Closing(ending) == Frame(DONE);
    }
  }

  /** On the server's output the client yields exactly the provider's chunks and throws
      exactly the provider's error. */
  lemma ClientReadsServer(parse: Text -> Json, other: Text -> Json, chunks: seq<Text>, ending: Ending)
    requires Parses(parse, other)
    ensures ReadText(parse, Frames(chunks) + Closing(ending)) ==
            Outcome(chunks, match ending case Finished => None case Broke(e) => Some(e))
  {
    FramesRead(parse, other, chunks, Closing(ending));
    ClosingRead(parse, other, ending);
  }

  // ----- the texts on the wire -----

  /** The code unit of a character of the basic plane. */
  ghost function Unit(c: char): CodeUnit {
    if c as int < 0x1_0000 then c as int else 0xFFFD
  }

  ghost function Units(s: string): (t: Text)
    ensures |t| == |s| && forall i | 0 <= i < |s| :: t[i] == Unit(s[i])
  {
    seq(|s|, i requires 0 <= i < |s| => Unit(s[i]))
  }

  /** ASCII without control characters, quotes or backslashes. */
  ghost predicate IsPlain(s: string) {
    forall c | c in s :: ' ' <= c <= '~' && c != '\"' && c != '\\'
  }

  lemma PlainUnit(u: CodeUnit)
    requires 32 <= u <= 126 && u != QUOTE && u != BACKSLASH
    ensures EncodeUnit(u) == [u]
  {
  }

  lemma {:induction false} PlainEncoded(s: string)
    requires IsPlain(s)
    ensures EncodeAll(Units(s)) == Units(s)
  {
    if s != "" {
      var t := Units(s);
      assert s[0] in s && forall c | c in s[1..] :: c in s;
      PlainEncoded(s[1..]);
      assert t[1..] == Units(s[1..]);
      PlainUnit(t[0]);
      assert [t[0]] + t[1..] == t;
    }
  }

  lemma PlainDumped(s: string)
    requires IsPlain(s)
    ensures Dumps(Units(s)) == Units("\"" + s + "\"")
  {
    PlainEncoded(s);
  }

  /** A chunk of plain text is sent as one `data:` line with the quoted text, and an empty line. */
  lemma PlainChunkSent(s: string)
    requires IsPlain(s)
    ensures Frames([Units(s)]) == Units("data: \"" + s + "\"\n\n")
  {
    var chunks: seq<Text> := [Units(s)];
    assert chunks[..0] == [] && Frames([]) == [];
    PlainDumped(s);
    assert Frame(Units("\"" + s + "\"")) == Units("data: \"" + s + "\"\n\n");
  }

  /** The stream ends with `[DONE]`, after the error if there was one. */
  lemma ClosingSent(e: string)
    requires IsPlain(e)
    ensures Closing(Finished) == Units("data: [DONE]\n\n")
    ensures Closing(Broke(Units(e)))
         == Units("data: {\"__error__\": \"") + Units(e) + Units("\"}\n\n") + Units("data: [DONE]\n\n")
  {
    DoneSent();
    ErrorSent(e);
  }

  lemma DoneSent()
    ensures Frame(DONE) == Units("data: [DONE]\n\n")
  {
  }

  lemma ErrorSent(e: string)
    requires IsPlain(e)
    ensures Frame(ErrorObject(Units(e))) == Units("data: {\"__error__\": \"") + Units(e) + Units("\"}\n\n")
  {
    PlainEncoded(e);
    Opened();
    Ended();
    Spliced(FIELD + [32], ERROR_OPEN, [QUOTE], Units(e), ERROR_CLOSE, [NL, NL]);
  }

  lemma Spliced(field: Text, opening: Text, quote: Text, t: Text, ending: Text, lines: Text)
    ensures field + (opening + (quote + t + quote) + ending) + lines
         == (field + opening + quote) + t + (quote + ending + lines)
  {
  }

  lemma Opened()
    ensures FIELD + [32] + ERROR_OPEN + [QUOTE] == Units("data: {\"__error__\": \"")
  {
  }

  lemma Ended()
    ensures [QUOTE] + ERROR_CLOSE + [NL, NL] == Units("\"}\n\n")
  {
  }

  ghost predicate Printable(t: Text) {
    forall u | u in t :: 32 <= u <= 126
  }

  lemma UnitPrintable(u: CodeUnit)
    ensures Printable(EncodeUnit(u))
  {
  }

  lemma {:induction false} AllPrintable(s: Text)
    ensures Printable(EncodeAll(s))
  {
    if s != [] {
      UnitPrintable(s[0]);
      AllPrintable(s[1..]);
    }
  }

  /** Whatever the text, only printable ASCII goes over the wire: the rest is escaped. */
  lemma DumpsPrintable(s: Text)
    ensures Printable(Dumps(s))
  {
    AllPrintable(s);
  }

  /** The escapes of two characters; the other ones are four hexadecimal digits. */
  lemma ShortEscapes(u: CodeUnit)
    ensures EncodeUnit(34) == Units("\\\"") && EncodeUnit(92) == Units("\\\\")
    ensures EncodeUnit(8) == Units("\\b") && EncodeUnit(9) == Units("\\t") && EncodeUnit(10) == Units("\\n")
    ensures EncodeUnit(12) == Units("\\f") && EncodeUnit(13) == Units("\\r")
    ensures EncodeUnit(0x20AC) == Units("\\u20ac")
    ensures |EncodeUnit(u)| == 6 <==> (u < 32 && u !in {8, 9, 10, 12, 13}) || u > 126
  {
  }

  /** What the parser reads besides (section 7 of RFC 8259): an escaped solidus, and hexadecimal
      digits of both cases. */
  lemma OtherEscapes(rest: Text, d: nat)
    ensures ParseString(Units("\\/") + rest) == Cons(Unit('/'), ParseString(rest))
    ensures d < 16 ==> HexValue(Unit("0123456789abcdef"[d])) == Some(d) == HexValue(Unit("0123456789ABCDEF"[d]))
  {
    var t := Units("\\/") + rest;
    assert t[0] == BACKSLASH && t[1] == 47 && t[2..] == rest;
  }

  /** Neither a string nor the server's error object. */
  lemma OtherJson(other: Text -> Json, data: Text)
    requires data == [] || (data[0] != QUOTE && !(ERROR_OPEN <= data))
    ensures ParseJson(other, data) == other(data)
  {
  }

  // ----- what the client makes of a line -----

  /** White space and line terminators (sections 12.2 and 12.3 of ECMA-262). */
  lemma SpacesAre(u: CodeUnit)
    ensures IsSpace(u) <==>
            u in {0x9, 0xA, 0xB, 0xC, 0xD, 0x20, 0xA0, 0x1680, 0x2000, 0x2001, 0x2002, 0x2003, 0x2004, 0x2005, 0x2006,
                  0x2007, 0x2008, 0x2009, 0x200A, 0x2028, 0x2029, 0x202F, 0x205F, 0x3000, 0xFEFF}
  {
  }

  ghost predicate Blank(t: Text) {
    forall u | u in t :: IsSpace(u)
  }

  ghost predicate NoBlankEnds(data: Text) {
    data != [] ==> !IsSpace(data[0]) && !IsSpace(data[|data| - 1])
  }

  lemma {:induction false} StartTrimmed(before: Text, t: Text)
    requires Blank(before) && (t != [] ==> !IsSpace(t[0]))
    ensures TrimStart(before + t) == t
  {
    if before == [] {
      assert before + t == t;
    } else {
      assert before[0] in before && (before + t)[1..] == before[1..] + t;
      StartTrimmed(before[1..], t);
    }
  }

  lemma {:induction false} EndTrimmed(t: Text, after: Text)
    requires Blank(after) && (t != [] ==> !IsSpace(t[|t| - 1]))
    ensures TrimEnd(t + after) == t
  {
    if after == [] {
      assert t + after == t;
    } else {
      var n := |after| - 1;
      assert after[n] in after && (t + after)[..|t + after| - 1] == t + after[..n];
      EndTrimmed(t, after[..n]);
    }
  }

  lemma AllTrimmed(before: Text, data: Text, after: Text)
    requires Blank(before) && Blank(after) && NoBlankEnds(data)
    ensures TrimEnd(TrimStart(before + data + after)) == data
  {
    if data == [] {
      var none: Text := [];
      assert before + data + after == (before + after) + none;
      StartTrimmed(before + after, none);
    } else {
      assert before + data + after == before + (data + after);
      StartTrimmed(before, data + after);
      EndTrimmed(data, after);
    }
  }

  /** A line without `data:` is passed over, and so are empty data, `[DONE]`, and whatever parses
      to neither a string nor an error; space around the data does not count. */
  lemma LineMeans(parse: Text -> Json, line: Text, before: Text, data: Text, after: Text)
    requires Blank(before) && Blank(after) && NoBlankEnds(data)
    ensures !(Units("data:") <= line) ==> ReadLine(parse, line) == Nothing
    ensures line == Units("data:") + before + data + after ==>
              ReadLine(parse, line) ==
                if data == [] || data == Units("[DONE]") then Nothing
                else if parse(data).JString? then Yields(parse(data).s)
                else if parse(data).JError? then Throws(parse(data).message)
                else Nothing
  {
    assert FIELD == Units("data:") && DONE == Units("[DONE]");
    if line == Units("data:") + before + data + after {
      assert line == FIELD + (before + data + after);
      AllTrimmed(before, data, after);
    }
  }

  /** The lines are what lies between the line feeds. */
  lemma {:induction false} LinesExactly(t: Text, lines: seq<Text>)
    requires lines != []
    ensures Lines(t) == lines <==> Rejoined(lines) == t && forall line | line in lines :: OneLine(line)
    decreases |lines|
  {
    if |lines| == 1 {
      if Rejoined(lines) == t && OneLine(lines[0]) {
        LinesOfOne(t);
      }
    } else if Rejoined(lines) == t && forall line | line in lines :: OneLine(line) {
      assert lines[0] in lines;
      assert forall line | line in lines[1..] :: line in lines;
      LinesOfLine(lines[0], Rejoined(lines[1..]));
      LinesExactly(Rejoined(lines[1..]), lines[1..]);
    }
    LinesRejoin(t);
  }

  ghost function Rejoined(lines: seq<Text>): Text {
    if lines == [] then [] else if |lines| == 1 then lines[0] else lines[0] + [NL] + Rejoined(lines[1..])
  }

  lemma {:induction false} LinesOfOne(t: Text)
    requires OneLine(t)
    ensures Lines(t) == [t]
  {
    if t != [] {
      LinesOfOne(t[1..]);
      assert [t[0]] + t[1..] == t;
    }
  }

  lemma {:induction false} LinesRejoin(t: Text)
    ensures Rejoined(Lines(t)) == t && forall line | line in Lines(t) :: OneLine(line)
  {
    if t != [] {
      var rest := Lines(t[1..]);
      LinesRejoin(t[1..]);
      if t[0] == NL {
        assert ([[]] + rest)[1..] == rest;
      } else {
        var lines := [[t[0]] + rest[0]] + rest[1..];
        assert lines[1..] == rest[1..] && rest[0] in rest;
        forall line | line in lines ensures OneLine(line) {
          assert line == lines[0] || line in rest;
        }
      }
    }
  }

  /** A line is read only when its line feed has come. */
  lemma UnfinishedUnread(parse: Text -> Json, t: Text)
    requires OneLine(t)
    ensures ReadText(parse, t) == Outcome([], None)
  {
    LinesOfOne(t);
  }

  /** Lines are read in their order, up to the first error. */
  lemma {:induction false} FirstErrorStops(parse: Text -> Json, lines: seq<Text>, k: nat, m: Text)
    requires k < |lines| && ReadLine(parse, lines[k]) == Throws(m)
    requires forall i | 0 <= i < k :: !ReadLine(parse, lines[i]).Throws?
    ensures ReadLines(parse, lines) == Outcome(ReadLines(parse, lines[..k]).yielded, Some(m))
  {
    NoErrorYet(parse, lines[..k]);
    ReadFirst(parse, lines[k], lines[k + 1..]);
    ReadMore(parse, lines[..k], [lines[k]] + lines[k + 1..]);
    assert lines == lines[..k] + ([lines[k]] + lines[k + 1..]);
  }

  lemma {:induction false} NoErrorYet(parse: Text -> Json, lines: seq<Text>)
    requires forall line | line in lines :: !ReadLine(parse, line).Throws?
    ensures ReadLines(parse, lines).error == None
  {
    if lines != [] {
      NoErrorYet(parse, lines[..|lines| - 1]);
      assert lines[|lines| - 1] in lines;
    }
  }
}
