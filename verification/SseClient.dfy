// Incremental SSE client: network fragments are buffered, cut at line feeds, and every complete
// line is turned into callbacks until a terminal event.
module SseClient {
  import opened Text
  import opened Wrappers

  // ---------- Parsed payloads ----------

  datatype Json =
    | JNull
    | JBool(b: bool)
    | JNumber(n: real)
    | JString(s: string)
    | JArray(items: seq<Json>)
    | JObject(fields: map<string, Json>)

  // JSON.parse: a partial function, given by the environment.
  type Parser = string -> Option<Json>

  // Property access on anything but null: `undefined` is None.
  function Prop(v: Json, name: string): Option<Json> {
    match v
    case JObject(fields) => if name in fields then Some(fields[name]) else None
    case JArray(items) => if name == "0" && items != [] then Some(items[0]) else None
    case JString(s) => if name == "0" && s != "" then Some(JString(s[..1])) else None
    case _ => None
  }

  // v?.name: null and undefined give undefined.
  function OptProp(v: Option<Json>, name: string): Option<Json> {
    if v.None? || v.value.JNull? then None else Prop(v.value, name)
  }

  // The dual-format token. A missing or null content gives None.
  function TokenContent(parsed: Json): Option<Json> {
    var direct := Prop(parsed, "content");
    if direct.Some? && direct.value.JString? then direct
    else
      var nested := OptProp(OptProp(OptProp(Prop(parsed, "choices"), "0"), "delta"), "content");
      if nested.Some? && nested.value.JNull? then None else nested
  }

  datatype SseError = SseError(code: string, message: string)

  function ExtractError(parsed: Json): Option<SseError> {
    var code, message := Prop(parsed, "error"), Prop(parsed, "message");
    if code.Some? && code.value.JString? then
      Some(SseError(code.value.s, if message.Some? && message.value.JString? then message.value.s else ""))
    else None
  }

  // ---------- Callbacks ----------

  datatype Event =
    | OnToken(content: Json, messageId: string)
    | OnDone(messageId: string)
    | OnError(error: SseError)

  // How the response body ends: closed by the server, aborted by disconnect(), or failed.
  datatype Ending = Closed | Aborted | Failed(reason: string)

  // ---------- Specification: a one-shot parser over whole lines ----------

  datatype Line = Ignored | Terminal(event: Event) | Payload(newId: Option<string>, token: Option<Json>)

  function ReadLine(line: string, lastId: string, parse: Parser): Line {
    var trimmed := Trim(line, IsJsSpace);
    if !StartsWith(trimmed, "data:") then Ignored
    else
      var payload := Trim(trimmed[5..], IsJsSpace);
      if payload == "[DONE]" then Terminal(OnDone(lastId))
      else
        var parsed := parse(payload);
        // Reading a property of null throws, and the handler skips the line.
        if parsed.None? || parsed.value.JNull? then Ignored
        else
          var error := ExtractError(parsed.value);
          var id := Prop(parsed.value, "id");
          if error.Some? then Terminal(OnError(error.value))
          else Payload(if id.Some? && id.value.JString? then Some(id.value.s) else None, TokenContent(parsed.value))
  }

  function NextId(line: Line, lastId: string): string {
    if line.Payload? && line.newId.Some? then line.newId.value else lastId
  }

  function LineEvents(line: Line, lastId: string): seq<Event> {
    match line
    case Ignored => []
    case Terminal(event) => [event]
    case Payload(_, token) => if token.Some? then [OnToken(token.value, NextId(line, lastId))] else []
  }

  datatype Progress = Progress(events: seq<Event>, lastId: string, stopped: bool)

  function Step(p: Progress, text: string, parse: Parser): Progress {
    var line := ReadLine(text, p.lastId, parse);
    Progress(p.events + LineEvents(line, p.lastId), NextId(line, p.lastId), line.Terminal?)
  }

  ghost function Fold(lines: seq<string>, start: Progress, parse: Parser): Progress {
    if lines == [] || start.stopped then start else Fold(lines[1..], Step(start, lines[0], parse), parse)
  }

  const FRESH := Progress([], "", false)

  // The text up to its last line feed, cut into lines; what follows is never looked at.
  function CompleteLines(text: string): seq<string> {
    var pieces := Split(text, "\n");
    pieces[..|pieces| - 1]
  }

  function Unfinished(text: string): string {
    var pieces := Split(text, "\n");
    pieces[|pieces| - 1]
  }

  function EndingEvents(ending: Ending): seq<Event> {
    if ending.Failed? then [OnError(SseError("STREAM_ERROR", ending.reason))] else []
  }

  ghost function OneShot(text: string, ending: Ending, parse: Parser): seq<Event> {
    var p := Fold(CompleteLines(text), FRESH, parse);
    if p.stopped then p.events else p.events + EndingEvents(ending)
  }

  // ---------- The client ----------

  class Client {
    var timerArmed: bool
    // The callbacks fired so far, in order.
    var fired: seq<Event>

    constructor ()
      ensures !timerArmed && fired == []
    {
      timerArmed, fired := false, [];
    }

    method ParseStream(fragments: seq<string>, ending: Ending, parse: Parser)
      modifies this
      ensures fired == old(fired) + OneShot(Flatten(fragments), ending, parse)
      ensures !timerArmed
    {
      ghost var start := Progress(fired, "", false);
      var buffer, lastMessageId, stop := "", "", false;
      timerArmed := true;
      for k := 0 to |fragments|
        invariant buffer == Unfinished(Flatten(fragments[..k]))
        invariant Fold(CompleteLines(Flatten(fragments[..k])), start, parse) == Progress(fired, lastMessageId, false)
      {
        Feed(fragments, k);
        ghost var seen := CompleteLines(Flatten(fragments[..k]));
        var lines := CompleteLines(buffer + fragments[k]);
        FoldConcat(seen, lines, start, parse);
        buffer := Unfinished(buffer + fragments[k]);
        lastMessageId, stop := ReadLines(lines, lastMessageId, parse);
        if stop {
          FoldPrefix(fragments, k + 1, start, parse);
          FromStart(old(fired), Flatten(fragments), ending, parse);
          return;
        }
      }
      assert fragments[..|fragments|] == fragments;
      FromStart(old(fired), Flatten(fragments), ending, parse);
      if ending.Failed? {
        fired := fired + [OnError(SseError("STREAM_ERROR", ending.reason))];
      }
      timerArmed := false;
    }

    // The inner loop over the complete lines of one read.
    method ReadLines(lines: seq<string>, lastId: string, parse: Parser) returns (newId: string, stop: bool)
      modifies this
      ensures Progress(fired, newId, stop) == Fold(lines, Progress(old(fired), lastId, false), parse)
      ensures stop ==> !timerArmed
    {
      newId, stop := lastId, false;
      for i := 0 to |lines|
        invariant Fold(lines, Progress(old(fired), lastId, false), parse)
                  == Fold(lines[i..], Progress(fired, newId, false), parse)
      {
        var line := ReadLine(lines[i], newId, parse);
        stop := Handle(line, newId);
        newId := NextId(line, newId);
        assert lines[i..][0] == lines[i] && lines[i..][1..] == lines[i + 1..];
        if stop {
          return;
        }
      }
    }

    method Handle(line: Line, lastId: string) returns (stop: bool)
      modifies this
      ensures fired == old(fired) + LineEvents(line, lastId)
      ensures stop == line.Terminal?
      ensures timerArmed == (!stop && (old(timerArmed) || (line.Payload? && line.token.Some?)))
    {
      match line
      case Ignored => stop := false;
      case Terminal(event) =>
        timerArmed := false;
        fired := fired + [event];
        stop := true;
      case Payload(_, token) =>
        if token.Some? {
          timerArmed := true;
          fired := fired + [OnToken(token.value, NextId(line, lastId))];
        }
        stop := false;
    }
  }

  // ---------- Cutting the text does not matter ----------

  // Reading a and then b is reading a ++ b: the unfinished tail of a is completed by b.
  lemma LinesConcat(a: string, b: string)
    ensures CompleteLines(a + b) == CompleteLines(a) + CompleteLines(Unfinished(a) + b)
    ensures Unfinished(a + b) == Unfinished(Unfinished(a) + b)
  {
    SplitConcat(a, b, "\n");
  }

  lemma Feed(fragments: seq<string>, k: nat)
    requires k < |fragments|
    ensures var seen, buffer := Flatten(fragments[..k]), Unfinished(Flatten(fragments[..k]));
            var next := Flatten(fragments[..k + 1]);
            && CompleteLines(next) == CompleteLines(seen) + CompleteLines(buffer + fragments[k])
            && Unfinished(next) == Unfinished(buffer + fragments[k])
  {
    assert fragments[..k + 1] == fragments[..k] + [fragments[k]];
    FlattenConcat(fragments[..k], [fragments[k]]);
    assert fragments[k] + "" == fragments[k];
    LinesConcat(Flatten(fragments[..k]), fragments[k]);
  }

  lemma {:induction false} FoldConcat(a: seq<string>, b: seq<string>, start: Progress, parse: Parser)
    ensures Fold(a + b, start, parse) == Fold(b, Fold(a, start, parse), parse)
    decreases |a|
  {
    if a == [] {
      assert a + b == b;
    } else if !start.stopped {
      assert (a + b)[1..] == a[1..] + b;
      FoldConcat(a[1..], b, Step(start, a[0], parse), parse);
    }
  }

  // Callbacks fired earlier do not influence the later ones.
  lemma {:induction false} FoldShift(lines: seq<string>, before: seq<Event>, start: Progress, parse: Parser)
    ensures Fold(lines, start.(events := before + start.events), parse)
            == var p := Fold(lines, start, parse); p.(events := before + p.events)
    decreases |lines|
  {
    if lines != [] && !start.stopped {
      var next := Step(start, lines[0], parse);
      assert Step(start.(events := before + start.events), lines[0], parse) == next.(events := before + next.events);
      FoldShift(lines[1..], before, next, parse);
    }
  }

  lemma FromStart(before: seq<Event>, text: string, ending: Ending, parse: Parser)
    ensures var p := Fold(CompleteLines(text), Progress(before, "", false), parse);
            before + OneShot(text, ending, parse) == if p.stopped then p.events else p.events + EndingEvents(ending)
  {
    FoldShift(CompleteLines(text), before, FRESH, parse);
    assert before + FRESH.events == before;
  }

  // Once stopped, the fragments still to come change nothing.
  lemma FoldPrefix(fragments: seq<string>, k: nat, start: Progress, parse: Parser)
    requires k <= |fragments|
    ensures var p := Fold(CompleteLines(Flatten(fragments[..k])), start, parse);
            p.stopped ==> Fold(CompleteLines(Flatten(fragments)), start, parse) == p
  {
    var upTo, later := Flatten(fragments[..k]), Flatten(fragments[k..]);
    assert fragments == fragments[..k] + fragments[k..];
    FlattenConcat(fragments[..k], fragments[k..]);
    LinesConcat(upTo, later);
    FoldConcat(CompleteLines(upTo), CompleteLines(Unfinished(upTo) + later), start, parse);
  }

  // ---------- Nothing follows a terminal event ----------

  predicate IsTerminal(e: Event) {
    e.OnDone? || e.OnError?
  }

  ghost predicate NoTerminal(events: seq<Event>) {
    forall i :: 0 <= i < |events| ==> !IsTerminal(events[i])
  }

  ghost predicate EndsTerminal(events: seq<Event>) {
    events != [] && NoTerminal(events[..|events| - 1]) && IsTerminal(events[|events| - 1])
  }

  lemma {:induction false} FoldTerminal(lines: seq<string>, start: Progress, parse: Parser)
    requires !start.stopped && NoTerminal(start.events)
    ensures var p := Fold(lines, start, parse);
            if p.stopped then EndsTerminal(p.events) else NoTerminal(p.events)
    decreases |lines|
  {
    if lines != [] {
      var next := Step(start, lines[0], parse);
      StepTerminal(lines[0], start, parse);
      if next.stopped {
        StoppedFold(lines[1..], next, parse);
      } else {
        FoldTerminal(lines[1..], next, parse);
      }
    }
  }

  lemma StepTerminal(text: string, start: Progress, parse: Parser)
    requires NoTerminal(start.events)
    ensures var next := Step(start, text, parse);
            if next.stopped then EndsTerminal(next.events) else NoTerminal(next.events)
  {
    var line := ReadLine(text, start.lastId, parse);
    OneMoreEvent(start.events, LineEvents(line, start.lastId));
    if line.Terminal? { TerminalEvent(text, start.lastId, parse); }
  }

  lemma OneMoreEvent(before: seq<Event>, more: seq<Event>)
    requires NoTerminal(before) && |more| <= 1
    ensures more == [] || !IsTerminal(more[0]) ==> NoTerminal(before + more)
    ensures more != [] && IsTerminal(more[0]) ==> EndsTerminal(before + more)
  {
    if more != [] { assert (before + more)[..|before|] == before; }
  }

  lemma TerminalEvent(text: string, lastId: string, parse: Parser)
    requires ReadLine(text, lastId, parse).Terminal?
    ensures IsTerminal(ReadLine(text, lastId, parse).event)
  {
  }

  predicate IsData(line: string) {
    StartsWith(Trim(line, IsJsSpace), "data:")
  }

  function PayloadOf(line: string): string
    requires IsData(line)
  {
    Trim(Trim(line, IsJsSpace)[5..], IsJsSpace)
  }

  predicate IsError(v: Json) {
    v.JObject? && "error" in v.fields && v.fields["error"].JString?
  }

  // A data line with the end mark, or with an object whose error is a string.
  predicate EndsStream(line: string, parse: Parser) {
    && IsData(line)
    && (PayloadOf(line) == "[DONE]"
        || (parse(PayloadOf(line)).Some? && IsError(parse(PayloadOf(line)).value)))
  }

  lemma ErrorIff(v: Json)
    ensures !v.JNull? && ExtractError(v).Some? <==> IsError(v)
  {
  }

  // Whether a line ends the stream does not depend on what came before it.
  lemma TerminalIff(line: string, lastId: string, parse: Parser)
    ensures ReadLine(line, lastId, parse).Terminal? <==> EndsStream(line, parse)
  {
    if IsData(line) && parse(PayloadOf(line)).Some? { ErrorIff(parse(PayloadOf(line)).value); }
  }

  lemma {:induction false} StoppedIff(lines: seq<string>, start: Progress, parse: Parser)
    requires !start.stopped
    ensures Fold(lines, start, parse).stopped <==> exists i :: 0 <= i < |lines| && EndsStream(lines[i], parse)
    decreases |lines|
  {
    if lines != [] {
      var next, rest := Step(start, lines[0], parse), lines[1..];
      TerminalIff(lines[0], start.lastId, parse);
      if !next.stopped {
        StoppedIff(rest, next, parse);
        if i :| 0 <= i < |lines| && EndsStream(lines[i], parse) {
          assert rest[i - 1] == lines[i];
        }
        if i :| 0 <= i < |rest| && EndsStream(rest[i], parse) {
          assert lines[i + 1] == rest[i];
        }
      }
    }
  }

  // At most one terminal callback, and it is the last of all. It is missing exactly when the
  // body ends without failure and none of its complete lines carries the end mark or an error.
  lemma TerminalLast(text: string, ending: Ending, parse: Parser)
    ensures var events, lines := OneShot(text, ending, parse), CompleteLines(text);
            if ending.Failed? || exists i :: 0 <= i < |lines| && EndsStream(lines[i], parse)
            then EndsTerminal(events) else NoTerminal(events)
  {
    FoldTerminal(CompleteLines(text), FRESH, parse);
    StoppedIff(CompleteLines(text), FRESH, parse);
    var p := Fold(CompleteLines(text), FRESH, parse);
    if !p.stopped {
      assert (p.events + EndingEvents(ending))[..|p.events|] == p.events;
    }
  }

  // ---------- Noise on the line ----------

  // Comments, pings, blank lines, fields other than data, and data that is not JSON or is null.
  ghost predicate Noise(line: string, parse: Parser) {
    && '\n' !in line
    && (IsData(line) ==>
          && PayloadOf(line) != "[DONE]"
          && (parse(PayloadOf(line)).None? || parse(PayloadOf(line)) == Some(JNull)))
  }

  lemma NoiseStep(line: string, p: Progress, parse: Parser)
    requires Noise(line, parse)
    ensures Step(p, line, parse) == p.(stopped := false)
  {
    assert ReadLine(line, p.lastId, parse) == Ignored;
    assert p.events + [] == p.events;
  }

  lemma {:induction false} NoiseBefore(line: string, after: seq<string>, start: Progress, parse: Parser)
    requires Noise(line, parse)
    ensures Fold([line] + after, start, parse) == Fold(after, start, parse)
  {
    if start.stopped {
      StoppedFold([line] + after, start, parse);
      StoppedFold(after, start, parse);
    } else {
      FoldCons(line, after, start, parse);
      NoiseStep(line, start, parse);
    }
  }

  lemma Regrouped<T>(a: seq<T>, b: seq<T>, c: seq<T>)
    ensures a + b + c == a + (b + c)
  {
  }

  lemma FoldThree(before: seq<string>, middle: seq<string>, after: seq<string>, start: Progress, parse: Parser)
    ensures Fold(before + middle + after, start, parse) == Fold(middle + after, Fold(before, start, parse), parse)
  {
    Regrouped(before, middle, after);
    FoldConcat(before, middle + after, start, parse);
  }

  // Between any lines.
  lemma NoiseAmong(before: seq<string>, line: string, after: seq<string>, start: Progress, parse: Parser)
    requires Noise(line, parse)
    ensures Fold(before + [line] + after, start, parse) == Fold(before + after, start, parse)
  {
    FoldThree(before, [line], after, start, parse);
    NoiseBefore(line, after, Fold(before, start, parse), parse);
    FoldConcat(before, after, start, parse);
  }

  ghost predicate OneLiners(pieces: seq<string>) {
    forall i :: 0 <= i < |pieces| ==> '\n' !in pieces[i]
  }

  lemma {:induction false} PiecesHaveNoFeed(text: string, sep: string)
    requires sep == "\n"
    ensures OneLiners(Split(text, sep))
    ensures text != "" && text[|text| - 1] == '\n' ==> Split(text, sep)[|Split(text, sep)| - 1] == ""
  {
    if text != "" {
      SplitStep(text, sep);
      PiecesHaveNoFeed(text[1..], sep);
    }
  }

  lemma UnfinishedHasNoFeed(text: string)
    ensures '\n' !in Unfinished(text)
  {
    PiecesHaveNoFeed(text, "\n");
  }

  // The lines of a text around a line feed.
  lemma LinesAround(before: string, after: string)
    ensures CompleteLines(before + "\n" + after) == CompleteLines(before) + [Unfinished(before)] + CompleteLines(after)
  {
    var tail, lines, more := Unfinished(before), CompleteLines(before), CompleteLines(after);
    UnfinishedHasNoFeed(before);
    FirstLine(tail, after);
    LinesConcat(before, "\n" + after);
    Regrouped(before, "\n", after);
    Regrouped(tail, "\n", after);
    Regrouped(lines, [tail], more);
  }

  // A text that ends with a line feed, or is empty, is read up to its end.
  ghost predicate Complete(text: string) {
    text == "" || text[|text| - 1] == '\n'
  }

  lemma LinesAfter(before: string, after: string)
    requires Complete(before)
    ensures CompleteLines(before + after) == CompleteLines(before) + CompleteLines(after)
  {
    PiecesHaveNoFeed(before, "\n");
    LinesConcat(before, after);
    assert Unfinished(before) == "" && "" + after == after;
  }

  lemma LinesWithNoise(before: string, line: string, after: string)
    requires '\n' !in line && Complete(before)
    ensures CompleteLines(before + line + "\n" + after) == CompleteLines(before) + [line] + CompleteLines(after)
  {
    LinesAfter(before, line + "\n" + after);
    FirstLine(line, after);
    Regrouped(before, line, "\n");
    Regrouped(before, line + "\n", after);
    Regrouped(CompleteLines(before), [line], CompleteLines(after));
  }

  // A line of noise, put in anywhere between the lines of a text, changes no callback.
  lemma NoiseChangesNothing(before: string, line: string, after: string, ending: Ending, parse: Parser)
    requires Noise(line, parse) && Complete(before)
    ensures OneShot(before + line + "\n" + after, ending, parse) == OneShot(before + after, ending, parse)
  {
    LinesWithNoise(before, line, after);
    LinesAfter(before, after);
    NoiseAmong(CompleteLines(before), line, CompleteLines(after), FRESH, parse);
  }

  lemma TrimReturn(line: string, longer: string)
    requires longer == line + "\r"
    ensures Trim(longer, IsJsSpace) == Trim(line, IsJsSpace)
  {
    LeadOfLonger(line, longer);
    TrailOfLonger(line, longer);
    TrimIs(line);
    TrimIs(longer);
    if Lead(line, IsJsSpace) < |line| {
      SliceOfLonger(line, longer, Lead(line, IsJsSpace), Trail(line, IsJsSpace));
    }
  }

  lemma TrimIs(s: string)
    ensures var a, b := Lead(s, IsJsSpace), Trail(s, IsJsSpace);
            if a == |s| then Trim(s, IsJsSpace) == "" else a <= b && Trim(s, IsJsSpace) == s[a..b]
  {
    if Lead(s, IsJsSpace) < |s| { assert !IsJsSpace(s[Lead(s, IsJsSpace)]); }
  }

  lemma SliceOfLonger(line: string, longer: string, a: nat, b: nat)
    requires longer == line + "\r" && a <= b <= |line|
    ensures longer[a..b] == line[a..b]
  {
  }

  lemma TrailOfLonger(line: string, longer: string)
    requires longer == line + "\r"
    ensures Trail(longer, IsJsSpace) == Trail(line, IsJsSpace)
  {
    assert longer[|longer| - 1] == '\r' && longer[..|longer| - 1] == line;
  }

  lemma {:induction false} LeadOfLonger(line: string, longer: string)
    requires longer == line + "\r"
    ensures Lead(longer, IsJsSpace) == if Lead(line, IsJsSpace) == |line| then |longer| else Lead(line, IsJsSpace)
  {
    if line != "" && IsJsSpace(line[0]) {
      assert longer[1..] == line[1..] + "\r";
      LeadOfLonger(line[1..], longer[1..]);
    }
  }

  lemma ReturnStep(line: string, longer: string, p: Progress, parse: Parser)
    requires longer == line + "\r"
    ensures Step(p, longer, parse) == Step(p, line, parse)
  {
    TrimReturn(line, longer);
    SameTrimmed(line, longer, p.lastId, parse);
  }

  lemma SameTrimmed(line: string, other: string, lastId: string, parse: Parser)
    requires Trim(line, IsJsSpace) == Trim(other, IsJsSpace)
    ensures ReadLine(line, lastId, parse) == ReadLine(other, lastId, parse)
  {
  }

  lemma ReturnAmong(before: seq<string>, line: string, longer: string, after: seq<string>, start: Progress,
                    parse: Parser)
    requires longer == line + "\r"
    ensures Fold(before + [longer] + after, start, parse) == Fold(before + [line] + after, start, parse)
  {
    var p := Fold(before, start, parse);
    FoldThree(before, [line], after, start, parse);
    FoldThree(before, [longer], after, start, parse);
    if p.stopped {
      StoppedFold([line] + after, p, parse);
      StoppedFold([longer] + after, p, parse);
    } else {
      FoldCons(line, after, p, parse);
      FoldCons(longer, after, p, parse);
      ReturnStep(line, longer, p, parse);
    }
  }

  // Lines may end with a carriage return and a line feed as well.
  lemma CarriageReturns(before: string, after: string, ending: Ending, parse: Parser)
    ensures OneShot(before + "\r\n" + after, ending, parse) == OneShot(before + "\n" + after, ending, parse)
  {
    var longer, tail := before + "\r", Unfinished(before);
    assert before + "\r\n" + after == longer + "\n" + after;
    LinesAround(before, after);
    LinesAround(longer, after);
    UnfinishedReturn(before, longer);
    ReturnAmong(CompleteLines(before), tail, tail + "\r", CompleteLines(after), FRESH, parse);
  }

  lemma UnfinishedReturn(before: string, longer: string)
    requires longer == before + "\r"
    ensures CompleteLines(longer) == CompleteLines(before)
    ensures Unfinished(longer) == Unfinished(before) + "\r"
  {
    LinesConcat(before, "\r");
    UnfinishedHasNoFeed(before);
    NoFeed(Unfinished(before) + "\r", "\n");
    assert CompleteLines(before) + [] == CompleteLines(before);
  }

  lemma {:induction false} NoFeed(text: string, sep: string)
    requires sep == "\n" && '\n' !in text
    ensures Split(text, sep) == [text]
  {
    if text != "" {
      SplitStep(text, sep);
      NoFeed(text[1..], sep);
      assert [text[0]] + text[1..] == text;
    }
  }

  // ---------- Round trip with the server's encoding ----------

  // What the server sends in one piece of data: a token, or none, and perhaps the message it belongs to.
  datatype Frame = Frame(payload: string, token: Option<Json>, id: Option<string>)

  // How the server ends the stream: with the end mark, or with an error payload.
  datatype Finale = EndMark | Failure(payload: string, error: SseError)

  predicate OneLine(payload: string) {
    && payload != "" && '\n' !in payload
    && !IsJsSpace(payload[0]) && !IsJsSpace(payload[|payload| - 1])
  }

  ghost predicate Encodes(f: Frame, parse: Parser) {
    && OneLine(f.payload) && f.payload != "[DONE]"
    && parse(f.payload).Some? && Carries(parse(f.payload).value, f)
  }

  // The payload is an object with the error's code, and its message unless that is empty.
  ghost predicate Ends(finale: Finale, parse: Parser) {
    finale.Failure? ==>
      && OneLine(finale.payload) && finale.payload != "[DONE]"
      && parse(finale.payload).Some? && parse(finale.payload).value.JObject?
      && var fields := parse(finale.payload).value.fields;
      && "error" in fields && fields["error"] == JString(finale.error.code)
      && if "message" in fields then fields["message"] == JString(finale.error.message) else finale.error.message == ""
  }

  function FinalPayload(finale: Finale): string {
    if finale.EndMark? then "[DONE]" else finale.payload
  }

  function FinalEvent(finale: Finale, lastId: string): Event {
    if finale.EndMark? then OnDone(lastId) else OnError(finale.error)
  }

  // The parsed payload has the frame's token in one of the two formats, or none, its id, and no error.
  ghost predicate Carries(v: Json, f: Frame) {
    && !v.JNull? && TokenContent(v) == f.token && ExtractError(v) == None
    && if f.id.Some? then Prop(v, "id") == Some(JString(f.id.value))
       else Prop(v, "id") == None || !Prop(v, "id").value.JString?
  }

  // A line as the server sends it: a token, or noise; it ends with a line feed, or with a carriage
  // return and a line feed.
  datatype Sent = Token(frame: Frame, crlf: bool) | Chatter(line: string, crlf: bool)

  function SentLine(l: Sent): string {
    match l case Token(f, _) => "data: " + f.payload case Chatter(line, _) => line
  }

  function LineEnd(crlf: bool): string {
    if crlf then "\r\n" else "\n"
  }

  ghost predicate SentOk(l: Sent, parse: Parser) {
    match l case Token(f, _) => Encodes(f, parse) case Chatter(line, _) => Noise(line, parse)
  }

  // The lines, the finale, and whatever the connection still carries after it.
  function Wire(lines: seq<Sent>, finale: Finale, crlf: bool, trailer: string): string {
    if lines == [] then "data: " + FinalPayload(finale) + LineEnd(crlf) + trailer
    else SentLine(lines[0]) + LineEnd(lines[0].crlf) + Wire(lines[1..], finale, crlf, trailer)
  }

  function Expected(lines: seq<Sent>, finale: Finale, lastId: string): seq<Event> {
    if lines == [] then [FinalEvent(finale, lastId)]
    else match lines[0]
      case Chatter(_, _) => Expected(lines[1..], finale, lastId)
      case Token(f, _) =>
        var id := if f.id.Some? then f.id.value else lastId;
        (if f.token.Some? then [OnToken(f.token.value, id)] else []) + Expected(lines[1..], finale, id)
  }

  lemma {:induction false} FirstPiece(line: string, rest: string)
    requires '\n' !in line
    ensures Split(line + ("\n" + rest), "\n") == [line] + Split(rest, "\n")
  {
    var all := line + ("\n" + rest);
    SplitStep(all, "\n");
    if line == "" {
      assert all == "\n" + rest && all[1..] == rest;
    } else {
      assert all[1..] == line[1..] + ("\n" + rest) && all[0] == line[0] != '\n';
      FirstPiece(line[1..], rest);
      ExtendConcat(line[0], [line[1..]], Split(rest, "\n"));
      assert [line[0]] + line[1..] == line;
    }
  }

  lemma FirstLine(line: string, rest: string)
    requires '\n' !in line
    ensures CompleteLines(line + "\n" + rest) == [line] + CompleteLines(rest)
  {
    FirstPiece(line, rest);
    var pieces := Split(rest, "\n");
    assert line + "\n" + rest == line + ("\n" + rest);
    assert ([line] + pieces)[..|pieces|] == [line] + pieces[..|pieces| - 1];
  }

  lemma DataLine(payload: string)
    requires OneLine(payload)
    ensures Trim("data: " + payload, IsJsSpace) == "data: " + payload
    ensures Trim(("data: " + payload)[5..], IsJsSpace) == payload
  {
    var line := "data: " + payload;
    assert line[|line| - 1] == payload[|payload| - 1];
    TrimOfTight(line, IsJsSpace);
    var body := line[5..];
    assert body == " " + payload && body[1..] == payload;
    assert Lead(body, IsJsSpace) == 1;
  }

  lemma FoldCons(line: string, after: seq<string>, start: Progress, parse: Parser)
    requires !start.stopped
    ensures Fold([line] + after, start, parse) == Fold(after, Step(start, line, parse), parse)
  {
    assert ([line] + after)[1..] == after;
  }

  lemma StoppedFold(lines: seq<string>, start: Progress, parse: Parser)
    requires start.stopped
    ensures Fold(lines, start, parse) == start
  {
  }

  // The line that the rest of the text begins with is read first, whichever way it ends.
  lemma FoldLine(line: string, crlf: bool, rest: string, start: Progress, parse: Parser)
    requires !start.stopped && '\n' !in line
    ensures Fold(CompleteLines(line + LineEnd(crlf) + rest), start, parse)
            == Fold(CompleteLines(rest), Step(start, line, parse), parse)
  {
    if crlf {
      var longer := line + "\r";
      assert line + LineEnd(crlf) + rest == longer + "\n" + rest;
      FirstLine(longer, rest);
      FoldCons(longer, CompleteLines(rest), start, parse);
      ReturnStep(line, longer, start, parse);
    } else {
      FirstLine(line, rest);
      FoldCons(line, CompleteLines(rest), start, parse);
    }
  }

  ghost predicate AllSentOk(lines: seq<Sent>, parse: Parser) {
    forall i :: 0 <= i < |lines| ==> SentOk(lines[i], parse)
  }

  lemma {:induction false} FoldWire(lines: seq<Sent>, finale: Finale, crlf: bool, trailer: string, start: Progress,
                                    parse: Parser)
    requires !start.stopped && AllSentOk(lines, parse) && Ends(finale, parse)
    ensures var p := Fold(CompleteLines(Wire(lines, finale, crlf, trailer)), start, parse);
            p.stopped && p.events == start.events + Expected(lines, finale, start.lastId)
    decreases |lines|
  {
    if lines == [] {
      FoldFinale(finale, crlf, trailer, start, parse);
    } else {
      assert SentOk(lines[0], parse);
      var next := FoldSent(lines, finale, crlf, trailer, start, parse);
      FoldWire(lines[1..], finale, crlf, trailer, next, parse);
    }
  }

  lemma FoldSent(lines: seq<Sent>, finale: Finale, crlf: bool, trailer: string, start: Progress, parse: Parser)
      returns (next: Progress)
    requires !start.stopped && lines != [] && SentOk(lines[0], parse)
    ensures !next.stopped
    ensures start.events + Expected(lines, finale, start.lastId)
            == next.events + Expected(lines[1..], finale, next.lastId)
    ensures Fold(CompleteLines(Wire(lines, finale, crlf, trailer)), start, parse)
            == Fold(CompleteLines(Wire(lines[1..], finale, crlf, trailer)), next, parse)
  {
    next := Step(start, SentLine(lines[0]), parse);
    StepSent(lines, finale, start, parse);
    WireUnfolds(lines, finale, crlf, trailer);
    FoldLine(SentLine(lines[0]), lines[0].crlf, Wire(lines[1..], finale, crlf, trailer), start, parse);
  }

  lemma WireUnfolds(lines: seq<Sent>, finale: Finale, crlf: bool, trailer: string)
    requires lines != []
    ensures Wire(lines, finale, crlf, trailer)
            == SentLine(lines[0]) + LineEnd(lines[0].crlf) + Wire(lines[1..], finale, crlf, trailer)
  {
  }

  lemma StepSent(lines: seq<Sent>, finale: Finale, start: Progress, parse: Parser)
    requires !start.stopped && lines != [] && SentOk(lines[0], parse)
    ensures var next := Step(start, SentLine(lines[0]), parse);
            && !next.stopped
            && start.events + Expected(lines, finale, start.lastId)
                  == next.events + Expected(lines[1..], finale, next.lastId)
  {
    match lines[0]
    case Chatter(line, _) => NoiseStep(line, start, parse);
    case Token(f, _) =>
      ReadFrame(f, start.lastId, parse);
      var id := NextId(Payload(f.id, f.token), start.lastId);
      Appended(start.events, if f.token.Some? then [OnToken(f.token.value, id)] else [],
               Expected(lines[1..], finale, id));
  }

  lemma Appended(a: seq<Event>, b: seq<Event>, c: seq<Event>)
    ensures a + (b + c) == a + b + c
  {
  }

  lemma FoldFinale(finale: Finale, crlf: bool, trailer: string, start: Progress, parse: Parser)
    requires !start.stopped && Ends(finale, parse)
    ensures Fold(CompleteLines("data: " + FinalPayload(finale) + LineEnd(crlf) + trailer), start, parse)
            == Progress(start.events + [FinalEvent(finale, start.lastId)], start.lastId, true)
  {
    var line := "data: " + FinalPayload(finale);
    ReadFinale(finale, start.lastId, parse);
    FoldLine(line, crlf, trailer, start, parse);
    StoppedFold(CompleteLines(trailer), Step(start, line, parse), parse);
  }

  lemma ReadFinale(finale: Finale, lastId: string, parse: Parser)
    requires Ends(finale, parse)
    ensures ReadLine("data: " + FinalPayload(finale), lastId, parse) == Terminal(FinalEvent(finale, lastId))
    ensures '\n' !in "data: " + FinalPayload(finale)
  {
    var payload := FinalPayload(finale);
    if finale.EndMark? {
      ReadDone(payload, lastId, parse);
    } else {
      ReadFailure(payload, finale, lastId, parse);
    }
  }

  lemma ReadDone(payload: string, lastId: string, parse: Parser)
    requires payload == "[DONE]"
    ensures OneLine(payload)
    ensures ReadLine("data: " + payload, lastId, parse) == Terminal(OnDone(lastId))
  {
    DataLine(payload);
    assert StartsWith("data: " + payload, "data:");
  }

  lemma ReadFailure(payload: string, finale: Finale, lastId: string, parse: Parser)
    requires Ends(finale, parse) && finale.Failure? && payload == finale.payload
    ensures ReadLine("data: " + payload, lastId, parse) == Terminal(OnError(finale.error))
  {
    FailureError(finale, parse);
    ReadError(payload, parse(payload).value, finale.error, lastId, parse);
  }

  lemma FailureError(finale: Finale, parse: Parser)
    requires Ends(finale, parse) && finale.Failure?
    ensures ExtractError(parse(finale.payload).value) == Some(finale.error)
  {
  }

  lemma ReadError(payload: string, v: Json, error: SseError, lastId: string, parse: Parser)
    requires OneLine(payload) && payload != "[DONE]" && parse(payload) == Some(v)
    requires !v.JNull? && ExtractError(v) == Some(error)
    ensures ReadLine("data: " + payload, lastId, parse) == Terminal(OnError(error))
  {
    DataLine(payload);
    assert StartsWith("data: " + payload, "data:");
  }

  lemma ReadFrame(f: Frame, lastId: string, parse: Parser)
    requires Encodes(f, parse)
    ensures ReadLine("data: " + f.payload, lastId, parse) == Payload(f.id, f.token)
  {
    ReadParsed(f.payload, parse(f.payload).value, lastId, parse);
  }

  lemma ReadParsed(payload: string, v: Json, lastId: string, parse: Parser)
    requires OneLine(payload) && payload != "[DONE]" && parse(payload) == Some(v)
    requires !v.JNull? && ExtractError(v) == None
    ensures var id := Prop(v, "id");
            ReadLine("data: " + payload, lastId, parse)
            == Payload(if id.Some? && id.value.JString? then Some(id.value.s) else None, TokenContent(v))
  {
    DataLine(payload);
    assert StartsWith("data: " + payload, "data:");
  }

  // Both formats carry their token: {content: t}, and {choices: [{delta: {content: t}}]} as long as
  // there is no content string beside it.
  lemma DualFormat(fields: map<string, Json>, rest: seq<Json>, more: map<string, Json>,
                   delta: map<string, Json>, token: string)
    requires "error" !in fields
    requires || ("content" in fields && fields["content"] == JString(token))
             || (&& ("content" in fields ==> !fields["content"].JString?)
                 && "choices" in fields && fields["choices"] == JArray([JObject(more)] + rest)
                 && "delta" in more && more["delta"] == JObject(delta)
                 && "content" in delta && delta["content"] == JString(token))
    ensures var id := Prop(JObject(fields), "id");
            Carries(JObject(fields), Frame("", Some(JString(token)),
                                           if id.Some? && id.value.JString? then Some(id.value.s) else None))
  {
  }

  // An object with neither carries none.
  lemma NoToken(fields: map<string, Json>)
    requires "error" !in fields && ("content" in fields ==> !fields["content"].JString?)
    requires "choices" !in fields || fields["choices"] == JNull || fields["choices"] == JArray([])
    ensures var id := Prop(JObject(fields), "id");
            Carries(JObject(fields), Frame("", None, if id.Some? && id.value.JString? then Some(id.value.s) else None))
  {
  }

  // Whatever the fragments, and whatever noise there is between the tokens, the client hands over the
  // server's tokens in order, each with the last message id announced, then reports the end or the
  // server's error once.
  lemma RoundTrip(lines: seq<Sent>, finale: Finale, crlf: bool, trailer: string, fragments: seq<string>,
                  ending: Ending, parse: Parser)
    requires AllSentOk(lines, parse) && Ends(finale, parse)
    requires Flatten(fragments) == Wire(lines, finale, crlf, trailer)
    ensures OneShot(Flatten(fragments), ending, parse) == Expected(lines, finale, "")
  {
    FoldWire(lines, finale, crlf, trailer, FRESH, parse);
  }
}
