/**
 The waiting-room client: an incremental parser for the event stream, fed with
 growing response text, and the proof-of-work search.
 */
module WaitingRoom {
  import opened Wrappers
  import opened Sequences

  // ---------- frames ----------

  /** `indexOf` a blank line from `i` on, or -1. */
  function FindBlank(s: string, i: nat): (k: int)
    ensures k == -1 || i <= k <= |s| - 2
    decreases |s| - i
  {
    if i + 2 > |s| then -1
    else if s[i] == '\n' && s[i + 1] == '\n' then i
    else FindBlank(s, i + 1)
  }

  /** The complete frames of a text, cut greedily at blank lines. */
  function Frames(s: string): seq<string>
    decreases |s|
  {
    var k := FindBlank(s, 0);
    if k < 0 then [] else [s[..k]] + Frames(s[k + 2..])
  }

  /** What follows the last complete frame. */
  function Rest(s: string): string
    decreases |s|
  {
    var k := FindBlank(s, 0);
    if k < 0 then s else Rest(s[k + 2..])
  }

  predicate BlankAt(s: string, k: nat) {
    k + 2 <= |s| && s[k] == '\n' && s[k + 1] == '\n'
  }

  /** `FindBlank` answers with the first blank line. */
  lemma {:induction false} FindBlankFirst(s: string, i: nat)
    ensures FindBlank(s, i) >= 0 ==> BlankAt(s, FindBlank(s, i))
    ensures forall k: nat :: i <= k && BlankAt(s, k) ==> 0 <= FindBlank(s, i) <= k
    decreases |s| - i
  {
    if i + 2 > |s| || BlankAt(s, i) {
    } else {
      FindBlankFirst(s, i + 1);
    }
  }

  function Glue(frames: seq<string>): string {
    if frames == [] then "" else frames[0] + "\n\n" + Glue(frames[1..])
  }

  /** A frame has no blank line before the one that ends it. */
  predicate Clean(f: string) {
    forall k: nat :: BlankAt(f + "\n\n", k) ==> k >= |f|
  }

  /** The frames and the rest spell the text, every frame is cut at its first blank line, and the rest has none. */
  lemma {:induction false} SplitExact(s: string)
    ensures Glue(Frames(s)) + Rest(s) == s
    ensures FindBlank(Rest(s), 0) == -1
    ensures forall i :: 0 <= i < |Frames(s)| ==> Clean(Frames(s)[i])
  {
    GlueFrames(s);
    FramesClean(s);
  }

  lemma {:induction false} GlueFrames(s: string)
    ensures Glue(Frames(s)) + Rest(s) == s
    decreases |s|
  {
    var k := FindBlank(s, 0);
    if k < 0 {
    } else {
      var f, tail := s[..k], s[k + 2..];
      GlueFrames(tail);
      FirstFrame(s);
      GlueCons(f, Frames(tail));
      Associate(f + "\n\n", Glue(Frames(tail)), Rest(tail));
    }
  }

  lemma {:induction false} GlueCons(f: string, frames: seq<string>)
    ensures Glue([f] + frames) == f + "\n\n" + Glue(frames)
  {
    assert ([f] + frames)[1..] == frames;
  }

  lemma {:induction false} FramesClean(s: string)
    ensures FindBlank(Rest(s), 0) == -1
    ensures forall i :: 0 <= i < |Frames(s)| ==> Clean(Frames(s)[i])
    decreases |s|
  {
    var k := FindBlank(s, 0);
    if k < 0 {
    } else {
      FramesClean(s[k + 2..]);
      FirstFrame(s);
    }
  }

  lemma {:induction false} FirstFrame(s: string)
    requires FindBlank(s, 0) >= 0
    ensures var k := FindBlank(s, 0); s == s[..k] + "\n\n" + s[k + 2..] && Clean(s[..k])
  {
    FindBlankFirst(s, 0);
    var k := FindBlank(s, 0);
    forall j: nat | BlankAt(s[..k] + "\n\n", j) ensures j >= k {
      assert BlankAt(s, j);
    }
  }

  /** More text can only be cut after what has been cut already. */
  lemma {:induction false} SplitAppend(s: string, more: string)
    ensures Frames(s + more) == Frames(s) + Frames(Rest(s) + more)
    ensures Rest(s + more) == Rest(Rest(s) + more)
    decreases |s|
  {
    var k := FindBlank(s, 0);
    if k < 0 {
    } else {
      var tail := s[k + 2..];
      SplitAppend(tail, more);
      CutMore(s, more);
      Associate([s[..k]], Frames(tail), Frames(Rest(tail) + more));
    }
  }

  lemma {:induction false} CutMore(s: string, more: string)
    requires FindBlank(s, 0) >= 0
    ensures
      var k := FindBlank(s, 0);
      && Frames(s + more) == [s[..k]] + Frames(s[k + 2..] + more)
      && Rest(s + more) == Rest(s[k + 2..] + more)
  {
    BlankStaysFirst(s, more);
    var k := FindBlank(s, 0);
    assert (s + more)[..k] == s[..k];
    assert (s + more)[k + 2..] == s[k + 2..] + more;
  }

  lemma {:induction false} BlankStaysFirst(s: string, more: string)
    requires FindBlank(s, 0) >= 0
    ensures FindBlank(s + more, 0) == FindBlank(s, 0)
  {
    var k := FindBlank(s, 0);
    FindBlankFirst(s, 0);
    FindBlankFirst(s + more, 0);
    assert BlankAt(s + more, k);
    var j := FindBlank(s + more, 0);
    assert BlankAt(s, j);
  }

  // ---------- from a frame to a message ----------

  datatype Message =
    | Position(position: int, queueSize: int, waitSeconds: int)
    | Admitted(grantToken: string) // empty when the field is missing
    | NotInQueue
    | Error(message: string)
    | Other

  function Lines(s: string): seq<string>
    decreases |s|
  {
    var k := FindNewline(s, 0);
    if k < 0 then [s] else [s[..k]] + Lines(s[k + 1..])
  }

  function FindNewline(s: string, i: nat): (k: int)
    ensures k == -1 || i <= k < |s|
    decreases |s| - i
  {
    if i >= |s| then -1 else if s[i] == '\n' then i else FindNewline(s, i + 1)
  }

  predicate IsSpace(c: char) {
    || c in " \t\n\r" || c in ['\U{0B}', '\U{0C}', '\U{A0}', '\U{1680}']
    || c in ['\U{2028}', '\U{2029}', '\U{202F}', '\U{205F}', '\U{3000}', '\U{FEFF}']
    || '\U{2000}' <= c <= '\U{200A}'
  }

  function Trim(s: string): string
    decreases |s|
  {
    if s == "" then s
    else if IsSpace(s[0]) then Trim(s[1..])
    else if IsSpace(s[|s| - 1]) then Trim(s[..|s| - 1])
    else s
  }

  /** White space is what ECMAScript counts as such: six ASCII characters and nineteen others. */
  lemma {:induction false} SpaceIff(c: char)
    ensures
      var u := c as int;
      IsSpace(c) <==>
      || 0x09 <= u <= 0x0D || 0x2000 <= u <= 0x200A
      || u in {0x20, 0xA0, 0x1680, 0x2028, 0x2029, 0x202F, 0x205F, 0x3000, 0xFEFF}
  {
    assert " \t\n\r" == [' ', '\t', '\n', '\r'];
  }

  predicate AllSpace(s: string) {
    forall i :: 0 <= i < |s| ==> IsSpace(s[i])
  }

  /** Trimming takes away the space at both ends and nothing else. */
  lemma {:induction false} TrimExact(s: string) returns (before: string, after: string)
    ensures s == before + Trim(s) + after && AllSpace(before) && AllSpace(after)
    ensures Trim(s) != "" ==> !IsSpace(Trim(s)[0]) && !IsSpace(Trim(s)[|Trim(s)| - 1])
    decreases |s|
  {
    if s == "" {
      before, after := "", "";
    } else if IsSpace(s[0]) {
      before, after := TrimExact(s[1..]);
      assert s == [s[0]] + s[1..];
      before := [s[0]] + before;
    } else if IsSpace(s[|s| - 1]) {
      before, after := TrimExact(s[..|s| - 1]);
      assert s == s[..|s| - 1] + [s[|s| - 1]];
      after := after + [s[|s| - 1]];
    } else {
      before, after := "", "";
    }
  }

  function DataLines(lines: seq<string>): seq<string> {
    if lines == [] then []
    else (if "data:" <= lines[0] then [Trim(lines[0][5..])] else []) + DataLines(lines[1..])
  }

  function Join(lines: seq<string>): string {
    if |lines| == 0 then "" else if |lines| == 1 then lines[0] else lines[0] + "\n" + Join(lines[1..])
  }

  /** The message of a frame, if it has data that parses. */
  function MessageOf(json: string -> Option<Message>, frame: string): Option<Message> {
    var data := DataLines(Lines(frame));
    if data == [] then None else json(Join(data))
  }

  predicate OneLine(s: string) {
    '\n' !in s
  }

  lemma {:induction false} FindNewlineFirst(s: string, rest: string, i: nat)
    requires OneLine(s) && i <= |s|
    ensures FindNewline(s, i) == -1 && FindNewline(s + "\n" + rest, i) == |s|
    decreases |s| - i
  {
    var t := s + "\n" + rest;
    if i < |s| {
      assert t[i] == s[i] && s[i] in s;
      FindNewlineFirst(s, rest, i + 1);
    } else {
      assert t[i] == '\n';
    }
  }

  /** Splitting inverts joining. */
  lemma {:induction false} LinesOfJoin(lines: seq<string>)
    requires lines != [] && forall i :: 0 <= i < |lines| ==> OneLine(lines[i])
    ensures Lines(Join(lines)) == lines
  {
    var first, rest := lines[0], lines[1..];
    if rest == [] {
      FindNewlineFirst(first, "", 0);
    } else {
      FindNewlineFirst(first, Join(rest), 0);
      LinesOfJoin(rest);
      assert Join(lines)[..|first|] == first && Join(lines)[|first| + 1..] == Join(rest);
      assert lines == [first] + rest;
    }
  }

  function Prefixed(data: seq<string>): seq<string> {
    seq(|data|, i requires 0 <= i < |data| => "data: " + data[i])
  }

  lemma {:induction false} DataOfPrefixed(data: seq<string>)
    requires forall i :: 0 <= i < |data| ==> Trim(data[i]) == data[i]
    ensures DataLines(Prefixed(data)) == data
  {
    if data == [] {
    } else {
      var line := "data: " + data[0];
      assert line[5..] == " " + data[0] && (" " + data[0])[1..] == data[0];
      assert Prefixed(data)[1..] == Prefixed(data[1..]);
      DataOfPrefixed(data[1..]);
    }
  }

  /** Data sent as one or more trimmed lines arrives as it was sent. */
  lemma {:induction false} DataFrame(json: string -> Option<Message>, data: seq<string>)
    requires data != [] && forall i :: 0 <= i < |data| ==> OneLine(data[i]) && Trim(data[i]) == data[i]
    ensures MessageOf(json, Join(Prefixed(data))) == json(Join(data))
  {
    PrefixedLines(data);
    LinesOfJoin(Prefixed(data));
    DataOfPrefixed(data);
  }

  lemma {:induction false} PrefixedLines(data: seq<string>)
    requires forall i :: 0 <= i < |data| ==> OneLine(data[i])
    ensures forall i :: 0 <= i < |data| ==> OneLine(Prefixed(data)[i])
  {
    forall i | 0 <= i < |data| ensures OneLine(Prefixed(data)[i]) {
      var line := "data: " + data[i];
      forall k | 0 <= k < |line| ensures line[k] != '\n' {
        assert k >= 6 ==> line[k] == data[i][k - 6];
      }
    }
  }

  lemma {:induction false} NoData(lines: seq<string>)
    requires forall i :: 0 <= i < |lines| ==> !("data:" <= lines[i])
    ensures DataLines(lines) == []
  {
    if lines == [] {
    } else {
      NoData(lines[1..]);
    }
  }

  /** A frame of comments and other fields is no message. */
  lemma {:induction false} KeepAlive(json: string -> Option<Message>, lines: seq<string>)
    requires lines != [] && forall i :: 0 <= i < |lines| ==> OneLine(lines[i]) && !("data:" <= lines[i])
    ensures MessageOf(json, Join(lines)) == None
  {
    LinesOfJoin(lines);
    NoData(lines);
  }

  // ---------- callbacks ----------

  /** How a frame is read; the stream does not care. */
  type Parse = string -> Option<Message>

  function Parser(json: string -> Option<Message>): Parse {
    frame => MessageOf(json, frame)
  }

  datatype Call =
    | OnPosition(position: int, queueSize: int, waitSeconds: int)
    | OnAdmitted(grantToken: string)
    | OnError(message: string)
    | OnClosed

  /** `open` is whether the request still delivers events, which it does until it is aborted or over. */
  datatype Listener = Listener(open: bool, finished: bool, calls: seq<Call>)

  const FRESH := Listener(true, false, [])

  function Finish(l: Listener): Listener {
    if l.finished then l else l.(finished := true, calls := l.calls + [OnClosed])
  }

  /** The calls a message makes besides closing the stream. */
  function Says(m: Message): seq<Call> {
    match m
    case Position(p, q, w) => [OnPosition(p, q, w)]
    case Admitted(token) => if token != "" then [OnAdmitted(token)] else []
    case NotInQueue => [OnError("You are not in the queue for this event.")]
    case Error(text) => [OnError(text)]
    case Other => []
  }

  predicate Ends(m: Message) {
    m.Admitted? || m.NotInQueue? || m.Error?
  }

  function Handle(l: Listener, m: Message): Listener {
    var said := l.(calls := l.calls + Says(m));
    if Ends(m) then Finish(said.(open := false)) else said
  }

  function HandleFrame(parse: Parse, l: Listener, frame: string): Listener {
    var m := parse(frame);
    if m.Some? then Handle(l, m.value) else l
  }

  function HandleFrames(parse: Parse, l: Listener, frames: seq<string>): Listener
    decreases |frames|
  {
    if frames == [] then l else HandleFrames(parse, HandleFrame(parse, l, frames[0]), frames[1..])
  }

  class Stream {
    const json: string -> Option<Message>
    var cursor: nat
    var buffer: string
    var open: bool
    var finished: bool
    var calls: seq<Call>

    ghost function State(): StreamState
      reads this
    {
      StreamState(cursor, buffer, Listener(open, finished, calls))
    }

    constructor (json: string -> Option<Message>)
      ensures this.json == json && State() == StreamState(0, "", FRESH)
    {
      this.json := json;
      cursor, buffer, open, finished, calls := 0, "", true, false, [];
    }

    method FinishStream()
      modifies this
      ensures State() == old(State()).(listener := Finish(old(State()).listener))
    {
      if finished {
        return;
      }
      finished := true;
      calls := calls + [OnClosed];
    }

    method HandleMessage(message: Message)
      modifies this
      ensures State() == old(State()).(listener := Handle(old(State()).listener, message))
      ensures message.Position? ==>
        && calls == old(calls) + [OnPosition(message.position, message.queueSize, message.waitSeconds)]
        && open == old(open) && finished == old(finished)
      ensures message.Other? ==> calls == old(calls) && open == old(open) && finished == old(finished)
      ensures message.Admitted? || message.NotInQueue? || message.Error? ==> finished && !open
      ensures
        var closed := if old(finished) then [] else [OnClosed];
        && (message.Admitted? && message.grantToken != "" ==>
              calls == old(calls) + [OnAdmitted(message.grantToken)] + closed)
        && (message.Admitted? && message.grantToken == "" ==> calls == old(calls) + closed)
        && (message.NotInQueue? ==>
              calls == old(calls) + [OnError("You are not in the queue for this event.")] + closed)
        && (message.Error? ==> calls == old(calls) + [OnError(message.message)] + closed)
    {
      match message {
        case Position(p, q, w) => calls := calls + [OnPosition(p, q, w)];
        case Admitted(token) =>
          if token != "" {
            calls := calls + [OnAdmitted(token)];
          }
          open := false;
          FinishStream();
        case NotInQueue =>
          calls := calls + [OnError("You are not in the queue for this event.")];
          open := false;
          FinishStream();
        case Error(text) =>
          calls := calls + [OnError(text)];
          open := false;
          FinishStream();
        case Other =>
      }
    }

    method ConsumeChunk(text: string)
      modifies this
      ensures State() == Consume(Parser(json), old(State()), text)
    {
      if |text| > cursor {
        buffer := buffer + text[cursor..];
        cursor := |text|;
      }
      ghost var whole, start := buffer, Listener(open, finished, calls);
      assert whole == old(buffer) + if |text| > old(cursor) then text[old(cursor)..] else "";
      var separator := FindBlank(buffer, 0);
      while separator != -1
        invariant separator == FindBlank(buffer, 0)
        invariant cursor == Consume(Parser(json), old(State()), text).cursor
        invariant Rest(buffer) == Rest(whole)
        invariant HandleFrames(Parser(json), Listener(open, finished, calls), Frames(buffer)) ==
          HandleFrames(Parser(json), start, Frames(whole))
        decreases |buffer|
      {
        ghost var before := Listener(open, finished, calls);
        assert Frames(buffer)[1..] == Frames(buffer[separator + 2..]);
        var rawEvent := buffer[..separator];
        buffer := buffer[separator + 2..];
        var message := MessageOf(json, rawEvent);
        if message.Some? {
          HandleMessage(message.value);
        }
        assert Listener(open, finished, calls) == HandleFrame(Parser(json), before, rawEvent);
        separator := FindBlank(buffer, 0);
      }
    }

    /** The request's event handlers and the returned `close`; an aborted or completed request fires none. */
    method Fire(e: Event)
      modifies this
      ensures State() == Apply(Parser(json), old(State()), e)
    {
      if !open {
        return;
      }
      match e {
        case Progress(text) => ConsumeChunk(text);
        case Load(text) =>
          ConsumeChunk(text);
          FinishStream();
          open := false;
        case NetworkError =>
          calls := calls + [OnError(CONNECTION_LOST)];
          FinishStream();
          open := false;
        case Close => open := false;
      }
    }
  }

  // ---------- whole streams ----------

  const CONNECTION_LOST := "Lost connection to the queue stream. Please retry."

  datatype StreamState = StreamState(cursor: nat, buffer: string, listener: Listener)

  function Consume(parse: Parse, s: StreamState, text: string): StreamState {
    var buffer := s.buffer + if |text| > s.cursor then text[s.cursor..] else "";
    var cursor := if |text| > s.cursor then |text| else s.cursor;
    StreamState(cursor, Rest(buffer), HandleFrames(parse, s.listener, Frames(buffer)))
  }

  datatype Event =
    | Progress(text: string)
    | Load(text: string)
    | NetworkError
    | Close // by the caller

  function Complete(s: StreamState): StreamState {
    s.(listener := Finish(s.listener).(open := false))
  }

  function Apply(parse: Parse, s: StreamState, e: Event): StreamState {
    if !s.listener.open then s
    else
      match e
      case Progress(text) => Consume(parse, s, text)
      case Load(text) => Complete(Consume(parse, s, text))
      case NetworkError => Complete(s.(listener := s.listener.(calls := s.listener.calls + [OnError(CONNECTION_LOST)])))
      case Close => s.(listener := s.listener.(open := false))
  }

  function Run(parse: Parse, events: seq<Event>): StreamState {
    if events == [] then StreamState(0, "", FRESH)
    else Apply(parse, Run(parse, events[..|events| - 1]), events[|events| - 1])
  }

  function Closes(calls: seq<Call>): nat {
    multiset(calls)[OnClosed]
  }

  predicate ClosedRight(l: Listener) {
    Closes(l.calls) == if l.finished then 1 else 0
  }

  lemma {:induction false} HandleKeepsClosed(l: Listener, m: Message)
    requires ClosedRight(l)
    ensures ClosedRight(Handle(l, m))
  {
    assert Closes(Says(m)) == 0;
  }

  lemma {:induction false} FramesKeepClosed(parse: Parse, l: Listener, frames: seq<string>)
    requires ClosedRight(l)
    ensures ClosedRight(HandleFrames(parse, l, frames))
    decreases |frames|
  {
    if frames == [] {
    } else {
      var m := parse(frames[0]);
      if m.Some? {
        HandleKeepsClosed(l, m.value);
      }
      FramesKeepClosed(parse, HandleFrame(parse, l, frames[0]), frames[1..]);
    }
  }

  /** `onClosed` runs once if the stream has finished and not at all before, whatever the events. */
  lemma {:induction false} ClosedAtMostOnce(parse: Parse, events: seq<Event>)
    ensures ClosedRight(Run(parse, events).listener)
  {
    if events == [] {
    } else {
      var s, e := Run(parse, events[..|events| - 1]), events[|events| - 1];
      ClosedAtMostOnce(parse, events[..|events| - 1]);
      if e.Progress? || e.Load? {
        var buffer := s.buffer + if |e.text| > s.cursor then e.text[s.cursor..] else "";
        FramesKeepClosed(parse, s.listener, Frames(buffer));
      }
    }
  }

  // ---------- what some frames say ----------

  predicate Ending(parse: Parse, frame: string) {
    parse(frame).Some? && Ends(parse(frame).value)
  }

  predicate Ended(parse: Parse, frames: seq<string>) {
    frames != [] && (Ending(parse, frames[0]) || Ended(parse, frames[1..]))
  }

  function SaidBy(parse: Parse, frame: string): seq<Call> {
    var m := parse(frame);
    if m.Some? then Says(m.value) else []
  }

  /** Everything the messages of some frames say, in order. */
  function Said(parse: Parse, frames: seq<string>): seq<Call> {
    if frames == [] then [] else SaidBy(parse, frames[0]) + Said(parse, frames[1..])
  }

  /** What they say up to the first that ends the stream, and then the report that it is closed. */
  function UpToClose(parse: Parse, frames: seq<string>): seq<Call> {
    if frames == [] then []
    else SaidBy(parse, frames[0]) + if Ending(parse, frames[0]) then [OnClosed] else UpToClose(parse, frames[1..])
  }

  /** The frames after the first that ends the stream. */
  function After(parse: Parse, frames: seq<string>): seq<string> {
    if frames == [] then []
    else if Ending(parse, frames[0]) then frames[1..]
    else After(parse, frames[1..])
  }

  lemma {:induction false} OneFrame(parse: Parse, l: Listener, frame: string)
    ensures HandleFrame(parse, l, frame) ==
      var said := l.(calls := l.calls + SaidBy(parse, frame));
      if Ending(parse, frame) then Finish(said.(open := false)) else said
  {
    assert l.calls + [] == l.calls;
  }

  lemma {:induction false} AfterClose(parse: Parse, l: Listener, frames: seq<string>)
    requires l.finished && !l.open
    ensures HandleFrames(parse, l, frames) == l.(calls := l.calls + Said(parse, frames))
    decreases |frames|
  {
    if frames == [] {
      assert l.calls + [] == l.calls;
    } else {
      var said, rest := SaidBy(parse, frames[0]), Said(parse, frames[1..]);
      AfterClose(parse, l.(calls := l.calls + said), frames[1..]);
      OneFrame(parse, l, frames[0]);
      Associate(l.calls, said, rest);
    }
  }

  /**
   The loop does not stop at a frame that ends the stream: `onClosed` comes
   right after that frame's own call, and the remaining frames of the buffer
   still have their say.
   */
  lemma {:induction false} HandleAll(parse: Parse, l: Listener, frames: seq<string>)
    requires l.open && !l.finished
    ensures HandleFrames(parse, l, frames) ==
      if Ended(parse, frames) then
        Listener(false, true, l.calls + UpToClose(parse, frames) + Said(parse, After(parse, frames)))
      else Listener(true, false, l.calls + UpToClose(parse, frames))
    decreases |frames|
  {
    if frames == [] {
      assert l.calls + [] == l.calls;
    } else {
      var f, rest := frames[0], frames[1..];
      var next := HandleFrame(parse, l, f);
      OneFrame(parse, l, f);
      if Ending(parse, f) {
        AfterClose(parse, next, rest);
        Associate(l.calls, SaidBy(parse, f), [OnClosed]);
      } else {
        HandleAll(parse, next, rest);
        Associate(l.calls, SaidBy(parse, f), UpToClose(parse, rest));
      }
    }
  }

  /** Closing is the last call of a buffer that ends the stream exactly when the later frames say nothing. */
  lemma {:induction false} ClosedIsLastIff(parse: Parse, l: Listener, frames: seq<string>)
    requires l.open && !l.finished && Ended(parse, frames)
    ensures
      var calls := HandleFrames(parse, l, frames).calls;
      && |calls| > 0
      && (calls[|calls| - 1] == OnClosed <==> Said(parse, After(parse, frames)) == [])
  {
    HandleAll(parse, l, frames);
    ClosesAtEnd(parse, frames);
    SaidNeverCloses(parse, After(parse, frames));
  }

  lemma {:induction false} ClosesAtEnd(parse: Parse, frames: seq<string>)
    requires Ended(parse, frames)
    ensures UpToClose(parse, frames) != [] && UpToClose(parse, frames)[|UpToClose(parse, frames)| - 1] == OnClosed
  {
    if Ending(parse, frames[0]) {
    } else {
      ClosesAtEnd(parse, frames[1..]);
    }
  }

  lemma {:induction false} SaidNeverCloses(parse: Parse, frames: seq<string>)
    ensures OnClosed !in Said(parse, frames)
  {
    if frames == [] {
    } else {
      SaidNeverCloses(parse, frames[1..]);
      assert OnClosed !in SaidBy(parse, frames[0]);
    }
  }

  // ---------- cutting a response into callbacks ----------

  /** The state in which a stream would be if `text` had arrived all at once. */
  function AtOnce(parse: Parse, text: string): StreamState {
    StreamState(|text|, Rest(text), HandleFrames(parse, FRESH, Frames(text)))
  }

  /** Progress callbacks over a response text that only grows. */
  predicate Growing(events: seq<Event>) {
    && (forall k :: 0 <= k < |events| ==> events[k].Progress?)
    && (forall k :: 0 < k < |events| ==> events[k - 1].text <= events[k].text)
  }

  /** What is read of a growing text: all up to the first callback that completes a frame that ends the stream. */
  function Read(parse: Parse, events: seq<Event>): string
    requires Growing(events)
  {
    if events == [] then ""
    else
      var before := Read(parse, events[..|events| - 1]);
      if Ended(parse, Frames(before)) then before else events[|events| - 1].text
  }

  lemma {:induction false} HandleAppend(parse: Parse, l: Listener, f: seq<string>, g: seq<string>)
    ensures HandleFrames(parse, l, f + g) == HandleFrames(parse, HandleFrames(parse, l, f), g)
    decreases |f|
  {
    if f == [] {
      assert f + g == g;
    } else {
      assert (f + g)[1..] == f[1..] + g;
      HandleAppend(parse, HandleFrame(parse, l, f[0]), f[1..], g);
    }
  }

  lemma {:induction false} ConsumeMore(parse: Parse, seen: string, text: string)
    requires seen <= text
    ensures Consume(parse, AtOnce(parse, seen), text) == AtOnce(parse, text)
  {
    var more := text[|seen|..];
    assert text == seen + more;
    SplitAppend(seen, more);
    HandleAppend(parse, FRESH, Frames(seen), Frames(Rest(seen) + more));
    if more == [] {
      assert Rest(seen) + "" == Rest(seen) && Rest(seen) + more == Rest(seen);
    }
  }

  lemma {:induction false} ReadBounds(parse: Parse, events: seq<Event>)
    requires Growing(events) && events != []
    ensures
      var read, text := Read(parse, events), events[|events| - 1].text;
      read <= text && (read == text || Ended(parse, Frames(read)))
  {
    if |events| == 1 {
    } else {
      ReadBounds(parse, events[..|events| - 1]);
    }
  }

  lemma {:induction false} OpenUntilEnded(parse: Parse, frames: seq<string>)
    ensures
      var l := HandleFrames(parse, FRESH, frames);
      l.finished == !l.open && (l.open <==> !Ended(parse, frames))
  {
    HandleAll(parse, FRESH, frames);
  }

  /** However the text is cut into progress callbacks, the stream is where what has been read of it puts it. */
  lemma {:induction false} ChunkingIrrelevant(parse: Parse, events: seq<Event>)
    requires Growing(events)
    ensures Run(parse, events) == AtOnce(parse, Read(parse, events))
  {
    if events == [] {
    } else {
      var before := events[..|events| - 1];
      var seen, text := Read(parse, before), events[|events| - 1].text;
      ChunkingIrrelevant(parse, before);
      OpenUntilEnded(parse, Frames(seen));
      if before != [] {
        ReadBounds(parse, before);
      }
      ConsumeMore(parse, seen, text);
    }
  }

  /** The whole of `text` is sent, cut anyhow, and the request completes unless it has been aborted. */
  predicate Delivers(events: seq<Event>, text: string) {
    events != [] && events[|events| - 1] == Load(text) && Growing(events[..|events| - 1] + [Progress(text)])
  }

  /** The calls that every delivery of some frames makes. */
  function Common(parse: Parse, frames: seq<string>): seq<Call> {
    UpToClose(parse, frames) + if Ended(parse, frames) then [] else [OnClosed]
  }

  lemma {:induction false} DeliveryIsRead(parse: Parse, events: seq<Event>, text: string)
    requires Delivers(events, text)
    ensures Run(parse, events) == Complete(AtOnce(parse, Read(parse, events[..|events| - 1] + [Progress(text)])))
  {
    var before := events[..|events| - 1];
    var all := before + [Progress(text)];
    assert all[..|before|] == before && Growing(before);
    ChunkingIrrelevant(parse, before);
    ChunkingIrrelevant(parse, all);
    OpenUntilEnded(parse, Frames(Read(parse, before)));
    CompleteOnce(parse, Run(parse, before), text);
  }

  /** Completing a request that delivers its text is delivering the text and then completing. */
  lemma {:induction false} CompleteOnce(parse: Parse, s: StreamState, text: string)
    requires s.listener.open || s.listener.finished
    ensures Apply(parse, s, Load(text)) == Complete(Apply(parse, s, Progress(text)))
  {
  }

  lemma {:induction false} EndedAppend(parse: Parse, f: seq<string>, g: seq<string>)
    requires Ended(parse, f)
    ensures Ended(parse, f + g) && UpToClose(parse, f + g) == UpToClose(parse, f)
    ensures After(parse, f + g) == After(parse, f) + g
  {
    assert (f + g)[1..] == f[1..] + g;
    if Ending(parse, f[0]) {
    } else {
      EndedAppend(parse, f[1..], g);
    }
  }

  lemma {:induction false} NothingAfter(parse: Parse, f: seq<string>)
    requires !Ended(parse, f)
    ensures After(parse, f) == []
  {
    if f == [] {
    } else {
      NothingAfter(parse, f[1..]);
    }
  }

  /** What a completed stream has said. */
  function Heard(parse: Parse, frames: seq<string>): seq<Call> {
    Common(parse, frames) + Said(parse, After(parse, frames))
  }

  lemma {:induction false} CompletedFrames(parse: Parse, frames: seq<string>)
    ensures Finish(HandleFrames(parse, FRESH, frames)).(open := false) == Listener(false, true, Heard(parse, frames))
  {
    HandleAll(parse, FRESH, frames);
    assert [] + UpToClose(parse, frames) == UpToClose(parse, frames);
    if Ended(parse, frames) {
      assert Common(parse, frames) == UpToClose(parse, frames);
    } else {
      NothingAfter(parse, frames);
      assert Heard(parse, frames) == Common(parse, frames);
    }
  }

  lemma {:induction false} DeliveryHeard(parse: Parse, events: seq<Event>, text: string)
    requires Delivers(events, text)
    ensures
      var read := Read(parse, events[..|events| - 1] + [Progress(text)]);
      Run(parse, events).listener == Listener(false, true, Heard(parse, Frames(read)))
  {
    DeliveryIsRead(parse, events, text);
    CompletedFrames(parse, Frames(Read(parse, events[..|events| - 1] + [Progress(text)])));
  }

  /**
   Every delivery of a text makes the common calls, the last of which is the
   report that the stream is closed, and after them those of the first `n`
   frames behind the one that ended the stream.
   */
  lemma {:induction false} CallsOfDelivery(parse: Parse, events: seq<Event>, text: string) returns (n: nat)
    requires Delivers(events, text)
    ensures
      var frames := Frames(text);
      var later := After(parse, frames);
      && n <= |later|
      && Run(parse, events).listener == Listener(false, true, Common(parse, frames) + Said(parse, later[..n]))
  {
    var all := events[..|events| - 1] + [Progress(text)];
    DeliveryHeard(parse, events, text);
    ReadBounds(parse, all);
    n := HeardOfRead(parse, Read(parse, all), text);
  }

  lemma {:induction false} HeardOfRead(parse: Parse, read: string, text: string) returns (n: nat)
    requires read <= text && (read == text || Ended(parse, Frames(read)))
    ensures
      var frames := Frames(text);
      var later := After(parse, frames);
      n <= |later| && Heard(parse, Frames(read)) == Common(parse, frames) + Said(parse, later[..n])
  {
    var more := text[|read|..];
    assert text == read + more;
    SplitAppend(read, more);
    var f, g := Frames(read), Frames(Rest(read) + more);
    n := |After(parse, f)|;
    if Ended(parse, f) {
      EndedAppend(parse, f, g);
      assert After(parse, f + g)[..n] == After(parse, f);
    } else {
      NothingAfter(parse, f);
    }
  }

  /** All deliveries agree up to and including the one report that the stream is closed. */
  lemma {:induction false} SameCallsUpToClose(parse: Parse, events: seq<Event>, text: string)
    requires Delivers(events, text)
    ensures
      var common, calls := Common(parse, Frames(text)), Run(parse, events).listener.calls;
      && common != [] && common <= calls && common[|common| - 1] == OnClosed
      && forall k :: 0 <= k < |calls| && calls[k] == OnClosed ==> k == |common| - 1
  {
    var n := CallsOfDelivery(parse, events, text);
    CommonCloses(parse, Frames(text));
    ClosedAtMostOnce(parse, events);
    ClosesOnceInFront(Common(parse, Frames(text)), Said(parse, After(parse, Frames(text))[..n]));
  }

  lemma {:induction false} ClosesOnceInFront(common: seq<Call>, more: seq<Call>)
    requires common != [] && common[|common| - 1] == OnClosed && Closes(common + more) == 1
    ensures common <= common + more
    ensures forall k :: 0 <= k < |common + more| && (common + more)[k] == OnClosed ==> k == |common| - 1
  {
    OnlyOnce(common + more, |common| - 1);
  }

  lemma {:induction false} CommonCloses(parse: Parse, frames: seq<string>)
    ensures Common(parse, frames) != [] && Common(parse, frames)[|Common(parse, frames)| - 1] == OnClosed
  {
    if Ended(parse, frames) {
      ClosesAtEnd(parse, frames);
    }
  }

  lemma {:induction false} OnlyOnce(calls: seq<Call>, k: nat)
    requires Closes(calls) == 1 && k < |calls| && calls[k] == OnClosed
    ensures forall i :: 0 <= i < |calls| && calls[i] == OnClosed ==> i == k
  {
    forall i | 0 <= i < |calls| && calls[i] == OnClosed ensures i == k {
      if i < k {
        TwoCloses(calls, i, k);
      } else if k < i {
        TwoCloses(calls, k, i);
      }
    }
  }

  lemma {:induction false} TwoCloses(calls: seq<Call>, a: nat, b: nat)
    requires a < b < |calls| && calls[a] == OnClosed && calls[b] == OnClosed
    ensures Closes(calls) >= 2
  {
    assert calls == calls[..b] + calls[b..];
    assert calls[a] == calls[..b][a] && calls[b] == calls[b..][0];
    assert OnClosed in multiset(calls[..b]) && OnClosed in multiset(calls[b..]);
  }

  // ---------- how a stream ends ----------

  lemma {:induction false} EndedIff(parse: Parse, frames: seq<string>)
    ensures Ended(parse, frames) <==> exists f :: f in frames && Ending(parse, f)
  {
    if frames == [] {
    } else {
      EndedIff(parse, frames[1..]);
      assert frames == [frames[0]] + frames[1..];
    }
  }

  /** The frame is an admission, an error, or the news that the client is not queued. */
  predicate Final(parse: Parse, frame: string) {
    var m := parse(frame);
    m.Some? && (m.value.Admitted? || m.value.NotInQueue? || m.value.Error?)
  }

  /** A stream stays open exactly as long as nothing it has read is final, however the text is cut. */
  lemma {:induction false} OpenIff(parse: Parse, events: seq<Event>)
    requires Growing(events)
    ensures
      var l := Run(parse, events).listener;
      && (l.open <==> forall f :: f in Frames(Read(parse, events)) ==> !Final(parse, f))
      && (l.finished <==> !l.open)
  {
    var frames := Frames(Read(parse, events));
    ChunkingIrrelevant(parse, events);
    OpenUntilEnded(parse, frames);
    EndedIff(parse, frames);
    assert forall f :: Ending(parse, f) <==> Final(parse, f);
  }

  lemma {:induction false} HandlingKeepsOpen(parse: Parse, l: Listener, frames: seq<string>)
    requires l.open ==> !l.finished
    ensures var m := HandleFrames(parse, l, frames); m.open ==> !m.finished
    decreases |frames|
  {
    if frames == [] {
    } else {
      HandlingKeepsOpen(parse, HandleFrame(parse, l, frames[0]), frames[1..]);
    }
  }

  lemma {:induction false} OpenIsUnfinished(parse: Parse, events: seq<Event>)
    ensures var l := Run(parse, events).listener; l.open ==> !l.finished
  {
    if events == [] {
    } else {
      var s, e := Run(parse, events[..|events| - 1]), events[|events| - 1];
      OpenIsUnfinished(parse, events[..|events| - 1]);
      if e.Progress? {
        var buffer := s.buffer + if |e.text| > s.cursor then e.text[s.cursor..] else "";
        HandlingKeepsOpen(parse, s.listener, Frames(buffer));
      }
    }
  }

  /**
   After any events: a lost connection is reported and closes an open stream,
   and the caller's own close reports nothing.
   */
  lemma {:induction false} OpenStreamEnds(parse: Parse, events: seq<Event>)
    requires Run(parse, events).listener.open
    ensures
      var calls := Run(parse, events).listener.calls;
      && Run(parse, events + [NetworkError]).listener ==
           Listener(false, true, calls + [OnError("Lost connection to the queue stream. Please retry."), OnClosed])
      && Run(parse, events + [Close]).listener == Listener(false, false, calls)
  {
    var lost := [OnError(CONNECTION_LOST)];
    OpenIsUnfinished(parse, events);
    assert (events + [NetworkError])[..|events|] == events && (events + [Close])[..|events|] == events;
    Associate(Run(parse, events).listener.calls, lost, [OnClosed]);
  }

  /** Once over, a stream is silent. */
  lemma {:induction false} OverIsSilent(parse: Parse, events: seq<Event>, more: seq<Event>)
    requires !Run(parse, events).listener.open
    ensures Run(parse, events + more) == Run(parse, events)
  {
    if more == [] {
      assert events + more == events;
    } else {
      OverIsSilent(parse, events, more[..|more| - 1]);
      assert (events + more)[..|events + more| - 1] == events + more[..|more| - 1];
    }
  }

  // ---------- which calls depend on the cutting ----------

  lemma {:induction false} GlueAppend(f: seq<string>, g: seq<string>)
    ensures Glue(f + g) == Glue(f) + Glue(g)
  {
    if f == [] {
      assert f + g == g;
    } else {
      assert (f + g)[1..] == f[1..] + g;
      GlueAppend(f[1..], g);
      Associate(f[0] + "\n\n", Glue(f[1..]), Glue(g));
    }
  }

  /** Cutting inverts gluing. */
  lemma {:induction false} FramesOfGlue(frames: seq<string>)
    requires forall i :: 0 <= i < |frames| ==> Clean(frames[i])
    ensures Frames(Glue(frames)) == frames
  {
    if frames == [] {
    } else {
      FramesOfGlue(frames[1..]);
      CutFirst(frames[0], Glue(frames[1..]));
      assert frames == [frames[0]] + frames[1..];
    }
  }

  lemma {:induction false} CutFirst(f: string, rest: string)
    requires Clean(f)
    ensures Frames(f + "\n\n" + rest) == [f] + Frames(rest)
  {
    var s := f + "\n\n" + rest;
    FindBlankFirst(s, 0);
    var k := FindBlank(s, 0);
    assert BlankAt(s, |f|);
    assert k == |f| by {
      assert BlankAt(f + "\n\n", k);
    }
    assert s[..k] == f && s[k + 2..] == rest;
  }

  /** The text up to and including its first `m` frames is a prefix with exactly those frames. */
  lemma {:induction false} PrefixOfFrames(text: string, m: nat)
    requires m <= |Frames(text)|
    ensures Glue(Frames(text)[..m]) <= text && Frames(Glue(Frames(text)[..m])) == Frames(text)[..m]
  {
    SplitExact(text);
    GluedPrefix(Frames(text), Rest(text), m);
    FramesOfGlue(Frames(text)[..m]);
  }

  lemma {:induction false} GluedPrefix(frames: seq<string>, rest: string, m: nat)
    requires m <= |frames|
    ensures Glue(frames[..m]) <= Glue(frames) + rest
  {
    assert frames == frames[..m] + frames[m..];
    GlueAppend(frames[..m], frames[m..]);
    Associate(Glue(frames[..m]), Glue(frames[m..]), rest);
  }

  /** The frames up to and including the first that ends the stream, or all of them. */
  function UpToEnding(parse: Parse, frames: seq<string>): (m: nat)
    ensures m <= |frames|
  {
    if frames == [] then 0
    else if Ending(parse, frames[0]) then 1
    else 1 + UpToEnding(parse, frames[1..])
  }

  lemma {:induction false} HeardUpToEnding(parse: Parse, frames: seq<string>)
    ensures
      var head := frames[..UpToEnding(parse, frames)];
      && (Ended(parse, head) <==> Ended(parse, frames))
      && UpToClose(parse, head) == UpToClose(parse, frames)
      && After(parse, head) == []
  {
    if frames == [] {
    } else {
      var m := UpToEnding(parse, frames);
      var head := frames[..m];
      assert head[0] == frames[0];
      if Ending(parse, frames[0]) {
        assert head[1..] == [];
      } else {
        HeardUpToEnding(parse, frames[1..]);
        assert head[1..] == frames[1..][..m - 1];
      }
    }
  }

  /** One callback that stops right behind the frame that ends the stream, and then the rest. */
  function CutAtEnding(parse: Parse, text: string): seq<Event> {
    [Progress(Glue(Frames(text)[..UpToEnding(parse, Frames(text))])), Load(text)]
  }

  lemma {:induction false} ReadOfTwo(parse: Parse, head: string, text: string)
    requires head <= text
    ensures Growing([Progress(head), Progress(text)])
    ensures Read(parse, [Progress(head), Progress(text)]) == if Ended(parse, Frames(head)) then head else text
  {
    var all := [Progress(head), Progress(text)];
    assert all[..1] == [Progress(head)] && all[..1][..0] == [];
    assert !Ended(parse, Frames(""));
    assert Read(parse, all[..1]) == head;
  }

  /** Cut there, nothing is heard of the later frames. */
  lemma {:induction false} EarlyCut(parse: Parse, text: string)
    ensures Delivers(CutAtEnding(parse, text), text)
    ensures Run(parse, CutAtEnding(parse, text)).listener.calls == Common(parse, Frames(text))
  {
    EarlyRead(parse, text);
    DeliveryHeard(parse, CutAtEnding(parse, text), text);
    EarlyHeard(parse, Frames(text));
  }

  lemma {:induction false} EarlyRead(parse: Parse, text: string)
    ensures Delivers(CutAtEnding(parse, text), text)
    ensures
      var frames, cut := Frames(text), CutAtEnding(parse, text);
      var head := frames[..UpToEnding(parse, frames)];
      Frames(Read(parse, cut[..|cut| - 1] + [Progress(text)])) == if Ended(parse, head) then head else frames
  {
    var m := UpToEnding(parse, Frames(text));
    var head := Glue(Frames(text)[..m]);
    PrefixOfFrames(text, m);
    ReadOfTwo(parse, head, text);
    assert CutAtEnding(parse, text)[..1] + [Progress(text)] == [Progress(head), Progress(text)];
  }

  lemma {:induction false} EarlyHeard(parse: Parse, frames: seq<string>)
    ensures
      var head := frames[..UpToEnding(parse, frames)];
      Heard(parse, if Ended(parse, head) then head else frames) == Common(parse, frames)
  {
    var head := frames[..UpToEnding(parse, frames)];
    HeardUpToEnding(parse, frames);
    if Ended(parse, head) {
      OnlyCommon(parse, head);
    } else {
      NothingAfter(parse, frames);
      OnlyCommon(parse, frames);
    }
  }

  lemma {:induction false} OnlyCommon(parse: Parse, frames: seq<string>)
    requires After(parse, frames) == []
    ensures Heard(parse, frames) == Common(parse, frames)
  {
  }

  /** Not cut at all, everything is. */
  lemma {:induction false} NoCut(parse: Parse, text: string)
    ensures Delivers([Load(text)], text)
    ensures Run(parse, [Load(text)]).listener.calls == Heard(parse, Frames(text))
  {
    var all := [Progress(text)];
    assert [Load(text)][..0] + all == all && all[..0] == [];
    assert !Ended(parse, Frames(""));
    DeliveryHeard(parse, [Load(text)], text);
  }

  lemma {:induction false} SaidAppend(parse: Parse, f: seq<string>, g: seq<string>)
    ensures Said(parse, f + g) == Said(parse, f) + Said(parse, g)
  {
    if f == [] {
      assert f + g == g;
    } else {
      assert (f + g)[1..] == f[1..] + g;
      SaidAppend(parse, f[1..], g);
      Associate(SaidBy(parse, f[0]), Said(parse, f[1..]), Said(parse, g));
    }
  }

  /** All deliveries of a text make the same calls exactly when nothing is said behind the frame that ends it. */
  lemma {:induction false} SameCallsIff(parse: Parse, text: string)
    ensures
      (forall events, others :: Delivers(events, text) && Delivers(others, text) ==>
         Run(parse, events).listener.calls == Run(parse, others).listener.calls)
      <==> Said(parse, After(parse, Frames(text))) == []
  {
    EarlyCut(parse, text);
    NoCut(parse, text);
    if Said(parse, After(parse, Frames(text))) == [] {
      forall events | Delivers(events, text)
        ensures Run(parse, events).listener.calls == Common(parse, Frames(text))
      {
        QuietDelivery(parse, events, text);
      }
    }
  }

  lemma {:induction false} QuietDelivery(parse: Parse, events: seq<Event>, text: string)
    requires Delivers(events, text) && Said(parse, After(parse, Frames(text))) == []
    ensures Run(parse, events).listener.calls == Common(parse, Frames(text))
  {
    var n := CallsOfDelivery(parse, events, text);
    QuietPrefix(parse, After(parse, Frames(text)), n);
  }

  lemma {:induction false} QuietPrefix(parse: Parse, frames: seq<string>, n: nat)
    requires n <= |frames| && Said(parse, frames) == []
    ensures Said(parse, frames[..n]) == []
  {
    assert frames == frames[..n] + frames[n..];
    SaidAppend(parse, frames[..n], frames[n..]);
  }

  /** An admission with a position behind it: whether the position is reported depends on the cutting. */
  lemma {:induction false} PositionAfterAdmission(parse: Parse, f: string, g: string, token: string, position: int)
    requires Clean(f) && Clean(g) && token != ""
    requires parse(f) == Some(Admitted(token)) && parse(g) == Some(Position(position, 0, 0))
    ensures
      var head, text := f + "\n\n", f + "\n\n" + g + "\n\n";
      && Delivers([Load(text)], text) && Delivers([Progress(head), Load(text)], text)
      && Run(parse, [Load(text)]).listener.calls == [OnAdmitted(token), OnClosed, OnPosition(position, 0, 0)]
      && Run(parse, [Progress(head), Load(text)]).listener.calls == [OnAdmitted(token), OnClosed]
  {
    var text := f + "\n\n" + g + "\n\n";
    TwoFrames(f, g);
    AdmissionFrames(parse, f, g, token, position);
    GlueOne(f);
    EarlyCut(parse, text);
    NoCut(parse, text);
  }

  lemma {:induction false} AdmissionFrames(parse: Parse, f: string, g: string, token: string, position: int)
    requires token != ""
    requires parse(f) == Some(Admitted(token)) && parse(g) == Some(Position(position, 0, 0))
    ensures UpToEnding(parse, [f, g]) == 1 && [f, g][..1] == [f]
    ensures Common(parse, [f, g]) == [OnAdmitted(token), OnClosed]
    ensures Heard(parse, [f, g]) == [OnAdmitted(token), OnClosed, OnPosition(position, 0, 0)]
  {
    var frames := [f, g];
    assert frames[1..] == [g] && [g][1..] == [];
    assert UpToClose(parse, frames) == [OnAdmitted(token)] + [OnClosed];
    assert Said(parse, [g]) == [OnPosition(position, 0, 0)] + [];
    assert After(parse, frames) == [g];
  }

  /** The same with the frames as the server writes them, whatever JSON texts `A` and `P` abbreviate. */
  lemma {:induction false} CuttingMatters(json: string -> Option<Message>, token: string)
    requires token != "" && json("A") == Some(Admitted(token)) && json("P") == Some(Position(1, 0, 0))
    ensures
      var f, g := "data: A", "data: P";
      var head, text := f + "\n\n", f + "\n\n" + g + "\n\n";
      && Run(Parser(json), [Load(text)]).listener.calls == [OnAdmitted(token), OnClosed, OnPosition(1, 0, 0)]
      && Run(Parser(json), [Progress(head), Load(text)]).listener.calls == [OnAdmitted(token), OnClosed]
  {
    assert "data: " + "A" == "data: A" && "data: " + "P" == "data: P";
    ShortData(json, "A");
    ShortData(json, "P");
    PositionAfterAdmission(Parser(json), "data: A", "data: P", token, 1);
  }

  lemma {:induction false} ShortData(json: string -> Option<Message>, d: string)
    requires |d| == 1 && !IsSpace(d[0])
    ensures Parser(json)("data: " + d) == json(d)
    ensures Clean("data: " + d)
  {
    assert Trim(d) == d;
    DataFrame(json, [d]);
    assert Prefixed([d]) == ["data: " + d];
    var f := "data: " + d;
    assert forall k: nat :: k < 7 ==> (f + "\n\n")[k] == f[k];
    assert forall k :: 0 <= k < 7 ==> f[k] != '\n';
  }

  lemma {:induction false} GlueOne(f: string)
    ensures Glue([f]) == f + "\n\n"
  {
    assert [f][1..] == [];
    assert f + "\n\n" + "" == f + "\n\n";
  }

  lemma {:induction false} TwoFrames(f: string, g: string)
    requires Clean(f) && Clean(g)
    ensures Frames(f + "\n\n" + g + "\n\n") == [f, g]
  {
    GlueOne(g);
    GlueCons(f, [g]);
    Associate(f + "\n\n", g, "\n\n");
    assert [f] + [g] == [f, g];
    FramesOfGlue([f, g]);
  }

  // ---------- proof of work ----------

  function Digits(n: nat): string {
    if n < 10 then ['0' + n as char] else Digits(n / 10) + ['0' + (n % 10) as char]
  }

  predicate Solves(hash: string -> string, challenge: string, difficulty: nat, nonce: nat) {
    seq(difficulty, _ => '0') <= hash(challenge + Digits(nonce))
  }

  /** A nonce works when the hash begins with that many zeros. */
  lemma {:induction false} SolvesIff(hash: string -> string, challenge: string, difficulty: nat, nonce: nat)
    ensures
      var h := hash(challenge + Digits(nonce));
      Solves(hash, challenge, difficulty, nonce) <==>
      difficulty <= |h| && forall i :: 0 <= i < difficulty ==> h[i] == '0'
  {
    var h, zeros := hash(challenge + Digits(nonce)), seq(difficulty, _ => '0');
    if zeros <= h {
      forall i | 0 <= i < difficulty ensures h[i] == '0' {
        assert h[i] == zeros[i];
      }
    }
    if difficulty <= |h| && forall i :: 0 <= i < difficulty ==> h[i] == '0' {
      assert h[..difficulty] == zeros;
    }
  }

  /** The number a decimal text denotes. */
  function Decimal(s: string): int {
    if s == "" then 0 else 10 * Decimal(s[..|s| - 1]) + (s[|s| - 1] as int - '0' as int)
  }

  /** Nonces are written in decimal, without a leading zero. */
  lemma {:induction false} DigitsExact(n: nat)
    ensures Digits(n) != "" && forall i :: 0 <= i < |Digits(n)| ==> '0' <= Digits(n)[i] <= '9'
    ensures Decimal(Digits(n)) == n
    ensures Digits(n)[0] == '0' <==> n == 0
  {
    if n < 10 {
      assert Digits(n)[..0] == "";
    } else {
      DigitsExact(n / 10);
      assert Digits(n)[..|Digits(n)| - 1] == Digits(n / 10);
    }
  }

  /** The smallest nonce below the limit that works, or an error when there is none. */
  method SolvePow(hash: string -> string, challenge: string, difficulty: nat, maxAttempts: nat)
    returns (r: Result<string, string>)
    ensures r.Ok? ==> exists n: nat ::
      n < maxAttempts && r.value == Digits(n) && Solves(hash, challenge, difficulty, n)
      && forall k: nat :: k < n ==> !Solves(hash, challenge, difficulty, k)
    ensures r.Err? <==> forall k: nat :: k < maxAttempts ==> !Solves(hash, challenge, difficulty, k)
    ensures
      var message := "Could not solve the proof-of-work challenge at difficulty ";
      r.Err? ==> r.error == message + Digits(difficulty) + ". Please try again."
  {
    for nonce := 0 to maxAttempts
      invariant forall k: nat :: k < nonce ==> !Solves(hash, challenge, difficulty, k)
    {
      if Solves(hash, challenge, difficulty, nonce) {
        return Ok(Digits(nonce));
      }
    }
    return Err("Could not solve the proof-of-work challenge at difficulty "
               + Digits(difficulty) + ". Please try again.");
  }
}
