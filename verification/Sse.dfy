/**
Server-Sent Events: the frames internal/api/sse.go writes (section 9.2.6 of the WHATWG HTML Living
Standard) and the line loop of internal/chat/openai.go that reads such frames.
*/
module Sse {
  import opened Common
  import opened Text
  import opened Seqs

  // ---------------------------------------------------------------------------------------------
  // Writing
  // ---------------------------------------------------------------------------------------------

  /** An event and its payload, already encoded. */
  datatype Frame = Frame(event: string, payload: string)

  function Sent(f: Frame): string {
    "event: " + f.event + "\n" + ("data: " + f.payload + "\n" + "\n")
  }

  function SentAll(fs: seq<Frame>): string {
    if fs == [] then "" else Sent(fs[0]) + SentAll(fs[1..])
  }

  lemma {:induction false} SentAllSnoc(fs: seq<Frame>, f: Frame)
    ensures SentAll(fs + [f]) == SentAll(fs) + Sent(f)
    decreases |fs|
  {
    if fs == [] {
      assert [f][1..] == [];
    } else {
      assert (fs + [f])[1..] == fs[1..] + [f];
      SentAllSnoc(fs[1..], f);
    }
  }

  /** The response: the bytes on the wire are the frames sent, one after the other. */
  class Stream {
    var written: string
    ghost var frames: seq<Frame>

    ghost predicate Valid()
      reads this
    {
      written == SentAll(frames)
    }

    constructor ()
      ensures Valid() && frames == []
    {
      written, frames := "", [];
    }

    method Send(event: string, payload: string)
      requires Valid()
      modifies this
      ensures Valid() && frames == old(frames) + [Frame(event, payload)]
    {
      SentAllSnoc(frames, Frame(event, payload));
      written := written + ("event: " + event + "\n" + ("data: " + payload + "\n" + "\n"));
      frames := frames + [Frame(event, payload)];
    }

    /** A client with the same line loop reads off the response exactly what was sent, if it can be read at all. */
    lemma ReadsBackIff()
      requires Valid() && forall i | 0 <= i < |frames| :: Free(IsBreak, frames[i].event)
      ensures Payloads(ScanLines(written)) == PayloadsIn(frames)
              <==> forall i | 0 <= i < |frames| :: Recoverable(frames[i].payload)
    {
      FramesReadIff(frames);
    }

    /** A client that follows the standard sees the events sent, by name and payload. */
    lemma ClientSees()
      requires Valid()
      requires forall i | 0 <= i < |frames| ::
                 frames[i].event != "" && Free(IsBreak, frames[i].event) && Free(IsBreak, frames[i].payload)
      ensures Dispatched(Lines(written), "", "") == frames
    {
      FramesDispatched(frames);
    }
  }

  // ---------------------------------------------------------------------------------------------
  // Reading
  // ---------------------------------------------------------------------------------------------

  function DropCR(line: string): string {
    if line != "" && line[|line| - 1] == '\r' then line[..|line| - 1] else line
  }

  /** bufio.ScanLines: lines without their ends; no empty line after the last break. */
  function ScanLines(s: string): (r: seq<string>)
    ensures AllFree(IsBreak, r)
    decreases |s|
  {
    if s == "" then []
    else
      var n := Span(IsBreak, s);
      if n == |s| then [DropCR(s)] else [DropCR(s[..n])] + ScanLines(s[n + 1..])
  }

  /** The payload on a line, if it is a data line. */
  function PayloadOf(line: string): Option<string> {
    var t := TrimSpace(line);
    if "data: " <= t then Some(t[|"data: "|..]) else None
  }

  predicate IsDone(line: string) { PayloadOf(line) == Some("[DONE]") }

  /** The payloads up to the end marker, in order. */
  function Payloads(lines: seq<string>): seq<string> {
    if lines == [] || IsDone(lines[0]) then []
    else (if PayloadOf(lines[0]).Some? then [PayloadOf(lines[0]).value] else []) + Payloads(lines[1..])
  }

  /** A decoded model event: only these fields are looked at. */
  datatype ModelEvent = ModelEvent(kind: string, delta: string, status: string, reason: string)

  /** Payloads that do not decode are skipped. */
  function EventsOf(decode: string -> Option<ModelEvent>, payloads: seq<string>): seq<ModelEvent> {
    if payloads == [] then []
    else
      EventsOf(decode, payloads[..|payloads| - 1])
      + var e := decode(payloads[|payloads| - 1]); if e.Some? then [e.value] else []
  }

  function DeltasOf(events: seq<ModelEvent>): seq<string> {
    if events == [] then []
    else
      var e := events[|events| - 1];
      DeltasOf(events[..|events| - 1]) + if e.kind == "response.output_text.delta" then [e.delta] else []
  }

  /** Set by the last completion event. */
  function StopOf(events: seq<ModelEvent>): string {
    if events == [] then ""
    else
      var e := events[|events| - 1];
      if e.kind == "response.completed" then (if e.status == "incomplete" then e.reason else "end_turn")
      else StopOf(events[..|events| - 1])
  }

  predicate Refused(events: seq<ModelEvent>) {
    exists e :: e in events && e.kind == "response.refusal.delta"
  }

  datatype ModelReply = ModelReply(text: string, stopReason: string)

  function ReplyOf(events: seq<ModelEvent>): ModelReply {
    ModelReply(Concat(DeltasOf(events)), if Refused(events) then "refusal" else StopOf(events))
  }

  predicate Marked(lines: seq<string>) { exists i :: 0 <= i < |lines| && IsDone(lines[i]) }

  /** The loop's variables. */
  datatype Progress = Progress(text: string, stopReason: string, refused: bool, deltas: seq<string>) {
    function ToReply(): ModelReply { ModelReply(text, if refused then "refusal" else stopReason) }
  }

  ghost predicate Reflects(p: Progress, events: seq<ModelEvent>) {
    && p.deltas == DeltasOf(events) && p.text == Concat(p.deltas)
    && p.stopReason == StopOf(events) && p.refused == Refused(events)
  }

  /** The switch on one decoded event. */
  method Take(p: Progress, event: ModelEvent, ghost events: seq<ModelEvent>) returns (r: Progress)
    requires Reflects(p, events)
    ensures Reflects(r, events + [event])
  {
    ghost var now := events + [event];
    assert now[..|now| - 1] == events;
    assert Refused(now) <==> Refused(events) || event.kind == "response.refusal.delta" by {
      assert event in now;
      assert forall e :: e in now <==> e in events || e == event;
    }
    r := p;
    if event.kind == "response.output_text.delta" {
      r := r.(text := r.text + event.delta, deltas := r.deltas + [event.delta]);
      assert r.deltas[..|r.deltas| - 1] == p.deltas;
    } else if event.kind == "response.completed" {
      r := r.(stopReason := "end_turn");
      if event.status == "incomplete" {
        r := r.(stopReason := event.reason);
      }
    } else if event.kind == "response.refusal.delta" {
      r := r.(refused := true);
    }
  }

  lemma EventsSnoc(decode: string -> Option<ModelEvent>, payloads: seq<string>, data: string)
    ensures EventsOf(decode, payloads + [data])
            == if decode(data).Some? then EventsOf(decode, payloads) + [decode(data).value] else EventsOf(decode, payloads)
  {
    assert (payloads + [data])[..|payloads|] == payloads;
  }

  /** One line of the loop: the end, a payload more, or nothing. */
  lemma LineStep(payloads: seq<string>, lines: seq<string>, i: nat)
    requires i < |lines| && !Marked(lines[..i])
    ensures var p := PayloadOf(lines[i]);
            if IsDone(lines[i]) then Marked(lines) && Payloads(lines[i..]) == []
            else !Marked(lines[..i + 1])
                 && payloads + Payloads(lines[i..])
                    == (if p.Some? then payloads + [p.value] else payloads) + Payloads(lines[i + 1..])
  {
    var rest := lines[i..];
    assert rest[0] == lines[i] && rest[1..] == lines[i + 1..];
    if !IsDone(lines[i]) {
      assert forall k | 0 <= k < i :: lines[..i + 1][k] == lines[..i][k];
      var p := PayloadOf(lines[i]);
      if p.Some? {
        assert payloads + ([p.value] + Payloads(rest[1..])) == payloads + [p.value] + Payloads(rest[1..]);
      } else {
        assert [] + Payloads(rest[1..]) == Payloads(rest[1..]);
      }
    }
  }

  /**
  The scan loop over the lines of a response; `broken` is whether reading fails after the last of
  them. `deltas` are the calls of onDelta.
  */
  method ReadReply(lines: seq<string>, broken: bool, decode: string -> Option<ModelEvent>)
    returns (r: Option<ModelReply>, deltas: seq<string>)
    ensures var events := EventsOf(decode, Payloads(lines));
            && deltas == DeltasOf(events)
            && r == if broken && !Marked(lines) then None else Some(ReplyOf(events))
  {
    var p := Progress("", "", false, []);
    ghost var payloads: seq<string> := [];
    var i := 0;
    assert lines[0..] == lines;
    while i < |lines|
      invariant 0 <= i <= |lines|
      invariant Reflects(p, EventsOf(decode, payloads))
      invariant payloads + Payloads(lines[i..]) == Payloads(lines)
      invariant !Marked(lines[..i])
    {
      LineStep(payloads, lines, i);
      var line := TrimSpace(lines[i]);
      i := i + 1;
      if !("data: " <= line) { continue; }
      var data := line[|"data: "|..];
      if data == "[DONE]" {
        assert payloads + [] == payloads;
        return Some(p.ToReply()), p.deltas;
      }
      EventsSnoc(decode, payloads, data);
      var event := decode(data);
      if event.Some? {
        p := Take(p, event.value, EventsOf(decode, payloads));
      }
      payloads := payloads + [data];
    }
    assert lines[i..] == [] && lines[..i] == lines && payloads + [] == payloads;
    if broken { return None, p.deltas; }
    return Some(p.ToReply()), p.deltas;
  }

  // ---------------------------------------------------------------------------------------------
  // Reading undoes writing
  // ---------------------------------------------------------------------------------------------

  /** A payload the reader gives back as it was. */
  ghost predicate Recoverable(p: string) {
    p != "" && Free(IsBreak, p) && !IsSpace(p[|p| - 1]) && p != "[DONE]"
  }

  lemma ScanCons(line: string, rest: string)
    requires Free(IsBreak, line)
    ensures ScanLines(line + "\n" + rest) == [DropCR(line)] + ScanLines(rest)
  {
    assert line + "\n" + rest == line + ("\n" + rest);
    SpanAt(IsBreak, line, "\n" + rest);
    assert (line + "\n" + rest)[..|line|] == line;
    assert (line + "\n" + rest)[|line| + 1..] == rest;
  }

  lemma EventLineSkipped(event: string)
    ensures PayloadOf(DropCR("event: " + event)) == None
  {
    var line := DropCR("event: " + event);
    assert line[0] == 'e';
    assert TrimLeft(line) == line;
    TrimKeepsFirst(line);
  }

  lemma {:induction false} TrimKeepsFirst(s: string)
    requires s != "" && !IsSpace(s[0])
    ensures TrimRight(s) != "" && TrimRight(s)[0] == s[0]
    decreases |s|
  {
    if IsSpace(s[|s| - 1]) { TrimKeepsFirst(s[..|s| - 1]); }
  }

  lemma DataLineRead(p: string)
    requires p != "" && !IsSpace(p[|p| - 1])
    ensures PayloadOf(DropCR("data: " + p)) == Some(p)
  {
    var line := "data: " + p;
    assert line[0] == 'd' && line[|line| - 1] == p[|p| - 1];
    assert DropCR(line) == line && TrimSpace(line) == line;
    assert line[|"data: "|..] == p;
  }

  function LessEmptyEnd(ls: seq<string>): seq<string>
    requires ls != []
  {
    if ls[|ls| - 1] == "" then ls[..|ls| - 1] else ls
  }

  /**
  The lines scanned are what is between the line breaks, the last one too if the text does not end in a break;
  each without a carriage return at its end.
  */
  lemma {:induction false} ScannedLines(s: string)
    ensures ScanLines(s) == Mapped(DropCR, LessEmptyEnd(Lines(s)))
    decreases |s|
  {
    var n := Span(IsBreak, s);
    if n == |s| {
      ScannedOne(s);
    } else {
      ScannedLines(s[n + 1..]);
      ScanStep(s, n);
      OneLineMore(s[..n], Lines(s[n + 1..]));
    }
  }

  lemma ScannedOne(s: string)
    requires Span(IsBreak, s) == |s|
    ensures ScanLines(s) == Mapped(DropCR, LessEmptyEnd(Lines(s)))
  {
    assert Lines(s) == [s];
    if s == "" { assert LessEmptyEnd([s]) == []; } else { assert Mapped(DropCR, [s]) == [DropCR(s)]; }
  }

  lemma ScanStep(s: string, n: nat)
    requires n == Span(IsBreak, s) < |s|
    ensures Lines(s) == [s[..n]] + Lines(s[n + 1..]) && ScanLines(s) == [DropCR(s[..n])] + ScanLines(s[n + 1..])
  {
    SplitCons(IsBreak, s[..n], '\n', s[n + 1..]);
    ScanCons(s[..n], s[n + 1..]);
    BreakAt(s, n);
  }

  lemma BreakAt(s: string, n: nat)
    requires n < |s| && s[n] == '\n'
    ensures s == s[..n] + (['\n'] + s[n + 1..]) && s == s[..n] + "\n" + s[n + 1..]
  {}

  lemma OneLineMore(line: string, ls: seq<string>)
    requires ls != []
    ensures Mapped(DropCR, LessEmptyEnd([line] + ls)) == [DropCR(line)] + Mapped(DropCR, LessEmptyEnd(ls))
  {
    assert ([line] + ls)[..|ls|] == [line] + ls[..|ls| - 1];
    assert LessEmptyEnd([line] + ls) == [line] + LessEmptyEnd(ls);
  }

  /** One carriage return at most, and nothing else. */
  lemma DropsOne(line: string)
    ensures DropCR(line + "\r") == line
    ensures (forall s :: line != s + "\r") ==> DropCR(line) == line
  {
    if line != "" && line[|line| - 1] == '\r' { assert line == line[..|line| - 1] + "\r"; }
  }

  /** A line holds a payload if, between white space, it is "data: " and that payload, which ends in something. */
  lemma PayloadIff(line: string, p: string)
    ensures PayloadOf(line) == Some(p)
            <==> p != "" && !IsSpace(p[|p| - 1]) && exists a, b :: Blank(a) && Blank(b) && line == a + ("data: " + p) + b
  {
    var t := "data: " + p;
    TrimIff(line, t);
    assert t[0] == 'd' && t[|"data: "|..] == p;
    assert p != "" ==> t[|t| - 1] == p[|p| - 1];
    assert p == "" ==> t[|t| - 1] == ' ';
    if PayloadOf(line) == Some(p) { assert TrimSpace(line) == t; }
  }

  function PayloadsIn(fs: seq<Frame>): (r: seq<string>)
    ensures |r| == |fs| && forall i | 0 <= i < |r| :: r[i] == fs[i].payload
  {
    seq(|fs|, i requires 0 <= i < |fs| => fs[i].payload)
  }

  /** One more line in front: skipped, or read. */
  lemma LineRead(line: string, rest: string)
    requires Free(IsBreak, line) && !IsDone(DropCR(line))
    ensures var p := PayloadOf(DropCR(line));
            Payloads(ScanLines(line + "\n" + rest))
            == (if p.Some? then [p.value] else []) + Payloads(ScanLines(rest))
  {
    ScanCons(line, rest);
    assert ([DropCR(line)] + ScanLines(rest))[1..] == ScanLines(rest);
  }

  lemma BlankRead(rest: string)
    ensures Payloads(ScanLines("" + "\n" + rest)) == Payloads(ScanLines(rest))
  {
    assert PayloadOf(DropCR("")) == None;
    LineRead("", rest);
  }

  lemma DataRead(p: string, rest: string)
    requires Recoverable(p)
    ensures Payloads(ScanLines(("data: " + p) + "\n" + rest)) == [p] + Payloads(ScanLines(rest))
  {
    DataLineRead(p);
    LineRead("data: " + p, rest);
  }

  lemma EventRead(event: string, rest: string)
    requires Free(IsBreak, event)
    ensures Payloads(ScanLines(("event: " + event) + "\n" + rest)) == Payloads(ScanLines(rest))
  {
    EventLineSkipped(event);
    LineRead("event: " + event, rest);
  }

  lemma FrameRead(f: Frame, rest: string)
    requires Free(IsBreak, f.event) && Recoverable(f.payload)
    ensures Payloads(ScanLines(Sent(f) + rest)) == [f.payload] + Payloads(ScanLines(rest))
  {
    var afterData := "" + "\n" + rest;
    var afterEvent := ("data: " + f.payload) + "\n" + afterData;
    FrameLines(f, rest);
    EventRead(f.event, afterEvent);
    DataRead(f.payload, afterData);
    BlankRead(rest);
  }

  lemma FrameLines(f: Frame, rest: string)
    ensures Sent(f) + rest
            == ("event: " + f.event) + "\n" + (("data: " + f.payload) + "\n" + ("" + "\n" + rest))
  {}

  lemma {:induction false} FramesRead(fs: seq<Frame>)
    requires forall i | 0 <= i < |fs| :: Free(IsBreak, fs[i].event) && Recoverable(fs[i].payload)
    ensures Payloads(ScanLines(SentAll(fs))) == PayloadsIn(fs)
    decreases |fs|
  {
    if fs != [] {
      FrameRead(fs[0], SentAll(fs[1..]));
      FramesRead(fs[1..]);
      PayloadsCons(fs);
    }
  }

  lemma PayloadsCons(fs: seq<Frame>)
    requires fs != []
    ensures PayloadsIn(fs) == [fs[0].payload] + PayloadsIn(fs[1..])
  {}

  lemma {:induction false} TrimFree(line: string)
    requires Free(IsBreak, line)
    ensures Free(IsBreak, TrimLeft(line))
    decreases |line|
  {
    if line != "" && IsSpace(line[0]) { TrimFree(line[1..]); }
  }

  /** Whatever is read is recoverable. */
  lemma {:induction false} ReadIsRecoverable(lines: seq<string>, i: nat)
    requires AllFree(IsBreak, lines) && i < |Payloads(lines)|
    ensures Recoverable(Payloads(lines)[i])
    decreases |lines|
  {
    TrimFree(lines[0]);
    var p := PayloadOf(lines[0]);
    if p.Some? && i == 0 {
      assert Free(IsBreak, TrimSpace(lines[0]));
    } else {
      ReadIsRecoverable(lines[1..], if p.Some? then i - 1 else i);
    }
  }

  /** Frames are read back as they were written exactly when every payload is recoverable. */
  lemma FramesReadIff(fs: seq<Frame>)
    requires forall i | 0 <= i < |fs| :: Free(IsBreak, fs[i].event)
    ensures Payloads(ScanLines(SentAll(fs))) == PayloadsIn(fs)
            <==> forall i | 0 <= i < |fs| :: Recoverable(fs[i].payload)
  {
    if forall i | 0 <= i < |fs| :: Recoverable(fs[i].payload) {
      FramesRead(fs);
    } else if Payloads(ScanLines(SentAll(fs))) == PayloadsIn(fs) {
      var i :| 0 <= i < |fs| && !Recoverable(fs[i].payload);
      ReadIsRecoverable(ScanLines(SentAll(fs)), i);
      assert false;
    }
  }

  /** Payloads under one event name. */
  function Framed(event: string, payloads: seq<string>): (r: seq<Frame>)
    ensures |r| == |payloads| && forall i | 0 <= i < |r| :: r[i] == Frame(event, payloads[i])
  {
    seq(|payloads|, i requires 0 <= i < |payloads| => Frame(event, payloads[i]))
  }

  /** Whatever text is scanned: its payloads printed as frames and scanned again are its payloads. */
  lemma ScanPrintScan(text: string, event: string)
    requires Free(IsBreak, event)
    ensures var read := Payloads(ScanLines(text)); Payloads(ScanLines(SentAll(Framed(event, read)))) == read
  {
    var read := Payloads(ScanLines(text));
    var fs := Framed(event, read);
    forall i | 0 <= i < |fs| ensures Recoverable(fs[i].payload) {
      ReadIsRecoverable(ScanLines(text), i);
    }
    FramesReadIff(fs);
    assert PayloadsIn(fs) == read;
  }

  // ---------------------------------------------------------------------------------------------
  // A client that follows the standard
  // ---------------------------------------------------------------------------------------------

  /** A field's value: after the colon, without one leading blank. */
  function FieldValue(s: string): string { if s != "" && s[0] == ' ' then s[1..] else s }

  /**
  The standard's reader, line by line: a blank line dispatches what the fields before it have set. A raw
  carriage return would end a line too, but encoded JSON has none.
  */
  function Dispatched(lines: seq<string>, event: string, data: string): seq<Frame> {
    if lines == [] then []
    else
      var l, rest := lines[0], lines[1..];
      if l == "" then
        (if data == "" then [] else [Frame(if event == "" then "message" else event, data[..|data| - 1])])
        + Dispatched(rest, "", "")
      else if "event:" <= l then Dispatched(rest, FieldValue(l[|"event:"|..]), data)
      else if "data:" <= l then Dispatched(rest, event, data + FieldValue(l[|"data:"|..]) + "\n")
      else Dispatched(rest, event, data)
  }

  lemma ThreeLines(a: string, b: string, rest: string)
    requires Free(IsBreak, a) && Free(IsBreak, b)
    ensures Lines(a + (['\n'] + (b + (['\n'] + ("" + (['\n'] + rest)))))) == [a] + ([b] + ([""] + Lines(rest)))
  {
    var last := "" + (['\n'] + rest);
    var middle := b + (['\n'] + last);
    SplitCons(IsBreak, "", '\n', rest);
    SplitCons(IsBreak, b, '\n', last);
    SplitCons(IsBreak, a, '\n', middle);
  }

  lemma SentLines(f: Frame, rest: string)
    ensures Sent(f) + rest
            == ("event: " + f.event) + (['\n'] + (("data: " + f.payload) + (['\n'] + ("" + (['\n'] + rest)))))
  {}

  lemma EventField(event: string, rest: seq<string>)
    ensures Dispatched(["event: " + event] + rest, "", "") == Dispatched(rest, event, "")
  {
    var l := "event: " + event;
    assert ([l] + rest)[1..] == rest;
    assert l[|"event:"|..] == " " + event && (" " + event)[1..] == event;
  }

  lemma DataField(event: string, data: string, rest: seq<string>)
    ensures Dispatched(["data: " + data] + rest, event, "") == Dispatched(rest, event, data + "\n")
  {
    var l := "data: " + data;
    assert ([l] + rest)[1..] == rest;
    assert l[0] == 'd' && l[|"data:"|..] == " " + data && (" " + data)[1..] == data;
    assert "" + data + "\n" == data + "\n";
  }

  lemma BlankLine(event: string, data: string, rest: seq<string>)
    requires event != ""
    ensures Dispatched([""] + rest, event, data + "\n") == [Frame(event, data)] + Dispatched(rest, "", "")
  {
    assert ([""] + rest)[1..] == rest;
    assert (data + "\n")[..|data|] == data;
  }

  lemma FrameDispatched(f: Frame, rest: seq<string>)
    requires f.event != ""
    ensures Dispatched(["event: " + f.event] + (["data: " + f.payload] + ([""] + rest)), "", "")
            == [f] + Dispatched(rest, "", "")
  {
    EventField(f.event, ["data: " + f.payload] + ([""] + rest));
    DataField(f.event, f.payload, [""] + rest);
    BlankLine(f.event, f.payload, rest);
  }

  /** One frame more in front is one event more in front. */
  lemma SentDispatched(f: Frame, rest: string)
    requires f.event != "" && Free(IsBreak, f.event) && Free(IsBreak, f.payload)
    ensures Dispatched(Lines(Sent(f) + rest), "", "") == [f] + Dispatched(Lines(rest), "", "")
  {
    SentLines(f, rest);
    ThreeLines("event: " + f.event, "data: " + f.payload, rest);
    FrameDispatched(f, Lines(rest));
  }

  /** A client that follows the standard gets every event with its own name and payload, in order. */
  lemma {:induction false} FramesDispatched(fs: seq<Frame>)
    requires forall i | 0 <= i < |fs| :: fs[i].event != "" && Free(IsBreak, fs[i].event) && Free(IsBreak, fs[i].payload)
    ensures Dispatched(Lines(SentAll(fs)), "", "") == fs
    decreases |fs|
  {
    if fs == [] {
      assert Lines("") == [""];
      assert [""][1..] == [];
    } else {
      FramesDispatched(fs[1..]);
      SentDispatched(fs[0], SentAll(fs[1..]));
    }
  }

  // ---------------------------------------------------------------------------------------------
  // A reply by its lines
  // ---------------------------------------------------------------------------------------------

  /** The event on line `i`, if there is one and no end marker came before it. */
  function EventAt(lines: seq<string>, decode: string -> Option<ModelEvent>, i: nat): Option<ModelEvent>
    requires i < |lines|
  {
    if (exists k | 0 <= k <= i :: PayloadOf(lines[k]) == Some("[DONE]")) || PayloadOf(lines[i]).None? then None
    else decode(PayloadOf(lines[i]).value)
  }

  predicate IsKind(e: Option<ModelEvent>, kind: string) { e.Some? && e.value.kind == kind }

  lemma {:induction false} PayloadsSnoc(lines: seq<string>, line: string)
    ensures Payloads(lines + [line])
            == if Marked(lines) || IsDone(line) || PayloadOf(line).None? then Payloads(lines)
               else Payloads(lines) + [PayloadOf(line).value]
    decreases |lines|
  {
    if lines == [] {
      assert ([line])[1..] == [];
    } else {
      assert (lines + [line])[0] == lines[0] && (lines + [line])[1..] == lines[1..] + [line];
      PayloadsSnoc(lines[1..], line);
      MarkedCons(lines);
    }
  }

  lemma MarkedCons(lines: seq<string>)
    requires lines != []
    ensures Marked(lines) <==> IsDone(lines[0]) || Marked(lines[1..])
  {
    if Marked(lines) && !IsDone(lines[0]) {
      var k :| 0 <= k < |lines| && IsDone(lines[k]);
      assert IsDone(lines[1..][k - 1]);
    }
    if Marked(lines[1..]) {
      var k :| 0 <= k < |lines[1..]| && IsDone(lines[1..][k]);
      assert IsDone(lines[k + 1]);
    }
  }

  /** Whether line `i` holds an event, and which. */
  function HoldsEvent(lines: seq<string>, decode: string -> Option<ModelEvent>): nat -> bool {
    (i: nat) => i < |lines| && EventAt(lines, decode, i).Some?
  }

  const NO_EVENT: ModelEvent := ModelEvent("", "", "", "")

  function EventOn(lines: seq<string>, decode: string -> Option<ModelEvent>): nat -> ModelEvent {
    (i: nat) => if i < |lines| then EventAt(lines, decode, i).GetOr(NO_EVENT) else NO_EVENT
  }

  /** The events of the first `n` lines. */
  function EventsUpTo(lines: seq<string>, decode: string -> Option<ModelEvent>, n: nat): seq<ModelEvent>
    requires n <= |lines|
  {
    EventsOf(decode, Payloads(lines[..n]))
  }

  lemma EventsInAll(lines: seq<string>, decode: string -> Option<ModelEvent>)
    ensures EventsUpTo(lines, decode, |lines|) == EventsOf(decode, Payloads(lines))
  {
    assert lines[..|lines|] == lines;
  }

  /** One line more: its event, unless an end marker has come. */
  lemma EventsLine(lines: seq<string>, decode: string -> Option<ModelEvent>, n: nat)
    requires n < |lines|
    ensures EventsUpTo(lines, decode, n + 1)
            == EventsUpTo(lines, decode, n) + if EventAt(lines, decode, n).Some? then [EventAt(lines, decode, n).value] else []
  {
    var before := lines[..n];
    assert lines[..n + 1] == before + [lines[n]];
    PayloadsSnoc(before, lines[n]);
    MarkedBefore(lines, n);
    if !Marked(before) && !IsDone(lines[n]) && PayloadOf(lines[n]).Some? {
      EventsSnoc(decode, Payloads(before), PayloadOf(lines[n]).value);
    }
  }

  lemma MarkedBefore(lines: seq<string>, n: nat)
    requires n < |lines|
    ensures Marked(lines[..n]) || IsDone(lines[n]) <==> exists k | 0 <= k <= n :: PayloadOf(lines[k]) == Some("[DONE]")
  {
    if Marked(lines[..n]) {
      var k :| 0 <= k < n && IsDone(lines[..n][k]);
      assert PayloadOf(lines[k]) == Some("[DONE]");
    }
    if exists k | 0 <= k <= n :: PayloadOf(lines[k]) == Some("[DONE]") {
      var k :| 0 <= k <= n && PayloadOf(lines[k]) == Some("[DONE]");
      if k < n { assert IsDone(lines[..n][k]); }
    }
  }

  lemma NoEventsYet(lines: seq<string>, decode: string -> Option<ModelEvent>)
    ensures EventsUpTo(lines, decode, 0) == []
  {
    assert lines[..0] == [];
  }

  lemma EventThere(lines: seq<string>, decode: string -> Option<ModelEvent>, kind: string, n: nat)
    requires n < |lines|
    ensures var e := EventAt(lines, decode, n);
            && HoldsEvent(lines, decode)(n) == e.Some? && HoldsKind(lines, decode, kind)(n) == IsKind(e, kind)
            && (e.Some? ==> EventOn(lines, decode)(n) == e.value && DeltaOn(lines, decode)(n) == e.value.delta)
  {}

  /** The events of a response are those on its lines before the end marker, each once and in order. */
  lemma EventsByLine(lines: seq<string>, decode: string -> Option<ModelEvent>)
    ensures EventsOf(decode, Payloads(lines))
            == Mapped(EventOn(lines, decode), Picked(HoldsEvent(lines, decode), |lines|))
  {
    forall n: nat | n < |lines|
      ensures GrowsAt(EventsGrown(lines, decode), HoldsEvent(lines, decode), EventOn(lines, decode), n)
    {
      EventStep(lines, decode, n);
    }
    NoEventsYet(lines, decode);
    GrowsByPicked(EventsGrown(lines, decode), HoldsEvent(lines, decode), EventOn(lines, decode), |lines|);
    EventsInAll(lines, decode);
  }

  function EventsGrown(lines: seq<string>, decode: string -> Option<ModelEvent>): nat -> seq<ModelEvent> {
    (n: nat) => if n <= |lines| then EventsUpTo(lines, decode, n) else []
  }

  lemma EventStep(lines: seq<string>, decode: string -> Option<ModelEvent>, n: nat)
    requires n < |lines|
    ensures GrowsAt(EventsGrown(lines, decode), HoldsEvent(lines, decode), EventOn(lines, decode), n)
  {
    EventsLine(lines, decode, n);
    EventThere(lines, decode, "", n);
  }

  /** Refused is exactly: some line before the end marker holds a refusal. */
  lemma RefusedIff(lines: seq<string>, decode: string -> Option<ModelEvent>)
    ensures Refused(EventsOf(decode, Payloads(lines)))
            <==> exists i: nat :: i < |lines| && IsKind(EventAt(lines, decode, i), "response.refusal.delta")
  {
    var events, js := EventsOf(decode, Payloads(lines)), Picked(HoldsEvent(lines, decode), |lines|);
    EventsByLine(lines, decode);
    PickedIs(HoldsEvent(lines, decode), |lines|);
    if Refused(events) {
      var e :| e in events && e.kind == "response.refusal.delta";
      var k :| 0 <= k < |events| && events[k] == e;
      assert js[k] in js && IsKind(EventAt(lines, decode, js[k]), "response.refusal.delta");
    }
    if i: nat :| i < |lines| && IsKind(EventAt(lines, decode, i), "response.refusal.delta") {
      assert i in js;
      var k :| 0 <= k < |js| && js[k] == i;
      assert events[k] in events;
    }
  }

  /** Which lines hold a completion, and which a delta. */
  function HoldsKind(lines: seq<string>, decode: string -> Option<ModelEvent>, kind: string): nat -> bool {
    (i: nat) => i < |lines| && IsKind(EventAt(lines, decode, i), kind)
  }

  /** The reason a completion gives. */
  function ReasonOf(e: ModelEvent): string { if e.status == "incomplete" then e.reason else "end_turn" }

  lemma StopLine(lines: seq<string>, decode: string -> Option<ModelEvent>, n: nat)
    requires n < |lines|
    ensures StopOf(EventsUpTo(lines, decode, n + 1))
            == if IsKind(EventAt(lines, decode, n), "response.completed") then ReasonOf(EventAt(lines, decode, n).value)
               else StopOf(EventsUpTo(lines, decode, n))
  {
    EventsLine(lines, decode, n);
    var before, e := EventsUpTo(lines, decode, n), EventAt(lines, decode, n);
    if e.Some? { assert (before + [e.value])[..|before|] == before; } else { assert before + [] == before; }
  }

  /** The stop reason is the last completion's, wherever its line stands; or empty without one. */
  lemma StopIs(lines: seq<string>, decode: string -> Option<ModelEvent>)
    ensures var js := Picked(HoldsKind(lines, decode, "response.completed"), |lines|);
            StopOf(EventsOf(decode, Payloads(lines)))
            == if js == [] then "" else
                 var e := EventOn(lines, decode)(js[|js| - 1]);
                 if e.status == "incomplete" then e.reason else "end_turn"
  {
    var kind := "response.completed";
    forall n: nat | n < |lines|
      ensures OverwritesAt(Latest(lines, decode), HoldsKind(lines, decode, kind), ReasonOn(lines, decode), n)
    {
      StopStep(lines, decode, n);
    }
    NoEventsYet(lines, decode);
    OverwrittenByPicked(Latest(lines, decode), HoldsKind(lines, decode, kind), ReasonOn(lines, decode), |lines|);
    EventsInAll(lines, decode);
  }

  function Latest(lines: seq<string>, decode: string -> Option<ModelEvent>): nat -> string {
    (n: nat) => if n <= |lines| then StopOf(EventsUpTo(lines, decode, n)) else ""
  }

  lemma StopStep(lines: seq<string>, decode: string -> Option<ModelEvent>, n: nat)
    requires n < |lines|
    ensures OverwritesAt(Latest(lines, decode), HoldsKind(lines, decode, "response.completed"), ReasonOn(lines, decode), n)
  {
    StopLine(lines, decode, n);
    EventThere(lines, decode, "response.completed", n);
  }

  function ReasonOn(lines: seq<string>, decode: string -> Option<ModelEvent>): nat -> string {
    (i: nat) => ReasonOf(EventOn(lines, decode)(i))
  }

  function DeltaOn(lines: seq<string>, decode: string -> Option<ModelEvent>): nat -> string {
    (i: nat) => EventOn(lines, decode)(i).delta
  }

  lemma DeltasLine(lines: seq<string>, decode: string -> Option<ModelEvent>, n: nat)
    requires n < |lines|
    ensures DeltasOf(EventsUpTo(lines, decode, n + 1))
            == DeltasOf(EventsUpTo(lines, decode, n))
               + if IsKind(EventAt(lines, decode, n), "response.output_text.delta") then [EventAt(lines, decode, n).value.delta]
                 else []
  {
    EventsLine(lines, decode, n);
    var before, e := EventsUpTo(lines, decode, n), EventAt(lines, decode, n);
    if e.Some? { assert (before + [e.value])[..|before|] == before; } else { assert before + [] == before; }
  }

  /** The deltas are those on the lines before the end marker that hold one, each once and in order. */
  lemma DeltasByLine(lines: seq<string>, decode: string -> Option<ModelEvent>)
    ensures DeltasOf(EventsOf(decode, Payloads(lines)))
            == Mapped(DeltaOn(lines, decode), Picked(HoldsKind(lines, decode, "response.output_text.delta"), |lines|))
  {
    var kind := "response.output_text.delta";
    forall n: nat | n < |lines|
      ensures GrowsAt(DeltasGrown(lines, decode), HoldsKind(lines, decode, kind), DeltaOn(lines, decode), n)
    {
      DeltaStep(lines, decode, n);
    }
    NoEventsYet(lines, decode);
    GrowsByPicked(DeltasGrown(lines, decode), HoldsKind(lines, decode, kind), DeltaOn(lines, decode), |lines|);
    EventsInAll(lines, decode);
  }

  function DeltasGrown(lines: seq<string>, decode: string -> Option<ModelEvent>): nat -> seq<string> {
    (n: nat) => if n <= |lines| then DeltasOf(EventsUpTo(lines, decode, n)) else []
  }

  lemma DeltaStep(lines: seq<string>, decode: string -> Option<ModelEvent>, n: nat)
    requires n < |lines|
    ensures GrowsAt(DeltasGrown(lines, decode), HoldsKind(lines, decode, "response.output_text.delta"), DeltaOn(lines, decode), n)
  {
    DeltasLine(lines, decode, n);
    EventThere(lines, decode, "response.output_text.delta", n);
  }
}
