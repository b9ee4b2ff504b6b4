/**
What the model is sent: the jumping window of internal/chat/history.go and the input builder of
internal/chat/openai_input.go.
*/
module Prompt {
  import opened Common
  import opened Text
  import opened Entities
  import opened Memories

  const KEEP_MESSAGES: int := 12
  const TRIM_STEP: int := 8
  const PHOTO_MESSAGES: int := 3

  /** A part of a message: text, or a photo as a data URL (its base64 is not spelled out). */
  datatype Part = Part(kind: string, text: string, photo: Option<Photo>)

  datatype InputMessage = InputMessage(role: string, content: seq<Part>)

  // ---------------------------------------------------------------------------------------------
  // The window
  // ---------------------------------------------------------------------------------------------

  /** Where the jumping window starts, before the role fix. */
  function Jump(length: nat): (start: nat)
    ensures start <= length
  {
    if length > KEEP_MESSAGES then (length - KEEP_MESSAGES) / TRIM_STEP * TRIM_STEP else 0
  }

  /** How many leading messages the role fix drops: never the last one. */
  function Skipped(h: seq<Turn>): (n: nat)
    ensures n <= |h|
    ensures |h| >= 1 ==> n < |h|
  {
    if |h| > 1 && h[0].role != "user" then 1 + Skipped(h[1..]) else 0
  }

  function Start(h: seq<Turn>): (start: nat)
    ensures start <= |h|
    ensures |h| >= 1 ==> start < |h|
  {
    Jump(|h|) + Skipped(h[Jump(|h|)..])
  }

  lemma SkipOne(history: seq<Message>)
    requires |history| > 1 && history[0].role != "user"
    ensures Skipped(TurnsOf(history)) == 1 + Skipped(TurnsOf(history[1..]))
  {
    assert TurnsOf(history)[1..] == TurnsOf(history[1..]);
  }

  method Recent(history: seq<Message>) returns (r: seq<Message>)
    ensures r == history[Start(TurnsOf(history))..]
  {
    r := history;
    var extra := |r| - KEEP_MESSAGES;
    if extra > 0 {
      r := r[extra / TRIM_STEP * TRIM_STEP..];
    }
    ghost var dropped := Jump(|history|);
    ghost var start := Start(TurnsOf(history));
    assert TurnsOf(history)[dropped..] == TurnsOf(r);
    while |r| > 1 && r[0].role != "user"
      invariant dropped <= |history| && r == history[dropped..]
      invariant start == dropped + Skipped(TurnsOf(r))
    {
      SkipOne(r);
      r := r[1..];
      dropped := dropped + 1;
    }
  }

  /** The role fix drops what is not the user's, up to the user or the last message. */
  lemma {:induction false} SkippedIs(h: seq<Turn>)
    requires h != []
    ensures forall k | 0 <= k < Skipped(h) :: h[k].role != "user"
    ensures h[Skipped(h)].role == "user" || Skipped(h) == |h| - 1
    decreases |h|
  {
    if |h| > 1 && h[0].role != "user" {
      var n := Skipped(h[1..]);
      SkippedIs(h[1..]);
      assert h[Skipped(h)] == h[1..][n];
      forall k | 0 <= k < Skipped(h) ensures h[k].role != "user" {
        if k > 0 { assert h[k] == h[1..][k - 1]; }
      }
    }
  }

  /**
  Where the input starts, for any history at all: first a multiple of 8 messages go, none up to 19, so that of
  a longer history 12 to 19 are left; then whatever is not the user's, up to the user or the last message.
  */
  lemma StartIs(h: seq<Turn>)
    requires h != []
    ensures exists j: nat :: j % 8 == 0 && j <= Start(h) && StartsAfter(h, j, Start(h))
  {
    var j := Jump(|h|);
    EightTimes((if |h| > 12 then |h| - 12 else 0) / 8);
    WindowSize(|h|);
    SkippedIs(h[j..]);
    assert h[Start(h)] == h[j..][Skipped(h[j..])];
    forall k | j <= k < Start(h) ensures h[k].role != "user" { assert h[k] == h[j..][k - j]; }
    assert StartsAfter(h, j, Start(h));
  }

  lemma EightTimes(n: nat)
    ensures n * 8 % 8 == 0
  {}

  predicate StartsAfter(h: seq<Turn>, j: nat, start: nat)
    requires j <= start < |h|
  {
    && (|h| <= 19 ==> j == 0)
    && (|h| >= 12 ==> 12 <= |h| - j <= 19)
    && (forall k | j <= k < start :: h[k].role != "user")
    && (h[start].role == "user" || start == |h| - 1)
  }

  // ---------------------------------------------------------------------------------------------
  // The input
  // ---------------------------------------------------------------------------------------------

  function PhotoParts(photos: seq<Photo>): (r: seq<Part>)
    ensures |r| == |photos| && forall i | 0 <= i < |r| :: r[i] == Part("input_image", "", Some(photos[i]))
  {
    seq(|photos|, i requires 0 <= i < |photos| => Part("input_image", "", Some(photos[i])))
  }

  function TextPart(text: string): Part { Part("input_text", text, None) }

  function Note(n: nat): Part { TextPart("[" + Decimal(n) + " photo(s) sent here, no longer shown]") }

  /** `back` is 1 for the last message, 2 for the one before it, and so on. */
  function Seen(t: Turn, back: nat): seq<Part> {
    if back <= PHOTO_MESSAGES then PhotoParts(t.photos)
    else if t.photos != [] then [Note(|t.photos|)]
    else []
  }

  function Parts(t: Turn, back: nat, block: string): seq<Part> {
    Seen(t, back)
    + (if block != "" && back == 1 then [TextPart(block)] else [])
    + (if t.text != "" then [TextPart(t.text)] else [])
  }

  function Retyped(p: Part): Part { if p.kind == "input_text" then p.(kind := "output_text") else p }

  function RetypedAll(parts: seq<Part>): (r: seq<Part>)
    ensures |r| == |parts| && forall i | 0 <= i < |r| :: r[i] == Retyped(parts[i])
  {
    seq(|parts|, i requires 0 <= i < |parts| => Retyped(parts[i]))
  }

  function MessageFor(t: Turn, back: nat, block: string): InputMessage {
    if t.role == "assistant" then InputMessage("assistant", RetypedAll(Parts(t, back, block)))
    else InputMessage("user", Parts(t, back, block))
  }

  /** The model input: the window's turns, each rendered by its distance from the end. */
  function InputOf(h: seq<Turn>, block: string): (r: seq<InputMessage>)
    ensures |r| == |h| - Start(h)
    ensures forall n | 0 <= n < |r| :: r[n] == MessageFor(h[Start(h) + n], |r| - n, block)
  {
    var w := h[Start(h)..];
    seq(|w|, n requires 0 <= n < |w| => MessageFor(w[n], |w| - n, block))
  }

  method BuildInput(full: seq<Message>, memory: Memory) returns (input: seq<InputMessage>)
    ensures input == InputOf(TurnsOf(full), BlockText(memory))
  {
    input := [];
    var history := Recent(full);
    ghost var text := BlockText(memory);
    for n := 0 to |history|
      invariant Renders(input, TurnsOf(history), n, text)
    {
      var block := Block(memory);
      var message := BuildMessage(history[n], |history| - n, block);
      RendersSnoc(input, history, n, text, message);
      input := input + [message];
    }
    RendersWindow(full, history, text, input);
  }

  /** The input holds the first `n` turns of the window. */
  ghost predicate Renders(input: seq<InputMessage>, window: seq<Turn>, n: int, block: string) {
    && 0 <= n == |input| <= |window|
    && forall k | 0 <= k < n :: input[k] == MessageFor(window[k], |window| - k, block)
  }

  lemma RendersSnoc(input: seq<InputMessage>, history: seq<Message>, n: int, block: string, message: InputMessage)
    requires Renders(input, TurnsOf(history), n, block) && n < |history|
    requires message == MessageFor(TurnOf(history[n]), |history| - n, block)
    ensures Renders(input + [message], TurnsOf(history), n + 1, block)
  {
    RenderedSnoc(input, TurnsOf(history), n, block, message);
  }

  lemma RenderedSnoc(input: seq<InputMessage>, window: seq<Turn>, n: int, block: string, message: InputMessage)
    requires Renders(input, window, n, block) && n < |window| && message == MessageFor(window[n], |window| - n, block)
    ensures Renders(input + [message], window, n + 1, block)
  {}

  lemma RendersWindow(full: seq<Message>, history: seq<Message>, block: string, input: seq<InputMessage>)
    requires history == full[Start(TurnsOf(full))..] && Renders(input, TurnsOf(history), |history|, block)
    ensures input == InputOf(TurnsOf(full), block)
  {
    assert TurnsOf(history) == TurnsOf(full)[Start(TurnsOf(full))..];
  }

  /** The body of the builder's loop for message `m`, `back` from the end. */
  method BuildMessage(m: Message, back: nat, block: string) returns (r: InputMessage)
    ensures r == MessageFor(TurnOf(m), back, block)
  {
    var parts := [];
    if back <= PHOTO_MESSAGES {
      for i := 0 to |m.images|
        invariant parts == PhotoParts(PhotosOf(m.images))[..i]
      {
        parts := parts + [Part("input_image", "", Some(Photo(m.images[i].mediaType, m.images[i].data)))];
      }
    } else if |m.images| > 0 {
      parts := parts + [Note(|m.images|)];
    }
    assert parts == Seen(TurnOf(m), back);
    if block != "" && back == 1 {
      parts := parts + [TextPart(block)];
    }
    if m.text != "" {
      parts := parts + [TextPart(m.text)];
    }
    assert parts == Parts(TurnOf(m), back, block);
    var role := m.role;
    if role != "assistant" {
      role := "user";
    }
    if role == "assistant" {
      parts := RetypeAll(parts);
    }
    return InputMessage(role, parts);
  }

  /** The rewriting of part types, one index at a time. */
  method RetypeAll(parts: seq<Part>) returns (r: seq<Part>)
    ensures r == RetypedAll(parts)
  {
    r := parts;
    for i := 0 to |r|
      invariant |r| == |parts|
      invariant forall k | 0 <= k < i :: r[k] == Retyped(parts[k])
      invariant forall k | i <= k < |r| :: r[k] == parts[k]
    {
      if r[i].kind == "input_text" {
        r := r[i := r[i].(kind := "output_text")];
      }
    }
  }

  // ---------------------------------------------------------------------------------------------
  // One message
  // ---------------------------------------------------------------------------------------------

  /** A note that says how many photos were sent. */
  predicate CountsPhotos(note: string, n: nat) {
    var k := Span(IsSpace, note);
    k > 0 && note[0] == '[' && IntOf(note[1..k]) == n && note[k..] == " photo(s) sent here, no longer shown]"
  }

  lemma NoteCounts(n: nat)
    ensures CountsPhotos(Note(n).text, n)
  {
    var digits, after := Decimal(n), " photo(s) sent here, no longer shown]";
    forall i | 0 <= i < |digits| ensures !IsSpace(digits[i]) { assert digits[i] in digits; }
    assert Note(n).text == ("[" + digits) + after;
    SpanAt(IsSpace, "[" + digits, after);
    DecimalRead(n);
    assert digits[0] in digits;
    assert (("[" + digits) + after)[1..|digits| + 1] == digits;
  }

  function OneIf(b: bool): nat { if b then 1 else 0 }

  /**
  All of a message, `back` from the end: its photos if it is one of the last three; else, if it had any, one
  text that counts them; then the memory block if there is one and this is the last message; then its own
  words if it has any. Each once and nothing else, as input for the user and as output for the assistant.
  */
  ghost predicate Says(m: InputMessage, t: Turn, back: nat, block: string) {
    if t.role == "assistant" then m.role == "assistant" && Holds(m.content, t, back, block, "output_text")
    else m.role == "user" && Holds(m.content, t, back, block, "input_text")
  }

  ghost predicate Holds(parts: seq<Part>, t: Turn, back: nat, block: string, kind: string) {
    var photos := if back <= 3 then |t.photos| else OneIf(t.photos != []);
    var shown := photos + OneIf(block != "" && back == 1);
    && |parts| == shown + OneIf(t.text != "")
    && (back <= 3 ==> forall i | 0 <= i < photos :: parts[i] == Part("input_image", "", Some(t.photos[i])))
    && (back > 3 && t.photos != [] ==>
          parts[0] == Part(kind, parts[0].text, None) && CountsPhotos(parts[0].text, |t.photos|))
    && (block != "" && back == 1 ==> parts[photos] == Part(kind, block, None))
    && (t.text != "" ==> parts[shown] == Part(kind, t.text, None))
  }

  lemma PartsHold(t: Turn, back: nat, block: string)
    ensures Holds(Parts(t, back, block), t, back, block, "input_text")
  {
    NoteCounts(|t.photos|);
    InThree(Seen(t, back), if block != "" && back == 1 then [TextPart(block)] else [],
            if t.text != "" then [TextPart(t.text)] else []);
  }

  lemma InThree(a: seq<Part>, b: seq<Part>, c: seq<Part>)
    ensures a <= a + b + c
    ensures b != [] ==> (a + b + c)[|a|] == b[0]
    ensures c != [] ==> (a + b + c)[|a| + |b|] == c[0]
  {}

  lemma RetypedHold(parts: seq<Part>, t: Turn, back: nat, block: string)
    requires Holds(parts, t, back, block, "input_text")
    ensures Holds(RetypedAll(parts), t, back, block, "output_text")
  {}

  lemma MessageSays(t: Turn, back: nat, block: string)
    ensures Says(MessageFor(t, back, block), t, back, block)
  {
    PartsHold(t, back, block);
    RetypedHold(Parts(t, back, block), t, back, block);
  }

  /** And so every message of every input. */
  lemma InputSays(h: seq<Turn>, block: string, n: nat)
    requires n < |InputOf(h, block)|
    ensures Says(InputOf(h, block)[n], h[Start(h) + n], |InputOf(h, block)| - n, block)
  {
    var m := InputOf(h, block)[n];
    SaysAs(m, h[Start(h) + n], |InputOf(h, block)| - n, block);
  }

  lemma SaysAs(m: InputMessage, t: Turn, back: nat, block: string)
    requires m == MessageFor(t, back, block)
    ensures Says(m, t, back, block)
  {
    MessageSays(t, back, block);
  }

  // ---------------------------------------------------------------------------------------------
  // The cached prefix survives
  // ---------------------------------------------------------------------------------------------

  /** Whether rendering the turn two messages further from the end, and no longer last, changes it. */
  predicate Changes(t: Turn, back: nat, block: string) {
    (back == 1 && block != "") || (2 <= back <= 3 && t.photos != [])
  }

  lemma RetypedDiffer(a: seq<Part>, b: seq<Part>)
    requires |a| != |b| || (|a| > 0 && |b| > 0 && a[0].photo != b[0].photo)
    ensures RetypedAll(a) != RetypedAll(b)
  {
    if |a| == |b| { assert RetypedAll(a)[0] != RetypedAll(b)[0]; }
  }

  lemma MessageChangesIff(t: Turn, back: nat, block: string, later: string)
    requires back >= 1
    ensures MessageFor(t, back, block) == MessageFor(t, back + 2, later) <==> !Changes(t, back, block)
  {
    var a, b := Parts(t, back, block), Parts(t, back + 2, later);
    if back == 1 {
      assert Seen(t, back) == Seen(t, back + 2);
      if block == "" { assert a == b; } else { assert |a| == |b| + 1; }
    } else if back <= 3 {
      if t.photos == [] {
        assert a == b;
      } else {
        assert a[0].photo == Some(t.photos[0]) && b[0] == Note(|t.photos|);
      }
    } else {
      assert a == b;
    }
    if a != b { RetypedDiffer(a, b); }
  }

  /**
  Prefix stability, for any history and whatever the pantry becomes: when an exchange is added and
  the window start stays, an input position keeps its content exactly when it is neither the old last
  message carrying a memory block nor one of the two before it with photos that now fall out of sight.
  */
  lemma PrefixStableIff(h: seq<Turn>, answer: Turn, next: Turn, block: string, later: string, n: nat)
    requires Start(h) == Start(h + [answer, next]) && n < |h| - Start(h)
    ensures var before, after := InputOf(h, block), InputOf(h + [answer, next], later);
            && |after| == |before| + 2
            && (after[n] == before[n] <==> !Changes(h[Start(h) + n], |before| - n, block))
  {
    var h2, t, back := h + [answer, next], h[Start(h) + n], |h| - Start(h) - n;
    assert h2[Start(h2) + n] == t;
    InputAt(h, block, n, t, back);
    InputAt(h2, later, n, t, back + 2);
    MessageChangesIff(t, back, block, later);
  }

  lemma InputAt(h: seq<Turn>, block: string, n: nat, t: Turn, back: nat)
    requires n < |h| - Start(h) && t == h[Start(h) + n] && back == |h| - Start(h) - n
    ensures InputOf(h, block)[n] == MessageFor(t, back, block)
  {}

  // ---------------------------------------------------------------------------------------------
  // Conversations that take turns
  // ---------------------------------------------------------------------------------------------

  /** user, assistant, user, ...; photos only ever come from the user. */
  ghost predicate Alternating(h: seq<Turn>) {
    forall i | 0 <= i < |h| ::
      if i % 2 == 0 then h[i].role == "user" else h[i].role == "assistant" && h[i].photos == []
  }

  /** The role fix never runs on them. */
  lemma AlternatingStart(h: seq<Turn>)
    requires Alternating(h) && |h| % 2 == 1
    ensures Start(h) == Jump(|h|) && Start(h) % 2 == 0
  {
    var start := Jump(|h|);
    assert start % 2 == 0;
    assert h[start..][0] == h[start];
  }

  /** The window holds everything up to 19 messages, and 13 to 19 of a longer history. */
  lemma WindowSize(length: nat)
    ensures length <= 19 ==> Jump(length) == 0
    ensures length >= 13 && length % 2 == 1 ==> 13 <= length - Jump(length) <= 19
    ensures length >= 12 ==> 12 <= length - Jump(length) <= 19
  {}

  /** An exchange moves the start by nothing or by one step, the latter at lengths 19, 27, 35, ... */
  lemma StartMoves(length: nat)
    requires length % 2 == 1
    ensures Jump(length + 2) == Jump(length) + if JumpsNext(length) then TRIM_STEP else 0
  {}

  predicate Moves(length: nat) { Jump(length + 2) == Jump(length) + TRIM_STEP }

  predicate Stays(length: nat) { Jump(length + 2) == Jump(length) }

  /** Past the threshold, of any four exchanges in a row exactly one moves the start, by exactly 8. */
  lemma OneMoveInFour(length: nat)
    requires length % 2 == 1 && length >= 13
    ensures || (Moves(length) && Stays(length + 2) && Stays(length + 4) && Stays(length + 6))
            || (Stays(length) && Moves(length + 2) && Stays(length + 4) && Stays(length + 6))
            || (Stays(length) && Stays(length + 2) && Moves(length + 4) && Stays(length + 6))
            || (Stays(length) && Stays(length + 2) && Stays(length + 4) && Moves(length + 6))
  {
    StartMoves(length);
    StartMoves(length + 2);
    StartMoves(length + 4);
    StartMoves(length + 6);
  }

  lemma AlternatingExtended(h: seq<Turn>, answer: Turn, next: Turn)
    requires |h| % 2 == 1 && Alternating(h + [answer, next])
    ensures Alternating(h)
  {
    forall i | 0 <= i < |h| ensures h[i] == (h + [answer, next])[i] {}
  }

  /**
  All but the last three messages of the first input are repeated word for word in the second, the
  answer before last is too, and the other two change by the memory block and by photos only.
  */
  ghost predicate PrefixKept(h: seq<Turn>, block: string, before: seq<InputMessage>, after: seq<InputMessage>) {
    && |before| <= |h| && |after| == |before| + 2
    && (forall n | 0 <= n < |before| - 3 :: after[n] == before[n])
    && (|before| >= 2 ==> after[|before| - 2] == before[|before| - 2])
    && (|before| >= 3 ==> (after[|before| - 3] == before[|before| - 3] <==> h[|h| - 3].photos == []))
    && (|before| >= 1 ==> (after[|before| - 1] == before[|before| - 1] <==> block == ""))
  }

  /** The next exchange moves the window. */
  predicate JumpsNext(length: nat) { length >= 19 && length % 8 == 3 }

  lemma KeptWhereUnchanged(h: seq<Turn>, block: string, before: seq<InputMessage>, after: seq<InputMessage>, start: nat)
    requires |h| % 2 == 1 && Alternating(h) && start <= |h| && |before| == |h| - start && |after| == |before| + 2
    requires forall n | 0 <= n < |before| ::
               after[n] == before[n] <==> !Changes(h[start + n], |before| - n, block)
    ensures PrefixKept(h, block, before, after)
  {
    if |before| >= 2 { assert h[start + |before| - 2].photos == []; }
  }

  lemma StartStays(h: seq<Turn>, answer: Turn, next: Turn)
    requires |h| % 2 == 1 && Alternating(h + [answer, next]) && !JumpsNext(|h|)
    ensures Start(h + [answer, next]) == Start(h)
  {
    AlternatingExtended(h, answer, next);
    AlternatingStart(h);
    TwoMore(|h|);
    AlternatingStart(h + [answer, next]);
    StartMoves(|h|);
  }

  lemma TwoMore(length: nat)
    ensures (length + 2) % 2 == length % 2
  {}

  lemma KeptIff(h: seq<Turn>, answer: Turn, next: Turn, block: string, later: string)
    requires Start(h) == Start(h + [answer, next])
    ensures var before, after := InputOf(h, block), InputOf(h + [answer, next], later);
            && |after| == |before| + 2
            && forall n | 0 <= n < |before| ::
                 after[n] == before[n] <==> !Changes(h[Start(h) + n], |before| - n, block)
  {
    var before, after := InputOf(h, block), InputOf(h + [answer, next], later);
    forall n | 0 <= n < |before| ensures after[n] == before[n] <==> !Changes(h[Start(h) + n], |before| - n, block) {
      PrefixStableIff(h, answer, next, block, later, n);
    }
  }

  /** For a conversation that takes turns, unless the window jumps. */
  lemma CachedPrefix(h: seq<Turn>, answer: Turn, next: Turn, block: string, later: string)
    requires |h| % 2 == 1 && Alternating(h + [answer, next])
    requires !JumpsNext(|h|)
    ensures PrefixKept(h, block, InputOf(h, block), InputOf(h + [answer, next], later))
  {
    AlternatingExtended(h, answer, next);
    StartStays(h, answer, next);
    KeptIff(h, answer, next, block, later);
    KeptWhereUnchanged(h, block, InputOf(h, block), InputOf(h + [answer, next], later), Start(h));
  }

  // ---------------------------------------------------------------------------------------------
  // Well-formed input
  // ---------------------------------------------------------------------------------------------

  /** The photos that parts show, in order. */
  function PhotosIn(parts: seq<Part>): seq<Photo> {
    if parts == [] then []
    else
      var last := parts[|parts| - 1].photo;
      PhotosIn(parts[..|parts| - 1]) + if last.Some? then [last.value] else []
  }

  function Shown(parts: seq<Part>): nat { |PhotosIn(parts)| }

  function ShownAll(input: seq<InputMessage>): nat {
    if input == [] then 0
    else ShownAll(input[..|input| - 1]) + Shown(input[|input| - 1].content)
  }

  lemma {:induction false} PhotosInConcat(a: seq<Part>, b: seq<Part>)
    ensures PhotosIn(a + b) == PhotosIn(a) + PhotosIn(b)
    decreases |b|
  {
    if b == [] {
      assert a + b == a;
    } else {
      assert (a + b)[..|a + b| - 1] == a + b[..|b| - 1];
      PhotosInConcat(a, b[..|b| - 1]);
    }
  }

  lemma {:induction false} PhotosInPhotos(photos: seq<Photo>)
    ensures PhotosIn(PhotoParts(photos)) == photos
    decreases |photos|
  {
    if photos != [] {
      assert PhotoParts(photos)[..|photos| - 1] == PhotoParts(photos[..|photos| - 1]);
      PhotosInPhotos(photos[..|photos| - 1]);
    }
  }

  lemma {:induction false} PhotosInRetyped(parts: seq<Part>)
    ensures PhotosIn(RetypedAll(parts)) == PhotosIn(parts)
    decreases |parts|
  {
    if parts != [] {
      assert RetypedAll(parts)[..|parts| - 1] == RetypedAll(parts[..|parts| - 1]);
      PhotosInRetyped(parts[..|parts| - 1]);
    }
  }

  lemma PhotosInNone(parts: seq<Part>)
    requires |parts| <= 1 && (parts != [] ==> parts[0].photo.None?)
    ensures PhotosIn(parts) == []
  {}

  lemma PhotosInSeen(t: Turn, back: nat)
    ensures PhotosIn(Seen(t, back)) == if back <= PHOTO_MESSAGES then t.photos else []
  {
    PhotosInPhotos(t.photos);
    if back > PHOTO_MESSAGES { PhotosInNone(Seen(t, back)); }
  }

  lemma PhotosInParts(t: Turn, back: nat, block: string)
    ensures PhotosIn(Parts(t, back, block)) == PhotosIn(Seen(t, back))
  {
    var memory := if block != "" && back == 1 then [TextPart(block)] else [];
    var text := if t.text != "" then [TextPart(t.text)] else [];
    PhotosInConcat(Seen(t, back), memory);
    PhotosInConcat(Seen(t, back) + memory, text);
    PhotosInNone(memory);
    PhotosInNone(text);
  }

  /** Photos show in the last three messages, each with its own and in order, and nowhere else. */
  lemma PhotosInMessage(t: Turn, back: nat, block: string)
    ensures PhotosIn(MessageFor(t, back, block).content) == if back <= PHOTO_MESSAGES then t.photos else []
  {
    PhotosInSeen(t, back);
    PhotosInParts(t, back, block);
    PhotosInRetyped(Parts(t, back, block));
  }

  /** What one message tells, whoever's it is. */
  ghost predicate Tells(m: InputMessage, t: Turn, back: nat) {
    && PhotosIn(m.content) == (if back <= PHOTO_MESSAGES then t.photos else [])
    && (t.text != "" ==> m.content != [] && m.content[|m.content| - 1].text == t.text)
    && (back > PHOTO_MESSAGES && t.photos != [] ==> m.content != [] && m.content[0].text == Note(|t.photos|).text)
  }

  lemma MessageTells(t: Turn, back: nat, block: string)
    ensures Tells(MessageFor(t, back, block), t, back)
  {
    var parts := Parts(t, back, block);
    PhotosInMessage(t, back, block);
    if t.text != "" { assert parts[|parts| - 1] == TextPart(t.text); }
    if back > PHOTO_MESSAGES && t.photos != [] { assert parts[0] == Note(|t.photos|); }
  }

  lemma BlockOnlyLast(t: Turn, back: nat, block: string)
    ensures back > 1 ==> MessageFor(t, back, block) == MessageFor(t, back, "")
    ensures back == 1 && block != "" && t.role != "assistant" ==> TextPart(block) in MessageFor(t, back, block).content
  {}

  /**
  The window loses nothing: whatever was said closes its message, whatever was shown in the last three
  messages is shown there in order, and older photos are counted out loud. The memory block is in the last
  message and leaves every other one as if there were none.
  */
  lemma NothingLost(h: seq<Turn>, block: string, n: nat)
    requires n < |h| - Start(h)
    ensures var input, t := InputOf(h, block), h[Start(h) + n];
            && Tells(input[n], t, |input| - n)
            && (n < |input| - 1 ==> input[n] == InputOf(h, "")[n])
            && (n == |input| - 1 && block != "" && t.role != "assistant" ==> TextPart(block) in input[n].content)
  {
    var length := |h| - Start(h);
    MessageTells(h[Start(h) + n], length - n, block);
    BlockOnlyLast(h[Start(h) + n], length - n, block);
  }

  /** Photos of the last `k` turns. */
  function PhotosBack(h: seq<Turn>, k: nat): nat
    requires k <= |h|
  {
    if k == 0 then 0 else |h[|h| - k].photos| + PhotosBack(h, k - 1)
  }

  /** Photos of the last `k` turns, as far as photos are still shown. */
  function PhotosSeen(h: seq<Turn>, k: nat): nat
    requires k <= |h|
  {
    PhotosBack(h, if k <= PHOTO_MESSAGES then k else PHOTO_MESSAGES)
  }

  lemma PhotosSeenStep(h: seq<Turn>, k: nat)
    requires 1 <= k <= |h|
    ensures PhotosSeen(h, k) == PhotosSeen(h, k - 1) + if k <= PHOTO_MESSAGES then |h[|h| - k].photos| else 0
  {}

  lemma ShownAllSnoc(front: seq<InputMessage>, last: InputMessage)
    ensures ShownAll(front + [last]) == ShownAll(front) + Shown(last.content)
  {
    assert (front + [last])[..|front|] == front;
  }

  lemma {:induction false} ShownFrom(h: seq<Turn>, input: seq<InputMessage>, k: nat)
    requires k <= |input| <= |h|
    requires forall n | 0 <= n < |input| ::
               Shown(input[n].content) == if |input| - n <= PHOTO_MESSAGES then |h[|h| - |input| + n].photos| else 0
    ensures ShownAll(input) == ShownAll(input[..|input| - k]) + PhotosSeen(h, k)
    decreases k
  {
    if k == 0 {
      assert input[..|input|] == input;
    } else {
      ShownFrom(h, input, k - 1);
      var rest, m := input[..|input| - k], input[|input| - k];
      assert input[..|input| - (k - 1)] == rest + [m];
      ShownAllSnoc(rest, m);
      PhotosSeenStep(h, k);
    }
  }

  lemma ShownEach(h: seq<Turn>, block: string)
    ensures var input := InputOf(h, block);
            forall n | 0 <= n < |input| ::
              Shown(input[n].content) == if |input| - n <= PHOTO_MESSAGES then |h[|h| - |input| + n].photos| else 0
  {
    var input := InputOf(h, block);
    forall n | 0 <= n < |input|
      ensures Shown(input[n].content) == if |input| - n <= PHOTO_MESSAGES then |h[|h| - |input| + n].photos| else 0
    {
      ShownAt(h[Start(h) + n], |input| - n, block, input[n]);
    }
  }

  lemma ShownAt(t: Turn, back: nat, block: string, m: InputMessage)
    requires m == MessageFor(t, back, block)
    ensures Shown(m.content) == if back <= PHOTO_MESSAGES then |t.photos| else 0
  {
    PhotosInMessage(t, back, block);
  }

  /** The photos shown are those of the last three messages of the history. */
  lemma PhotosShown(h: seq<Turn>, block: string)
    ensures ShownAll(InputOf(h, block)) == PhotosSeen(h, |h| - Start(h))
  {
    var input := InputOf(h, block);
    ShownEach(h, block);
    ShownFrom(h, input, |input|);
    assert input[..0] == [];
  }

  /** An assistant message holds only its own text; a user message only text and photos to read. */
  ghost predicate Proper(m: InputMessage) {
    forall i | 0 <= i < |m.content| ::
      if m.role == "assistant" then m.content[i].kind == "output_text"
      else m.content[i].kind == "input_text" || m.content[i].kind == "input_image"
  }

  lemma MessageProper(t: Turn, back: nat, block: string)
    requires t.role == "assistant" ==> t.photos == []
    ensures Proper(MessageFor(t, back, block))
    ensures MessageFor(t, back, block).role == if t.role == "assistant" then "assistant" else "user"
  {
    var parts := Parts(t, back, block);
    forall i | 0 <= i < |parts|
      ensures parts[i].kind == "input_text" || (parts[i].kind == "input_image" && t.photos != [])
    {}
  }

  predicate TurnTaking(input: seq<InputMessage>) {
    forall n | 0 <= n < |input| :: input[n].role == if n % 2 == 0 then "user" else "assistant"
  }

  /** Starts and ends with the user, takes turns, and types every part by who speaks. */
  ghost predicate WellFormed(input: seq<InputMessage>) {
    |input| % 2 == 1 && TurnTaking(input) && forall n | 0 <= n < |input| :: Proper(input[n])
  }

  lemma PositionWellFormed(h: seq<Turn>, block: string, n: nat)
    requires Alternating(h) && |h| % 2 == 1 && n < |InputOf(h, block)|
    ensures Proper(InputOf(h, block)[n])
    ensures InputOf(h, block)[n].role == if n % 2 == 0 then "user" else "assistant"
  {
    AlternatingStart(h);
    SameParity(Start(h), n);
    MessageProper(h[Start(h) + n], |h| - Start(h) - n, block);
  }

  lemma SameParity(a: nat, b: nat)
    requires a % 2 == 0
    ensures (a + b) % 2 == b % 2
  {}

  lemma InputSize(h: seq<Turn>, block: string)
    requires Alternating(h) && |h| % 2 == 1
    ensures |InputOf(h, block)| % 2 == 1
    ensures |InputOf(h, block)| == |h| || 13 <= |InputOf(h, block)| <= 19
  {
    AlternatingStart(h);
    WindowSize(|h|);
  }

  lemma InputWellFormed(h: seq<Turn>, block: string)
    requires Alternating(h) && |h| % 2 == 1
    ensures WellFormed(InputOf(h, block))
  {
    InputSize(h, block);
    forall n | 0 <= n < |InputOf(h, block)|
      ensures Proper(InputOf(h, block)[n]) && InputOf(h, block)[n].role == if n % 2 == 0 then "user" else "assistant"
    {
      PositionWellFormed(h, block, n);
    }
  }

  /** A user turn that says or shows something. */
  predicate Substantial(t: Turn) { t.text != "" || t.photos != [] }

  lemma MessageNotEmpty(t: Turn, back: nat, block: string)
    requires Substantial(t)
    ensures MessageFor(t, back, block).content != []
  {
    if t.text == "" { assert Seen(t, back) != []; }
  }

  /** The photos of the last three turns. */
  lemma SeenThree(h: seq<Turn>, k: nat)
    requires 3 <= k <= |h|
    ensures PhotosSeen(h, k) == |h[|h| - 1].photos| + |h[|h| - 2].photos| + |h[|h| - 3].photos|
  {
    assert PhotosBack(h, 0) == 0;
    assert PhotosBack(h, 1) == |h[|h| - 1].photos|;
    assert PhotosBack(h, 2) == |h[|h| - 2].photos| + PhotosBack(h, 1);
    assert PhotosBack(h, 3) == |h[|h| - 3].photos| + PhotosBack(h, 2);
  }

  lemma SeenOne(h: seq<Turn>)
    requires |h| == 1
    ensures PhotosSeen(h, 1) == |h[0].photos|
  {
    assert PhotosBack(h, 0) == 0;
    assert PhotosBack(h, 1) == |h[0].photos|;
  }

  /** A history this size is cut to no less than three. */
  lemma AtLeastThree(h: seq<Turn>)
    requires Alternating(h) && |h| % 2 == 1 && |h| >= 3
    ensures |h| - Start(h) >= 3
  {
    AlternatingStart(h);
    WindowSize(|h|);
  }

  /** The photos of the last message and of the question before it. */
  function LastPhotos(h: seq<Turn>): nat {
    (if h == [] then 0 else |h[|h| - 1].photos|) + if |h| < 3 then 0 else |h[|h| - 3].photos|
  }

  /** The photos shown are those of the last message and of the question before it. */
  lemma ShownOfLast(h: seq<Turn>, block: string)
    requires Alternating(h) && |h| % 2 == 1
    ensures ShownAll(InputOf(h, block)) == LastPhotos(h)
  {
    PhotosShown(h, block);
    if |h| == 1 {
      AlternatingStart(h);
      SeenOne(h);
    } else {
      AtLeastThree(h);
      SeenThree(h, |h| - Start(h));
    }
  }

  lemma FewPhotos(h: seq<Turn>, block: string)
    requires Alternating(h) && |h| % 2 == 1
    requires forall i | 0 <= i < |h| :: |h[i].photos| <= 4
    ensures ShownAll(InputOf(h, block)) <= 8
  {
    ShownOfLast(h, block);
  }

  lemma EmptyIff(t: Turn, back: nat, block: string)
    requires back > 1
    ensures MessageFor(t, back, block).content != [] <==> Substantial(t)
  {
    if Substantial(t) { MessageNotEmpty(t, back, block); }
  }

  lemma EmptyAtIff(h: seq<Turn>, block: string, n: nat)
    requires n < |InputOf(h, block)| - 1
    ensures InputOf(h, block)[n].content != [] <==> Substantial(h[Start(h) + n])
  {
    EmptyIff(h[Start(h) + n], |h| - Start(h) - n, block);
  }

  /** No user message is empty. */
  predicate AllSay(input: seq<InputMessage>) {
    forall n: nat | n < |input| && n % 2 == 0 :: input[n].content != []
  }

  predicate SubstantialFrom(h: seq<Turn>, start: nat) {
    forall i | start <= i < |h| && i % 2 == 0 :: Substantial(h[i])
  }

  /** The last message is never empty; another exactly when its turn says and shows nothing. */
  lemma SaysAt(h: seq<Turn>, block: string, n: nat)
    requires h != [] && Substantial(h[|h| - 1]) && n < |h| - Start(h)
    ensures InputOf(h, block)[n].content != [] <==> Substantial(h[Start(h) + n])
  {
    if n == |h| - Start(h) - 1 { MessageNotEmpty(h[|h| - 1], 1, block); } else { EmptyAtIff(h, block, n); }
  }

  lemma SayThen(h: seq<Turn>, block: string, n: nat)
    requires h != [] && Substantial(h[|h| - 1])
    requires AllSay(InputOf(h, block)) && n < |h| - Start(h) && n % 2 == 0
    ensures Substantial(h[Start(h) + n])
  {
    SaysAt(h, block, n);
  }

  lemma ThenSay(h: seq<Turn>, block: string, n: nat)
    requires h != [] && Substantial(h[|h| - 1]) && Start(h) % 2 == 0
    requires SubstantialFrom(h, Start(h)) && n < |h| - Start(h) && n % 2 == 0
    ensures InputOf(h, block)[n].content != []
  {
    SameParity(Start(h), n);
    SaysAt(h, block, n);
  }

  lemma AllSayIff(h: seq<Turn>, block: string)
    requires Alternating(h) && |h| % 2 == 1 && Substantial(h[|h| - 1])
    ensures AllSay(InputOf(h, block)) <==> SubstantialFrom(h, Start(h))
  {
    AlternatingStart(h);
    if AllSay(InputOf(h, block)) {
      forall i | Start(h) <= i < |h| && i % 2 == 0 ensures Substantial(h[i]) {
        EvenRest(i, Start(h));
        SayThen(h, block, i - Start(h));
      }
    }
    if SubstantialFrom(h, Start(h)) {
      forall n: nat | n < |InputOf(h, block)| && n % 2 == 0 ensures InputOf(h, block)[n].content != [] {
        ThenSay(h, block, n);
      }
    }
  }

  lemma EvenRest(a: nat, b: nat)
    requires a % 2 == 0 && b % 2 == 0 && b <= a
    ensures (a - b) % 2 == 0
  {}
}
