/**
The handler of a send, internal/api/send.go, over the store as an object. Run with nobody in between it
is the transition system's phases one after the other.
*/
module Sends {
  import opened Common
  import opened Text
  import opened Seqs
  import opened Entities
  import opened Schema
  import opened Joins
  import opened Conversations
  import opened Pantry
  import opened Memories
  import opened Prompt
  import opened UserMessages
  import opened Stores
  import opened Sse
  import opened Protocol
  import opened Invariant
  import opened Runs

  /** How the model's stream ends, after its deltas: in an error, or by itself. */
  datatype Reply = Broken(cancelled: bool) | Ended(stopReason: string)

  /** The handler's response is an error, or a stream of events. */
  datatype Response = Response(error: Option<StoreError>, events: seq<Event>, asked: seq<InputMessage>)

  /**
  What the handler does not decide. The lines of the model's response and whether reading on fails after
  them, and if so whether because the client is gone; the date, and the time of the commit; which of the
  five reads before the stream fails, and which statement of the transaction, by number, any other number
  being none; and whether the last read fails.
  */
  datatype World = World(
    lines: seq<string>, broken: bool, cancelled: bool, today: string, now: int,
    failing: int, failAt: int, untitled: bool)

  // ---------------------------------------------------------------------------------------------
  // The phases in a row
  // ---------------------------------------------------------------------------------------------

  /** Found, read, and ready to stream. */
  function ReadAll(t: Tables, owner: string, conv: string, user: Message, today: string): (r: Request)
    ensures r.user == user
  {
    ReadRest(t, Stepped(t, Started(t, owner, conv, user), ReadRows), today)
  }

  /** From the rows on. */
  function ReadRest(t: Tables, r: Request, today: string): (r2: Request)
    ensures r2.user == r.user
  {
    Stepped(t, Stepped(t, Stepped(t, r, ReadImages), ReadPantry), ReadJournal(today))
  }

  function HeardAll(t: Tables, r: Request, deltas: seq<string>): (r2: Request)
    ensures r2 == r.(text := r2.text, events := r2.events)
  {
    if deltas == [] then r
    else Stepped(t, HeardAll(t, r, deltas[..|deltas| - 1]), Hear(deltas[|deltas| - 1]))
  }

  function Replied(t: Tables, r: Request, reply: Reply): (r2: Request)
    ensures r2.owner == r.owner && r2.conv == r.conv && r2.user == r.user && r2.text == r.text
    ensures r.phase.Streaming? ==> (r2.phase.Answered? <==> reply.Ended? && reply.stopReason != "refusal")
  {
    match reply
    case Broken(cancelled) => Stepped(t, r, Break(cancelled))
    case Ended(stopReason) => Stepped(t, r, End(stopReason))
  }

  /** Storing the answer, and saying so. */
  function Concluded(t: Tables, r: Request, now: int, ids: NewIds, fails: bool, untitled: bool): Request
    requires |ids.images| == |r.user.images|
  {
    if !r.phase.Answered? then r
    else
      var stored := Stepped(t, r, Append(now, ids, fails));
      if !stored.phase.Stored? then stored
      else Stepped(AppendExchange(t, r.owner, r.conv, r.user, r.text, now, ids), stored, Finish(untitled))
  }

  /** What the lines of the model's response say, and how they end. */
  function SaidIn(w: World, decode: string -> Option<ModelEvent>): seq<ModelEvent> {
    EventsOf(decode, Payloads(w.lines))
  }

  function ReplyIn(w: World, decode: string -> Option<ModelEvent>): Reply {
    if w.broken && !Marked(w.lines) then Broken(w.cancelled) else Ended(ReplyOf(SaidIn(w, decode)).stopReason)
  }

  predicate TransactionFails(w: World, user: Message) { 0 <= w.failAt < |user.images| + 5 }

  /** The whole of a send by the lines of the model's response. */
  function Handled(t: Tables, owner: string, conv: string, user: Message, w: World,
                   decode: string -> Option<ModelEvent>, ids: NewIds): Request
    requires |ids.images| == |user.images|
  {
    var heard := HeardAll(t, ReadAll(t, owner, conv, user, w.today), DeltasOf(SaidIn(w, decode)));
    Concluded(t, Replied(t, heard, ReplyIn(w, decode)), w.now, ids, TransactionFails(w, user), w.untitled)
  }

  /** Nothing stands in the way of storing the answer. */
  predicate Storable(w: World, user: Message, decode: string -> Option<ModelEvent>) {
    && !(w.broken && !Marked(w.lines))
    && ReplyOf(SaidIn(w, decode)).stopReason != "refusal"
    && !TransactionFails(w, user)
  }

  /** What the send leaves of the tables. */
  function Left(t: Tables, owner: string, conv: string, user: Message, w: World,
                decode: string -> Option<ModelEvent>, ids: NewIds): Tables
    requires |ids.images| == |user.images|
  {
    if Storable(w, user, decode) then
      AppendExchange(t, owner, conv, user, Concat(DeltasOf(SaidIn(w, decode))), w.now, ids)
    else t
  }

  /** Reading without anybody in between reads one snapshot. */
  lemma ReadAllIs(t: Tables, owner: string, conv: string, user: Message, today: string)
    requires Owns(t, owner, conv)
    ensures var r := ReadAll(t, owner, conv, user, today);
            && r.phase.Streaming? && r.intact && r.events == [] && r.text == ""
            && r.owner == owner && r.conv == conv && r.user == user
            && r.history == Plain(Rows(t, conv), ImageRows(t, conv), true)
            && r.memory == Memory(today, Pantry.Ingredients(t, owner), Pantry.Journal(t, owner, MEMORY_ENTRIES))
  {
    SnapshotCovered(t, conv);
    JoinRightIff(Rows(t, conv), ImageRows(t, conv), true);
  }

  // ---------------------------------------------------------------------------------------------
  // The handler
  // ---------------------------------------------------------------------------------------------

  /** internal/api/memory.go: the owner's pantry and the newest of the journal. */
  method LoadMemory(store: Store, owner: string, today: string, failing: int) returns (r: Result<Memory, StoreError>)
    ensures r == if failing == 3 || failing == 4 then Err(Failed)
                 else Ok(Memory(today, Pantry.Ingredients(store.View(), owner),
                                Pantry.Journal(store.View(), owner, MEMORY_ENTRIES)))
  {
    var ingredients := store.Ingredients(owner, failing == 3);
    if ingredients.Err? { return Err(ingredients.error); }
    var journal := store.Journal(owner, MEMORY_ENTRIES, failing == 4);
    if journal.Err? { return Err(journal.error); }
    return Ok(Memory(today, ingredients.value, journal.value));
  }

  /** Every delta is passed on as an event. */
  method Relay(deltas: seq<string>, ghost t: Tables, ghost r: Request) returns (events: seq<Event>)
    requires r.text == "" && r.events == []
    ensures HeardAll(t, r, deltas) == r.(text := Concat(deltas), events := events)
  {
    events := [];
    for i := 0 to |deltas|
      invariant HeardAll(t, r, deltas[..i]) == r.(text := Concat(deltas[..i]), events := events)
    {
      assert deltas[..i + 1][..i] == deltas[..i];
      events := events + [Delta(deltas[i])];
    }
    assert deltas[..|deltas|] == deltas;
  }

  /** internal/chat/openai.go's Stream from the response on: the scan loop, with a callback for every delta. */
  method Stream(w: World, decode: string -> Option<ModelEvent>, ghost t: Tables, ghost r: Request)
    returns (result: Option<ModelReply>, events: seq<Event>)
    requires r.text == "" && r.events == []
    ensures var heard := HeardAll(t, r, DeltasOf(SaidIn(w, decode)));
            && heard.events == events
            && result == (if w.broken && !Marked(w.lines) then None else Some(ReplyOf(SaidIn(w, decode))))
            && (result.Some? ==> result.value.text == heard.text)
  {
    var deltas;
    result, deltas := ReadReply(w.lines, w.broken, decode);
    events := Relay(deltas, t, r);
  }

  /** The last event after a complete answer, stored or not. */
  lemma AppendExits(t: Tables, r: Request, stopReason: string, now: int, ids: NewIds, untitled: bool)
    requires r.phase.Streaming? && stopReason != "refusal" && Owns(t, r.owner, r.conv)
    requires |ids.images| == |r.user.images|
    ensures var heard := Replied(t, r, Ended(stopReason));
            var t2 := AppendExchange(t, r.owner, r.conv, r.user, r.text, now, ids);
            && Owns(t2, r.owner, r.conv)
            && Concluded(t, heard, now, ids, true, untitled).events == r.events + [Failure("The answer could not be saved")]
            && !Wrote(Concluded(t, heard, now, ids, true, untitled))
            && Concluded(t, heard, now, ids, false, untitled).events
               == r.events + [Done(ids.answer, if untitled then "" else t2.conversations[r.conv].title, stopReason)]
            && Wrote(Concluded(t, heard, now, ids, false, untitled))
  {}

  /** The last event, if any, when there is no answer to store. */
  lemma QuietExits(t: Tables, r: Request, reply: Reply, now: int, ids: NewIds, fails: bool, untitled: bool)
    requires r.phase.Streaming? && |ids.images| == |r.user.images|
    requires OnlyDeltas(r.events)
    ensures reply.Broken? || reply.stopReason == "refusal" ==>
              var after := Concluded(t, Replied(t, r, reply), now, ids, fails, untitled);
              && !Wrote(after)
              && after.events == r.events + if reply.Ended? then [Failure("The model declined to answer that")]
                                            else if reply.cancelled then []
                                            else [Failure("The model could not answer right now")]
  {}

  /** The stream is over: say so if it broke or was a refusal, else store the answer and say how that went. */
  method Conclude(store: Store, owner: string, id: string, user: Message, heard: seq<Event>,
                  result: Option<ModelReply>, w: World, ghost r: Request)
    returns (events: seq<Event>)
    requires store.Valid() && Owns(store.View(), owner, id)
    requires r.owner == owner && r.conv == id && r.user == user && r.phase.Streaming?
    requires r.events == heard && OnlyDeltas(heard) && (result.Some? ==> result.value.text == r.text)
    modifies store
    ensures store.Valid()
    ensures var before, ids := old(store.View()), NextIds(old(store.last), user);
            var reply := if result.None? then Broken(w.cancelled) else Ended(result.value.stopReason);
            var after := Concluded(before, Replied(before, r, reply), w.now, ids, TransactionFails(w, user), w.untitled);
            && events == after.events
            && store.View() == if Wrote(after) then Schema.AppendExchange(before, owner, id, user, r.text, w.now, ids) else before
  {
    ghost var before, ids := store.View(), NextIds(store.last, user);
    ghost var reply := if result.None? then Broken(w.cancelled) else Ended(result.value.stopReason);
    QuietExits(before, r, reply, w.now, ids, TransactionFails(w, user), w.untitled);
    if result.None? {
      return if w.cancelled then heard else heard + [Failure("The model could not answer right now")];
    }
    if result.value.stopReason == "refusal" {
      return heard + [Failure("The model declined to answer that")];
    }
    var stored := store.AppendExchange(owner, id, user, result.value.text, w.now, w.failAt);
    AppendExits(before, r, result.value.stopReason, w.now, ids, w.untitled);
    if stored.Err? {
      return heard + [Failure("The answer could not be saved")];
    }
    var conversation := store.Conversation(owner, id, w.untitled);
    var title := if conversation.Ok? then conversation.value.title else "";
    return heard + [Done(stored.value, title, result.value.stopReason)];
  }

  predicate OnlyDeltas(events: seq<Event>) { forall i | 0 <= i < |events| :: events[i].Delta? }

  lemma DeltaSnoc(events: seq<Event>, text: string)
    requires OnlyDeltas(events)
    ensures OnlyDeltas(events + [Delta(text)])
  {}

  lemma {:induction false} HeardDeltas(t: Tables, r: Request, deltas: seq<string>)
    requires r.events == []
    ensures OnlyDeltas(HeardAll(t, r, deltas).events)
    decreases |deltas|
  {
    if deltas != [] {
      var front := deltas[..|deltas| - 1];
      HeardDeltas(t, r, front);
      DeltaSnoc(HeardAll(t, r, front).events, deltas[|deltas| - 1]);
    }
  }

  /** The error before the stream, if there is one: the first read that fails, or a conversation that is not theirs. */
  function Refusal(t: Tables, owner: string, conv: string, w: World): Option<StoreError> {
    if w.failing == 0 then Some(Failed)
    else if !Owns(t, owner, conv) then Some(NotFound)
    else if 1 <= w.failing <= 4 then Some(Failed)
    else None
  }

  /**
  The handler from the request to the end of the response. The response, the input the model got and what
  is in the database are those of the phases.
  */
  method SendMessage(store: Store, owner: string, id: string, user: Message, w: World, decode: string -> Option<ModelEvent>)
    returns (r: Response)
    requires store.Valid() && ValidUser(user)
    modifies store
    ensures store.Valid()
    ensures var before, ids := old(store.View()), NextIds(old(store.last), user);
            var asking, after := ReadAll(before, owner, id, user, w.today), Handled(before, owner, id, user, w, decode, ids);
            if Refusal(before, owner, id, w).Some? then
              r == Response(Refusal(before, owner, id, w), [], []) && store.View() == before
            else
              && r == Response(None, after.events, InputOf(TurnsOf(asking.history + [user]), BlockText(asking.memory)))
              && store.View() == Left(before, owner, id, user, w, decode, ids)
  {
    var history := store.Messages(owner, id, true, w.failing);
    if history.Err? { return Response(Some(history.error), [], []); }
    var memory := LoadMemory(store, owner, w.today, w.failing);
    if memory.Err? { return Response(Some(memory.error), [], []); }
    var asked := BuildInput(history.value + [user], memory.value);
    ghost var before := store.View();
    ghost var asking, deltas := ReadAll(before, owner, id, user, w.today), DeltasOf(SaidIn(w, decode));
    ReadAllIs(before, owner, id, user, w.today);
    HeardDeltas(before, asking, deltas);
    HeardText(before, asking, deltas);
    HandledIs(before, owner, id, user, w, decode, NextIds(store.last, user));
    var result, events := Stream(w, decode, before, asking);
    events := Conclude(store, owner, id, user, events, result, w, HeardAll(before, asking, deltas));
    return Response(None, events, asked);
  }

  lemma {:induction false} HeardText(t: Tables, r: Request, deltas: seq<string>)
    requires r.text == "" && r.events == []
    ensures HeardAll(t, r, deltas).text == Concat(deltas) && DeltasIn(HeardAll(t, r, deltas).events) == deltas
    decreases |deltas|
  {
    if deltas != [] {
      var front, last := deltas[..|deltas| - 1], deltas[|deltas| - 1];
      HeardText(t, r, front);
      var before := HeardAll(t, r, front);
      assert HeardAll(t, r, deltas).events == before.events + [Delta(last)];
      assert (before.events + [Delta(last)])[..|before.events|] == before.events;
    }
  }

  // ---------------------------------------------------------------------------------------------
  // From the lines of the model's response to the database
  // ---------------------------------------------------------------------------------------------

  /** The event that ends the response, if one does. */
  function LastWord(t: Tables, owner: string, conv: string, user: Message, w: World,
                    decode: string -> Option<ModelEvent>, ids: NewIds): seq<Event>
    requires |ids.images| == |user.images|
  {
    var said := SaidIn(w, decode);
    if w.broken && !Marked(w.lines) then
      if w.cancelled then [] else [Failure("The model could not answer right now")]
    else if ReplyOf(said).stopReason == "refusal" then [Failure("The model declined to answer that")]
    else if TransactionFails(w, user) then [Failure("The answer could not be saved")]
    else
      var t2 := AppendExchange(t, owner, conv, user, Concat(DeltasOf(said)), w.now, ids);
      var title := if w.untitled || !Owns(t2, owner, conv) then "" else t2.conversations[conv].title;
      [Done(ids.answer, title, ReplyOf(said).stopReason)]
  }

  function Spoken(deltas: seq<string>): (r: seq<Event>)
    ensures |r| == |deltas| && forall i | 0 <= i < |r| :: r[i] == Delta(deltas[i])
  {
    seq(|deltas|, i requires 0 <= i < |deltas| => Delta(deltas[i]))
  }

  lemma {:induction false} HeardSpoken(t: Tables, r: Request, deltas: seq<string>)
    requires r.events == []
    ensures HeardAll(t, r, deltas).events == Spoken(deltas)
    decreases |deltas|
  {
    if deltas != [] {
      HeardSpoken(t, r, deltas[..|deltas| - 1]);
      assert Spoken(deltas) == Spoken(deltas[..|deltas| - 1]) + [Delta(deltas[|deltas| - 1])];
    }
  }

  /** The end of a send by what it has heard. */
  lemma EndIs(t: Tables, heard: Request, user: Message, w: World, decode: string -> Option<ModelEvent>, ids: NewIds)
    requires heard.phase.Streaming? && heard.user == user && Owns(t, heard.owner, heard.conv) && OnlyDeltas(heard.events)
    requires |ids.images| == |user.images| && heard.text == Concat(DeltasOf(SaidIn(w, decode)))
    ensures var after := Concluded(t, Replied(t, heard, ReplyIn(w, decode)), w.now, ids, TransactionFails(w, user), w.untitled);
            && after.events == heard.events + LastWord(t, heard.owner, heard.conv, user, w, decode, ids)
            && (Wrote(after) <==> Storable(w, user, decode))
  {
    var reply := ReplyIn(w, decode);
    QuietExits(t, heard, reply, w.now, ids, TransactionFails(w, user), w.untitled);
    if reply.Ended? && reply.stopReason != "refusal" { AppendExits(t, heard, reply.stopReason, w.now, ids, w.untitled); }
  }

  /**
  From the model's lines to the client and the database, whatever they are: every delta in them reaches the
  client in order, then the one last word; and the answer stored, if one is, is those deltas and nothing
  else. One is stored if and only if the scan did not break, the model did not refuse and the transaction
  went through; otherwise no turn is.
  */
  lemma LinesToAnswer(t: Tables, c: Counters, owner: string, conv: string, user: Message, w: World,
                      decode: string -> Option<ModelEvent>, ids: NewIds)
    requires Sound(t, c) && Owns(t, owner, conv) && NewTo(c, user, ids)
    ensures var deltas, after := DeltasOf(SaidIn(w, decode)), Handled(t, owner, conv, user, w, decode, ids);
            && after.events == Spoken(deltas) + LastWord(t, owner, conv, user, w, decode, ids)
            && (Wrote(after) <==> Storable(w, user, decode))
            && Turns(Left(t, owner, conv, user, w, decode, ids), conv)
               == if Storable(w, user, decode) then Turns(t, conv) + [UserTurn(user), AnswerTurn(Concat(deltas))]
                  else Turns(t, conv)
  {
    HandledIs(t, owner, conv, user, w, decode, ids);
    if Storable(w, user, decode) { LeftTurns(t, c, owner, conv, user, w, decode, ids); }
  }

  lemma LeftTurns(t: Tables, c: Counters, owner: string, conv: string, user: Message, w: World,
                  decode: string -> Option<ModelEvent>, ids: NewIds)
    requires Sound(t, c) && Owns(t, owner, conv) && NewTo(c, user, ids) && Storable(w, user, decode)
    ensures Turns(Left(t, owner, conv, user, w, decode, ids), conv)
            == Turns(t, conv) + [UserTurn(user), AnswerTurn(Concat(DeltasOf(SaidIn(w, decode))))]
  {
    AppendTurns(t, c, owner, conv, user, Concat(DeltasOf(SaidIn(w, decode))), w.now, ids, conv);
  }

  lemma HandledIs(t: Tables, owner: string, conv: string, user: Message, w: World,
                  decode: string -> Option<ModelEvent>, ids: NewIds)
    requires Owns(t, owner, conv) && |ids.images| == |user.images|
    ensures var after := Handled(t, owner, conv, user, w, decode, ids);
            && after.events == Spoken(DeltasOf(SaidIn(w, decode))) + LastWord(t, owner, conv, user, w, decode, ids)
            && (Wrote(after) <==> Storable(w, user, decode))
  {
    var asking, deltas := ReadAll(t, owner, conv, user, w.today), DeltasOf(SaidIn(w, decode));
    ReadAllIs(t, owner, conv, user, w.today);
    HeardDeltas(t, asking, deltas);
    HeardText(t, asking, deltas);
    HeardSpoken(t, asking, deltas);
    EndIs(t, HeardAll(t, asking, deltas), user, w, decode, ids);
  }

  // ---------------------------------------------------------------------------------------------
  // The last word, line by line
  // ---------------------------------------------------------------------------------------------

  /** Reading the response fails, and no end marker came first. */
  predicate Breaks(w: World) {
    w.broken && !exists k | 0 <= k < |w.lines| :: PayloadOf(w.lines[k]) == Some("[DONE]")
  }

  /** Some line holds a refusal, before any end marker. */
  predicate Declines(w: World, decode: string -> Option<ModelEvent>) {
    exists i: nat :: i < |w.lines| && IsKind(EventAt(w.lines, decode, i), "response.refusal.delta")
  }

  /** What the last completion before any end marker gives as the reason to stop; empty without one. */
  function LastReason(w: World, decode: string -> Option<ModelEvent>): string {
    var js := Picked(HoldsKind(w.lines, decode, "response.completed"), |w.lines|);
    if js == [] then ""
    else
      var e := EventOn(w.lines, decode)(js[|js| - 1]);
      if e.status == "incomplete" then e.reason else "end_turn"
  }

  /** The deltas on the lines before any end marker, in order. */
  function DeltasSaid(w: World, decode: string -> Option<ModelEvent>): seq<string> {
    Mapped(DeltaOn(w.lines, decode), Picked(HoldsKind(w.lines, decode, "response.output_text.delta"), |w.lines|))
  }

  lemma SaidByLine(w: World, decode: string -> Option<ModelEvent>)
    ensures Breaks(w) <==> w.broken && !Marked(w.lines)
    ensures DeltasOf(SaidIn(w, decode)) == DeltasSaid(w, decode)
    ensures ReplyOf(SaidIn(w, decode)).stopReason == if Declines(w, decode) then "refusal" else LastReason(w, decode)
  {
    RefusedIff(w.lines, decode);
    StopIs(w.lines, decode);
    DeltasByLine(w.lines, decode);
    if exists k | 0 <= k < |w.lines| :: PayloadOf(w.lines[k]) == Some("[DONE]") {
      var k :| 0 <= k < |w.lines| && PayloadOf(w.lines[k]) == Some("[DONE]");
      assert IsDone(w.lines[k]);
    }
  }

  /** A broken stream: the client is told, unless it is gone, and nothing is stored. */
  lemma BreakSaysSo(t: Tables, owner: string, conv: string, user: Message, w: World,
                    decode: string -> Option<ModelEvent>, ids: NewIds)
    requires Owns(t, owner, conv) && |ids.images| == |user.images| && Breaks(w)
    ensures Left(t, owner, conv, user, w, decode, ids) == t
    ensures Handled(t, owner, conv, user, w, decode, ids).events
            == Spoken(DeltasSaid(w, decode)) + if w.cancelled then [] else [Failure("The model could not answer right now")]
  {
    SaidByLine(w, decode);
    HandledIs(t, owner, conv, user, w, decode, ids);
  }

  /**
  A stream that does not break and has a refusal on any line before the end marker, whatever follows it, or
  whose last completion gives "refusal": the client is told so and nothing is stored.
  */
  lemma RefusalSaysSo(t: Tables, owner: string, conv: string, user: Message, w: World,
                      decode: string -> Option<ModelEvent>, ids: NewIds)
    requires Owns(t, owner, conv) && |ids.images| == |user.images| && !Breaks(w)
    requires Declines(w, decode) || LastReason(w, decode) == "refusal"
    ensures Left(t, owner, conv, user, w, decode, ids) == t
    ensures Handled(t, owner, conv, user, w, decode, ids).events
            == Spoken(DeltasSaid(w, decode)) + [Failure("The model declined to answer that")]
  {
    SaidByLine(w, decode);
    HandledIs(t, owner, conv, user, w, decode, ids);
  }

  /** Any other stream is an answer: it is stored and done says so, or the transaction fails and that is said. */
  lemma AnswerSaysSo(t: Tables, c: Counters, owner: string, conv: string, user: Message, w: World,
                     decode: string -> Option<ModelEvent>, ids: NewIds)
    requires Sound(t, c) && Owns(t, owner, conv) && NewTo(c, user, ids)
    requires !Breaks(w) && !Declines(w, decode) && LastReason(w, decode) != "refusal"
    ensures var left, events := Left(t, owner, conv, user, w, decode, ids), Handled(t, owner, conv, user, w, decode, ids).events;
            var said := DeltasSaid(w, decode);
            if 0 <= w.failAt < |user.images| + 5 then
              left == t && events == Spoken(said) + [Failure("The answer could not be saved")]
            else
              && Turns(left, conv) == Turns(t, conv) + [UserTurn(user), AnswerTurn(Concat(said))]
              && conv in left.conversations
              && events == Spoken(said) + [Done(ids.answer, if w.untitled then "" else left.conversations[conv].title,
                                                LastReason(w, decode))]
  {
    SaidByLine(w, decode);
    LinesToAnswer(t, c, owner, conv, user, w, decode, ids);
  }

  // ---------------------------------------------------------------------------------------------
  // The handler inside the transition system
  // ---------------------------------------------------------------------------------------------

  /** Request `k` of the state, and nothing else of it, becomes `r`. */
  function Becomes(s: Sys, k: int, r: Request): Sys { s.(requests := s.requests[k := r]) }

  /** The send begins and reads, one phase after the other. */
  lemma AsksInARow(s: Sys, owner: string, k: int, conv: string, user: Message, today: string) returns (s2: Sys)
    requires Reachable(s) && k !in s.requests && ValidUser(user) && IsDate(today) && Owns(s.tables, owner, conv)
    ensures Reachable(s2) && s2 == Becomes(s, k, ReadAll(s.tables, owner, conv, user, today))
  {
    var s1 := BeginsInARow(s, owner, k, conv, user);
    FirstReads(s.tables, s1.requests[k]);
    s2 := ReadsOn(s1, k, today);
    BecomesTwice(s, k, s1.requests[k], s2.requests[k]);
  }

  lemma StreamsInARow(s: Sys, owner: string, k: int, conv: string, user: Message, today: string) returns (s2: Sys)
    requires Reachable(s) && k !in s.requests && ValidUser(user) && IsDate(today) && Owns(s.tables, owner, conv)
    ensures Reachable(s2) && s2 == Becomes(s, k, ReadAll(s.tables, owner, conv, user, today))
    ensures k in s2.requests && s2.requests[k].phase.Streaming? && s2.requests[k].user == user
    ensures s2.requests[k].text == "" && s2.requests[k].events == []
    ensures s2.requests[k].owner == owner && s2.requests[k].conv == conv
  {
    s2 := AsksInARow(s, owner, k, conv, user, today);
    ReadAllIs(s.tables, owner, conv, user, today);
  }

  lemma BecomesTwice(s: Sys, k: int, r1: Request, r2: Request)
    ensures Becomes(Becomes(s, k, r1), k, r2) == Becomes(s, k, r2)
  {}

  lemma BeginsInARow(s: Sys, owner: string, k: int, conv: string, user: Message) returns (s2: Sys)
    requires Reachable(s) && k !in s.requests && ValidUser(user) && Owns(s.tables, owner, conv)
    ensures var r := Stepped(s.tables, Started(s.tables, owner, conv, user), ReadRows);
            Reachable(s2) && s2 == Becomes(s, k, r) && r.phase.HasRows? && r.rows == Rows(s.tables, conv) && r.conv == conv
  {
    NextReachable(s, Begin(owner, k, conv, user));
    var s1 := Next(s, Begin(owner, k, conv, user));
    s2 := Takes(s1, k, ReadRows, Stepped(s.tables, s1.requests[k], ReadRows));
    assert s2.requests == s.requests[k := s2.requests[k]];
  }

  lemma ReadsOn(s: Sys, k: int, today: string) returns (s2: Sys)
    requires Reachable(s) && k in s.requests && s.requests[k].phase.HasRows? && IsDate(today)
    requires Stepped(s.tables, s.requests[k], ReadImages).phase.HasHistory?
    ensures Reachable(s2) && s2 == Becomes(s, k, ReadRest(s.tables, s.requests[k], today))
  {
    var t := s.tables;
    var r2 := Stepped(t, s.requests[k], ReadImages);
    var s1 := Takes(s, k, ReadImages, r2);
    var r3 := Stepped(t, r2, ReadPantry);
    s1 := Takes(s1, k, ReadPantry, r3);
    s2 := Takes(s1, k, ReadJournal(today), Stepped(t, r3, ReadJournal(today)));
    assert s2.requests == s.requests[k := s2.requests[k]];
  }

  lemma {:induction false} HearsInARow(s: Sys, k: int, deltas: seq<string>) returns (s2: Sys)
    requires Reachable(s) && k in s.requests && s.requests[k].phase.Streaming?
    ensures Reachable(s2) && s2 == Becomes(s, k, HeardAll(s.tables, s.requests[k], deltas))
    decreases |deltas|
  {
    if deltas == [] {
      s2 := s;
      assert s.requests[k := s.requests[k]] == s.requests;
    } else {
      var n := |deltas| - 1;
      var s1 := HearsInARow(s, k, deltas[..n]);
      var heard := HeardAll(s.tables, s.requests[k], deltas[..n]);
      s2 := Takes(s1, k, Hear(deltas[n]), Stepped(s.tables, heard, Hear(deltas[n])));
      assert s2.requests == s.requests[k := s2.requests[k]];
    }
  }

  lemma EndsInARow(s: Sys, k: int, reply: Reply) returns (s2: Sys)
    requires Reachable(s) && k in s.requests && s.requests[k].phase.Streaming?
    ensures Reachable(s2) && s2 == Becomes(s, k, Replied(s.tables, s.requests[k], reply))
    ensures !s2.requests[k].phase.Stored? && s2.requests[k].user == s.requests[k].user
  {
    var r2 := Replied(s.tables, s.requests[k], reply);
    match reply {
      case Broken(cancelled) => s2 := Takes(s, k, Break(cancelled), r2);
      case Ended(stopReason) => s2 := Takes(s, k, End(stopReason), r2);
    }
  }

  /** What storing and concluding leave of the tables. */
  function TablesAfter(t: Tables, r: Request, now: int, ids: NewIds, fails: bool): Tables
    requires |ids.images| == |r.user.images|
  {
    if r.phase.Answered? && Commits(t, r, fails) then AppendExchange(t, r.owner, r.conv, r.user, r.text, now, ids) else t
  }

  lemma ConcludesInARow(s: Sys, k: int, now: int, ids: NewIds, fails: bool, untitled: bool) returns (s2: Sys)
    requires Reachable(s) && k in s.requests && !s.requests[k].phase.Stored? && NewTo(s.counters, s.requests[k].user, ids)
    ensures Reachable(s2) && k in s2.requests && s2.requests[k] == Concluded(s.tables, s.requests[k], now, ids, fails, untitled)
    ensures s2.tables == TablesAfter(s.tables, s.requests[k], now, ids, fails)
  {
    var r := s.requests[k];
    if !r.phase.Answered? {
      s2 := s;
    } else {
      var step := Append(now, ids, fails);
      NextReachable(s, Advance(r.owner, k, step));
      var s1 := Next(s, Advance(r.owner, k, step));
      if Commits(s.tables, r, fails) {
        s2 := Takes(s1, k, Finish(untitled), Stepped(s1.tables, s1.requests[k], Finish(untitled)));
      } else {
        QuietIs(s, k, step);
        s2 := s1;
      }
    }
  }

  /**
  The handler is a run: from any reachable state, the phases in a row lead to a reachable state in which
  the send stands as the handler leaves it and the tables are the handler's. So all that holds of
  reachable states holds of what the handler does, with whatever sends are in flight around it.
  */
  lemma HandlerIsARun(s: Sys, owner: string, k: int, conv: string, user: Message, w: World,
                      decode: string -> Option<ModelEvent>, ids: NewIds) returns (s2: Sys)
    requires Reachable(s) && k !in s.requests && ValidUser(user) && IsDate(w.today)
    requires Owns(s.tables, owner, conv) && NewTo(s.counters, user, ids)
    ensures Reachable(s2) && k in s2.requests
    ensures s2.requests[k] == Handled(s.tables, owner, conv, user, w, decode, ids)
    ensures s2.tables == Left(s.tables, owner, conv, user, w, decode, ids)
  {
    var deltas, reply, fails := DeltasOf(SaidIn(w, decode)), ReplyIn(w, decode), TransactionFails(w, user);
    var s1 := StreamsInARow(s, owner, k, conv, user, w.today);
    var s3 := AnswersInARow(s1, k, deltas, reply);
    s2 := ConcludesInARow(s3, k, w.now, ids, fails, w.untitled);
    StoredInARow(s.tables, s1.requests[k], deltas, reply, w, user, decode, ids);
  }

  /** What the last phases leave of the tables, by the lines of the model's response. */
  lemma StoredInARow(t: Tables, asking: Request, deltas: seq<string>, reply: Reply, w: World, user: Message,
                     decode: string -> Option<ModelEvent>, ids: NewIds)
    requires asking.phase.Streaming? && asking.text == "" && asking.events == [] && asking.user == user
    requires Owns(t, asking.owner, asking.conv) && |ids.images| == |user.images|
    requires deltas == DeltasOf(SaidIn(w, decode)) && reply == ReplyIn(w, decode)
    ensures TablesAfter(t, Replied(t, HeardAll(t, asking, deltas), reply), w.now, ids, TransactionFails(w, user))
            == Left(t, asking.owner, asking.conv, user, w, decode, ids)
  {
    HeardText(t, asking, deltas);
  }

  lemma AnswersInARow(s: Sys, k: int, deltas: seq<string>, reply: Reply) returns (s2: Sys)
    requires Reachable(s) && k in s.requests && s.requests[k].phase.Streaming?
    ensures Reachable(s2) && s2.tables == s.tables && s2.counters == s.counters && k in s2.requests
    ensures s2.requests[k] == Replied(s.tables, HeardAll(s.tables, s.requests[k], deltas), reply)
    ensures !s2.requests[k].phase.Stored? && s2.requests[k].user == s.requests[k].user
  {
    var s1 := HearsInARow(s, k, deltas);
    s2 := EndsInARow(s1, k, reply);
  }
}
