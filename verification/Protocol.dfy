/**
The service as a transition system. Database statements and transactions are atomic; a request that
sends a message (internal/api/send.go) is a sequence of phases, and anything may happen between two of
them: other sends on the same conversation, its deletion, and every other operation of any owner.
*/
module Protocol {
  import opened Common
  import opened Seqs
  import opened Entities
  import opened Schema
  import opened Joins
  import opened Conversations
  import opened Pantry
  import opened Memories
  import opened Names
  import opened Text
  import opened UserMessages

  const MEMORY_ENTRIES: nat := 15

  // ---------------------------------------------------------------------------------------------
  // State
  // ---------------------------------------------------------------------------------------------

  /** What the response stream carries. */
  datatype Event = Delta(text: string) | Done(messageID: int, title: string, stopReason: string) | Failure(message: string)

  /**
  How far a send has come: the conversation was found; its message rows, then their images, then the
  pantry, then the journal were read and the answer streams; the answer is complete; it is stored;
  nothing more will happen.
  */
  datatype Phase =
    | Found | HasRows | HasHistory | HasPantry | Streaming
    | Answered(stopReason: string) | Stored(messageID: int, reason: string) | Closed

  datatype Request = Request(
    owner: string, conv: string, user: Message, phase: Phase,
    rows: seq<MessageRow>, history: seq<Message>,
    // No message of the conversation came or went between the two queries.
    intact: bool,
    // At the image query: whether the conversation was still there, and how many images came back.
    there: bool, photosRead: nat,
    // The read of the title after the commit failed.
    untitled: bool,
    pantry: seq<Ingredient>, memory: Memory,
    text: string, events: seq<Event>)

  /** A committed exchange. */
  datatype Commit = Commit(request: int, conv: string, user: Message, answer: string)

  datatype Sys = Sys(
    tables: Tables, counters: Counters,
    // Every conversation id ever drawn, and for whom.
    used: map<string, string>,
    requests: map<int, Request>,
    commits: seq<Commit>)

  const INIT: Sys := Sys(NO_ROWS, NO_IDS, map[], map[], [])

  // ---------------------------------------------------------------------------------------------
  // Actions
  // ---------------------------------------------------------------------------------------------

  datatype Step =
    | ReadRows | ReadImages | ReadPantry | ReadJournal(today: string)
    | ReadFails
    | Hear(text: string)
    | Break(cancelled: bool)
    | End(stopReason: string)
    | Append(now: int, ids: NewIds, fails: bool)
    | Finish(fails: bool)

  datatype Action =
    | Create(owner: string, conv: string, now: int)
    | Delete(owner: string, conv: string)
    | AddItems(owner: string, names: seq<string>, ids: seq<int>, now: int)
    | SwitchItem(owner: string, id: int, inStock: bool)
    | RemoveItem(owner: string, id: int)
    | AddEntry(owner: string, entry: JournalEntry)
    | RemoveEntry(owner: string, id: int)
    | Begin(owner: string, request: int, conv: string, user: Message)
    | Advance(owner: string, request: int, step: Step)

  /** What parsing a pasted list makes of every name. */
  ghost predicate PlainName(name: string) { name != "" && Squeeze(name) == name && Free(IsSeparator, name) }

  /** A date as the API writes it and accepts it, YYYY-MM-DD. */
  predicate IsDate(s: string) {
    |s| == 10 && forall i | 0 <= i < 10 :: if i == 4 || i == 7 then s[i] == '-' else '0' <= s[i] <= '9'
  }

  predicate Reading(p: Phase) { p.Found? || p.HasRows? || p.HasHistory? || p.HasPantry? }

  /** The step belongs to the phase, and its new identifiers are new. */
  predicate StepEnabled(s: Sys, r: Request, step: Step) {
    match step
    case ReadRows => r.phase.Found?
    case ReadImages => r.phase.HasRows?
    case ReadPantry => r.phase.HasHistory?
    case ReadJournal(today) => r.phase.HasPantry? && IsDate(today)
    case ReadFails => Reading(r.phase)
    case Hear(_) => r.phase.Streaming?
    case Break(_) => r.phase.Streaming?
    case End(_) => r.phase.Streaming?
    case Append(_, ids, _) => r.phase.Answered? && NewTo(s.counters, r.user, ids)
    case Finish(_) => r.phase.Stored?
  }

  ghost predicate Enabled(s: Sys, a: Action) {
    match a
    case Create(_, conv, _) => conv !in s.used
    case AddItems(_, names, ids, _) =>
      |ids| == |names| && AscendingIds(s.counters.ingredient, ids) && forall n | n in names :: PlainName(n)
    case AddEntry(_, entry) => s.counters.entry < entry.id && 1 <= entry.taste <= 5 && IsDate(entry.cookedOn)
    case Begin(_, request, _, user) => request !in s.requests && ValidUser(user)
    case Advance(owner, request, step) =>
      request in s.requests && s.requests[request].owner == owner && StepEnabled(s, s.requests[request], step)
    case _ => true
  }

  // ---------------------------------------------------------------------------------------------
  // The phases of a send
  // ---------------------------------------------------------------------------------------------

  /** The ownership check; without it there is nothing but the error response. */
  function Started(t: Tables, owner: string, conv: string, user: Message): Request {
    Request(owner, conv, user, if Owns(t, owner, conv) then Found else Closed,
            [], [], false, false, 0, false, [], Memory("", [], []), "", [])
  }

  predicate Commits(t: Tables, r: Request, fails: bool) { !fails && Owns(t, r.owner, r.conv) }

  function WithImages(t: Tables, r: Request): Request {
    match Joined(r.rows, ImageRows(t, r.conv), true)
    case None => r.(phase := Closed)
    case Some(h) =>
      r.(history := h, intact := Rows(t, r.conv) == r.rows, there := Owns(t, r.owner, r.conv),
         photosRead := |ImageRows(t, r.conv)|, phase := HasHistory)
  }

  function Titled(t: Tables, r: Request): string {
    if Owns(t, r.owner, r.conv) then t.conversations[r.conv].title else ""
  }

  function Ended(r: Request, e: Event): Request { r.(events := r.events + [e], phase := Closed) }

  /** Only the reads of rows and of images touch what they brought, and only they lead up to it. */
  predicate SameReads(r: Request, r2: Request) {
    && r2.rows == r.rows && r2.history == r.history && r2.there == r.there && r2.photosRead == r.photosRead
    && (r2.phase.Found? || r2.phase.HasRows? ==> r2.phase == r.phase)
  }

  /** What a step makes of the request, given the tables as they are then. */
  function Stepped(t: Tables, r: Request, step: Step): (r2: Request)
    ensures r2.owner == r.owner && r2.conv == r.conv && r2.user == r.user
    ensures !step.ReadRows? && !step.ReadImages? ==> SameReads(r, r2)
    ensures !step.ReadPantry? ==> r2.pantry == r.pantry
    ensures !step.ReadJournal? ==> r2.memory == r.memory
  {
    match step
    case ReadRows => r.(rows := Rows(t, r.conv), phase := HasRows)
    case ReadImages => WithImages(t, r)
    case ReadPantry => r.(pantry := Ingredients(t, r.owner), phase := HasPantry)
    case ReadJournal(today) =>
      r.(memory := Memory(today, r.pantry, Journal(t, r.owner, MEMORY_ENTRIES)), phase := Streaming)
    case ReadFails => r.(phase := Closed)
    case Hear(text) => r.(text := r.text + text, events := r.events + [Delta(text)])
    case Break(cancelled) =>
      if cancelled then r.(phase := Closed) else Ended(r, Failure("The model could not answer right now"))
    case End(stopReason) =>
      if stopReason == "refusal" then Ended(r, Failure("The model declined to answer that"))
      else r.(phase := Answered(stopReason))
    case Append(_, ids, fails) =>
      if !r.phase.Answered? then r
      else if Commits(t, r, fails) then r.(phase := Stored(ids.answer, r.phase.stopReason))
      else Ended(r, Failure("The answer could not be saved"))
    case Finish(fails) =>
      if r.phase.Stored? then
        Ended(r.(untitled := fails), Done(r.phase.messageID, if fails then "" else Titled(t, r), r.phase.reason))
      else r
  }

  function AdvanceSys(s: Sys, request: int, step: Step): Sys
    requires request in s.requests
  {
    var r := s.requests[request];
    var s1 := s.(requests := s.requests[request := Stepped(s.tables, r, step)]);
    if step.Append? && |step.ids.images| == |r.user.images| && Commits(s.tables, r, step.fails) then
      s1.(tables := AppendExchange(s.tables, r.owner, r.conv, r.user, r.text, step.now, step.ids),
          counters := Counted(s.counters, r.user, step.ids),
          commits := s.commits + [Commit(request, r.conv, r.user, r.text)])
    else s1
  }

  function Next(s: Sys, a: Action): Sys
    requires Enabled(s, a)
  {
    match a
    case Create(owner, conv, now) =>
      s.(tables := CreateConversation(s.tables, owner, conv, now), used := s.used[conv := owner])
    case Delete(owner, conv) => s.(tables := DeleteConversation(s.tables, owner, conv))
    case AddItems(owner, names, ids, now) =>
      s.(tables := AddIngredients(s.tables, owner, names, ids, now),
         counters := s.counters.(ingredient := LastIngredient(s.counters.ingredient, ids)))
    case SwitchItem(owner, id, inStock) => s.(tables := SetInStock(s.tables, owner, id, inStock))
    case RemoveItem(owner, id) => s.(tables := DeleteIngredient(s.tables, owner, id))
    case AddEntry(owner, entry) =>
      s.(tables := AddJournalEntry(s.tables, owner, entry), counters := s.counters.(entry := entry.id))
    case RemoveEntry(owner, id) => s.(tables := DeleteJournalEntry(s.tables, owner, id))
    case Begin(owner, request, conv, user) =>
      s.(requests := s.requests[request := Started(s.tables, owner, conv, user)])
    case Advance(_, request, step) => AdvanceSys(s, request, step)
  }

  /** The state after a run; every action of a run is enabled when it happens. */
  ghost predicate Behaves(s: Sys, acts: seq<Action>)
    decreases acts
  {
    acts != [] ==> Enabled(s, acts[0]) && Behaves(Next(s, acts[0]), acts[1..])
  }

  function After(s: Sys, acts: seq<Action>): Sys
    requires Behaves(s, acts)
    decreases acts
  {
    if acts == [] then s else After(Next(s, acts[0]), acts[1..])
  }

  /** Some run ends in this state; every state along a run is one. */
  ghost predicate Reachable(s: Sys) { exists acts :: Behaves(INIT, acts) && s == After(INIT, acts) }

  // ---------------------------------------------------------------------------------------------
  // What a run's commits add up to
  // ---------------------------------------------------------------------------------------------

  function OnConversation(conv: string): Commit -> bool { (c: Commit) => c.conv == conv }

  function ByRequest(request: int): Commit -> bool { (c: Commit) => c.request == request }

  function CommitsOn(s: Sys, conv: string): seq<Commit> { Filter(OnConversation(conv), s.commits) }

  /** The turns that exchanges make: two each, user then assistant. */
  function Exchanged(cs: seq<Commit>): (r: seq<Turn>)
    ensures |r| == 2 * |cs|
  {
    if cs == [] then []
    else Exchanged(cs[..|cs| - 1]) + [UserTurn(cs[|cs| - 1].user), AnswerTurn(cs[|cs| - 1].answer)]
  }

  /** Everything ever committed to a conversation, in order. */
  function Said(s: Sys, conv: string): seq<Turn> { Exchanged(CommitsOn(s, conv)) }

  /** The role and the words of a turn, without photos. */
  function Words(turns: seq<Turn>): (r: seq<(string, string)>)
    ensures |r| == |turns| && forall i | 0 <= i < |r| :: r[i] == (turns[i].role, turns[i].text)
  {
    seq(|turns|, i requires 0 <= i < |turns| => (turns[i].role, turns[i].text))
  }

  function RowWords(rows: seq<MessageRow>): (r: seq<(string, string)>)
    ensures |r| == |rows| && forall i | 0 <= i < |r| :: r[i] == (rows[i].role, rows[i].text)
  {
    seq(|rows|, i requires 0 <= i < |rows| => (rows[i].role, rows[i].text))
  }

  function DeltasIn(events: seq<Event>): seq<string> {
    if events == [] then []
    else
      DeltasIn(events[..|events| - 1])
      + if events[|events| - 1].Delta? then [events[|events| - 1].text] else []
  }

  /** Exactly when the exchange of this request is in the database's history. */
  predicate Wrote(r: Request) {
    r.phase.Stored? || (r.events != [] && r.events[|r.events| - 1].Done?)
  }

  // ---------------------------------------------------------------------------------------------
  // The invariant
  // ---------------------------------------------------------------------------------------------

  ghost predicate UsedRight(s: Sys) {
    && (forall c | c in s.tables.conversations :: c in s.used && s.used[c] == s.tables.conversations[c].owner)
    && (forall cm | cm in s.commits :: cm.conv in s.used)
  }

  /** A conversation holds exactly what was committed to it, and is titled by its first message. */
  ghost predicate ConversationRight(s: Sys, c: string)
    requires c in s.tables.conversations
  {
    && Turns(s.tables, c) == Said(s, c)
    && s.tables.conversations[c].title == if Said(s, c) == [] then "" else TitleFrom(Said(s, c)[0].text)
  }

  ghost predicate CommitsRight(s: Sys) {
    forall cm | cm in s.commits :: ValidUser(cm.user) && cm.request in s.requests
  }

  /** The stream is deltas, then at most one event that ends it, and only once the send is over. */
  ghost predicate StreamRight(r: Request) {
    && (forall i | 0 <= i < |r.events| - 1 :: r.events[i].Delta?)
    && (!r.phase.Closed? ==> forall i | 0 <= i < |r.events| :: r.events[i].Delta?)
    && (Reading(r.phase) ==> r.events == [])
    && r.text == Concat(DeltasIn(r.events))
  }

  /** One commit if the send wrote, none if not, and the text stored is the text streamed. */
  ghost predicate CommitRight(s: Sys, k: int, r: Request) {
    Filter(ByRequest(k), s.commits) == if Wrote(r) then [Commit(k, r.conv, r.user, r.text)] else []
  }

  /** The rows read stay a prefix of the conversation as long as it exists, and of what was said there. */
  ghost predicate RowsRight(s: Sys, r: Request) {
    && (!r.phase.Closed? ==> r.conv in s.used && s.used[r.conv] == r.owner)
    && (r.rows != [] ==> r.conv in s.used && s.used[r.conv] == r.owner)
    && (r.conv in s.tables.conversations ==> r.rows <= Rows(s.tables, r.conv))
    && RowWords(r.rows) <= Words(Said(s, r.conv))
    && |r.rows| % 2 == 0
    && Ordered(MessageKey(), r.rows)
  }

  /** The history has the rows' words; photos only where the user speaks; and all of it right if intact. */
  ghost predicate HistoryRight(s: Sys, r: Request) {
    && (r.phase.Found? || r.phase.HasRows? ==> r.history == [] && !r.intact)
    && (r.history != [] ==> Words(TurnsOf(r.history)) == RowWords(r.rows))
    && (forall i | 0 <= i < |r.history| && i % 2 == 1 :: r.history[i].images == [])
    && (r.phase.HasHistory? || r.phase.HasPantry? || r.phase.Streaming? || r.phase.Answered? || r.phase.Stored?
        ==> |r.history| == |r.rows|)
    && (r.intact ==> TurnsOf(r.history) <= Said(s, r.conv))
  }

  ghost predicate RequestRight(s: Sys, k: int, r: Request) {
    && ValidUser(r.user)
    && StreamRight(r) && CommitRight(s, k, r) && RowsRight(s, r) && HistoryRight(s, r)
  }

  ghost predicate Inv(s: Sys) {
    && Sound(s.tables, s.counters)
    && UsedRight(s) && CommitsRight(s)
    && (forall c | c in s.tables.conversations :: ConversationRight(s, c))
    && (forall k | k in s.requests :: RequestRight(s, k, s.requests[k]))
  }

  lemma InitRight()
    ensures Inv(INIT)
  {}
}
