/** Every action keeps the invariant, so it holds in every state of every run. */
module Invariant {
  import opened Common
  import opened Text
  import opened Seqs
  import opened Entities
  import opened Schema
  import opened Joins
  import opened Conversations
  import opened Pantry
  import opened UserMessages
  import opened Protocol

  // ---------------------------------------------------------------------------------------------
  // What the invariant of a request depends on
  // ---------------------------------------------------------------------------------------------

  /** The two states agree on everything but the requests, the pantry and the journal. */
  ghost predicate SameTalk(s: Sys, s2: Sys) {
    && s2.used == s.used && s2.commits == s.commits
    && s2.tables.conversations == s.tables.conversations
    && s2.tables.messages == s.tables.messages && s2.tables.images == s.tables.images
  }

  lemma SameTalkSame(s: Sys, s2: Sys, conv: string)
    requires SameTalk(s, s2)
    ensures Rows(s2.tables, conv) == Rows(s.tables, conv) && ImageRows(s2.tables, conv) == ImageRows(s.tables, conv)
    ensures Turns(s2.tables, conv) == Turns(s.tables, conv) && Said(s2, conv) == Said(s, conv)
  {}

  lemma RequestKept(s: Sys, s2: Sys, k: int, r: Request)
    requires SameTalk(s, s2) && RequestRight(s, k, r)
    ensures RequestRight(s2, k, r)
  {
    SameTalkSame(s, s2, r.conv);
  }

  lemma TalkKept(s: Sys, s2: Sys)
    requires Inv(s) && SameTalk(s, s2) && Sound(s2.tables, s2.counters)
    requires s.requests.Keys <= s2.requests.Keys
    requires forall k | k in s2.requests :: RequestRight(s2, k, s2.requests[k])
    ensures Inv(s2)
  {
    forall c | c in s2.tables.conversations ensures ConversationRight(s2, c) {
      SameTalkSame(s, s2, c);
    }
  }

  /** Pantry and journal actions are nothing to the conversations. */
  lemma AsideKept(s: Sys, s2: Sys)
    requires Inv(s) && SameTalk(s, s2) && s2.requests == s.requests && Sound(s2.tables, s2.counters)
    ensures Inv(s2)
  {
    forall k | k in s2.requests ensures RequestRight(s2, k, s2.requests[k]) {
      RequestKept(s, s2, k, s.requests[k]);
    }
    TalkKept(s, s2);
  }

  lemma OneRequestKept(s: Sys, k: int, r2: Request)
    requires Inv(s) && RequestRight(s, k, r2)
    ensures Inv(s.(requests := s.requests[k := r2]))
  {
    var s2 := s.(requests := s.requests[k := r2]);
    forall j | j in s2.requests ensures RequestRight(s2, j, s2.requests[j]) {
      RequestKept(s, s2, j, s2.requests[j]);
    }
    TalkKept(s, s2);
  }

  // ---------------------------------------------------------------------------------------------
  // Conversations come and go
  // ---------------------------------------------------------------------------------------------

  lemma NeverUsedEmpty(s: Sys, conv: string)
    requires Inv(s) && conv !in s.used
    ensures Rows(s.tables, conv) == [] && Turns(s.tables, conv) == [] && Said(s, conv) == []
  {
    FilterNone(InConversation(conv), s.tables.messages);
    FilterNone(OnConversation(conv), s.commits);
  }

  /** A row set that shrank by whole conversations, or grew by an empty new one. */
  ghost predicate Reshaped(s: Sys, s2: Sys) {
    && s2.commits == s.commits && s2.requests == s.requests
    && (forall c | c in s.used :: c in s2.used && s2.used[c] == s.used[c])
    && (forall c | c in s2.tables.conversations ::
          if c in s.used then
            && c in s.tables.conversations && s2.tables.conversations[c] == s.tables.conversations[c]
            && Rows(s2.tables, c) == Rows(s.tables, c) && Turns(s2.tables, c) == Turns(s.tables, c)
          else s2.tables.conversations[c].title == "" && Turns(s2.tables, c) == [])
  }

  lemma ReshapedKept(s: Sys, s2: Sys)
    requires Inv(s) && Reshaped(s, s2) && Sound(s2.tables, s2.counters) && UsedRight(s2)
    ensures Inv(s2)
  {
    forall c | c in s2.tables.conversations ensures ConversationRight(s2, c) {
      if c !in s.used { NeverUsedEmpty(s, c); }
      assert Said(s2, c) == Said(s, c);
    }
    forall k | k in s2.requests ensures RequestRight(s2, k, s2.requests[k]) {
      var r := s.requests[k];
      assert RequestRight(s, k, r);
      assert Said(s2, r.conv) == Said(s, r.conv);
    }
  }

  lemma CreateReshapes(s: Sys, owner: string, conv: string, now: int)
    requires conv !in s.used && UsedRight(s) && Turns(s.tables, conv) == []
    ensures Reshaped(s, Next(s, Create(owner, conv, now))) && UsedRight(Next(s, Create(owner, conv, now)))
  {
    var s2 := Next(s, Create(owner, conv, now));
    forall c ensures Rows(s2.tables, c) == Rows(s.tables, c) && Turns(s2.tables, c) == Turns(s.tables, c) {}
  }

  lemma CreateKept(s: Sys, owner: string, conv: string, now: int)
    requires Inv(s) && conv !in s.used
    ensures Inv(Next(s, Create(owner, conv, now)))
  {
    var s2 := Next(s, Create(owner, conv, now));
    CreateSound(s.tables, s.counters, owner, conv, now);
    NeverUsedEmpty(s, conv);
    CreateReshapes(s, owner, conv, now);
    ReshapedKept(s, s2);
  }

  lemma DeleteKept(s: Sys, owner: string, conv: string)
    requires Inv(s)
    ensures Inv(Next(s, Delete(owner, conv)))
  {
    var s2 := Next(s, Delete(owner, conv));
    DeleteSound(s.tables, s.counters, owner, conv);
    if Owns(s.tables, owner, conv) {
      forall c | c in s2.tables.conversations
        ensures Rows(s2.tables, c) == Rows(s.tables, c) && Turns(s2.tables, c) == Turns(s.tables, c)
      {
        DeleteRows(s.tables, s.counters, owner, conv, c);
      }
    }
    ReshapedKept(s, s2);
  }

  // ---------------------------------------------------------------------------------------------
  // Beginning a send
  // ---------------------------------------------------------------------------------------------

  lemma BeginKept(s: Sys, owner: string, request: int, conv: string, user: Message)
    requires Inv(s) && request !in s.requests && ValidUser(user)
    ensures Inv(Next(s, Begin(owner, request, conv, user)))
  {
    var r := Started(s.tables, owner, conv, user);
    FilterNone(ByRequest(request), s.commits);
    assert CommitRight(s, request, r);
    assert HistoryRight(s, r) by { assert TurnsOf([]) == []; }
    assert RequestRight(s, request, r);
    OneRequestKept(s, request, r);
  }

  // ---------------------------------------------------------------------------------------------
  // Reading
  // ---------------------------------------------------------------------------------------------

  /** The rows of a conversation say what its turns say. */
  lemma RowWordsAreTurnWords(t: Tables, conv: string)
    ensures RowWords(Rows(t, conv)) == Words(Turns(t, conv))
  {}

  lemma NotThereEmpty(s: Sys, conv: string)
    requires Inv(s) && conv !in s.tables.conversations
    ensures Rows(s.tables, conv) == [] && Turns(s.tables, conv) == []
  {
    FilterNone(InConversation(conv), s.tables.messages);
  }

  lemma TurnsSaid(s: Sys, conv: string)
    requires Inv(s)
    ensures Turns(s.tables, conv) == Said(s, conv) || Turns(s.tables, conv) == []
  {
    if conv in s.tables.conversations {
      assert ConversationRight(s, conv);
    } else {
      NotThereEmpty(s, conv);
    }
  }

  lemma WordsPrefix(a: seq<Turn>, b: seq<Turn>)
    requires a <= b
    ensures Words(a) <= Words(b)
  {}

  lemma RowsOfConversation(s: Sys, conv: string)
    requires Inv(s)
    ensures RowWords(Rows(s.tables, conv)) <= Words(Said(s, conv)) && |Rows(s.tables, conv)| % 2 == 0
    ensures Turns(s.tables, conv) <= Said(s, conv)
  {
    TurnsSaid(s, conv);
    SaidEven(s, conv);
    WordsPrefix(Turns(s.tables, conv), Said(s, conv));
    RowWordsAreTurnWords(s.tables, conv);
    EvenRows(s.tables, conv, Said(s, conv));
  }

  lemma SaidEven(s: Sys, conv: string)
    ensures |Said(s, conv)| % 2 == 0
  {
    assert |Said(s, conv)| == 2 * |CommitsOn(s, conv)|;
  }

  lemma EvenRows(t: Tables, conv: string, said: seq<Turn>)
    requires |said| % 2 == 0 && (Turns(t, conv) == said || Turns(t, conv) == [])
    ensures |Rows(t, conv)| % 2 == 0
  {
    assert |Turns(t, conv)| == |Rows(t, conv)|;
  }

  lemma {:induction false} ExchangedRoles(cs: seq<Commit>, i: nat)
    requires i < 2 * |cs|
    ensures Exchanged(cs)[i].role == if i % 2 == 0 then "user" else "assistant"
    ensures i % 2 == 1 ==> Exchanged(cs)[i].photos == []
    decreases |cs|
  {
    if i < 2 * (|cs| - 1) { ExchangedRoles(cs[..|cs| - 1], i); }
  }

  lemma StillOwned(s: Sys, r: Request)
    requires UsedRight(s) && RowsRight(s, r) && !r.phase.Closed? && r.conv in s.tables.conversations
    ensures Owns(s.tables, r.owner, r.conv)
  {}

  lemma RowRoles(s: Sys, r: Request, i: nat)
    requires RowsRight(s, r) && i < |r.rows|
    ensures r.rows[i].role == if i % 2 == 0 then "user" else "assistant"
  {
    ExchangedRoles(CommitsOn(s, r.conv), i);
    assert RowWords(r.rows)[i] == Words(Said(s, r.conv))[i];
  }

  lemma ReadRowsKept(s: Sys, k: int, r: Request)
    requires Inv(s) && RequestRight(s, k, r) && r.phase.Found?
    ensures RequestRight(s, k, Stepped(s.tables, r, ReadRows))
  {
    var r2 := Stepped(s.tables, r, ReadRows);
    RowsOfConversation(s, r.conv);
    RowsDistinct(s.tables, s.counters, r.conv);
    assert RowsRight(s, r2);
    assert HistoryRight(s, r2);
  }

  /** An image that the query returns hangs off a user message of the conversation. */
  lemma ImageOfUser(s: Sys, conv: string, im: ImageRow, row: MessageRow)
    requires Inv(s) && im in ImageRows(s.tables, conv)
    requires row in s.tables.messages && row.id == im.message
    ensures row.role == "user" && conv in s.tables.conversations
  {
    FilterMembers(AttachedTo(Ids(Rows(s.tables, conv))), s.tables.images);
    FilterMembers(IsUser(), s.tables.messages);
    var users := Filter(IsUser(), s.tables.messages);
    var j :| 0 <= j < |users| && users[j].id == im.message;
    assert users[j] in users;
    SameIdSameRow(s.tables.messages, users[j], row);
    if conv !in s.tables.conversations { NotThereEmpty(s, conv); }
  }

  lemma SomeConversation(s: Sys, conv: string, im: ImageRow)
    requires Inv(s) && im in ImageRows(s.tables, conv)
    ensures conv in s.tables.conversations
  {
    FilterMembers(AttachedTo(Ids(Rows(s.tables, conv))), s.tables.images);
    if conv !in s.tables.conversations { NotThereEmpty(s, conv); }
  }

  lemma RowThere(t: Tables, conv: string, rows: seq<MessageRow>, i: nat)
    requires rows <= Rows(t, conv) && i < |rows|
    ensures rows[i] in t.messages
  {
    FilterMembers(InConversation(conv), t.messages);
    assert Rows(t, conv)[i] == rows[i] && Rows(t, conv)[i] in Rows(t, conv);
  }

  /** Where an image of an answer would be put, if there were one: nowhere near. */
  lemma PlacedElsewhere(rows: seq<MessageRow>, im: ImageRow, i: nat)
    requires DistinctIds(rows) && i < |rows| && i % 2 == 1 && im.message != rows[i].id
    ensures Placed(rows, im).message != rows[i].id
  {}

  lemma NotOfAnswer(s: Sys, r: Request, im: ImageRow, i: nat)
    requires Inv(s) && RowsRight(s, r) && i < |r.rows| && i % 2 == 1
    requires im in ImageRows(s.tables, r.conv)
    ensures im.message != r.rows[i].id
  {
    if im.message == r.rows[i].id {
      SomeConversation(s, r.conv, im);
      RowThere(s.tables, r.conv, r.rows, i);
      ImageOfUser(s, r.conv, im, r.rows[i]);
      RowRoles(s, r, i);
    }
  }

  /** Whatever happened between the two queries, no image is put on an answer. */
  lemma NoneOfAnswer(s: Sys, r: Request, i: nat)
    requires Inv(s) && RowsRight(s, r) && i < |r.rows| && i % 2 == 1
    ensures forall im | im in ImageRows(s.tables, r.conv) :: im.message != r.rows[i].id
  {
    forall im | im in ImageRows(s.tables, r.conv) ensures im.message != r.rows[i].id {
      NotOfAnswer(s, r, im, i);
    }
  }

  lemma NonePlaced(rows: seq<MessageRow>, images: seq<ImageRow>, i: nat)
    requires DistinctIds(rows) && i < |rows| && i % 2 == 1
    requires forall im | im in images :: im.message != rows[i].id
    ensures MessageOf(rows[i], PlacedAll(rows, images), true).images == []
  {
    var placed := PlacedAll(rows, images);
    forall p | p in placed ensures p.message != rows[i].id {
      var n :| 0 <= n < |placed| && placed[n] == p;
      assert images[n] in images;
      PlacedElsewhere(rows, images[n], i);
    }
    FilterNone(OfMessage(rows[i].id), placed);
  }

  lemma AnswersBare(s: Sys, r: Request, i: nat)
    requires Inv(s) && RowsRight(s, r) && i < |r.rows| && i % 2 == 1
    ensures MessageOf(r.rows[i], PlacedAll(r.rows, ImageRows(s.tables, r.conv)), true).images == []
  {
    NoneOfAnswer(s, r, i);
    OrderedDistinct(r.rows);
    NonePlaced(r.rows, ImageRows(s.tables, r.conv), i);
  }

  lemma PlainWords(rows: seq<MessageRow>, images: seq<ImageRow>)
    ensures Words(TurnsOf(Plain(rows, images, true))) == RowWords(rows)
  {}

  lemma ReadImagesKept(s: Sys, k: int, r: Request)
    requires Inv(s) && RequestRight(s, k, r) && r.phase.HasRows?
    ensures RequestRight(s, k, Stepped(s.tables, r, ReadImages))
  {
    var images, r2 := ImageRows(s.tables, r.conv), Stepped(s.tables, r, ReadImages);
    if Joined(r.rows, images, true).Some? {
      assert RowsRight(s, r2);
      if r.rows != [] {
        var placed := PlacedAll(r.rows, images);
        PlainWords(r.rows, placed);
        forall i | 0 <= i < |r2.history| && i % 2 == 1 ensures r2.history[i].images == [] {
          AnswersBare(s, r, i);
        }
      }
      if r2.intact {
        SnapshotCovered(s.tables, r.conv);
        JoinRightIff(r.rows, images, true);
        TurnsOfPlain(r.rows, images);
        RowsOfConversation(s, r.conv);
        assert TurnsOf(r2.history) == Turns(s.tables, r.conv);
      }
      assert HistoryRight(s, r2);
    }
  }

  lemma ReadRestKept(s: Sys, k: int, r: Request, step: Step)
    requires RequestRight(s, k, r)
    requires (step.ReadPantry? && r.phase.HasHistory?) || (step.ReadJournal? && r.phase.HasPantry?)
             || (step.ReadFails? && Reading(r.phase))
    ensures RequestRight(s, k, Stepped(s.tables, r, step))
  {
    var r2 := Stepped(s.tables, r, step);
    assert Wrote(r2) == Wrote(r);
    assert RowsRight(s, r2) && HistoryRight(s, r2) && StreamRight(r2);
  }

  // ---------------------------------------------------------------------------------------------
  // Streaming
  // ---------------------------------------------------------------------------------------------

  lemma DeltasSnoc(r: Request, e: Event)
    ensures Concat(DeltasIn(r.events + [e])) == Concat(DeltasIn(r.events)) + if e.Delta? then e.text else ""
  {
    assert (r.events + [e])[..|r.events|] == r.events;
    var texts := DeltasIn(r.events);
    if e.Delta? {
      assert (texts + [e.text])[..|texts|] == texts;
    } else {
      assert texts + [] == texts;
    }
  }

  lemma EndedStream(r: Request, e: Event)
    requires StreamRight(r) && !Reading(r.phase) && !r.phase.Closed? && !e.Delta?
    ensures StreamRight(Ended(r, e))
  {
    DeltasSnoc(r, e);
  }

  lemma HeardStream(r: Request, text: string, r2: Request)
    requires StreamRight(r) && r.phase.Streaming?
    requires r2 == r.(text := r.text + text, events := r.events + [Delta(text)])
    ensures StreamRight(r2) && !Wrote(r) && !Wrote(r2)
  {
    DeltasSnoc(r, Delta(text));
    assert forall i | 0 <= i < |r.events| :: r2.events[i] == r.events[i];
  }

  /** A step that says or ends something, and writes nothing. */
  lemma SaidKept(s: Sys, k: int, r: Request, r2: Request)
    requires RequestRight(s, k, r) && StreamRight(r2) && Wrote(r2) == Wrote(r)
    requires r2 == r.(text := r2.text, events := r2.events, phase := r2.phase)
    requires r2.text == r.text || !Wrote(r)
    requires !Reading(r.phase) && !r.phase.Closed? && !Reading(r2.phase)
    ensures RequestRight(s, k, r2)
  {
    assert CommitRight(s, k, r2);
    assert RowsRight(s, r2) && HistoryRight(s, r2);
  }

  lemma HearKept(s: Sys, k: int, r: Request, text: string)
    requires RequestRight(s, k, r) && r.phase.Streaming?
    ensures RequestRight(s, k, Stepped(s.tables, r, Hear(text)))
  {
    HeardStream(r, text, Stepped(s.tables, r, Hear(text)));
    SaidKept(s, k, r, Stepped(s.tables, r, Hear(text)));
  }

  /** The request is over, with or without a last event, and has written what it had. */
  lemma OverKept(s: Sys, k: int, r: Request, e: Event)
    requires RequestRight(s, k, r) && !Reading(r.phase) && !r.phase.Closed? && !e.Delta?
    requires Wrote(r) == e.Done?
    ensures RequestRight(s, k, Ended(r, e))
  {
    EndedStream(r, e);
    SaidKept(s, k, r, Ended(r, e));
  }

  lemma AnswerKept(s: Sys, k: int, r: Request, p: Phase)
    requires RequestRight(s, k, r) && r.phase.Streaming? && (p.Closed? || p.Answered?)
    ensures RequestRight(s, k, r.(phase := p))
  {
    SaidKept(s, k, r, r.(phase := p));
  }

  lemma UntitledKept(s: Sys, k: int, r: Request, fails: bool)
    requires RequestRight(s, k, r)
    ensures RequestRight(s, k, r.(untitled := fails))
  {}

  lemma StreamKept(s: Sys, k: int, r: Request, step: Step)
    requires RequestRight(s, k, r) && StepEnabled(s, r, step)
    requires step.Hear? || step.Break? || step.End? || step.Finish?
    ensures RequestRight(s, k, Stepped(s.tables, r, step))
  {
    match step {
      case Hear(text) => HearKept(s, k, r, text);
      case Break(cancelled) =>
        if cancelled { AnswerKept(s, k, r, Closed); }
        else { OverKept(s, k, r, Failure("The model could not answer right now")); }
      case End(stopReason) =>
        if stopReason == "refusal" { OverKept(s, k, r, Failure("The model declined to answer that")); }
        else { AnswerKept(s, k, r, Answered(stopReason)); }
      case Finish(fails) =>
        UntitledKept(s, k, r, fails);
        OverKept(s, k, r.(untitled := fails),
                 Done(r.phase.messageID, if fails then "" else Titled(s.tables, r), r.phase.reason));
      case _ =>
    }
  }

  lemma UnsavedKept(s: Sys, k: int, r: Request, e: Event)
    requires RequestRight(s, k, r) && r.phase.Answered? && e.Failure?
    ensures RequestRight(s, k, Ended(r, e))
  {
    CommitNotWritten(s, k, r);
    OverKept(s, k, r, e);
  }

  lemma AppendFailsKept(s: Sys, k: int, r: Request, now: int, ids: NewIds, fails: bool)
    requires RequestRight(s, k, r) && r.phase.Answered? && !Commits(s.tables, r, fails)
    ensures RequestRight(s, k, Stepped(s.tables, r, Append(now, ids, fails)))
  {
    UnsavedKept(s, k, r, Failure("The answer could not be saved"));
  }

  // ---------------------------------------------------------------------------------------------
  // The commit
  // ---------------------------------------------------------------------------------------------

  lemma ExchangedSnoc(cs: seq<Commit>, c: Commit)
    ensures Exchanged(cs + [c]) == Exchanged(cs) + [UserTurn(c.user), AnswerTurn(c.answer)]
  {
    assert (cs + [c])[..|cs|] == cs;
  }

  /** What was said on a conversation after one commit more. */
  lemma SaidSnoc(s: Sys, s2: Sys, c: Commit, conv: string)
    requires s2.commits == s.commits + [c]
    ensures Said(s2, conv)
            == if c.conv == conv then Said(s, conv) + [UserTurn(c.user), AnswerTurn(c.answer)] else Said(s, conv)
  {
    FilterSnoc(OnConversation(conv), s.commits, c);
    ExchangedSnoc(CommitsOn(s, conv), c);
  }

  /** The conversations are the same ones, and what each holds has only grown at its end. */
  ghost predicate Grown(s: Sys, s2: Sys, conv: string) {
    && s2.used == s.used
    && (conv in s2.tables.conversations <==> conv in s.tables.conversations)
    && Rows(s.tables, conv) <= Rows(s2.tables, conv)
    && Said(s, conv) <= Said(s2, conv)
  }

  lemma GrownKept(s: Sys, s2: Sys, r: Request)
    requires Grown(s, s2, r.conv) && RowsRight(s, r) && HistoryRight(s, r)
    ensures RowsRight(s2, r) && HistoryRight(s2, r)
  {
    WordsPrefix(Said(s, r.conv), Said(s2, r.conv));
  }

  /** The state after a commit, by its parts. */
  ghost predicate Committed(s: Sys, s2: Sys, k: int, now: int, ids: NewIds)
    requires k in s.requests
  {
    var r := s.requests[k];
    && r.phase.Answered? && Owns(s.tables, r.owner, r.conv) && NewTo(s.counters, r.user, ids)
    && s2.tables == AppendExchange(s.tables, r.owner, r.conv, r.user, r.text, now, ids)
    && s2.counters == Counted(s.counters, r.user, ids)
    && s2.used == s.used
    && s2.requests == s.requests[k := r.(phase := Stored(ids.answer, r.phase.stopReason))]
    && s2.commits == s.commits + [Commit(k, r.conv, r.user, r.text)]
  }

  lemma CommitGrows(s: Sys, s2: Sys, k: int, now: int, ids: NewIds, d: string)
    requires k in s.requests && Committed(s, s2, k, now, ids)
    ensures Grown(s, s2, d)
  {
    var r := s.requests[k];
    AppendRows(s.tables, r.owner, r.conv, r.user, r.text, now, ids, d);
    SaidSnoc(s, s2, Commit(k, r.conv, r.user, r.text), d);
  }

  lemma CommitTurns(s: Sys, s2: Sys, k: int, now: int, ids: NewIds, d: string)
    requires Inv(s) && k in s.requests && Committed(s, s2, k, now, ids)
    requires d in s2.tables.conversations
    ensures ConversationRight(s2, d)
  {
    var r := s.requests[k];
    assert ConversationRight(s, d);
    AppendTurns(s.tables, s.counters, r.owner, r.conv, r.user, r.text, now, ids, d);
    SaidSnoc(s, s2, Commit(k, r.conv, r.user, r.text), d);
  }

  lemma CommitNotWritten(s: Sys, k: int, r: Request)
    requires StreamRight(r) && r.phase.Answered?
    ensures !Wrote(r)
  {}

  /** The request that commits has its one commit now; every other has what it had. */
  lemma CommitCounted(s: Sys, s2: Sys, k: int, now: int, ids: NewIds, j: int)
    requires k in s.requests && Committed(s, s2, k, now, ids) && j in s.requests
    requires StreamRight(s.requests[k]) && CommitRight(s, j, s.requests[j])
    ensures CommitRight(s2, j, s2.requests[j])
  {
    var r := s.requests[k];
    FilterSnoc(ByRequest(j), s.commits, Commit(k, r.conv, r.user, r.text));
    CommitNotWritten(s, k, r);
  }

  lemma CommitRequest(s: Sys, s2: Sys, k: int, now: int, ids: NewIds, j: int)
    requires k in s.requests && Committed(s, s2, k, now, ids) && j in s.requests
    requires RequestRight(s, k, s.requests[k]) && RequestRight(s, j, s.requests[j])
    ensures RequestRight(s2, j, s2.requests[j])
  {
    var r := s.requests[j];
    CommitCounted(s, s2, k, now, ids, j);
    CommitGrows(s, s2, k, now, ids, r.conv);
    GrownKept(s, s2, r);
    if j == k { StoredKept(s2, r, ids.answer); }
  }

  /** Nothing about the request changes but that it is stored. */
  lemma StoredKept(s: Sys, r: Request, id: int)
    requires r.phase.Answered? && StreamRight(r) && RowsRight(s, r) && HistoryRight(s, r)
    ensures var r2 := r.(phase := Stored(id, r.phase.stopReason));
            StreamRight(r2) && RowsRight(s, r2) && HistoryRight(s, r2)
  {}

  lemma CommitKept(s: Sys, s2: Sys, k: int, now: int, ids: NewIds)
    requires Inv(s) && k in s.requests && Committed(s, s2, k, now, ids)
    ensures Inv(s2)
  {
    var r := s.requests[k];
    assert RequestRight(s, k, r);
    AppendSound(s.tables, s.counters, r.owner, r.conv, r.user, r.text, now, ids);
    forall d | d in s2.tables.conversations ensures ConversationRight(s2, d) {
      CommitTurns(s, s2, k, now, ids, d);
    }
    forall j | j in s2.requests ensures RequestRight(s2, j, s2.requests[j]) {
      CommitRequest(s, s2, k, now, ids, j);
    }
    CommitBooked(s, s2, k, now, ids);
  }

  lemma CommitBooked(s: Sys, s2: Sys, k: int, now: int, ids: NewIds)
    requires k in s.requests && Committed(s, s2, k, now, ids) && UsedRight(s) && CommitsRight(s)
    requires ValidUser(s.requests[k].user)
    ensures UsedRight(s2) && CommitsRight(s2)
  {}

  // ---------------------------------------------------------------------------------------------
  // Every step, every action, every run
  // ---------------------------------------------------------------------------------------------

  lemma CommittedIs(s: Sys, k: int, now: int, ids: NewIds)
    requires k in s.requests && StepEnabled(s, s.requests[k], Append(now, ids, false))
    requires Commits(s.tables, s.requests[k], false)
    ensures Committed(s, AdvanceSys(s, k, Append(now, ids, false)), k, now, ids)
  {}

  lemma QuietIs(s: Sys, k: int, step: Step)
    requires k in s.requests && !(step.Append? && Commits(s.tables, s.requests[k], step.fails))
    ensures AdvanceSys(s, k, step) == s.(requests := s.requests[k := Stepped(s.tables, s.requests[k], step)])
  {}

  lemma StepKept(s: Sys, k: int, step: Step)
    requires Inv(s) && k in s.requests && StepEnabled(s, s.requests[k], step)
    ensures Inv(AdvanceSys(s, k, step))
  {
    var r := s.requests[k];
    assert RequestRight(s, k, r);
    if step.Append? && Commits(s.tables, r, step.fails) {
      CommittedIs(s, k, step.now, step.ids);
      CommitKept(s, AdvanceSys(s, k, step), k, step.now, step.ids);
    } else {
      match step {
        case ReadRows => ReadRowsKept(s, k, r);
        case ReadImages => ReadImagesKept(s, k, r);
        case ReadPantry => ReadRestKept(s, k, r, step);
        case ReadJournal(_) => ReadRestKept(s, k, r, step);
        case ReadFails => ReadRestKept(s, k, r, step);
        case Append(now, ids, fails) => AppendFailsKept(s, k, r, now, ids, fails);
        case _ => StreamKept(s, k, r, step);
      }
      OneRequestKept(s, k, Stepped(s.tables, r, step));
    }
  }

  lemma NextKept(s: Sys, a: Action)
    requires Inv(s) && Enabled(s, a)
    ensures Inv(Next(s, a))
  {
    match a {
      case Create(owner, conv, now) => CreateKept(s, owner, conv, now);
      case Delete(owner, conv) => DeleteKept(s, owner, conv);
      case AddItems(owner, names, ids, now) =>
        AddSound(s.tables, s.counters, owner, names, ids, now);
        AsideKept(s, Next(s, a));
      case SwitchItem(owner, id, inStock) =>
        SetSound(s.tables, s.counters, owner, id, inStock);
        AsideKept(s, Next(s, a));
      case RemoveItem(owner, id) =>
        RemoveSound(s.tables, s.counters, owner, id);
        AsideKept(s, Next(s, a));
      case AddEntry(owner, entry) =>
        EntrySound(s.tables, s.counters, owner, entry);
        AsideKept(s, Next(s, a));
      case RemoveEntry(owner, id) =>
        RemoveSound(s.tables, s.counters, owner, id);
        AsideKept(s, Next(s, a));
      case Begin(owner, request, conv, user) => BeginKept(s, owner, request, conv, user);
      case Advance(_, request, step) => StepKept(s, request, step);
    }
  }

  lemma {:induction false} RunKept(s: Sys, acts: seq<Action>)
    requires Inv(s) && Behaves(s, acts)
    ensures Inv(After(s, acts))
    decreases |acts|
  {
    if acts != [] {
      NextKept(s, acts[0]);
      RunKept(Next(s, acts[0]), acts[1..]);
    }
  }

  /** The invariant holds in every reachable state. */
  lemma ReachableRight(s: Sys)
    requires Reachable(s)
    ensures Inv(s)
  {
    InitRight();
    var acts :| Behaves(INIT, acts) && s == After(INIT, acts);
    RunKept(INIT, acts);
  }
}
