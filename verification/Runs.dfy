/** What the invariant means for whole runs: the promises of a send, a conversation and a stream. */
module Runs {
  import opened Text
  import opened Seqs
  import opened Schema
  import opened Joins
  import opened Conversations
  import opened Protocol
  import opened Invariant

  // ---------------------------------------------------------------------------------------------
  // One action more
  // ---------------------------------------------------------------------------------------------

  lemma {:induction false} BehavesSnoc(s: Sys, acts: seq<Action>, a: Action)
    requires Behaves(s, acts) && Enabled(After(s, acts), a)
    ensures Behaves(s, acts + [a]) && After(s, acts + [a]) == Next(After(s, acts), a)
    decreases |acts|
  {
    if acts == [] {
      assert [a][1..] == [];
      assert acts + [a] == [a];
    } else {
      BehavesSnoc(Next(s, acts[0]), acts[1..], a);
      assert (acts + [a])[1..] == acts[1..] + [a] && (acts + [a])[0] == acts[0];
    }
  }

  lemma NextReachable(s: Sys, a: Action)
    requires Reachable(s) && Enabled(s, a)
    ensures Reachable(Next(s, a))
  {
    var acts :| Behaves(INIT, acts) && s == After(INIT, acts);
    BehavesSnoc(INIT, acts, a);
  }

  lemma InitReachable()
    ensures Reachable(INIT)
  {
    assert Behaves(INIT, []) && After(INIT, []) == INIT;
  }

  /** A request takes its next step, any but the append, and becomes `r`. */
  lemma Takes(s: Sys, k: int, step: Step, r: Request) returns (s2: Sys)
    requires Reachable(s) && k in s.requests && StepEnabled(s, s.requests[k], step) && !step.Append?
    requires r == Stepped(s.tables, s.requests[k], step)
    ensures Reachable(s2) && s2 == s.(requests := s.requests[k := r])
  {
    NextReachable(s, Advance(s.requests[k].owner, k, step));
    QuietIs(s, k, step);
    s2 := Next(s, Advance(s.requests[k].owner, k, step));
  }

  /** In one snapshot the join cannot fail. */
  lemma FirstReads(t: Tables, r: Request)
    requires r.phase.HasRows? && r.rows == Rows(t, r.conv)
    ensures Stepped(t, r, ReadImages).phase.HasHistory?
  {
    SnapshotCovered(t, r.conv);
    var images := ImageRows(t, r.conv);
    assert images != [] ==> images[0] in images && images[0].message in Ids(r.rows);
  }

  // ---------------------------------------------------------------------------------------------
  // A conversation is its commits
  // ---------------------------------------------------------------------------------------------

  lemma {:induction false} ExchangedAt(cs: seq<Commit>, n: nat)
    requires n < |cs|
    ensures Exchanged(cs)[2 * n] == UserTurn(cs[n].user)
    ensures Exchanged(cs)[2 * n + 1] == AnswerTurn(cs[n].answer)
    decreases |cs|
  {
    if n < |cs| - 1 { ExchangedAt(cs[..|cs| - 1], n); }
  }

  /**
  After any run, however sends, creates and deletes interleaved: the messages of a conversation are, in
  id order, user and assistant in turns, exactly two for each send committed to it, holding the words
  and photos sent and the answer streamed.
  */
  lemma ConversationIsItsCommits(s: Sys, conv: string)
    requires Reachable(s) && conv in s.tables.conversations
    ensures var rows, turns, commits := Rows(s.tables, conv), Turns(s.tables, conv), CommitsOn(s, conv);
            && |rows| == |turns| == 2 * |commits|
            && Ordered(MessageKey(), rows)
            && (forall i | 0 <= i < |rows| :: rows[i].role == if i % 2 == 0 then "user" else "assistant")
            && (forall n | 0 <= n < |commits| ::
                  turns[2 * n] == UserTurn(commits[n].user) && turns[2 * n + 1] == AnswerTurn(commits[n].answer))
  {
    ReachableRight(s);
    assert ConversationRight(s, conv);
    RowsDistinct(s.tables, s.counters, conv);
    var rows, commits := Rows(s.tables, conv), CommitsOn(s, conv);
    assert |Turns(s.tables, conv)| == |rows|;
    forall i | 0 <= i < |rows| ensures rows[i].role == if i % 2 == 0 then "user" else "assistant" {
      ExchangedRoles(commits, i);
      assert Turns(s.tables, conv)[i].role == rows[i].role;
    }
    forall n | 0 <= n < |commits|
      ensures Exchanged(commits)[2 * n] == UserTurn(commits[n].user)
              && Exchanged(commits)[2 * n + 1] == AnswerTurn(commits[n].answer)
    {
      ExchangedAt(commits, n);
    }
  }

  /** A conversation is untitled exactly while it is empty; then its first message names it. */
  lemma TitleIsOfFirstMessage(s: Sys, conv: string)
    requires Reachable(s) && conv in s.tables.conversations
    ensures var t := s.tables;
            var title, rows := t.conversations[conv].title, Rows(t, conv);
            && (title == "" <==> rows == [])
            && (rows != [] ==> rows[0].role == "user" && TitleFits(title, rows[0].text))
  {
    ReachableRight(s);
    TitleRight(s, conv);
    if Rows(s.tables, conv) != [] { TitleFromFits(Rows(s.tables, conv)[0].text); }
  }

  lemma TitleRight(s: Sys, conv: string)
    requires Inv(s) && conv in s.tables.conversations
    ensures var title, rows := s.tables.conversations[conv].title, Rows(s.tables, conv);
            && (title == "" <==> rows == [])
            && (rows != [] ==> rows[0].role == "user" && title == TitleFrom(rows[0].text))
  {
    assert ConversationRight(s, conv);
    assert |Turns(s.tables, conv)| == |Rows(s.tables, conv)|;
    if Rows(s.tables, conv) != [] {
      ExchangedRoles(CommitsOn(s, conv), 0);
      assert Turns(s.tables, conv)[0].text == Rows(s.tables, conv)[0].text;
      assert Turns(s.tables, conv)[0].role == Rows(s.tables, conv)[0].role;
    }
  }

  /** No message without its conversation, no image without its user message; identifiers never repeat. */
  lemma ReferencesResolve(s: Sys)
    requires Reachable(s)
    ensures var t := s.tables;
            && (forall m | m in t.messages :: m.conversation in t.conversations)
            && (forall im | im in t.images :: exists m :: m in t.messages && m.id == im.message && m.role == "user")
            && (forall a, b | a in t.messages && b in t.messages && a.id == b.id :: a == b)
  {
    var t := s.tables;
    ReachableRight(s);
    var users := Filter(IsUser(), t.messages);
    FilterMembers(IsUser(), t.messages);
    forall im | im in t.images ensures exists m :: m in t.messages && m.id == im.message && m.role == "user" {
      var k :| 0 <= k < |users| && users[k].id == im.message;
      assert users[k] in users;
    }
    forall a, b | a in t.messages && b in t.messages && a.id == b.id ensures a == b {
      SameIdSameRow(t.messages, a, b);
    }
  }

  // ---------------------------------------------------------------------------------------------
  // The event log of a send
  // ---------------------------------------------------------------------------------------------

  predicate EndsDone(r: Request) { r.events != [] && r.events[|r.events| - 1].Done? }

  /**
  The stream of any send at any moment: deltas, then at most one last event. Its exchange is in the
  database's history once it wrote and not otherwise, with the owner's message and exactly the text of
  the deltas. A send that is over has said done if it wrote, and nothing of it was stored if it has not.
  */
  lemma StreamTellsTheTruth(s: Sys, k: int)
    requires Reachable(s) && k in s.requests
    ensures var r, mine := s.requests[k], Filter(ByRequest(k), s.commits);
            && (forall i | 0 <= i < |r.events| - 1 :: r.events[i].Delta?)
            && (!r.phase.Closed? ==> forall i | 0 <= i < |r.events| :: r.events[i].Delta?)
            && (mine == [] || mine == [Commit(k, r.conv, r.user, Concat(DeltasIn(r.events)))])
            && (mine != [] <==> r.phase.Stored? || EndsDone(r))
            && (r.phase.Closed? ==> (EndsDone(r) <==> mine != []))
  {
    ReachableRight(s);
    assert RequestRight(s, k, s.requests[k]);
  }

  // ---------------------------------------------------------------------------------------------
  // What a run never takes back
  // ---------------------------------------------------------------------------------------------

  /** A later state of a conversation: it only grew at its end, or is gone for good. */
  ghost predicate Later(s: Sys, s2: Sys, conv: string) {
    && (conv in s.used ==> conv in s2.used && s2.used[conv] == s.used[conv])
    && Said(s, conv) <= Said(s2, conv)
    && (conv in s.used && conv in s2.tables.conversations ==>
          && conv in s.tables.conversations
          && s2.tables.conversations[conv].owner == s.tables.conversations[conv].owner
          && (s.tables.conversations[conv].title != "" ==>
                s2.tables.conversations[conv].title == s.tables.conversations[conv].title)
          && Rows(s.tables, conv) <= Rows(s2.tables, conv)
          && Turns(s.tables, conv) <= Turns(s2.tables, conv))
  }

  lemma LaterTwice(s: Sys, s1: Sys, s2: Sys, conv: string)
    requires Later(s, s1, conv) && Later(s1, s2, conv)
    ensures Later(s, s2, conv)
  {}

  lemma AsideLater(s: Sys, s2: Sys, conv: string)
    requires SameTalk(s, s2)
    ensures Later(s, s2, conv)
  {
    SameTalkSame(s, s2, conv);
  }

  lemma CreateLater(s: Sys, owner: string, conv: string, now: int, c: string)
    requires Inv(s) && conv !in s.used
    ensures Later(s, Next(s, Create(owner, conv, now)), c)
  {
    var s2 := Next(s, Create(owner, conv, now));
    assert Said(s2, c) == Said(s, c);
    assert Rows(s2.tables, c) == Rows(s.tables, c) && Turns(s2.tables, c) == Turns(s.tables, c);
  }

  lemma DeleteLater(s: Sys, owner: string, conv: string, c: string)
    requires Inv(s)
    ensures Later(s, Next(s, Delete(owner, conv)), c)
  {
    var s2 := Next(s, Delete(owner, conv));
    assert Said(s2, c) == Said(s, c);
    if Owns(s.tables, owner, conv) { DeleteRows(s.tables, s.counters, owner, conv, c); }
  }

  lemma CommitLater(s: Sys, s2: Sys, k: int, now: int, ids: NewIds, c: string)
    requires Inv(s) && k in s.requests && Committed(s, s2, k, now, ids)
    ensures Later(s, s2, c)
  {
    var r := s.requests[k];
    CommitGrows(s, s2, k, now, ids, c);
    AppendTurns(s.tables, s.counters, r.owner, r.conv, r.user, r.text, now, ids, c);
  }

  lemma AdvanceLater(s: Sys, k: int, step: Step, conv: string)
    requires Inv(s) && k in s.requests && StepEnabled(s, s.requests[k], step)
    ensures Later(s, AdvanceSys(s, k, step), conv)
  {
    if step.Append? && Commits(s.tables, s.requests[k], step.fails) {
      CommittedIs(s, k, step.now, step.ids);
      CommitLater(s, AdvanceSys(s, k, step), k, step.now, step.ids, conv);
    } else {
      QuietIs(s, k, step);
      AsideLater(s, AdvanceSys(s, k, step), conv);
    }
  }

  lemma NextLater(s: Sys, a: Action, conv: string)
    requires Inv(s) && Enabled(s, a)
    ensures Later(s, Next(s, a), conv)
  {
    match a {
      case Create(owner, c, now) => CreateLater(s, owner, c, now, conv);
      case Delete(owner, c) => DeleteLater(s, owner, c, conv);
      case Advance(_, k, step) => AdvanceLater(s, k, step, conv);
      case _ => AsideLater(s, Next(s, a), conv);
    }
  }

  /**
  From any reachable state on, whatever happens: what was said on a conversation stays said, in place;
  a title once given stays; and a conversation that was deleted never returns.
  */
  lemma {:induction false} ConversationOnlyGrows(s: Sys, acts: seq<Action>, conv: string)
    requires Inv(s) && Behaves(s, acts)
    ensures Later(s, After(s, acts), conv)
    decreases |acts|
  {
    if acts == [] {
    } else {
      var s1 := Next(s, acts[0]);
      NextLater(s, acts[0], conv);
      NextKept(s, acts[0]);
      ConversationOnlyGrows(s1, acts[1..], conv);
      LaterTwice(s, s1, After(s1, acts[1..]), conv);
    }
  }

  /**
  The rows a send read stay the beginning of its conversation, as long as that exists. Once it is gone,
  storing the answer fails, whatever the database does: no row changes, and the stream says so.
  */
  lemma SnapshotStaysPrefix(s: Sys, k: int, now: int, ids: NewIds, fails: bool)
    requires Reachable(s)
    requires k in s.requests
    requires StepEnabled(s, s.requests[k], Append(now, ids, fails))
    ensures var r, s2 := s.requests[k], AdvanceSys(s, k, Append(now, ids, fails));
            if r.conv in s.tables.conversations then
              && r.rows <= Rows(s.tables, r.conv)
              && (!fails ==> Rows(s2.tables, r.conv) == Rows(s.tables, r.conv)
                                                        + NewMessages(r.conv, r.user, r.text, now, ids))
              && (fails ==> s2.tables == s.tables)
            else
              && s2.tables == s.tables && s2.commits == s.commits
              && s2.requests[k].phase.Closed?
              && s2.requests[k].events == r.events + [Failure("The answer could not be saved")]
  {
    ReachableRight(s);
    RowsAreRight(s, k);
    UsedIsRight(s);
    if s.requests[k].conv in s.tables.conversations {
      AppendsToPrefix(s, k, now, ids, fails);
    } else {
      AppendsNothing(s, k, now, ids, fails);
    }
  }

  lemma RowsAreRight(s: Sys, k: int)
    requires Inv(s) && k in s.requests
    ensures RowsRight(s, s.requests[k])
  {
    assert RequestRight(s, k, s.requests[k]);
  }

  lemma UsedIsRight(s: Sys)
    requires Inv(s)
    ensures UsedRight(s)
  {}

  lemma AppendsToPrefix(s: Sys, k: int, now: int, ids: NewIds, fails: bool)
    requires k in s.requests && UsedRight(s) && RowsRight(s, s.requests[k])
    requires StepEnabled(s, s.requests[k], Append(now, ids, fails)) && s.requests[k].conv in s.tables.conversations
    ensures var r, s2 := s.requests[k], AdvanceSys(s, k, Append(now, ids, fails));
            && r.rows <= Rows(s.tables, r.conv)
            && (!fails ==> Rows(s2.tables, r.conv) == Rows(s.tables, r.conv)
                                                      + NewMessages(r.conv, r.user, r.text, now, ids))
            && (fails ==> s2.tables == s.tables)
  {
    var r := s.requests[k];
    StillOwned(s, r);
    if fails {
      QuietIs(s, k, Append(now, ids, fails));
    } else {
      CommittedIs(s, k, now, ids);
      AppendRows(s.tables, r.owner, r.conv, r.user, r.text, now, ids, r.conv);
    }
  }

  lemma AppendsNothing(s: Sys, k: int, now: int, ids: NewIds, fails: bool)
    requires k in s.requests && s.requests[k].phase.Answered? && s.requests[k].conv !in s.tables.conversations
    ensures var r, s2 := s.requests[k], AdvanceSys(s, k, Append(now, ids, fails));
            && s2.tables == s.tables && s2.commits == s.commits
            && s2.requests[k].phase.Closed?
            && s2.requests[k].events == r.events + [Failure("The answer could not be saved")]
  {
    QuietIs(s, k, Append(now, ids, fails));
  }

  // ---------------------------------------------------------------------------------------------
  // A send is never rewritten
  // ---------------------------------------------------------------------------------------------

  /** The stream is only added to; a send that is over stays as it is. */
  predicate RequestLater(r: Request, r2: Request) {
    && r2.owner == r.owner && r2.conv == r.conv && r2.user == r.user
    && r.events <= r2.events
    && (r.phase.Closed? ==> r2 == r)
    && (!Reading(r.phase) ==> !Reading(r2.phase) && r2.history == r.history && r2.memory == r.memory)
    && (Wrote(r) ==> Wrote(r2))
  }

  lemma RequestLaterTwice(r: Request, r1: Request, r2: Request)
    requires RequestLater(r, r1) && RequestLater(r1, r2)
    ensures RequestLater(r, r2)
  {}

  lemma StepLater(s: Sys, r: Request, step: Step)
    requires StreamRight(r) && StepEnabled(s, r, step)
    ensures RequestLater(r, Stepped(s.tables, r, step))
  {
    assert !r.phase.Closed? && !EndsDone(r);
  }

  lemma OthersStay(s: Sys, a: Action, k: int)
    requires Enabled(s, a) && k in s.requests && !(a.Advance? && a.request == k)
    ensures k in Next(s, a).requests && Next(s, a).requests[k] == s.requests[k]
  {}

  lemma StreamIsRight(s: Sys, k: int)
    requires Inv(s) && k in s.requests
    ensures StreamRight(s.requests[k])
  {
    assert RequestRight(s, k, s.requests[k]);
  }

  lemma NextRequestLater(s: Sys, a: Action, k: int)
    requires Inv(s) && Enabled(s, a) && k in s.requests
    ensures k in Next(s, a).requests && RequestLater(s.requests[k], Next(s, a).requests[k])
  {
    if a.Advance? && a.request == k {
      StreamIsRight(s, k);
      StepLater(s, s.requests[k], a.step);
      assert Next(s, a).requests[k] == Stepped(s.tables, s.requests[k], a.step);
    } else {
      OthersStay(s, a, k);
    }
  }

  /** From any reachable state on, a stream is only added to, and nothing follows its last event. */
  lemma {:induction false} StreamOnlyGrows(s: Sys, acts: seq<Action>, k: int)
    requires Inv(s) && Behaves(s, acts) && k in s.requests
    ensures k in After(s, acts).requests && RequestLater(s.requests[k], After(s, acts).requests[k])
    decreases |acts|
  {
    if acts != [] {
      var s1 := Next(s, acts[0]);
      NextRequestLater(s, acts[0], k);
      NextKept(s, acts[0]);
      StreamOnlyGrows(s1, acts[1..], k);
      RequestLaterTwice(s.requests[k], s1.requests[k], After(s1, acts[1..]).requests[k]);
    }
  }

  // ---------------------------------------------------------------------------------------------
  // What done names
  // ---------------------------------------------------------------------------------------------

  ghost predicate Holds(s: Sys, conv: string, id: int, text: string) {
    exists row :: row in Rows(s.tables, conv) && row.id == id && row.role == "assistant" && row.text == text
  }

  /** The message that a send names as its answer is its answer, and the title is the conversation's. */
  ghost predicate NamesRight(s: Sys, r: Request) {
    r.conv in s.tables.conversations ==>
      && (r.phase.Stored? ==> Holds(s, r.conv, r.phase.messageID, r.text))
      && (r.phase.Closed? && EndsDone(r) ==>
            var done := r.events[|r.events| - 1];
            && Holds(s, r.conv, done.messageID, r.text)
            && s.tables.conversations[r.conv].title != ""
            && done.title == if r.untitled then "" else s.tables.conversations[r.conv].title)
  }

  lemma HoldsLater(s: Sys, s2: Sys, conv: string, id: int, text: string)
    requires Rows(s.tables, conv) <= Rows(s2.tables, conv) && Holds(s, conv, id, text)
    ensures Holds(s2, conv, id, text)
  {
    var row :| row in Rows(s.tables, conv) && row.id == id && row.role == "assistant" && row.text == text;
    assert row in Rows(s2.tables, conv);
  }

  /** A request that is left alone. */
  lemma NamesKept(s: Sys, s2: Sys, r: Request)
    requires Later(s, s2, r.conv) && NamesRight(s, r) && RowsRight(s, r) && StreamRight(r)
    requires r.phase.Closed? && EndsDone(r) ==> r.conv in s.used
    ensures NamesRight(s2, r)
  {
    if r.conv in s2.tables.conversations && r.conv in s.used {
      if r.phase.Stored? { HoldsLater(s, s2, r.conv, r.phase.messageID, r.text); }
      if r.phase.Closed? && EndsDone(r) {
        HoldsLater(s, s2, r.conv, r.events[|r.events| - 1].messageID, r.text);
      }
    }
  }

  lemma WroteUsed(s: Sys, k: int)
    requires Inv(s) && k in s.requests && Wrote(s.requests[k])
    ensures s.requests[k].conv in s.used
  {
    var r := s.requests[k];
    assert RequestRight(s, k, r);
    FilterMembers(ByRequest(k), s.commits);
    assert Filter(ByRequest(k), s.commits)[0] in Filter(ByRequest(k), s.commits);
  }

  /** Storing the answer is what makes the name right. */
  lemma StoredNames(s: Sys, s2: Sys, k: int, now: int, ids: NewIds)
    requires k in s.requests && Committed(s, s2, k, now, ids)
    ensures NamesRight(s2, s2.requests[k])
  {
    var r := s.requests[k];
    AppendRows(s.tables, r.owner, r.conv, r.user, r.text, now, ids, r.conv);
    var more := NewMessages(r.conv, r.user, r.text, now, ids);
    assert more[1] in Rows(s2.tables, r.conv);
  }

  /** Saying so repeats it. */
  lemma FinishNames(s: Sys, r: Request, fails: bool)
    requires UsedRight(s) && RowsRight(s, r) && NamesRight(s, r) && r.phase.Stored?
    requires r.conv in s.tables.conversations && Rows(s.tables, r.conv) != [] ==> s.tables.conversations[r.conv].title != ""
    ensures NamesRight(s, Stepped(s.tables, r, Finish(fails)))
  {
    if r.conv in s.tables.conversations {
      StillOwned(s, r);
      assert Holds(s, r.conv, r.phase.messageID, r.text);
      DoneRepeats(s, r.(untitled := fails),
                  Done(r.phase.messageID, if fails then "" else Titled(s.tables, r), r.phase.reason));
    }
  }

  lemma DoneRepeats(s: Sys, r: Request, e: Event)
    requires r.phase.Stored? && r.conv in s.tables.conversations
    requires Holds(s, r.conv, r.phase.messageID, r.text) && s.tables.conversations[r.conv].title != ""
    requires e.Done? && e.messageID == r.phase.messageID
    requires e.title == if r.untitled then "" else s.tables.conversations[r.conv].title
    ensures NamesRight(s, Ended(r, e))
  {}

  lemma QuietNames(s: Sys, r: Request, step: Step)
    requires StepEnabled(s, r, step) && StreamRight(r) && !step.Finish?
    requires step.Append? ==> !Commits(s.tables, r, step.fails)
    ensures NamesRight(s, Stepped(s.tables, r, step))
  {
    var r2 := Stepped(s.tables, r, step);
    assert !r2.phase.Stored?;
    assert !EndsDone(r);
    assert !EndsDone(r2);
  }

  lemma QuietKeepsTables(s: Sys, s2: Sys, r: Request)
    requires s2.tables == s.tables && NamesRight(s, r)
    ensures NamesRight(s2, r)
  {}

  lemma StepNames(s: Sys, k: int, step: Step)
    requires Inv(s) && k in s.requests && StepEnabled(s, s.requests[k], step) && NamesRight(s, s.requests[k])
    ensures NamesRight(AdvanceSys(s, k, step), AdvanceSys(s, k, step).requests[k])
  {
    var r, s2 := s.requests[k], AdvanceSys(s, k, step);
    assert RequestRight(s, k, r);
    if step.Append? && Commits(s.tables, r, step.fails) {
      CommittedIs(s, k, step.now, step.ids);
      StoredNames(s, s2, k, step.now, step.ids);
    } else {
      if r.conv in s.tables.conversations { TitleRight(s, r.conv); }
      if step.Finish? { FinishNames(s, r, step.fails); } else { QuietNames(s, r, step); }
      QuietKeepsTables(s, s2, Stepped(s.tables, r, step));
    }
  }

  ghost predicate AllNamesRight(s: Sys) { forall k | k in s.requests :: NamesRight(s, s.requests[k]) }

  lemma OtherNames(s: Sys, a: Action, k: int)
    requires Inv(s) && Enabled(s, a) && k in s.requests && NamesRight(s, s.requests[k])
    ensures NamesRight(Next(s, a), s.requests[k])
  {
    NextLater(s, a, s.requests[k].conv);
    assert RequestRight(s, k, s.requests[k]);
    if Wrote(s.requests[k]) { WroteUsed(s, k); }
    NamesKept(s, Next(s, a), s.requests[k]);
  }

  lemma NextNames(s: Sys, a: Action)
    requires Inv(s) && Enabled(s, a) && AllNamesRight(s)
    ensures AllNamesRight(Next(s, a))
  {
    forall k | k in Next(s, a).requests ensures NamesRight(Next(s, a), Next(s, a).requests[k]) {
      if a.Advance? && a.request == k {
        StepNames(s, k, a.step);
      } else if k in s.requests {
        OthersStay(s, a, k);
        OtherNames(s, a, k);
      }
    }
  }

  lemma {:induction false} RunNames(s: Sys, acts: seq<Action>)
    requires Inv(s) && AllNamesRight(s) && Behaves(s, acts)
    ensures AllNamesRight(After(s, acts))
    decreases |acts|
  {
    if acts != [] {
      NextNames(s, acts[0]);
      NextKept(s, acts[0]);
      RunNames(Next(s, acts[0]), acts[1..]);
    }
  }

  lemma ReachableNames(s: Sys)
    requires Reachable(s)
    ensures AllNamesRight(s)
  {
    InitRight();
    var acts :| Behaves(INIT, acts) && s == After(INIT, acts);
    RunNames(INIT, acts);
  }

  /**
  In every run: when a send ends in done and its conversation still exists, the message that done names
  is in the conversation, an assistant's, with exactly the text of the deltas; and the title done gave is
  the title the conversation has if and only if reading it after the commit did not fail.
  */
  lemma DoneNamesTheAnswer(s: Sys, k: int)
    requires Reachable(s) && k in s.requests && EndsDone(s.requests[k])
    requires s.requests[k].conv in s.tables.conversations
    ensures var r := s.requests[k];
            var done := r.events[|r.events| - 1];
            && Holds(s, r.conv, done.messageID, Concat(DeltasIn(r.events)))
            && (done.title == s.tables.conversations[r.conv].title <==> !r.untitled)
            && (r.untitled ==> done.title == "")
  {
    ReachableNames(s);
    ReachableStream(s, k);
    DoneNames(s, s.requests[k]);
  }

  lemma ReachableStream(s: Sys, k: int)
    requires Reachable(s) && k in s.requests
    ensures StreamRight(s.requests[k])
  {
    ReachableRight(s);
    StreamIsRight(s, k);
  }

  lemma DoneNames(s: Sys, r: Request)
    requires NamesRight(s, r) && StreamRight(r) && EndsDone(r) && r.conv in s.tables.conversations
    ensures var done := r.events[|r.events| - 1];
            && Holds(s, r.conv, done.messageID, Concat(DeltasIn(r.events)))
            && (done.title == s.tables.conversations[r.conv].title <==> !r.untitled)
            && (r.untitled ==> done.title == "")
  {}
}
