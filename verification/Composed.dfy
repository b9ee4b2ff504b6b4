/** What every reachable state of the database guarantees about the input the model gets. */
module Composed {
  import opened Common
  import opened Seqs
  import opened Entities
  import opened Schema
  import opened Joins
  import opened Conversations
  import opened Memories
  import opened Prompt
  import opened UserMessages
  import opened Protocol
  import opened Invariant
  import opened Runs

  /** The history a send hands on, its own message last. */
  function Asked(r: Request): (h: seq<Turn>)
    ensures |h| == |r.history| + 1
  {
    TurnsOf(r.history + [r.user])
  }

  /** The input the model gets. */
  function Sent(r: Request): seq<InputMessage> { InputOf(Asked(r), BlockText(r.memory)) }

  predicate Sending(p: Phase) { p.Streaming? || p.Answered? || p.Stored? }

  lemma RequestsValid(s: Sys, k: int)
    requires Inv(s) && k in s.requests
    ensures RequestRight(s, k, s.requests[k]) && ValidUser(s.requests[k].user)
  {}

  lemma AskedTurns(r: Request)
    requires ValidUser(r.user)
    ensures Asked(r) == TurnsOf(r.history) + [UserTurn(r.user)]
  {}

  // ---------------------------------------------------------------------------------------------
  // The input takes turns, whatever happened around the reads
  // ---------------------------------------------------------------------------------------------

  lemma HistoryRole(s: Sys, r: Request, i: nat)
    requires RowsRight(s, r) && HistoryRight(s, r) && i < |r.history|
    ensures |r.history| == |r.rows| && r.history[i].role == r.rows[i].role
    ensures r.history[i].role == if i % 2 == 0 then "user" else "assistant"
  {
    var words := Words(TurnsOf(r.history));
    assert |words| == |r.history|;
    assert words[i] == RowWords(r.rows)[i];
    RowRoles(s, r, i);
  }

  lemma HistoryTakesTurns(s: Sys, k: int, r: Request)
    requires RequestRight(s, k, r)
    ensures Alternating(TurnsOf(r.history)) && |r.history| % 2 == 0
  {
    var h := TurnsOf(r.history);
    forall i | 0 <= i < |h|
      ensures if i % 2 == 0 then h[i].role == "user" else h[i].role == "assistant" && h[i].photos == []
    {
      HistoryRole(s, r, i);
    }
    if r.history != [] { HistoryRole(s, r, 0); }
  }

  lemma AskedTakesTurns(s: Sys, k: int, r: Request)
    requires RequestRight(s, k, r)
    ensures Alternating(Asked(r)) && |Asked(r)| % 2 == 1
  {
    HistoryTakesTurns(s, k, r);
    AskedTurns(r);
    QuestionNext(TurnsOf(r.history), UserTurn(r.user));
  }

  lemma QuestionNext(h: seq<Turn>, question: Turn)
    requires Alternating(h) && |h| % 2 == 0 && question.role == "user"
    ensures Alternating(h + [question]) && |h + [question]| % 2 == 1
  {}

  /**
  In every run, whatever happens between the reads of a send: the input built for it starts and ends
  with the user, takes turns, types every part by who speaks, is the whole history or its last 13 to 19
  messages, and is cut by the jump alone: the loop that looks for a user message has nothing to do.
  */
  lemma EveryInputWellFormed(s: Sys, k: int)
    requires Reachable(s) && k in s.requests
    requires Sending(s.requests[k].phase)
    ensures var r := s.requests[k];
            && WellFormed(Sent(r))
            && |r.history| == |r.rows|
            && (|Sent(r)| == |r.history| + 1 || 13 <= |Sent(r)| <= 19)
            && Start(Asked(r)) == Jump(|Asked(r)|)
  {
    ReachableRight(s);
    RequestsValid(s, k);
    AskedTakesTurns(s, k, s.requests[k]);
    AskedWellFormed(s.requests[k]);
    HistoryOfRows(s, s.requests[k]);
  }

  lemma HistoryOfRows(s: Sys, r: Request)
    requires HistoryRight(s, r) && Sending(r.phase)
    ensures |r.history| == |r.rows|
  {}

  lemma AskedWellFormed(r: Request)
    requires Alternating(Asked(r)) && |Asked(r)| % 2 == 1
    ensures WellFormed(Sent(r))
    ensures |Sent(r)| == |r.history| + 1 || 13 <= |Sent(r)| <= 19
    ensures Start(Asked(r)) == Jump(|Asked(r)|)
  {
    var h := Asked(r);
    AlternatingStart(h);
    InputSize(h, BlockText(r.memory));
    InputWellFormed(h, BlockText(r.memory));
  }

  // ---------------------------------------------------------------------------------------------
  // A history that is what was said
  // ---------------------------------------------------------------------------------------------

  /** The history a send holds is, photos and all, the beginning of what was said. */
  ghost predicate Faithful(s: Sys, r: Request) { TurnsOf(r.history) <= Said(s, r.conv) }

  lemma {:induction false} SaidSubstantial(cs: seq<Commit>, i: nat)
    requires i < |Exchanged(cs)| && forall c | c in cs :: ValidUser(c.user)
    ensures |Exchanged(cs)[i].photos| <= MAX_IMAGES
    ensures i % 2 == 0 ==> Substantial(Exchanged(cs)[i])
    decreases |cs|
  {
    var last := cs[|cs| - 1];
    if i < 2 * (|cs| - 1) {
      assert forall c | c in cs[..|cs| - 1] :: c in cs;
      SaidSubstantial(cs[..|cs| - 1], i);
    } else {
      assert last in cs;
      assert last.user.images != [] ==> PhotosOf(last.user.images) != [];
    }
  }

  lemma CommitsValid(s: Sys, conv: string)
    requires CommitsRight(s)
    ensures forall c | c in CommitsOn(s, conv) :: ValidUser(c.user)
  {
    FilterMembers(OnConversation(conv), s.commits);
  }

  lemma AskedSubstantial(s: Sys, r: Request, i: nat)
    requires CommitsRight(s) && ValidUser(r.user) && Faithful(s, r) && i <= |r.history|
    ensures var h := Asked(r);
            |h[i].photos| <= MAX_IMAGES && (i % 2 == 0 && |r.history| % 2 == 0 ==> Substantial(h[i]))
  {
    AskedTurns(r);
    CommitsValid(s, r.conv);
    if i < |r.history| {
      assert TurnsOf(r.history)[i] == Said(s, r.conv)[i];
      SaidSubstantial(CommitsOn(s, r.conv), i);
    } else {
      assert r.user.images != [] ==> PhotosOf(r.user.images) != [];
    }
  }

  /** If the history is faithful, the input shows at most 8 photos and no user message in it is empty. */
  lemma FaithfulInputComplete(s: Sys, k: int)
    requires Reachable(s) && k in s.requests
    requires Sending(s.requests[k].phase)
    requires Faithful(s, s.requests[k])
    ensures var input := Sent(s.requests[k]);
            && ShownAll(input) <= 8
            && AllSay(input)
  {
    var r := s.requests[k];
    ReachableRight(s);
    RequestsValid(s, k);
    AskedTakesTurns(s, k, r);
    CommitsAreRight(s);
    AskedComplete(s, r);
  }

  lemma CommitsAreRight(s: Sys)
    requires Inv(s)
    ensures CommitsRight(s)
  {}

  lemma AskedComplete(s: Sys, r: Request)
    requires CommitsRight(s) && ValidUser(r.user) && Faithful(s, r)
    requires Alternating(Asked(r)) && |Asked(r)| % 2 == 1
    ensures ShownAll(Sent(r)) <= 8 && AllSay(Sent(r))
  {
    AskedFew(s, r);
    AskedSays(s, r);
  }

  lemma AskedFew(s: Sys, r: Request)
    requires CommitsRight(s) && ValidUser(r.user) && Faithful(s, r)
    requires Alternating(Asked(r)) && |Asked(r)| % 2 == 1
    ensures ShownAll(Sent(r)) <= 8
  {
    var h := Asked(r);
    forall i | 0 <= i < |h| ensures |h[i].photos| <= 4 {
      AskedSubstantial(s, r, i);
    }
    FewPhotos(h, BlockText(r.memory));
  }

  lemma AskedSays(s: Sys, r: Request)
    requires CommitsRight(s) && ValidUser(r.user) && Faithful(s, r)
    requires Alternating(Asked(r)) && |Asked(r)| % 2 == 1
    ensures AllSay(Sent(r))
  {
    var h := Asked(r);
    forall i | 0 <= i < |h| && i % 2 == 0 ensures Substantial(h[i]) {
      AskedSubstantial(s, r, i);
    }
    AllSayIff(h, BlockText(r.memory));
  }

  /** Nothing stored or deleted on the conversation between the two queries is enough, for good. */
  lemma IntactIsFaithful(s: Sys, k: int)
    requires Reachable(s) && k in s.requests
    requires s.requests[k].intact
    ensures Faithful(s, s.requests[k])
  {
    ReachableRight(s);
    assert RequestRight(s, k, s.requests[k]);
  }

  // ---------------------------------------------------------------------------------------------
  // Exactly when the history read is faithful
  // ---------------------------------------------------------------------------------------------

  lemma TurnedPrefix(rows: seq<MessageRow>, all: seq<MessageRow>, images: seq<ImageRow>)
    requires rows <= all
    ensures Turned(rows, images) == Turned(all, images)[..|rows|]
  {}

  lemma NotInPrefix(rows: seq<MessageRow>, all: seq<MessageRow>, i: nat)
    requires rows <= all && DistinctIds(all) && |rows| <= i < |all|
    ensures all[i].id !in Ids(rows)
  {
    forall j | 0 <= j < |rows| ensures rows[j].id != all[i].id {
      assert rows[j] == all[j];
    }
  }

  /** Images of rows not read are exactly the photos of the turns not read. */
  lemma CoveredIff(rows: seq<MessageRow>, all: seq<MessageRow>, images: seq<ImageRow>)
    requires rows <= all && DistinctIds(all) && Covered(all, images)
    ensures Covered(rows, images) <==> forall i | |rows| <= i < |all| :: Turned(all, images)[i].photos == []
  {
    if Covered(rows, images) {
      forall i | |rows| <= i < |all| ensures Turned(all, images)[i].photos == [] {
        NotInPrefix(rows, all, i);
        NoPhotos(all[i].id, images);
      }
    }
    if forall i | |rows| <= i < |all| :: Turned(all, images)[i].photos == [] {
      forall im | im in images ensures im.message in Ids(rows) {
        var j :| 0 <= j < |all| && all[j].id == im.message;
        FilterMembers(OfMessage(im.message), images);
        assert im in Filter(OfMessage(im.message), images);
        assert |Turned(all, images)[j].photos| == |Filter(OfMessage(im.message), images)| > 0;
        assert rows[j] == all[j];
      }
    }
  }

  lemma MisplacedShows(rows: seq<MessageRow>, images: seq<ImageRow>)
    requires rows != [] && !Covered(rows, images)
    ensures TurnsOf(Plain(rows, PlacedAll(rows, images), true)) != Turned(rows, images)
  {
    TurnsOfPlain(rows, PlacedAll(rows, images));
    MoreMatch(rows, images);
    assert |Turned(rows, PlacedAll(rows, images))[0].photos| > |Turned(rows, images)[0].photos|;
  }

  /** What joining the rows read with the images read later makes, when the rows are still there. */
  lemma JoinedIff(rows: seq<MessageRow>, all: seq<MessageRow>, images: seq<ImageRow>)
    requires rows <= all && DistinctIds(all) && Covered(all, images)
    ensures var joined := Joined(rows, images, true);
            (joined.Some? && TurnsOf(joined.value) == Turned(all, images)[..|rows|])
            <==> forall i | |rows| <= i < |all| :: Turned(all, images)[i].photos == []
  {
    CoveredIff(rows, all, images);
    TurnedPrefix(rows, all, images);
    JoinRightIff(rows, images, true);
    TurnsOfPlain(rows, images);
    if rows == [] {
      assert images != [] ==> images[0] in images;
    } else if !Covered(rows, images) {
      MisplacedShows(rows, images);
    }
  }

  /** When the rows are gone there are no images either. */
  lemma BareIff(rows: seq<MessageRow>, said: seq<Turn>)
    requires RowWords(rows) <= Words(said)
    ensures var joined := Joined(rows, [], true);
            joined.Some? && (TurnsOf(joined.value) == said[..|rows|] <==> forall i | 0 <= i < |rows| :: said[i].photos == [])
  {
    assert |RowWords(rows)| <= |Words(said)|;
    if rows != [] {
      assert PlacedAll(rows, []) == [];
      TurnsOfPlain(rows, []);
      var bare := Turned(rows, []);
      forall i | 0 <= i < |rows| ensures bare[i] == Turn(said[i].role, said[i].text, []) {
        NoPhotos(rows[i].id, []);
        assert RowWords(rows)[i] == Words(said)[i];
      }
      if forall i | 0 <= i < |rows| :: said[i].photos == [] {
        assert bare == said[..|rows|];
      } else {
        var i :| 0 <= i < |rows| && said[i].photos != [];
        assert bare[i] != said[..|rows|][i];
      }
    }
  }

  /** Whatever was stored or deleted between the two queries had no photos that matter. */
  ghost predicate Undisturbed(s: Sys, r: Request)
    requires |r.rows| <= |Said(s, r.conv)|
  {
    var said := Said(s, r.conv);
    if r.conv in s.tables.conversations then forall i | |r.rows| <= i < |said| :: said[i].photos == []
    else forall i | 0 <= i < |r.rows| :: said[i].photos == []
  }

  lemma RowsWithinSaid(s: Sys, r: Request)
    requires RowsRight(s, r)
    ensures |r.rows| <= |Said(s, r.conv)|
  {
    assert |RowWords(r.rows)| <= |Words(Said(s, r.conv))|;
  }

  /**
  The messages and their images are read by separate queries. The history they make is right exactly
  when, between them, no message with photos was stored on the conversation and, if the conversation was
  deleted, the messages already read have no photos. Otherwise the photos end up on the first message,
  or are missing, or the code indexes an empty slice.
  */
  lemma ReadFaithfulIff(s: Sys, r: Request)
    requires Inv(s) && RowsRight(s, r) && r.phase.HasRows?
    ensures |r.rows| <= |Said(s, r.conv)|
    ensures var r2 := Stepped(s.tables, r, ReadImages);
            (r2.phase.HasHistory? && TurnsOf(r2.history) == Said(s, r.conv)[..|r.rows|]) <==> Undisturbed(s, r)
  {
    RowsWithinSaid(s, r);
    HistoryIs(s.tables, r);
    if r.conv in s.tables.conversations { ThereIff(s, r); } else { GoneIff(s, r); }
  }

  lemma HistoryIs(t: Tables, r: Request)
    requires r.phase.HasRows?
    ensures var r2, joined := Stepped(t, r, ReadImages), Joined(r.rows, ImageRows(t, r.conv), true);
            (r2.phase.HasHistory? <==> joined.Some?) && (joined.Some? ==> r2.history == joined.value)
  {}

  lemma ThereIff(s: Sys, r: Request)
    requires Inv(s) && RowsRight(s, r) && r.conv in s.tables.conversations
    ensures |r.rows| <= |Said(s, r.conv)|
    ensures var joined := Joined(r.rows, ImageRows(s.tables, r.conv), true);
            (joined.Some? && TurnsOf(joined.value) == Said(s, r.conv)[..|r.rows|]) <==> Undisturbed(s, r)
  {
    RowsWithinSaid(s, r);
    assert ConversationRight(s, r.conv);
    RowsDistinct(s.tables, s.counters, r.conv);
    SnapshotCovered(s.tables, r.conv);
    JoinedIff(r.rows, Rows(s.tables, r.conv), ImageRows(s.tables, r.conv));
  }

  lemma GoneImages(s: Sys, conv: string)
    requires Inv(s) && conv !in s.tables.conversations
    ensures ImageRows(s.tables, conv) == []
  {
    NotThereEmpty(s, conv);
    FilterNone(AttachedTo(Ids(Rows(s.tables, conv))), s.tables.images);
  }

  lemma GoneIff(s: Sys, r: Request)
    requires Inv(s) && RowsRight(s, r) && r.conv !in s.tables.conversations
    ensures |r.rows| <= |Said(s, r.conv)|
    ensures var joined := Joined(r.rows, ImageRows(s.tables, r.conv), true);
            (joined.Some? && TurnsOf(joined.value) == Said(s, r.conv)[..|r.rows|]) <==> Undisturbed(s, r)
  {
    RowsWithinSaid(s, r);
    GoneImages(s, r.conv);
    BareIff(r.rows, Said(s, r.conv));
  }

  // ---------------------------------------------------------------------------------------------
  // From one send to the next
  // ---------------------------------------------------------------------------------------------

  lemma {:induction false} CommitOfRequest(s: Sys, k: int, c: Commit)
    requires Inv(s) && k in s.requests && c in s.commits && c.request == k
    ensures c == Commit(k, s.requests[k].conv, s.requests[k].user, s.requests[k].text)
  {
    assert RequestRight(s, k, s.requests[k]);
    FilterMembers(ByRequest(k), s.commits);
    assert c in Filter(ByRequest(k), s.commits);
  }

  /** The send `k` stored the exchange that follows what it had read, and the send `j` read up to that. */
  ghost predicate FollowsOn(s: Sys, k: int, j: int)
    requires k in s.requests && j in s.requests
  {
    var before, after, n := s.requests[k], s.requests[j], |s.requests[k].history| / 2;
    && before.conv == after.conv
    && |after.history| == |before.history| + 2
    && n < |CommitsOn(s, before.conv)| && CommitsOn(s, before.conv)[n].request == k
  }

  lemma ExchangeOf(s: Sys, k: int, n: nat)
    requires Inv(s) && k in s.requests
    requires var commits := CommitsOn(s, s.requests[k].conv); n < |commits| && commits[n].request == k
    ensures var r := s.requests[k]; var said := Said(s, r.conv);
            2 * n + 1 < |said| && said[2 * n] == UserTurn(r.user) && said[2 * n + 1] == AnswerTurn(r.text)
  {
    var conv := s.requests[k].conv;
    var commits := CommitsOn(s, conv);
    FilterMembers(OnConversation(conv), s.commits);
    assert commits[n] in commits;
    CommitOfRequest(s, k, commits[n]);
    ExchangedAt(commits, n);
  }

  lemma AskedNext(before: Request, after: Request, said: seq<Turn>)
    requires ValidUser(before.user) && ValidUser(after.user)
    requires TurnsOf(before.history) <= said && TurnsOf(after.history) <= said
    requires |after.history| == |before.history| + 2
    requires said[|before.history|] == UserTurn(before.user) && said[|before.history| + 1] == AnswerTurn(before.text)
    ensures Asked(after) == Asked(before) + [AnswerTurn(before.text), UserTurn(after.user)]
  {
    AskedTurns(before);
    AskedTurns(after);
  }

  lemma HalfTwice(n: nat)
    requires n % 2 == 0
    ensures 2 * (n / 2) == n
  {}

  /** The next send asks all that this one asked, plus its answer and the next question. */
  lemma NextAsks(s: Sys, k: int, j: int)
    requires Inv(s) && k in s.requests && j in s.requests && FollowsOn(s, k, j)
    requires Faithful(s, s.requests[k]) && Faithful(s, s.requests[j]) && |s.requests[k].history| % 2 == 0
    requires ValidUser(s.requests[k].user) && ValidUser(s.requests[j].user)
    ensures var before, after := s.requests[k], s.requests[j];
            Asked(after) == Asked(before) + [AnswerTurn(before.text), UserTurn(after.user)]
  {
    var before, after := s.requests[k], s.requests[j];
    HalfTwice(|before.history|);
    ExchangeOf(s, k, |before.history| / 2);
    AskedNext(before, after, Said(s, before.conv));
  }

  /**
  Two faithful sends in a row on one conversation, whatever else ran and whatever the pantry and the
  journal became: unless the window jumps, the second input repeats the first word for word up to its
  last three messages, repeats the answer among those, and changes the other two only by photos that
  fall out of sight and by the memory block.
  */
  lemma NextInputKeepsPrefix(s: Sys, k: int, j: int)
    requires Reachable(s) && k in s.requests && j in s.requests
    requires FollowsOn(s, k, j)
    requires Faithful(s, s.requests[k])
    requires Faithful(s, s.requests[j])
    requires !JumpsNext(|s.requests[k].history| + 1)
    ensures var r, r2 := s.requests[k], s.requests[j];
            PrefixKept(Asked(r), BlockText(r.memory), Sent(r), Sent(r2))
  {
    ReachableRight(s);
    FollowingKeepsPrefix(s, k, j);
  }

  lemma FollowingKeepsPrefix(s: Sys, k: int, j: int)
    requires Inv(s) && k in s.requests && j in s.requests && FollowsOn(s, k, j)
    requires Faithful(s, s.requests[k]) && Faithful(s, s.requests[j])
    requires !JumpsNext(|s.requests[k].history| + 1)
    ensures var r, r2 := s.requests[k], s.requests[j];
            PrefixKept(Asked(r), BlockText(r.memory), Sent(r), Sent(r2))
  {
    var r, r2 := s.requests[k], s.requests[j];
    RequestsValid(s, k);
    RequestsValid(s, j);
    AskedTakesTurns(s, k, r);
    AskedTakesTurns(s, j, r2);
    NextAsks(s, k, j);
    CachedPrefix(Asked(r), AnswerTurn(r.text), UserTurn(r2.user),
                 BlockText(r.memory), BlockText(r2.memory));
  }
}
