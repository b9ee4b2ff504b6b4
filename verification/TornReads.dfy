/**
Reads that are not one transaction: runs in which a send reads a history that was never there, or ends
without the title that is there.
*/
module TornReads {
  import opened Common
  import opened Seqs
  import opened Entities
  import opened Schema
  import opened Joins
  import opened Conversations
  import opened Memories
  import opened Pantry
  import opened Prompt
  import opened UserMessages
  import opened Protocol
  import opened Invariant
  import opened Runs
  import opened Composed
  import opened Inputs

  // ---------------------------------------------------------------------------------------------
  // The actors
  // ---------------------------------------------------------------------------------------------

  const PNG: Image := Image(0, "image/png", [1 as bv8])
  const PHOTO: Message := Message(0, "user", "", [PNG], 0)
  const IDS: NewIds := NewIds(1, [1], 2)
  const TODAY: string := "2026-01-01"

  lemma PhotoValid()
    ensures ValidUser(PHOTO) && NewTo(NO_IDS, PHOTO, IDS) && IsDate(TODAY)
  {
    assert NewImages(PHOTO, IDS)[..0] == [];
  }

  lemma Begins(s: Sys, owner: string, k: int, conv: string, user: Message) returns (s2: Sys)
    requires Reachable(s) && k !in s.requests && ValidUser(user) && Owns(s.tables, owner, conv)
    ensures Reachable(s2) && s2 == s.(requests := s.requests[k := Started(s.tables, owner, conv, user)])
  {
    NextReachable(s, Begin(owner, k, conv, user));
    s2 := Next(s, Begin(owner, k, conv, user));
  }

  /** A send begins and reads the message rows. */
  lemma Finds(s: Sys, owner: string, k: int, conv: string, user: Message) returns (s2: Sys)
    requires Reachable(s) && k !in s.requests && ValidUser(user) && Owns(s.tables, owner, conv)
    ensures Reachable(s2) && s2 == s.(requests := s.requests[k :=
              Started(s.tables, owner, conv, user).(rows := Rows(s.tables, conv), phase := HasRows)])
  {
    var s1 := Begins(s, owner, k, conv, user);
    var r := s1.requests[k].(rows := Rows(s.tables, conv), phase := HasRows);
    s2 := Takes(s1, k, ReadRows, r);
    assert s1.requests[k := r] == s.requests[k := r];
  }

  /** Then it reads the images and the kitchen, and streams. */
  lemma Asks(s: Sys, k: int) returns (s2: Sys)
    requires Reachable(s) && k in s.requests && s.requests[k].phase.HasRows?
    requires Stepped(s.tables, s.requests[k], ReadImages).phase.HasHistory?
    ensures Reachable(s2) && s2 == s.(requests := s2.requests)
    ensures k in s2.requests && s2.requests == s.requests[k := s2.requests[k]]
    ensures var r, r2 := s.requests[k], s2.requests[k];
            && r2.phase.Streaming? && r2.history == Stepped(s.tables, r, ReadImages).history
            && r2.text == r.text && r2.events == r.events && r2.owner == r.owner && r2.conv == r.conv && r2.user == r.user
  {
    var s1 := Takes(s, k, ReadImages, Stepped(s.tables, s.requests[k], ReadImages));
    s2 := Readies(s1, k);
    assert s2.requests == s.requests[k := s2.requests[k]];
  }

  lemma Readies(s: Sys, k: int) returns (s2: Sys)
    requires Reachable(s) && k in s.requests && s.requests[k].phase.HasHistory?
    ensures Reachable(s2) && k in s2.requests && s2 == s.(requests := s.requests[k := s2.requests[k]])
    ensures var r, r2 := s.requests[k], s2.requests[k];
            && r2.phase.Streaming? && r2.history == r.history
            && r2.text == r.text && r2.events == r.events && r2.owner == r.owner && r2.conv == r.conv && r2.user == r.user
  {
    PhotoValid();
    var t := s.tables;
    var r1 := s.requests[k].(pantry := Ingredients(t, s.requests[k].owner), phase := HasPantry);
    var s1 := Takes(s, k, ReadPantry, r1);
    var r2 := r1.(memory := Memory(TODAY, r1.pantry, Journal(t, r1.owner, MEMORY_ENTRIES)), phase := Streaming);
    s2 := Takes(s1, k, ReadJournal(TODAY), r2);
    assert s1.requests[k := r2] == s.requests[k := r2];
  }

  /** Then the answer, an empty one, is complete and is stored. */
  lemma Stores(s: Sys, k: int, ids: NewIds) returns (s2: Sys)
    requires Reachable(s) && k in s.requests && s.requests[k].phase.Streaming?
    requires NewTo(s.counters, s.requests[k].user, ids)
    requires Owns(s.tables, s.requests[k].owner, s.requests[k].conv)
    ensures Reachable(s2) && k in s2.requests && s2.requests == s.requests[k := s2.requests[k]]
    ensures var r := s.requests[k];
            && s2.tables == AppendExchange(s.tables, r.owner, r.conv, r.user, r.text, 0, ids)
            && s2.counters == Counted(s.counters, r.user, ids)
            && s2.requests[k] == r.(phase := Stored(ids.answer, "end_turn"))
  {
    var owner := s.requests[k].owner;
    var s1 := Takes(s, k, End("end_turn"), s.requests[k].(phase := Answered("end_turn")));
    s2 := CommitsNow(s1, k, ids);
    assert s2.requests == s.requests[k := s2.requests[k]];
  }

  lemma CommitsNow(s: Sys, k: int, ids: NewIds) returns (s2: Sys)
    requires Reachable(s) && k in s.requests && s.requests[k].phase.Answered?
    requires NewTo(s.counters, s.requests[k].user, ids)
    requires Owns(s.tables, s.requests[k].owner, s.requests[k].conv)
    ensures Reachable(s2) && Committed(s, s2, k, 0, ids)
  {
    var owner := s.requests[k].owner;
    CommittedIs(s, k, 0, ids);
    NextReachable(s, Advance(owner, k, Append(0, ids, false)));
    s2 := Next(s, Advance(owner, k, Append(0, ids, false)));
  }

  /** A conversation with one exchange: a photo without words, and its answer. */
  lemma OnePhoto() returns (s: Sys)
    ensures Reachable(s) && s.requests.Keys == {1} && Owns(s.tables, "cook", "c")
    ensures Rows(s.tables, "c") == NewMessages("c", PHOTO, "", 0, IDS)
  {
    InitReachable();
    PhotoValid();
    NextReachable(INIT, Create("cook", "c", 0));
    s := Next(INIT, Create("cook", "c", 0));
    s := Finds(s, "cook", 1, "c", PHOTO);
    FirstReads(s.tables, s.requests[1]);
    s := Asks(s, 1);
    ghost var t := s.tables;
    s := Stores(s, 1, IDS);
    AppendRows(t, "cook", "c", PHOTO, "", 0, IDS, "c");
  }

  /** What is left of it without its photo. */
  lemma NothingLeft(r: Request)
    requires r.history == Plain(NewMessages("c", PHOTO, "", 0, IDS), [], true)
    ensures Sent(r)[0].content == []
  {
    var h := Asked(r);
    assert h[0] == Turn("user", "", []);
    assert Skipped(h) == 0 && h[0..] == h;
  }

  lemma JoinedBare(rows: seq<MessageRow>)
    ensures Joined(rows, [], true) == Some(Plain(rows, [], true))
  {
    if rows != [] { assert PlacedAll(rows, []) == []; }
  }

  /** The conversation is deleted while the send is between its two queries. */
  lemma LosesPhotos(s: Sys, k: int) returns (s2: Sys)
    requires Reachable(s) && k in s.requests && s.requests[k].phase.HasRows?
    requires Owns(s.tables, s.requests[k].owner, s.requests[k].conv)
    ensures Reachable(s2) && k in s2.requests && s2.requests[k].phase.Streaming?
    ensures s2.requests[k].history == Plain(s.requests[k].rows, [], true)
  {
    var r := s.requests[k];
    NextReachable(s, Delete(r.owner, r.conv));
    var s1 := Next(s, Delete(r.owner, r.conv));
    ReachableRight(s);
    DeleteRows(s.tables, s.counters, r.owner, r.conv, r.conv);
    JoinedBare(r.rows);
    s2 := Asks(s1, k);
  }

  /**
  Deleted between the two queries, a conversation keeps its messages and loses its photos: a send then
  asks the model about a user message that is empty.
  */
  lemma EmptyMessageSent() returns (s: Sys)
    ensures Reachable(s) && 2 in s.requests && s.requests[2].phase.Streaming?
    ensures !Faithful(s, s.requests[2]) && Sent(s.requests[2])[0].content == []
  {
    var s1 := OnePhoto();
    PhotoValid();
    var s2 := Finds(s1, "cook", 2, "c", PHOTO);
    s := LosesPhotos(s2, 2);
    NothingLeft(s.requests[2]);
    if Faithful(s, s.requests[2]) { FaithfulInputComplete(s, 2); }
  }

  // ---------------------------------------------------------------------------------------------
  // Stored between the two queries
  // ---------------------------------------------------------------------------------------------

  const FOUR: Message := Message(0, "user", "", [PNG, PNG, PNG, PNG], 0)
  const FIRST_IDS: NewIds := NewIds(1, [1, 2, 3, 4], 2)
  const NEXT_IDS: NewIds := NewIds(3, [5, 6, 7, 8], 4)

  lemma AscendingFour(bound: int, rows: seq<ImageRow>)
    requires |rows| == 4 && bound < rows[0].id < rows[1].id < rows[2].id < rows[3].id
    ensures Ascending(bound, rows) && LastId(bound, rows) == rows[3].id
  {
    assert rows[..3][..2] == rows[..2] && rows[..2][..1] == rows[..1] && rows[..1][..0] == [];
    assert Ascending(bound, rows[..1]);
    assert Ascending(bound, rows[..2]);
    assert Ascending(bound, rows[..3]);
  }

  lemma FourValid()
    ensures ValidUser(FOUR) && NewTo(NO_IDS, FOUR, FIRST_IDS) && NewTo(Counted(NO_IDS, FOUR, FIRST_IDS), FOUR, NEXT_IDS)
  {
    AscendingFour(0, NewImages(FOUR, FIRST_IDS));
    AscendingFour(4, NewImages(FOUR, NEXT_IDS));
  }

  /** Another send stores an exchange from its beginning to its end. */
  lemma Exchanges(s: Sys, k: int, user: Message, ids: NewIds) returns (s2: Sys)
    requires Reachable(s) && k !in s.requests && ValidUser(user)
    requires NewTo(s.counters, user, ids) && Owns(s.tables, "cook", "c")
    ensures Reachable(s2) && (forall j | j in s.requests :: j in s2.requests && s2.requests[j] == s.requests[j])
    ensures s2.requests.Keys == s.requests.Keys + {k}
    ensures Owns(s2.tables, "cook", "c") && s2.counters == Counted(s.counters, user, ids)
    ensures Rows(s2.tables, "c") == Rows(s.tables, "c") + NewMessages("c", user, "", 0, ids)
    ensures ImageRows(s2.tables, "c") == ImageRows(s.tables, "c") + NewImages(user, ids)
  {
    var s1 := Streams(s, k, user);
    s2 := Stores(s1, k, ids);
    GrowsBy(s, user, ids);
  }

  lemma GrowsBy(s: Sys, user: Message, ids: NewIds)
    requires Reachable(s) && NewTo(s.counters, user, ids) && Owns(s.tables, "cook", "c")
    ensures var t2 := AppendExchange(s.tables, "cook", "c", user, "", 0, ids);
            && Owns(t2, "cook", "c")
            && Rows(t2, "c") == Rows(s.tables, "c") + NewMessages("c", user, "", 0, ids)
            && ImageRows(t2, "c") == ImageRows(s.tables, "c") + NewImages(user, ids)
  {
    ReachableRight(s);
    AppendRows(s.tables, "cook", "c", user, "", 0, ids, "c");
    AppendImages(s.tables, s.counters, "cook", "c", user, "", 0, ids, "c");
  }

  lemma Streams(s: Sys, k: int, user: Message) returns (s2: Sys)
    requires Reachable(s) && k !in s.requests && ValidUser(user) && Owns(s.tables, "cook", "c")
    ensures Reachable(s2) && k in s2.requests && s2 == s.(requests := s.requests[k := s2.requests[k]])
    ensures var r := s2.requests[k];
            && r.owner == "cook" && r.conv == "c" && r.user == user && r.text == "" && r.phase.Streaming?
            && r.events == []
  {
    var s1 := Finds(s, "cook", k, "c", user);
    FirstReads(s1.tables, s1.requests[k]);
    s2 := Asks(s1, k);
  }

  lemma Opened() returns (s: Sys)
    ensures Reachable(s) && s.requests == map[] && s.counters == NO_IDS && Owns(s.tables, "cook", "c")
    ensures s.tables.conversations["c"].title == ""
    ensures Rows(s.tables, "c") == [] && ImageRows(s.tables, "c") == []
  {
    InitReachable();
    NextReachable(INIT, Create("cook", "c", 0));
    s := Next(INIT, Create("cook", "c", 0));
  }

  /** A photo stored on a conversation read as empty makes the code index an empty slice. */
  lemma IndexOutOfRange() returns (s: Sys)
    ensures Reachable(s) && 2 in s.requests && s.requests[2].phase.HasRows? && s.requests[2].conv in s.tables.conversations
    ensures Joined(s.requests[2].rows, ImageRows(s.tables, s.requests[2].conv), true) == None
  {
    FourValid();
    s := Opened();
    s := Finds(s, "cook", 2, "c", FOUR);
    s := Exchanges(s, 1, FOUR, FIRST_IDS);
  }

  lemma AllOnFirst(rows: seq<MessageRow>, images: seq<ImageRow>)
    requires rows == NewMessages("c", FOUR, "", 0, FIRST_IDS)
    requires images == NewImages(FOUR, FIRST_IDS) + NewImages(FOUR, NEXT_IDS)
    ensures |Plain(rows, PlacedAll(rows, images), true)[0].images| == 8
  {
    var placed := PlacedAll(rows, images);
    assert rows[0].id in Ids(rows);
    forall p | p in placed ensures OfMessage(1)(p) {
      var i :| 0 <= i < |placed| && placed[i] == p;
    }
    FilterAll(OfMessage(1), placed);
  }

  lemma TwelveShown(r: Request)
    requires |r.history| == 2 && r.history[0].role == "user" && |r.history[0].images| == 8
    requires r.history[1].role == "assistant" && r.history[1].images == [] && r.user == FOUR
    ensures ShownAll(Sent(r)) == 12
  {
    ThreeTurns(r);
    ShownCount(r);
  }

  lemma ThreeTurns(r: Request)
    requires |r.history| == 2 && r.history[0].role == "user" && r.user.role == "user"
    requires r.history[1].role == "assistant" && r.history[1].images == []
    ensures Alternating(Asked(r)) && |Asked(r)| % 2 == 1
  {}

  /** The second send has read one exchange when the third stores another. */
  lemma Overtaken() returns (s: Sys)
    ensures Reachable(s) && 2 in s.requests
    ensures var r := s.requests[2];
            && r.phase.HasRows? && r.conv == "c" && r.user == FOUR
            && r.rows == NewMessages("c", FOUR, "", 0, FIRST_IDS)
    ensures ImageRows(s.tables, "c") == NewImages(FOUR, FIRST_IDS) + NewImages(FOUR, NEXT_IDS)
  {
    FourValid();
    var s1 := Opened();
    var s2 := Exchanges(s1, 1, FOUR, FIRST_IDS);
    var s3 := Finds(s2, "cook", 2, "c", FOUR);
    s := Exchanges(s3, 3, FOUR, NEXT_IDS);
  }

  lemma AnswersHaveNone(s: Sys, k: int)
    requires Reachable(s) && k in s.requests
    ensures forall i | 0 <= i < |s.requests[k].history| && i % 2 == 1 :: s.requests[k].history[i].images == []
  {
    ReachableRight(s);
    RequestsValid(s, k);
    assert HistoryRight(s, s.requests[k]);
  }

  lemma MisplacedHistory(s: Sys, k: int) returns (s2: Sys)
    requires Reachable(s) && k in s.requests
    requires var r := s.requests[k];
             r.phase.HasRows? && r.conv == "c" && r.user == FOUR && r.rows == NewMessages("c", FOUR, "", 0, FIRST_IDS)
    requires ImageRows(s.tables, "c") == NewImages(FOUR, FIRST_IDS) + NewImages(FOUR, NEXT_IDS)
    ensures Reachable(s2) && k in s2.requests && s2.requests[k].phase.Streaming? && s2.requests[k].user == FOUR
    ensures var h := s2.requests[k].history; |h| == 2 && h[0].role == "user" && |h[0].images| == 8
    ensures s2.requests[k].history[1].role == "assistant"
  {
    AllOnFirst(s.requests[k].rows, ImageRows(s.tables, "c"));
    s2 := Asks(s, k);
  }

  /** Photos stored between the two queries all land on the first message, so more than 8 are shown. */
  lemma TooManyPhotosSent() returns (s: Sys)
    ensures Reachable(s) && 2 in s.requests && s.requests[2].phase.Streaming?
    ensures !Faithful(s, s.requests[2]) && ShownAll(Sent(s.requests[2])) == 12
  {
    var s1 := Overtaken();
    s := MisplacedHistory(s1, 2);
    AnswersHaveNone(s, 2);
    TwelveShown(s.requests[2]);
    if Faithful(s, s.requests[2]) { FaithfulInputComplete(s, 2); }
  }

  // ---------------------------------------------------------------------------------------------
  // The read after the commit
  // ---------------------------------------------------------------------------------------------

  /** The answer is stored and the conversation titled, but reading the title fails: done gives none. */
  lemma EmptyTitleSent() returns (s: Sys)
    ensures Reachable(s) && 1 in s.requests && Owns(s.tables, "cook", "c")
    ensures s.tables.conversations["c"].title == "Photo"
    ensures s.requests[1].events == [Done(2, "", "end_turn")]
  {
    PhotoValid();
    var s1 := Opened();
    var s2 := Streams(s1, 1, PHOTO);
    var s3 := Stores(s2, 1, IDS);
    var r := s3.requests[1];
    s := Takes(s3, 1, Finish(true), Ended(r.(untitled := true), Done(2, "", "end_turn")));
  }
}
