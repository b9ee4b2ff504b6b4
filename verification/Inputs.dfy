/**
Exactly when the input of a send is complete: how many photos it shows, and whether a user message in it
is empty, by what the image query came back with.
*/
module Inputs {
  import opened Common
  import opened Seqs
  import opened Entities
  import opened Schema
  import opened Joins
  import opened Conversations
  import opened Memories
  import opened Prompt
  import opened UserMessages
  import opened Protocol
  import opened Invariant
  import opened Runs
  import opened Composed

  // ---------------------------------------------------------------------------------------------
  // Where the images of a read end up
  // ---------------------------------------------------------------------------------------------

  function ImagesAt(rows: seq<MessageRow>, images: seq<ImageRow>, i: nat): seq<ImageRow>
    requires i < |rows|
  {
    Filter(OfMessage(rows[i].id), PlacedAll(rows, images))
  }

  /** Only the first message gets images that are not its own. */
  lemma {:induction false} OwnImages(rows: seq<MessageRow>, images: seq<ImageRow>, i: nat)
    requires DistinctIds(rows) && 0 < i < |rows|
    ensures ImagesAt(rows, images, i) == Filter(OfMessage(rows[i].id), images)
    decreases |images|
  {
    if images != [] {
      var n := |images| - 1;
      OwnImages(rows, images[..n], i);
      assert images == images[..n] + [images[n]];
      assert PlacedAll(rows, images) == PlacedAll(rows, images[..n]) + [Placed(rows, images[n])];
      FilterSnoc(OfMessage(rows[i].id), PlacedAll(rows, images[..n]), Placed(rows, images[n]));
      OwnPlaced(rows, images[n], i);
    } else {
      assert PlacedAll(rows, images) == [];
    }
  }

  lemma OwnPlaced(rows: seq<MessageRow>, im: ImageRow, i: nat)
    requires DistinctIds(rows) && 0 < i < |rows|
    ensures Placed(rows, im).message == rows[i].id <==> im.message == rows[i].id
    ensures im.message == rows[i].id ==> Placed(rows, im) == im
  {
    assert rows[i].id in Ids(rows);
  }

  /** With one exchange read, every image goes to its question. */
  lemma AllToFirst(rows: seq<MessageRow>, images: seq<ImageRow>)
    requires |rows| == 2 && forall im | im in images :: im.message != rows[1].id
    ensures ImagesAt(rows, images, 0) == PlacedAll(rows, images)
  {
    var placed := PlacedAll(rows, images);
    forall p | p in placed ensures OfMessage(rows[0].id)(p) {
      var n :| 0 <= n < |placed| && placed[n] == p;
      assert images[n] in images;
    }
    FilterAll(OfMessage(rows[0].id), placed);
  }

  // ---------------------------------------------------------------------------------------------
  // What a read makes of every user message
  // ---------------------------------------------------------------------------------------------

  /** A turn of a conversation says or shows something, and not too much. */
  lemma SaidTurn(s: Sys, r: Request, i: nat)
    requires CommitsRight(s) && RowsRight(s, r) && i < |r.rows| && i % 2 == 0
    ensures i < |Said(s, r.conv)|
    ensures var said := Said(s, r.conv)[i];
            Substantial(said) && |said.photos| <= MAX_IMAGES && said.text == r.rows[i].text
  {
    RowsWithinSaid(s, r);
    CommitsValid(s, r.conv);
    SaidSubstantial(CommitsOn(s, r.conv), i);
    assert RowWords(r.rows)[i] == Words(Said(s, r.conv))[i];
  }

  /** While the conversation is there, what the query returns includes the images of every row read. */
  lemma ThereImages(s: Sys, r: Request, i: nat)
    requires Inv(s) && RowsRight(s, r) && r.conv in s.tables.conversations
    requires i < |r.rows| && i % 2 == 0
    ensures i < |Said(s, r.conv)|
    ensures Said(s, r.conv)[i].photos == PhotosFor(r.rows[i].id, ImageRows(s.tables, r.conv))
  {
    RowsWithinSaid(s, r);
    assert ConversationRight(s, r.conv);
    assert Rows(s.tables, r.conv)[i] == r.rows[i];
    assert Turns(s.tables, r.conv)[i] == TurnFor(r.rows[i], ImageRows(s.tables, r.conv));
  }

  lemma FirstGetsMore(rows: seq<MessageRow>, images: seq<ImageRow>)
    requires rows != []
    ensures |ImagesAt(rows, images, 0)| >= |Filter(OfMessage(rows[0].id), images)|
  {
    MoreMatch(rows, images);
  }

  /** One question of the history, by what the image query came back with. */
  lemma QuestionRead(s: Sys, r: Request, i: nat)
    requires Inv(s) && RowsRight(s, r) && !r.phase.Closed? && i < |r.rows| && i % 2 == 0
    ensures var images := ImagesAt(r.rows, ImageRows(s.tables, r.conv), i);
            && (i > 0 ==> |images| <= MAX_IMAGES)
            && (r.rows[i].text != "" || images != [] <==> Owns(s.tables, r.owner, r.conv) || r.rows[i].text != "")
  {
    var images := ImageRows(s.tables, r.conv);
    OrderedDistinct(r.rows);
    SaidTurn(s, r, i);
    if r.conv in s.tables.conversations {
      StillOwned(s, r);
      ThereImages(s, r, i);
    } else {
      GoneImages(s, r.conv);
      assert PlacedAll(r.rows, images) == [];
    }
    if i > 0 { OwnImages(r.rows, images, i); } else { FirstGetsMore(r.rows, images); }
  }

  // ---------------------------------------------------------------------------------------------
  // Every history keeps what its read made
  // ---------------------------------------------------------------------------------------------

  /** What holds of one question of a history. */
  predicate QuestionRight(r: Request, i: nat)
    requires i < |r.history| == |r.rows|
  {
    && (i > 0 ==> |r.history[i].images| <= MAX_IMAGES)
    && (Substantial(TurnOf(r.history[i])) <==> r.there || r.rows[i].text != "")
  }

  ghost predicate ReadRight(r: Request) {
    && (r.phase.Found? || r.phase.HasRows? ==> r.history == [])
    && (r.history != [] ==> |r.history| == |r.rows|)
    && (forall i: nat | i < |r.history| == |r.rows| && i % 2 == 0 :: QuestionRight(r, i))
    && (|r.history| == 2 ==> |r.history[0].images| == r.photosRead)
  }

  lemma HistoryAt(r: Request, images: seq<ImageRow>, i: nat)
    requires i < |r.rows|
    ensures var m := Plain(r.rows, PlacedAll(r.rows, images), true)[i];
            |m.images| == |ImagesAt(r.rows, images, i)| && m.text == r.rows[i].text
  {}

  lemma TurnSubstantialIff(m: Message)
    ensures Substantial(TurnOf(m)) <==> m.text != "" || m.images != []
  {}

  lemma ImagesRead(s: Sys, r: Request)
    requires Inv(s) && RowsRight(s, r) && r.phase.HasRows? && r.rows != []
    ensures var r2 := Stepped(s.tables, r, ReadImages);
            r2.phase.HasHistory? && ReadRight(r2)
  {
    var images, r2 := ImageRows(s.tables, r.conv), Stepped(s.tables, r, ReadImages);
    assert r2.history == Plain(r.rows, PlacedAll(r.rows, images), true);
    forall i: nat | i < |r2.history| && i % 2 == 0 ensures QuestionRight(r2, i) {
      QuestionRead(s, r, i);
      HistoryAt(r, images, i);
      TurnSubstantialIff(r2.history[i]);
    }
    if |r.rows| == 2 {
      NoneOfAnswer(s, r, 1);
      AllToFirst(r.rows, images);
      HistoryAt(r, images, 0);
    }
  }

  lemma StepReadRight(s: Sys, r: Request, step: Step)
    requires Inv(s) && RowsRight(s, r) && StepEnabled(s, r, step) && ReadRight(r)
    ensures ReadRight(Stepped(s.tables, r, step))
  {
    if step.ReadImages? {
      if r.rows != [] { ImagesRead(s, r); }
    } else if !step.ReadRows? {
      ReadRightSame(r, Stepped(s.tables, r, step));
    }
  }

  lemma ReadRightSame(r: Request, r2: Request)
    requires ReadRight(r) && SameReads(r, r2)
    ensures ReadRight(r2)
  {
    forall i: nat | i < |r2.history| == |r2.rows| && i % 2 == 0 ensures QuestionRight(r2, i) {
      assert QuestionRight(r, i);
    }
  }

  ghost predicate AllReadRight(s: Sys) { forall k | k in s.requests :: ReadRight(s.requests[k]) }

  lemma AdvancedIs(s: Sys, k: int, step: Step)
    requires k in s.requests
    ensures AdvanceSys(s, k, step).requests == s.requests[k := Stepped(s.tables, s.requests[k], step)]
  {}

  lemma NextReadRight(s: Sys, a: Action)
    requires Inv(s) && Enabled(s, a) && AllReadRight(s)
    ensures AllReadRight(Next(s, a))
  {
    forall k | k in Next(s, a).requests ensures ReadRight(Next(s, a).requests[k]) {
      if k in s.requests { KeepsReadRight(s, a, k); }
    }
  }

  lemma KeepsReadRight(s: Sys, a: Action, k: int)
    requires Inv(s) && Enabled(s, a) && k in s.requests && ReadRight(s.requests[k])
    ensures k in Next(s, a).requests && ReadRight(Next(s, a).requests[k])
  {
    if a.Advance? && a.request == k {
      RowsAreRight(s, k);
      AdvancedIs(s, k, a.step);
      StepReadRight(s, s.requests[k], a.step);
    } else {
      OthersStay(s, a, k);
    }
  }

  lemma {:induction false} RunReadRight(s: Sys, acts: seq<Action>)
    requires Inv(s) && AllReadRight(s) && Behaves(s, acts)
    ensures AllReadRight(After(s, acts))
    decreases |acts|
  {
    if acts != [] {
      NextReadRight(s, acts[0]);
      NextKept(s, acts[0]);
      RunReadRight(Next(s, acts[0]), acts[1..]);
    }
  }

  lemma ReachableReadRight(s: Sys)
    requires Reachable(s)
    ensures AllReadRight(s)
  {
    InitRight();
    var acts :| Behaves(INIT, acts) && s == After(INIT, acts);
    RunReadRight(INIT, acts);
  }

  // ---------------------------------------------------------------------------------------------
  // How many photos are shown
  // ---------------------------------------------------------------------------------------------

  /** The photos of the question before. */
  function PhotosBefore(r: Request): nat {
    if |r.history| < 2 then 0 else |r.history[|r.history| - 2].images|
  }

  /** The photos a send shows: its own and those of the question before. */
  lemma ShownCount(r: Request)
    requires |r.history| % 2 == 0 && Alternating(Asked(r))
    ensures ShownAll(Sent(r))
            == |r.user.images| + PhotosBefore(r)
  {
    LastPhotosAsked(r);
    ShownOfLast(Asked(r), BlockText(r.memory));
  }

  lemma LastPhotosAsked(r: Request)
    requires |r.history| % 2 == 0
    ensures LastPhotos(Asked(r)) == |r.user.images| + PhotosBefore(r)
  {
    assert Asked(r)[|r.history|] == TurnOf(r.user);
    if r.history != [] { TurnAsked(r, |r.history| - 2); }
  }

  /**
  At most 8 photos are shown, for every send of every run, if and only if it is not the case that exactly
  one exchange was read and the image query came back with more than the 8 leave room for.
  */
  lemma InputFitsIff(s: Sys, k: int)
    requires Reachable(s) && k in s.requests && Sending(s.requests[k].phase)
    ensures var r := s.requests[k];
            ShownAll(Sent(r)) <= 8 <==> |r.rows| != 2 || r.photosRead + |r.user.images| <= 8
  {
    var r := s.requests[k];
    ReachableRight(s);
    ReachableReadRight(s);
    RequestsValid(s, k);
    AskedTakesTurns(s, k, r);
    HistoryOfRows(s, r);
    ShownCount(r);
    FitsIff(r, |r.rows|);
  }

  lemma FitsIff(r: Request, n: nat)
    requires ReadRight(r) && |r.user.images| <= MAX_IMAGES && |r.history| == |r.rows| == n && n % 2 == 0
    ensures |r.user.images| + PhotosBefore(r) <= 8
            <==> n != 2 || r.photosRead + |r.user.images| <= 8
  {
    if n > 2 { assert QuestionRight(r, n - 2); }
  }

  // ---------------------------------------------------------------------------------------------
  // Whether a user message is empty
  // ---------------------------------------------------------------------------------------------

  lemma TurnAsked(r: Request, i: nat)
    requires i < |r.history|
    ensures Asked(r)[i] == TurnOf(r.history[i])
  {}

  lemma QuestionAt(r: Request, i: nat)
    requires ReadRight(r) && i < |r.history| == |r.rows| && i % 2 == 0
    ensures Substantial(Asked(r)[i]) <==> r.there || r.rows[i].text != ""
  {
    TurnAsked(r, i);
    assert QuestionRight(r, i);
  }

  lemma OwnSubstantial(r: Request)
    requires ValidUser(r.user)
    ensures Substantial(Asked(r)[|r.history|])
  {
    assert Asked(r)[|r.history|] == TurnOf(r.user);
    TurnSubstantialIff(r.user);
  }

  /** Of the rows from `start` on, every question has words. */
  predicate WordsFrom(r: Request, start: nat) {
    forall i | start <= i < |r.rows| && i % 2 == 0 :: r.rows[i].text != ""
  }

  lemma WordsIff(r: Request, start: nat)
    requires ValidUser(r.user) && ReadRight(r) && |r.history| == |r.rows|
    ensures SubstantialFrom(Asked(r), start) <==> r.there || WordsFrom(r, start)
  {
    OwnSubstantial(r);
    forall i: nat | start <= i < |r.rows| && i % 2 == 0
      ensures Substantial(Asked(r)[i]) <==> r.there || r.rows[i].text != ""
    {
      QuestionAt(r, i);
    }
  }

  /**
  No user message in the input of a send is empty, for every send of every run, if and only if the
  conversation was still there at the image query or every question in the window has words.
  */
  lemma InputSaysIff(s: Sys, k: int)
    requires Reachable(s) && k in s.requests && Sending(s.requests[k].phase)
    ensures var r := s.requests[k];
            AllSay(Sent(r)) <==> r.there || WordsFrom(r, Start(Asked(r)))
  {
    var r := s.requests[k];
    ReachableRight(s);
    ReachableReadRight(s);
    RequestsValid(s, k);
    AskedTakesTurns(s, k, r);
    HistoryOfRows(s, r);
    OwnSubstantial(r);
    AllSayIff(Asked(r), BlockText(r.memory));
    WordsIff(r, Start(Asked(r)));
  }

  // ---------------------------------------------------------------------------------------------
  // When the code indexes an empty slice
  // ---------------------------------------------------------------------------------------------

  predicate ShowAny(turns: seq<Turn>) { exists i :: 0 <= i < |turns| && turns[i].photos != [] }

  /**
  The join fails, in any state of any run, if and only if no rows were read and a message with photos has
  been stored on the conversation since.
  */
  lemma IndexFailsIff(s: Sys, k: int)
    requires Reachable(s) && k in s.requests && s.requests[k].phase.HasRows?
    ensures var r := s.requests[k];
            Joined(r.rows, ImageRows(s.tables, r.conv), true) == None
            <==> r.rows == [] && ShowAny(Turns(s.tables, r.conv))
  {
    var r := s.requests[k];
    ReachableRight(s);
    ImagesIffPhotos(s, r.conv);
  }

  lemma ImagesIffPhotos(s: Sys, conv: string)
    requires Inv(s)
    ensures ImageRows(s.tables, conv) != [] <==> ShowAny(Turns(s.tables, conv))
  {
    RowsDistinct(s.tables, s.counters, conv);
    SnapshotCovered(s.tables, conv);
    NoImagesIff(Rows(s.tables, conv), ImageRows(s.tables, conv));
  }

  lemma NoImagesIff(all: seq<MessageRow>, images: seq<ImageRow>)
    requires DistinctIds(all) && Covered(all, images)
    ensures images != [] <==> ShowAny(Turned(all, images))
  {
    CoveredIff([], all, images);
    if images != [] { assert images[0].message !in Ids([]) && images[0] in images; }
  }
}
