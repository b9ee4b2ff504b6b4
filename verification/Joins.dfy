/**
The join inside Messages, internal/store/messages.go: one query reads the messages, a later one their
images, and a map from message id to position puts the images where they belong.
*/
module Joins {
  import opened Common
  import opened Seqs
  import opened Entities
  import opened Schema

  /** The bytes are loaded only when asked for. */
  function Loaded(row: ImageRow, withData: bool): Image {
    Image(row.id, row.mediaType, if withData then row.data else [])
  }

  function LoadedAll(rows: seq<ImageRow>, withData: bool): (r: seq<Image>)
    ensures |r| == |rows| && forall i | 0 <= i < |r| :: r[i] == Loaded(rows[i], withData)
  {
    seq(|rows|, i requires 0 <= i < |rows| => Loaded(rows[i], withData))
  }

  function MessageOf(row: MessageRow, images: seq<ImageRow>, withData: bool): Message {
    Message(row.id, row.role, row.text, LoadedAll(Filter(OfMessage(row.id), images), withData), row.created)
  }

  function BelongsAt(images: seq<ImageRow>, id: int): nat -> bool {
    (i: nat) => i < |images| && images[i].message == id
  }

  const NO_IMAGE: Image := Image(0, "", [])

  /** The photo on one image row, with its bytes or without. */
  function PhotoAt(images: seq<ImageRow>, withData: bool): nat -> Image {
    (i: nat) => if i >= |images| then NO_IMAGE
                else if withData then Image(images[i].id, images[i].mediaType, images[i].data)
                else Image(images[i].id, images[i].mediaType, [])
  }

  function ImagesGrown(images: seq<ImageRow>, id: int, withData: bool): nat -> seq<Image> {
    (n: nat) => if n <= |images| then LoadedAll(Filter(OfMessage(id), images[..n]), withData) else []
  }

  lemma ImagesStep(images: seq<ImageRow>, id: int, withData: bool, n: nat)
    requires n < |images|
    ensures GrowsAt(ImagesGrown(images, id, withData), BelongsAt(images, id), PhotoAt(images, withData), n)
  {
    var front, last := images[..n], images[n];
    assert images[..n + 1] == front + [last] && (front + [last])[..|front|] == front;
    var mine := Filter(OfMessage(id), front);
    assert LoadedAll(mine + [last], withData) == LoadedAll(mine, withData) + [Loaded(last, withData)];
  }

  /**
  A message has the photos on the image rows that name it, each once, in order, with its own id and media type;
  asking for no bytes leaves out the bytes and nothing else.
  */
  lemma MessageImages(row: MessageRow, images: seq<ImageRow>, withData: bool)
    ensures MessageOf(row, images, withData).images
            == Mapped(PhotoAt(images, withData), Picked(BelongsAt(images, row.id), |images|))
  {
    forall n: nat | n < |images|
      ensures GrowsAt(ImagesGrown(images, row.id, withData), BelongsAt(images, row.id), PhotoAt(images, withData), n)
    {
      ImagesStep(images, row.id, withData, n);
    }
    assert images[..0] == [] && images[..|images|] == images;
    GrowsByPicked(ImagesGrown(images, row.id, withData), BelongsAt(images, row.id), PhotoAt(images, withData), |images|);
  }

  /** The plain join: every message with its own images, in order. */
  function Plain(rows: seq<MessageRow>, images: seq<ImageRow>, withData: bool): (r: seq<Message>)
    ensures |r| == |rows| && forall k | 0 <= k < |r| :: r[k] == MessageOf(rows[k], images, withData)
  {
    seq(|rows|, k requires 0 <= k < |rows| => MessageOf(rows[k], images, withData))
  }

  predicate Covered(rows: seq<MessageRow>, images: seq<ImageRow>) {
    forall im | im in images :: im.message in Ids(rows)
  }

  /** Looking up a message that was not read gives position 0. */
  function Placed(rows: seq<MessageRow>, im: ImageRow): ImageRow
    requires rows != []
  {
    if im.message in Ids(rows) then im else im.(message := rows[0].id)
  }

  function PlacedAll(rows: seq<MessageRow>, images: seq<ImageRow>): (r: seq<ImageRow>)
    requires rows != []
    ensures |r| == |images| && forall i | 0 <= i < |r| :: r[i] == Placed(rows, images[i])
  {
    seq(|images|, i requires 0 <= i < |images| => Placed(rows, images[i]))
  }

  /** What the code computes; None is its index out of range. */
  function Joined(rows: seq<MessageRow>, images: seq<ImageRow>, withData: bool): Option<seq<Message>> {
    if rows == [] then (if images == [] then Some([]) else None)
    else Some(Plain(rows, PlacedAll(rows, images), withData))
  }

  ghost predicate DistinctIds(rows: seq<MessageRow>) {
    forall i, j | 0 <= i < j < |rows| :: rows[i].id != rows[j].id
  }

  /** The two loops. */
  method Join(rows: seq<MessageRow>, images: seq<ImageRow>, withData: bool) returns (r: Option<seq<Message>>)
    requires DistinctIds(rows)
    ensures r == Joined(rows, images, withData)
  {
    var messages: seq<Message> := [];
    var index: map<int, int> := map[];
    for k := 0 to |rows|
      invariant |messages| == k
      invariant forall j | 0 <= j < k :: messages[j] == Message(rows[j].id, rows[j].role, rows[j].text, [], rows[j].created)
      invariant Indexes(index, rows, k)
    {
      index := index[rows[k].id := k];
      messages := messages + [Message(rows[k].id, rows[k].role, rows[k].text, [], rows[k].created)];
    }
    if rows != [] { JoinStart(rows, images, withData, messages); }
    for n := 0 to |images|
      invariant n > 0 ==> rows != []
      invariant |messages| == |rows|
      invariant rows != [] ==> messages == Plain(rows, PlacedAll(rows, images[..n]), withData)
    {
      var im := images[n];
      IndexFinds(index, rows, im);
      var i := if im.message in index then index[im.message] else 0;
      if i >= |messages| { return None; }
      JoinStep(rows, images, n, i, withData);
      messages := messages[i := messages[i].(images := messages[i].images + [Loaded(im, withData)])];
    }
    assert images[..|images|] == images;
    return Some(messages);
  }

  /** The first `k` messages are indexed by id. */
  ghost predicate Indexes(index: map<int, int>, rows: seq<MessageRow>, k: int) {
    && 0 <= k <= |rows|
    && (forall j | 0 <= j < k :: rows[j].id in index)
    && (forall id | id in index :: 0 <= index[id] < k && rows[index[id]].id == id)
  }

  lemma IndexFinds(index: map<int, int>, rows: seq<MessageRow>, im: ImageRow)
    requires Indexes(index, rows, |rows|)
    ensures im.message in index <==> im.message in Ids(rows)
    ensures im.message in index ==> 0 <= index[im.message] < |rows| && rows[index[im.message]].id == im.message
  {}

  lemma JoinStart(rows: seq<MessageRow>, images: seq<ImageRow>, withData: bool, messages: seq<Message>)
    requires rows != [] && |messages| == |rows|
    requires forall j | 0 <= j < |rows| ::
               messages[j] == Message(rows[j].id, rows[j].role, rows[j].text, [], rows[j].created)
    ensures messages == Plain(rows, PlacedAll(rows, images[..0]), withData)
  {
    assert images[..0] == [] && PlacedAll(rows, []) == [];
    assert forall j | 0 <= j < |rows| :: LoadedAll(Filter(OfMessage(rows[j].id), []), withData) == [];
  }

  lemma PlacedSnoc(rows: seq<MessageRow>, images: seq<ImageRow>, n: nat)
    requires rows != [] && n < |images|
    ensures PlacedAll(rows, images[..n + 1]) == PlacedAll(rows, images[..n]) + [Placed(rows, images[n])]
  {}

  lemma MessageSnoc(row: MessageRow, images: seq<ImageRow>, im: ImageRow, withData: bool)
    ensures var before := MessageOf(row, images, withData);
            MessageOf(row, images + [im], withData)
            == if im.message == row.id then before.(images := before.images + [Loaded(im, withData)]) else before
  {
    assert (images + [im])[..|images|] == images;
    var mine := Filter(OfMessage(row.id), images);
    assert LoadedAll(mine + [im], withData) == LoadedAll(mine, withData) + [Loaded(im, withData)];
  }

  /** One image more goes to one message. */
  lemma JoinStep(rows: seq<MessageRow>, images: seq<ImageRow>, n: nat, i: nat, withData: bool)
    requires rows != [] && DistinctIds(rows) && n < |images| && i < |rows|
    requires rows[i].id == Placed(rows, images[n]).message
    ensures var before := Plain(rows, PlacedAll(rows, images[..n]), withData);
            Plain(rows, PlacedAll(rows, images[..n + 1]), withData)
            == before[i := before[i].(images := before[i].images + [Loaded(images[n], withData)])]
  {
    var placed, im := PlacedAll(rows, images[..n]), Placed(rows, images[n]);
    PlacedSnoc(rows, images, n);
    var before := Plain(rows, placed, withData);
    var after := before[i := before[i].(images := before[i].images + [Loaded(images[n], withData)])];
    assert Loaded(im, withData) == Loaded(images[n], withData);
    forall k | 0 <= k < |rows| ensures MessageOf(rows[k], placed + [im], withData) == after[k] {
      MessageSnoc(rows[k], placed, im, withData);
    }
  }

  /** Images that match one id, counted one by one. */
  function Matching(id: int, images: seq<ImageRow>): nat { |Filter(OfMessage(id), images)| }

  lemma MatchingSnoc(id: int, images: seq<ImageRow>, im: ImageRow)
    ensures Matching(id, images + [im]) == Matching(id, images) + if im.message == id then 1 else 0
  {
    assert (images + [im])[..|images|] == images;
  }

  lemma {:induction false} MoreMatch(rows: seq<MessageRow>, images: seq<ImageRow>)
    requires rows != []
    ensures Matching(rows[0].id, PlacedAll(rows, images)) >= Matching(rows[0].id, images)
    ensures !Covered(rows, images) ==> Matching(rows[0].id, PlacedAll(rows, images)) > Matching(rows[0].id, images)
    decreases |images|
  {
    if images != [] {
      var front, last := images[..|images| - 1], images[|images| - 1];
      MoreMatch(rows, front);
      assert images == front + [last];
      assert PlacedAll(rows, images) == PlacedAll(rows, front) + [Placed(rows, last)];
      MatchingSnoc(rows[0].id, front, last);
      MatchingSnoc(rows[0].id, PlacedAll(rows, front), Placed(rows, last));
      assert rows[0].id in Ids(rows);
    }
  }

  /**
  The join is right, nothing lost or misplaced, exactly when every image row read belongs to a message
  row read. Otherwise a photo lands on the first message, or the code fails.
  */
  lemma JoinRightIff(rows: seq<MessageRow>, images: seq<ImageRow>, withData: bool)
    ensures Joined(rows, images, withData) == Some(Plain(rows, images, withData)) <==> Covered(rows, images)
  {
    if rows != [] {
      if Covered(rows, images) {
        assert forall i | 0 <= i < |images| :: images[i] in images;
        assert PlacedAll(rows, images) == images;
      } else {
        MoreMatch(rows, images);
        assert |Plain(rows, PlacedAll(rows, images), withData)[0].images| > |Plain(rows, images, withData)[0].images|;
      }
    } else if images != [] {
      assert images[0] in images;
    }
  }

  function LandsAt(rows: seq<MessageRow>, images: seq<ImageRow>, k: nat): nat -> bool
    requires k < |rows|
  {
    (i: nat) => i < |images| && (images[i].message == rows[k].id || (k == 0 && images[i].message !in Ids(rows)))
  }

  /**
  Whatever was read, where every photo goes: to the message its row names, or, if that was not read, to the
  first message; each once, in order, as it is.
  */
  lemma JoinedImages(rows: seq<MessageRow>, images: seq<ImageRow>, withData: bool, k: nat)
    requires DistinctIds(rows) && k < |rows|
    ensures var joined := Joined(rows, images, withData);
            && joined.Some? && |joined.value| == |rows|
            && joined.value[k].images == Mapped(PhotoAt(images, withData), Picked(LandsAt(rows, images, k), |images|))
  {
    var placed := PlacedAll(rows, images);
    MessageImages(rows[k], placed, withData);
    LandsThere(rows, images, k);
    SamePhotos(rows, images, withData, Picked(LandsAt(rows, images, k), |images|));
  }

  lemma LandsThere(rows: seq<MessageRow>, images: seq<ImageRow>, k: nat)
    requires DistinctIds(rows) && k < |rows|
    ensures Picked(BelongsAt(PlacedAll(rows, images), rows[k].id), |images|) == Picked(LandsAt(rows, images, k), |images|)
  {
    forall i: nat | i < |images|
      ensures BelongsAt(PlacedAll(rows, images), rows[k].id)(i) == LandsAt(rows, images, k)(i)
    {
      LandsWhere(rows, images, k, i);
    }
    PickedSame(BelongsAt(PlacedAll(rows, images), rows[k].id), LandsAt(rows, images, k), |images|);
  }

  /** Where a photo lands does not change it. */
  lemma SamePhotos(rows: seq<MessageRow>, images: seq<ImageRow>, withData: bool, js: seq<nat>)
    requires rows != []
    ensures Mapped(PhotoAt(PlacedAll(rows, images), withData), js) == Mapped(PhotoAt(images, withData), js)
  {}

  lemma LandsWhere(rows: seq<MessageRow>, images: seq<ImageRow>, k: nat, i: nat)
    requires DistinctIds(rows) && k < |rows| && i < |images|
    ensures BelongsAt(PlacedAll(rows, images), rows[k].id)(i) <==> LandsAt(rows, images, k)(i)
  {
    assert rows[k].id in Ids(rows);
    assert k > 0 ==> rows[0].id != rows[k].id;
  }

  /** In one snapshot of the database the images read are those of the messages read. */
  lemma SnapshotCovered(t: Tables, conv: string)
    ensures Covered(Rows(t, conv), ImageRows(t, conv))
  {
    FilterMembers(AttachedTo(Ids(Rows(t, conv))), t.images);
  }
}
