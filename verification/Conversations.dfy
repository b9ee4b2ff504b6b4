/**
Conversations as the tables hold them, and as what they stand for: a list of turns that only ever
grows by whole exchanges.
*/
module Conversations {
  import opened Seqs
  import opened Entities
  import opened Schema
  import opened Joins

  /** The largest identifier each table ever gave out. */
  datatype Counters = Counters(message: int, image: int, ingredient: int, entry: int)

  const NO_IDS: Counters := Counters(0, 0, 0, 0)

  function MessageKey(): MessageRow -> int { (m: MessageRow) => m.id }
  function ImageKey(): ImageRow -> int { (i: ImageRow) => i.id }
  function IngredientKey(): IngredientRow -> int { (i: IngredientRow) => i.id }
  function EntryKey(): JournalRow -> int { (r: JournalRow) => r.entry.id }

  ghost predicate UniqueNames(rows: seq<IngredientRow>) {
    forall i, j | 0 <= i < j < |rows| :: rows[i].owner != rows[j].owner || rows[i].name != rows[j].name
  }

  function IsUser(): MessageRow -> bool { (m: MessageRow) => m.role == "user" }

  /** Keys increase and never repeat, references resolve, and images hang off user messages. */
  ghost predicate MessagesSound(t: Tables, c: Counters) {
    && Ordered(MessageKey(), t.messages) && Below(MessageKey(), t.messages, c.message)
    && (forall m | m in t.messages :: m.conversation in t.conversations)
  }

  ghost predicate ImagesSound(t: Tables, c: Counters) {
    && Ordered(ImageKey(), t.images) && Below(ImageKey(), t.images, c.image)
    && (forall im | im in t.images :: im.message in Ids(Filter(IsUser(), t.messages)))
  }

  ghost predicate Sound(t: Tables, c: Counters) {
    && MessagesSound(t, c) && ImagesSound(t, c)
    && Ordered(IngredientKey(), t.ingredients) && Below(IngredientKey(), t.ingredients, c.ingredient)
    && UniqueNames(t.ingredients)
    && Ordered(EntryKey(), t.journal) && Below(EntryKey(), t.journal, c.entry)
    && (forall r | r in t.journal :: 1 <= r.entry.taste <= 5)
  }

  // ---------------------------------------------------------------------------------------------
  // The turns of a conversation
  // ---------------------------------------------------------------------------------------------

  function PhotosFor(id: int, images: seq<ImageRow>): seq<Photo> {
    PhotosOf(LoadedAll(Filter(OfMessage(id), images), true))
  }

  function TurnFor(row: MessageRow, images: seq<ImageRow>): Turn {
    Turn(row.role, row.text, PhotosFor(row.id, images))
  }

  function Turned(rows: seq<MessageRow>, images: seq<ImageRow>): (r: seq<Turn>)
    ensures |r| == |rows| && forall k | 0 <= k < |r| :: r[k] == TurnFor(rows[k], images)
  {
    seq(|rows|, k requires 0 <= k < |rows| => TurnFor(rows[k], images))
  }

  function Turns(t: Tables, conv: string): seq<Turn> { Turned(Rows(t, conv), ImageRows(t, conv)) }

  lemma TurnsOfPlain(rows: seq<MessageRow>, images: seq<ImageRow>)
    ensures TurnsOf(Plain(rows, images, true)) == Turned(rows, images)
  {}

  function UserTurn(user: Message): Turn { Turn("user", user.text, PhotosOf(user.images)) }

  function AnswerTurn(answer: string): Turn { Turn("assistant", answer, []) }

  // ---------------------------------------------------------------------------------------------
  // Membership by id
  // ---------------------------------------------------------------------------------------------

  lemma IdsBelow(t: Tables, c: Counters, conv: string)
    requires MessagesSound(t, c)
    ensures forall id | id in Ids(Rows(t, conv)) :: id <= c.message
  {
    FilterMembers(InConversation(conv), t.messages);
    forall id | id in Ids(Rows(t, conv)) ensures id <= c.message {
      var k :| 0 <= k < |Rows(t, conv)| && Rows(t, conv)[k].id == id;
      assert Rows(t, conv)[k] in t.messages;
      assert MessageKey()(Rows(t, conv)[k]) <= c.message;
    }
  }

  lemma SameIdSameRow(rows: seq<MessageRow>, a: MessageRow, b: MessageRow)
    requires Ordered(MessageKey(), rows) && a in rows && b in rows && a.id == b.id
    ensures a == b
  {
    var i :| 0 <= i < |rows| && rows[i] == a;
    var j :| 0 <= j < |rows| && rows[j] == b;
    if i < j { OrderedPair(MessageKey(), rows, i, j); }
    if j < i { OrderedPair(MessageKey(), rows, j, i); }
  }

  lemma RowsDistinct(t: Tables, c: Counters, conv: string)
    requires MessagesSound(t, c)
    ensures DistinctIds(Rows(t, conv)) && Ordered(MessageKey(), Rows(t, conv))
  {
    FilterOrdered(MessageKey(), InConversation(conv), t.messages);
    OrderedDistinct(Rows(t, conv));
  }

  lemma OrderedDistinct(rows: seq<MessageRow>)
    requires Ordered(MessageKey(), rows)
    ensures DistinctIds(rows)
  {
    forall i, j | 0 <= i < j < |rows| ensures rows[i].id != rows[j].id {
      OrderedPair(MessageKey(), rows, i, j);
    }
  }

  /** Different conversations have different messages. */
  lemma IdsApart(t: Tables, c: Counters, conv: string, other: string)
    requires MessagesSound(t, c) && conv != other
    ensures Ids(Rows(t, conv)) !! Ids(Rows(t, other))
  {
    FilterMembers(InConversation(conv), t.messages);
    FilterMembers(InConversation(other), t.messages);
    forall id | id in Ids(Rows(t, conv)) && id in Ids(Rows(t, other)) ensures false {
      var i :| 0 <= i < |Rows(t, conv)| && Rows(t, conv)[i].id == id;
      var j :| 0 <= j < |Rows(t, other)| && Rows(t, other)[j].id == id;
      SameIdSameRow(t.messages, Rows(t, conv)[i], Rows(t, other)[j]);
    }
  }

  // ---------------------------------------------------------------------------------------------
  // What an append does to the turns
  // ---------------------------------------------------------------------------------------------

  function LastId(bound: int, rows: seq<ImageRow>): int {
    if rows == [] then bound else rows[|rows| - 1].id
  }

  /** Each identifier is larger than the one before it, the first than `bound`. */
  predicate Ascending(bound: int, rows: seq<ImageRow>) {
    rows != [] ==>
      var front := rows[..|rows| - 1];
      Ascending(bound, front) && LastId(bound, front) < rows[|rows| - 1].id
  }

  /** Identifiers that are new to the database, in the order the transaction draws them. */
  predicate NewTo(c: Counters, user: Message, ids: NewIds) {
    && |ids.images| == |user.images|
    && c.message < ids.user < ids.answer
    && Ascending(c.image, NewImages(user, ids))
  }

  lemma AppendRows(t: Tables, owner: string, conv: string, user: Message, answer: string, now: int, ids: NewIds, d: string)
    requires Owns(t, owner, conv) && |ids.images| == |user.images|
    ensures var t2 := AppendExchange(t, owner, conv, user, answer, now, ids);
            Rows(t2, d) == if d == conv then Rows(t, conv) + NewMessages(conv, user, answer, now, ids) else Rows(t, d)
  {
    var more := NewMessages(conv, user, answer, now, ids);
    FilterConcat(InConversation(d), t.messages, more);
    if d == conv { FilterAll(InConversation(d), more); } else { FilterNone(InConversation(d), more); }
  }

  lemma NewImagesNot(user: Message, ids: NewIds, wanted: set<int>)
    requires |ids.images| == |user.images|
    ensures ids.user !in wanted ==> Filter(AttachedTo(wanted), NewImages(user, ids)) == []
    ensures ids.user in wanted ==> Filter(AttachedTo(wanted), NewImages(user, ids)) == NewImages(user, ids)
  {
    var more := NewImages(user, ids);
    assert forall im | im in more :: im.message == ids.user;
    if ids.user in wanted { FilterAll(AttachedTo(wanted), more); } else { FilterNone(AttachedTo(wanted), more); }
  }

  lemma AppendImages(t: Tables, c: Counters, owner: string, conv: string, user: Message, answer: string, now: int, ids: NewIds, d: string)
    requires Sound(t, c) && Owns(t, owner, conv) && NewTo(c, user, ids)
    ensures var t2 := AppendExchange(t, owner, conv, user, answer, now, ids);
            ImageRows(t2, d) == if d == conv then ImageRows(t, conv) + NewImages(user, ids) else ImageRows(t, d)
  {
    var t2, more := AppendExchange(t, owner, conv, user, answer, now, ids), NewImages(user, ids);
    var before, after := Ids(Rows(t, d)), Ids(Rows(t2, d));
    AppendRows(t, owner, conv, user, answer, now, ids, d);
    IdsBelow(t, c, d);
    ImageMessagesBelow(t, c);
    assert d == conv ==> Rows(t2, d)[|Rows(t, conv)|].id == ids.user;
    forall im | im in t.images ensures AttachedTo(before)(im) == AttachedTo(after)(im) {
      OldIdsOnly(Rows(t, d), Rows(t2, d), ids, im.message);
    }
    FilterSame(AttachedTo(before), AttachedTo(after), t.images);
    FilterConcat(AttachedTo(after), t.images, more);
    NewImagesNot(user, ids, after);
  }

  lemma ImageMessagesBelow(t: Tables, c: Counters)
    requires Sound(t, c)
    ensures forall im | im in t.images :: im.message <= c.message && im.message in Ids(t.messages)
  {
    var users := Filter(IsUser(), t.messages);
    FilterMembers(IsUser(), t.messages);
    forall im | im in t.images ensures im.message <= c.message && im.message in Ids(t.messages) {
      var k :| 0 <= k < |users| && users[k].id == im.message;
      assert users[k] in t.messages;
      assert MessageKey()(users[k]) <= c.message;
      var j :| 0 <= j < |t.messages| && t.messages[j] == users[k];
    }
  }

  lemma OldIdsOnly(before: seq<MessageRow>, after: seq<MessageRow>, ids: NewIds, id: int)
    requires after == before || (exists a, b :: after == before + [a, b] && a.id == ids.user && b.id == ids.answer)
    requires id != ids.user && id != ids.answer
    ensures id in Ids(before) <==> id in Ids(after)
  {
    if id in Ids(before) {
      var k :| 0 <= k < |before| && before[k].id == id;
      assert after[k].id == id;
    }
  }

  lemma PhotosUnchanged(id: int, images: seq<ImageRow>, more: seq<ImageRow>, to: int)
    requires id != to && forall im | im in more :: im.message == to
    ensures PhotosFor(id, images + more) == PhotosFor(id, images)
  {
    FilterConcat(OfMessage(id), images, more);
    FilterNone(OfMessage(id), more);
  }

  lemma PhotosNew(images: seq<ImageRow>, user: Message, ids: NewIds)
    requires |ids.images| == |user.images| && forall im | im in images :: im.message != ids.user
    ensures PhotosFor(ids.user, images + NewImages(user, ids)) == PhotosOf(user.images)
  {
    var more := NewImages(user, ids);
    FilterConcat(OfMessage(ids.user), images, more);
    FilterNone(OfMessage(ids.user), images);
    FilterAll(OfMessage(ids.user), more);
    assert Filter(OfMessage(ids.user), images + more) == more;
    PhotosWritten(user, ids);
  }

  lemma PhotosWritten(user: Message, ids: NewIds)
    requires |ids.images| == |user.images|
    ensures PhotosOf(LoadedAll(NewImages(user, ids), true)) == PhotosOf(user.images)
  {}

  lemma OldTurnsKept(t: Tables, c: Counters, conv: string, user: Message, ids: NewIds)
    requires Sound(t, c) && NewTo(c, user, ids)
    ensures Turned(Rows(t, conv), ImageRows(t, conv) + NewImages(user, ids)) == Turns(t, conv)
  {
    var rows, images, more := Rows(t, conv), ImageRows(t, conv), NewImages(user, ids);
    IdsBelow(t, c, conv);
    assert forall im | im in more :: im.message == ids.user;
    forall k | 0 <= k < |rows| ensures TurnFor(rows[k], images + more) == TurnFor(rows[k], images) {
      assert rows[k].id in Ids(rows);
      PhotosUnchanged(rows[k].id, images, more, ids.user);
    }
  }

  lemma NoPhotos(id: int, images: seq<ImageRow>)
    requires forall im | im in images :: im.message != id
    ensures PhotosFor(id, images) == []
  {
    FilterNone(OfMessage(id), images);
  }

  lemma ConversationImagesBelow(t: Tables, c: Counters, conv: string)
    requires Sound(t, c)
    ensures forall im | im in ImageRows(t, conv) :: im.message <= c.message
  {
    ImageMessagesBelow(t, c);
    FilterMembers(AttachedTo(Ids(Rows(t, conv))), t.images);
  }

  lemma NewTurns(t: Tables, c: Counters, conv: string, user: Message, answer: string, now: int, ids: NewIds)
    requires Sound(t, c) && NewTo(c, user, ids)
    ensures Turned(NewMessages(conv, user, answer, now, ids), ImageRows(t, conv) + NewImages(user, ids))
            == [UserTurn(user), AnswerTurn(answer)]
  {
    var images, more := ImageRows(t, conv), NewImages(user, ids);
    ConversationImagesBelow(t, c, conv);
    PhotosNew(images, user, ids);
    NoPhotos(ids.answer, images + more);
  }

  lemma TurnedConcat(a: seq<MessageRow>, b: seq<MessageRow>, images: seq<ImageRow>)
    ensures Turned(a + b, images) == Turned(a, images) + Turned(b, images)
  {}

  /** An append adds the exchange to its conversation, word for word, and touches no other. */
  lemma AppendTurns(t: Tables, c: Counters, owner: string, conv: string, user: Message, answer: string, now: int, ids: NewIds, d: string)
    requires Sound(t, c) && Owns(t, owner, conv) && NewTo(c, user, ids)
    ensures var t2 := AppendExchange(t, owner, conv, user, answer, now, ids);
            Turns(t2, d) == if d == conv then Turns(t, conv) + [UserTurn(user), AnswerTurn(answer)] else Turns(t, d)
  {
    AppendRows(t, owner, conv, user, answer, now, ids, d);
    AppendImages(t, c, owner, conv, user, answer, now, ids, d);
    if d == conv {
      OldTurnsKept(t, c, conv, user, ids);
      NewTurns(t, c, conv, user, answer, now, ids);
      TurnedConcat(Rows(t, conv), NewMessages(conv, user, answer, now, ids), ImageRows(t, conv) + NewImages(user, ids));
    }
  }

  // ---------------------------------------------------------------------------------------------
  // What a delete does to the turns
  // ---------------------------------------------------------------------------------------------

  lemma DeleteRows(t: Tables, c: Counters, owner: string, conv: string, d: string)
    requires Sound(t, c) && Owns(t, owner, conv)
    ensures var t2 := DeleteConversation(t, owner, conv);
            && Rows(t2, d) == (if d == conv then [] else Rows(t, d))
            && ImageRows(t2, d) == (if d == conv then [] else ImageRows(t, d))
  {
    var t2 := DeleteConversation(t, owner, conv);
    var gone := Ids(Rows(t, conv));
    FilterSwap(InConversation(d), NotInConversation(conv), t.messages);
    FilterMembers(InConversation(d), t.messages);
    if d == conv {
      FilterNone(NotInConversation(conv), Filter(InConversation(conv), t.messages));
      FilterNone(AttachedTo({}), t2.images);
      assert Ids([]) == {};
    } else {
      FilterAll(NotInConversation(conv), Filter(InConversation(d), t.messages));
      var mine := Ids(Rows(t, d));
      IdsApart(t, c, conv, d);
      FilterSwap(AttachedTo(mine), NotAttachedTo(gone), t.images);
      FilterMembers(AttachedTo(mine), t.images);
      FilterAll(NotAttachedTo(gone), Filter(AttachedTo(mine), t.images));
    }
  }

  /** A delete removes exactly its conversation's turns. */
  lemma DeleteTurns(t: Tables, c: Counters, owner: string, conv: string, d: string)
    requires Sound(t, c) && Owns(t, owner, conv)
    ensures Turns(DeleteConversation(t, owner, conv), d) == if d == conv then [] else Turns(t, d)
  {
    DeleteRows(t, c, owner, conv, d);
  }

  // ---------------------------------------------------------------------------------------------
  // Every statement keeps the tables sound
  // ---------------------------------------------------------------------------------------------

  lemma CreateSound(t: Tables, c: Counters, owner: string, conv: string, now: int)
    requires Sound(t, c)
    ensures Sound(CreateConversation(t, owner, conv, now), c)
  {}

  lemma OrderedTwo(rows: seq<MessageRow>, a: MessageRow, b: MessageRow, bound: int)
    requires Ordered(MessageKey(), rows) && Below(MessageKey(), rows, bound) && bound < a.id < b.id
    ensures Ordered(MessageKey(), rows + [a, b]) && Below(MessageKey(), rows + [a, b], b.id)
  {
    OrderedSnoc(MessageKey(), rows, a, bound);
    OrderedSnoc(MessageKey(), rows + [a], b, a.id);
    assert rows + [a] + [b] == rows + [a, b];
  }

  lemma LastApart(rows: seq<ImageRow>, more: seq<ImageRow>)
    requires more != []
    ensures rows + more == (rows + more[..|more| - 1]) + [more[|more| - 1]]
  {}

  lemma {:induction false} ImagesOrdered(rows: seq<ImageRow>, more: seq<ImageRow>, bound: int)
    requires Ordered(ImageKey(), rows) && Below(ImageKey(), rows, bound) && Ascending(bound, more)
    ensures Ordered(ImageKey(), rows + more) && Below(ImageKey(), rows + more, LastId(bound, more))
    ensures bound <= LastId(bound, more)
    decreases |more|
  {
    if more == [] {
      assert rows + more == rows;
    } else {
      var front, last := more[..|more| - 1], more[|more| - 1];
      ImagesOrdered(rows, front, bound);
      LastApart(rows, more);
      OrderedSnoc(ImageKey(), rows + front, last, LastId(bound, front));
    }
  }

  lemma IdsGrow(rows: seq<MessageRow>, more: seq<MessageRow>, id: int)
    ensures id in Ids(rows) || id in Ids(more) ==> id in Ids(rows + more)
  {
    if id in Ids(rows) {
      var k :| 0 <= k < |rows| && rows[k].id == id;
      assert (rows + more)[k].id == id;
    } else if id in Ids(more) {
      var k :| 0 <= k < |more| && more[k].id == id;
      assert (rows + more)[|rows| + k].id == id;
    }
  }

  lemma AppendImagesSound(t: Tables, c: Counters, conv: string, user: Message, answer: string, now: int, ids: NewIds)
    requires Sound(t, c) && NewTo(c, user, ids)
    ensures var more := NewMessages(conv, user, answer, now, ids);
            forall im | im in t.images + NewImages(user, ids) ::
              im.message in Ids(Filter(IsUser(), t.messages + more))
  {
    var more := NewMessages(conv, user, answer, now, ids);
    var users, added := Filter(IsUser(), t.messages), Filter(IsUser(), more);
    FilterConcat(IsUser(), t.messages, more);
    FilterMembers(IsUser(), more);
    assert more[0] in added;
    assert ids.user in Ids(added);
    forall im | im in t.images + NewImages(user, ids) ensures im.message in Ids(users + added) {
      IdsGrow(users, added, im.message);
    }
  }

  function Counted(c: Counters, user: Message, ids: NewIds): Counters
    requires |ids.images| == |user.images|
  {
    c.(message := ids.answer, image := LastId(c.image, NewImages(user, ids)))
  }

  lemma AppendMessagesSound(t: Tables, c: Counters, owner: string, conv: string, user: Message, answer: string, now: int, ids: NewIds)
    requires Sound(t, c) && NewTo(c, user, ids)
    ensures MessagesSound(AppendExchange(t, owner, conv, user, answer, now, ids), Counted(c, user, ids))
  {
    BelowMore(MessageKey(), t.messages, c.message, ids.answer);
    if Owns(t, owner, conv) {
      var more := NewMessages(conv, user, answer, now, ids);
      OrderedTwo(t.messages, more[0], more[1], c.message);
    }
  }

  lemma AppendSound(t: Tables, c: Counters, owner: string, conv: string, user: Message, answer: string, now: int, ids: NewIds)
    requires Sound(t, c) && NewTo(c, user, ids)
    ensures Sound(AppendExchange(t, owner, conv, user, answer, now, ids), Counted(c, user, ids))
  {
    AppendMessagesSound(t, c, owner, conv, user, answer, now, ids);
    ImagesOrdered(t.images, NewImages(user, ids), c.image);
    BelowMore(ImageKey(), t.images, c.image, LastId(c.image, NewImages(user, ids)));
    AppendImagesSound(t, c, conv, user, answer, now, ids);
  }

  lemma BelowMore<T(!new)>(key: T -> int, xs: seq<T>, bound: int, more: int)
    requires Below(key, xs, bound) && bound <= more
    ensures Below(key, xs, more)
  {}

  lemma DeleteSound(t: Tables, c: Counters, owner: string, conv: string)
    requires Sound(t, c)
    ensures Sound(DeleteConversation(t, owner, conv), c)
  {
    if Owns(t, owner, conv) {
      var gone := Ids(Rows(t, conv));
      var kept, images := Filter(NotInConversation(conv), t.messages), Filter(NotAttachedTo(gone), t.images);
      FilterOrdered(MessageKey(), NotInConversation(conv), t.messages);
      FilterBelow(MessageKey(), NotInConversation(conv), t.messages, c.message);
      FilterMembers(NotInConversation(conv), t.messages);
      FilterOrdered(ImageKey(), NotAttachedTo(gone), t.images);
      FilterBelow(ImageKey(), NotAttachedTo(gone), t.images, c.image);
      FilterMembers(NotAttachedTo(gone), t.images);
      forall im | im in images ensures im.message in Ids(Filter(IsUser(), kept)) {
        DeleteKeepsUser(t, conv, im.message);
      }
    }
  }

  lemma IdInRows(t: Tables, conv: string, row: MessageRow)
    requires row in t.messages && row.conversation == conv
    ensures row.id in Ids(Rows(t, conv))
  {
    FilterMembers(InConversation(conv), t.messages);
    var j :| 0 <= j < |Rows(t, conv)| && Rows(t, conv)[j] == row;
    assert Rows(t, conv)[j].id == row.id;
  }

  lemma DeleteKeepsUser(t: Tables, conv: string, id: int)
    requires id in Ids(Filter(IsUser(), t.messages)) && id !in Ids(Rows(t, conv))
    ensures id in Ids(Filter(IsUser(), Filter(NotInConversation(conv), t.messages)))
  {
    var users := Filter(IsUser(), t.messages);
    var k :| 0 <= k < |users| && users[k].id == id;
    FilterMembers(IsUser(), t.messages);
    FilterMembers(InConversation(conv), t.messages);
    FilterMembers(NotInConversation(conv), t.messages);
    FilterMembers(IsUser(), Filter(NotInConversation(conv), t.messages));
    var row := users[k];
    if row.conversation == conv { IdInRows(t, conv, row); }
    var left := Filter(IsUser(), Filter(NotInConversation(conv), t.messages));
    assert row in left;
    var j :| 0 <= j < |left| && left[j] == row;
    assert left[j].id == id;
  }
}
