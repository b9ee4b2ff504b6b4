/**
What each statement of internal/store leaves in its table, row by row: which rows come and go, what becomes of
the others, and what the single-row reads find.
*/
module Statements {
  import opened Common
  import opened Seqs
  import opened Entities
  import opened Schema
  import opened Conversations

  // ---------------------------------------------------------------------------------------------
  // Conversations
  // ---------------------------------------------------------------------------------------------

  /** A conversation begins without a title, nothing else changes, and deleting it at once undoes it. */
  lemma Created(t: Tables, c: Counters, owner: string, conv: string, now: int)
    requires Sound(t, c) && conv !in t.conversations
    ensures var t2 := CreateConversation(t, owner, conv, now);
            && (forall d :: d in t2.conversations <==> d in t.conversations || d == conv)
            && (forall d | d in t.conversations :: t2.conversations[d] == t.conversations[d])
            && t2.conversations[conv] == ConversationRow(owner, "", now, now)
            && t2.(conversations := t.conversations) == t
            && DeleteConversation(t2, owner, conv) == t
  {
    FilterNone(InConversation(conv), t.messages);
    FilterAll(NotInConversation(conv), t.messages);
    FilterAll(NotAttachedTo({}), t.images);
    assert Ids(Rows(t, conv)) == {};
    assert t.conversations[conv := ConversationRow(owner, "", now, now)] - {conv} == t.conversations;
  }

  /**
  Only its owner can delete a conversation. With it go its messages and their images, and nothing else.
  */
  lemma Deleted(t: Tables, owner: string, conv: string)
    ensures var t2 := DeleteConversation(t, owner, conv);
            var theirs := conv in t.conversations && t.conversations[conv].owner == owner;
            && (!theirs ==> t2 == t)
            && (forall d :: d in t2.conversations <==> d in t.conversations && !(theirs && d == conv))
            && (forall d | d in t2.conversations :: t2.conversations[d] == t.conversations[d])
            && (forall m :: m in t2.messages <==> m in t.messages && !(theirs && m.conversation == conv))
            && (forall im :: im in t2.images <==>
                  im in t.images
                  && !(theirs && exists m :: m in t.messages && m.conversation == conv && m.id == im.message))
            && t2.ingredients == t.ingredients && t2.journal == t.journal
  {
    FilterMembers(NotInConversation(conv), t.messages);
    FilterMembers(NotAttachedTo(Ids(Rows(t, conv))), t.images);
    forall id ensures id in Ids(Rows(t, conv)) <==> exists m :: m in t.messages && m.conversation == conv && m.id == id {
      IdsOfRows(t, conv, id);
    }
  }

  lemma IdsOfRows(t: Tables, conv: string, id: int)
    ensures id in Ids(Rows(t, conv)) <==> exists m :: m in t.messages && m.conversation == conv && m.id == id
  {
    var rows := Rows(t, conv);
    FilterMembers(InConversation(conv), t.messages);
    if id in Ids(rows) {
      var k :| 0 <= k < |rows| && rows[k].id == id;
      assert rows[k] in rows;
    }
    if m :| m in t.messages && m.conversation == conv && m.id == id {
      assert m in rows;
      var k :| 0 <= k < |rows| && rows[k] == m;
    }
  }

  /**
  An exchange: the question and the answer under their identifiers, at one time, the photos under the
  question, and in the conversation's own row the time, and the title if it had none.
  */
  lemma Appended(t: Tables, owner: string, conv: string, user: Message, answer: string, now: int, ids: NewIds)
    requires |ids.images| == |user.images| && conv in t.conversations && t.conversations[conv].owner == owner
    ensures var t2 := AppendExchange(t, owner, conv, user, answer, now, ids);
            var c, c2 := t.conversations[conv], t2.conversations[conv];
            && t2.conversations.Keys == t.conversations.Keys
            && (forall d | d in t.conversations && d != conv :: t2.conversations[d] == t.conversations[d])
            && c2.owner == c.owner && c2.created == c.created && c2.updated == now
            && (if c.title == "" then TitleFits(c2.title, user.text) else c2.title == c.title)
            && t2.messages == t.messages + [MessageRow(ids.user, conv, "user", user.text, now),
                                            MessageRow(ids.answer, conv, "assistant", answer, now)]
            && |t2.images| == |t.images| + |user.images| && t.images <= t2.images
            && (forall i | 0 <= i < |user.images| ::
                  t2.images[|t.images| + i]
                  == ImageRow(ids.images[i], ids.user, user.images[i].mediaType, user.images[i].data))
            && t2.ingredients == t.ingredients && t2.journal == t.journal
  {
    TitleFromFits(user.text);
  }

  // ---------------------------------------------------------------------------------------------
  // One photo
  // ---------------------------------------------------------------------------------------------

  ghost predicate IsTheirs(t: Tables, owner: string, row: ImageRow) {
    exists m :: m in t.messages && m.id == row.message
                && m.conversation in t.conversations && t.conversations[m.conversation].owner == owner
  }

  lemma SharedIdsOf(t: Tables, owner: string, row: ImageRow)
    ensures row.message in Ids(Filter(OwnedBy(t, owner), t.messages)) <==> IsTheirs(t, owner, row)
  {
    var rows := Filter(OwnedBy(t, owner), t.messages);
    FilterMembers(OwnedBy(t, owner), t.messages);
    if row.message in Ids(rows) {
      var k :| 0 <= k < |rows| && rows[k].id == row.message;
      assert rows[k] in rows;
    }
    if m :| m in t.messages && m.id == row.message && Owns(t, owner, m.conversation) {
      assert m in rows;
      var k :| 0 <= k < |rows| && rows[k] == m;
    }
  }

  lemma OneImageById(t: Tables, c: Counters, a: ImageRow, b: ImageRow)
    requires Sound(t, c) && a in t.images && b in t.images && a.id == b.id
    ensures a == b
  {
    var i :| 0 <= i < |t.images| && t.images[i] == a;
    var j :| 0 <= j < |t.images| && t.images[j] == b;
    if i < j { OrderedPair(ImageKey(), t.images, i, j); }
    if j < i { OrderedPair(ImageKey(), t.images, j, i); }
  }

  /** A photo is found if and only if it has the id asked for and is on a message in a conversation of the owner. */
  lemma FindImageIff(t: Tables, c: Counters, owner: string, id: int, im: Image)
    requires Sound(t, c)
    ensures FindImage(t, owner, id) == Some(im)
            <==> exists row :: row in t.images && row.id == id && IsTheirs(t, owner, row)
                               && im == Image(id, row.mediaType, row.data)
  {
    var shared := Filter(AttachedTo(Ids(Filter(OwnedBy(t, owner), t.messages))), t.images);
    var found := Filter(WithId(id), shared);
    FilterMembers(AttachedTo(Ids(Filter(OwnedBy(t, owner), t.messages))), t.images);
    FilterMembers(WithId(id), shared);
    forall row | row in t.images ensures row in found <==> row.id == id && IsTheirs(t, owner, row) {
      SharedIdsOf(t, owner, row);
    }
    if found != [] { assert found[0] in found; }
    if row :| row in t.images && row.id == id && IsTheirs(t, owner, row) && im == Image(id, row.mediaType, row.data) {
      assert row in found;
      OneImageById(t, c, row, found[0]);
    }
  }

  // ---------------------------------------------------------------------------------------------
  // Pantry and journal
  // ---------------------------------------------------------------------------------------------

  /** What adding a list of names has made of the rows. */
  ghost predicate Listed(rows: seq<IngredientRow>, after: seq<IngredientRow>, owner: string, names: seq<string>,
                         ids: seq<int>, now: int) {
    && |rows| <= |after|
    && (forall i | 0 <= i < |rows| ::
          && after[i].id == rows[i].id && after[i].owner == rows[i].owner && after[i].name == rows[i].name
          && after[i].created == rows[i].created
          && (after[i].inStock <==> rows[i].inStock || (rows[i].owner == owner && rows[i].name in names)))
    && (forall i | |rows| <= i < |after| ::
          after[i].owner == owner && after[i].name in names && after[i].id in ids && after[i].inStock && after[i].created == now)
  }

  /** Rows that are there stay in place and only come into stock when listed; new rows are listed names, stamped. */
  lemma {:induction false} Added(rows: seq<IngredientRow>, owner: string, names: seq<string>, ids: seq<int>, now: int)
    requires |ids| == |names|
    ensures Listed(rows, UpsertAll(rows, owner, names, ids, now), owner, names, ids, now)
    decreases |names|
  {
    if names != [] {
      var n := |names| - 1;
      Added(rows, owner, names[..n], ids[..n], now);
      assert names == names[..n] + [names[n]] && ids == ids[..n] + [ids[n]];
      AddedOne(rows, UpsertAll(rows, owner, names[..n], ids[..n], now), owner, names[..n], ids[..n], now, names[n], ids[n]);
    }
  }

  lemma AddedOne(rows: seq<IngredientRow>, after: seq<IngredientRow>, owner: string, names: seq<string>, ids: seq<int>,
                 now: int, name: string, id: int)
    requires Listed(rows, after, owner, names, ids, now)
    ensures Listed(rows, Upsert(after, owner, name, id, now), owner, names + [name], ids + [id], now)
  {
    if !HasName(after, owner, name) {
      forall i | 0 <= i < |rows| ensures !(rows[i].owner == owner && rows[i].name == name) {
        assert after[i].owner == rows[i].owner && after[i].name == rows[i].name;
      }
    }
  }

  /**
  Switching touches only the stock of the owner's row with the id; what it was before does not matter, so
  switching back undoes it.
  */
  lemma StockSet(t: Tables, owner: string, id: int, inStock: bool, before: bool)
    ensures var rows, after := t.ingredients, SetInStock(t, owner, id, inStock).ingredients;
            && SetInStock(t, owner, id, inStock).(ingredients := rows) == t
            && |after| == |rows|
            && (forall i | 0 <= i < |rows| ::
                  after[i] == rows[i].(inStock := if rows[i].id == id && rows[i].owner == owner then inStock else rows[i].inStock))
            && SetInStock(SetInStock(t, owner, id, inStock), owner, id, before) == SetInStock(t, owner, id, before)
            && ((forall i | 0 <= i < |rows| && rows[i].id == id && rows[i].owner == owner :: rows[i].inStock == before) ==>
                  SetInStock(t, owner, id, before) == t)
  {
    var rows := t.ingredients;
    SetTwice(rows, owner, id, inStock, before);
    if forall i | 0 <= i < |rows| && rows[i].id == id && rows[i].owner == owner :: rows[i].inStock == before {
      SetSame(rows, owner, id, before);
    }
  }

  lemma SetTwice(rows: seq<IngredientRow>, owner: string, id: int, inStock: bool, before: bool)
    ensures SetAll(SetAll(rows, owner, id, inStock), owner, id, before) == SetAll(rows, owner, id, before)
  {}

  lemma SetSame(rows: seq<IngredientRow>, owner: string, id: int, before: bool)
    requires forall i | 0 <= i < |rows| && rows[i].id == id && rows[i].owner == owner :: rows[i].inStock == before
    ensures SetAll(rows, owner, id, before) == rows
  {}

  /** Deleting takes out the owner's row with the id, and no other. */
  lemma IngredientGone(t: Tables, owner: string, id: int)
    ensures var t2 := DeleteIngredient(t, owner, id);
            && t2.(ingredients := t.ingredients) == t
            && forall row :: row in t2.ingredients <==> row in t.ingredients && (row.id != id || row.owner != owner)
  {
    FilterMembers(NotIngredient(owner, id), t.ingredients);
  }

  /** An entry comes in last, as it is, under its owner, all the others stay, and deleting it undoes it. */
  lemma EntryAdded(t: Tables, c: Counters, owner: string, entry: JournalEntry)
    requires Sound(t, c) && c.entry < entry.id
    ensures var t2 := AddJournalEntry(t, owner, entry);
            && t2.(journal := t.journal) == t && t2.journal == t.journal + [JournalRow(owner, entry)]
            && DeleteJournalEntry(t2, owner, entry.id) == t
  {
    FilterSnoc(NotEntry(owner, entry.id), t.journal, JournalRow(owner, entry));
    forall row | row in t.journal ensures NotEntry(owner, entry.id)(row) {
      assert EntryKey()(row) <= c.entry;
    }
    FilterAll(NotEntry(owner, entry.id), t.journal);
  }

  /** Deleting takes out the owner's entry with the id, and no other. */
  lemma EntryGone(t: Tables, owner: string, id: int)
    ensures var t2 := DeleteJournalEntry(t, owner, id);
            && t2.(journal := t.journal) == t
            && forall row :: row in t2.journal <==> row in t.journal && (row.entry.id != id || row.owner != owner)
  {
    FilterMembers(NotEntry(owner, id), t.journal);
  }
}
