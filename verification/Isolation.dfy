/**
Owners do not see each other: in every run, what an owner has, and what an owner is told, is what it
would be had all the others never existed.
*/
module Isolation {
  import opened Seqs
  import opened Entities
  import opened Schema
  import opened Conversations
  import opened Pantry
  import opened UserMessages
  import opened Protocol
  import opened Invariant

  // ---------------------------------------------------------------------------------------------
  // One owner's share of the database
  // ---------------------------------------------------------------------------------------------

  function TheirMessages(t: Tables, o: string): seq<MessageRow> { Filter(OwnedBy(t, o), t.messages) }

  function TheirImages(t: Tables, o: string): seq<ImageRow> {
    Filter(AttachedTo(Ids(TheirMessages(t, o))), t.images)
  }

  function TheirConversations(t: Tables, o: string): map<string, ConversationRow> {
    map c | c in t.conversations && t.conversations[c].owner == o :: t.conversations[c]
  }

  /** The rows that are theirs, down to every image. */
  function Theirs(t: Tables, o: string): Tables {
    Tables(TheirConversations(t, o), TheirMessages(t, o), TheirImages(t, o),
           Filter(TheirIngredient(o), t.ingredients), Filter(TheirEntry(o), t.journal))
  }

  function TheirRequests(s: Sys, o: string): map<int, Request> {
    map k | k in s.requests && s.requests[k].owner == o :: s.requests[k]
  }

  function OwnerOf(a: Action): string {
    match a
    case Create(owner, _, _) => owner
    case Delete(owner, _) => owner
    case AddItems(owner, _, _, _) => owner
    case SwitchItem(owner, _, _) => owner
    case RemoveItem(owner, _) => owner
    case AddEntry(owner, _) => owner
    case RemoveEntry(owner, _) => owner
    case Begin(owner, _, _, _) => owner
    case Advance(owner, _, _) => owner
  }

  /** The run without everybody else. */
  function OnlyBy(acts: seq<Action>, o: string): seq<Action> {
    if acts == [] then []
    else (if OwnerOf(acts[0]) == o then [acts[0]] else []) + OnlyBy(acts[1..], o)
  }

  // ---------------------------------------------------------------------------------------------
  // Every answer depends on their share alone
  // ---------------------------------------------------------------------------------------------

  lemma SameOwns(t: Tables, o: string, conv: string)
    ensures Owns(Theirs(t, o), o, conv) <==> Owns(t, o, conv)
    ensures Owns(t, o, conv) ==> Theirs(t, o).conversations[conv] == t.conversations[conv]
  {}

  /** The messages of this conversation are all theirs. */
  ghost predicate AllTheirs(t: Tables, o: string, conv: string) {
    forall m | m in t.messages && m.conversation == conv :: OwnedBy(t, o)(m)
  }

  lemma SameRows(t: Tables, o: string, conv: string)
    requires AllTheirs(t, o, conv)
    ensures Rows(Theirs(t, o), conv) == Rows(t, conv)
  {
    FilterTwice(InConversation(conv), OwnedBy(t, o), InConversation(conv), t.messages);
  }

  lemma SubIds(rows: seq<MessageRow>, all: seq<MessageRow>)
    requires forall m | m in rows :: m in all
    ensures forall id | id in Ids(rows) :: id in Ids(all)
  {
    forall id | id in Ids(rows) ensures id in Ids(all) {
      var k :| 0 <= k < |rows| && rows[k].id == id;
      assert rows[k] in all;
      var j :| 0 <= j < |all| && all[j] == rows[k];
      assert all[j].id == id;
    }
  }

  lemma RowsTheirs(t: Tables, o: string, conv: string)
    requires AllTheirs(t, o, conv)
    ensures forall m | m in Rows(t, conv) :: m in TheirMessages(t, o)
  {
    FilterMembers(InConversation(conv), t.messages);
    FilterMembers(OwnedBy(t, o), t.messages);
  }

  lemma SameImageRows(t: Tables, o: string, conv: string)
    requires AllTheirs(t, o, conv)
    ensures ImageRows(Theirs(t, o), conv) == ImageRows(t, conv)
  {
    SameRows(t, o, conv);
    var mine := Ids(Rows(t, conv));
    RowsTheirs(t, o, conv);
    SubIds(Rows(t, conv), TheirMessages(t, o));
    FilterTwice(AttachedTo(mine), AttachedTo(Ids(TheirMessages(t, o))), AttachedTo(mine), t.images);
  }

  lemma SameKitchen(t: Tables, o: string, limit: nat)
    ensures Ingredients(Theirs(t, o), o) == Ingredients(t, o)
    ensures Journal(Theirs(t, o), o, limit) == Journal(t, o, limit)
  {
    FilterTwice(TheirIngredient(o), TheirIngredient(o), TheirIngredient(o), t.ingredients);
    FilterTwice(TheirEntry(o), TheirEntry(o), TheirEntry(o), t.journal);
  }

  lemma OwnedTwice(t: Tables, o: string)
    ensures TheirMessages(Theirs(t, o), o) == TheirMessages(t, o)
    ensures TheirImages(Theirs(t, o), o) == TheirImages(t, o)
  {
    FilterTwice(OwnedBy(Theirs(t, o), o), OwnedBy(t, o), OwnedBy(t, o), t.messages);
    var ids := Ids(TheirMessages(t, o));
    FilterTwice(AttachedTo(ids), AttachedTo(ids), AttachedTo(ids), t.images);
  }

  /**
  Every read an owner can make gives what their own share gives: a photo by its id, the pantry, the
  journal, and, of a conversation they own, its messages and photos.
  */
  lemma ReadsSeeOnlyTheirs(t: Tables, c: Counters, o: string, id: int, limit: nat, conv: string)
    requires Sound(t, c)
    ensures FindImage(Theirs(t, o), o, id) == FindImage(t, o, id)
    ensures Ingredients(Theirs(t, o), o) == Ingredients(t, o)
    ensures Journal(Theirs(t, o), o, limit) == Journal(t, o, limit)
    ensures Owns(Theirs(t, o), o, conv) <==> Owns(t, o, conv)
    ensures Owns(t, o, conv) ==> Turns(Theirs(t, o), conv) == Turns(t, conv)
  {
    OwnedTwice(t, o);
    SameKitchen(t, o, limit);
    if Owns(t, o, conv) {
      assert AllTheirs(t, o, conv);
      SameRows(t, o, conv);
      SameImageRows(t, o, conv);
    }
  }

  // ---------------------------------------------------------------------------------------------
  // Conversations come and go
  // ---------------------------------------------------------------------------------------------

  lemma CreateTheirs(t: Tables, c: Counters, owner: string, conv: string, now: int, o: string)
    requires Sound(t, c) && conv !in t.conversations
    ensures var t2 := CreateConversation(t, owner, conv, now);
            Theirs(t2, o) == if o == owner then CreateConversation(Theirs(t, o), owner, conv, now) else Theirs(t, o)
  {
    var t2 := CreateConversation(t, owner, conv, now);
    FilterSame(OwnedBy(t, o), OwnedBy(t2, o), t.messages);
  }

  lemma DeleteOwns(t: Tables, owner: string, conv: string, o: string, d: string)
    requires Owns(t, owner, conv)
    ensures Owns(DeleteConversation(t, owner, conv), o, d) <==> Owns(t, o, d) && d != conv
  {}

  lemma DeleteOwned(t: Tables, owner: string, conv: string, o: string)
    requires Owns(t, owner, conv)
    ensures var t2 := DeleteConversation(t, owner, conv);
            TheirMessages(t2, o) == Filter(NotInConversation(conv), TheirMessages(t, o))
  {
    var t2 := DeleteConversation(t, owner, conv);
    var both := (m: MessageRow) => Owns(t, o, m.conversation) && m.conversation != conv;
    forall m | m in t.messages ensures both(m) == (OwnedBy(t2, o)(m) && NotInConversation(conv)(m)) {
      DeleteOwns(t, owner, conv, o, m.conversation);
    }
    FilterTwice(OwnedBy(t2, o), NotInConversation(conv), both, t.messages);
    FilterTwice(NotInConversation(conv), OwnedBy(t, o), both, t.messages);
  }

  lemma ForeignRows(t: Tables, owner: string, conv: string, o: string)
    requires Owns(t, owner, conv) && o != owner
    ensures Filter(NotInConversation(conv), TheirMessages(t, o)) == TheirMessages(t, o)
  {
    FilterMembers(OwnedBy(t, o), t.messages);
    FilterAll(NotInConversation(conv), TheirMessages(t, o));
  }

  /** An image is left with the owner unless it was of the conversation that is gone. */
  lemma LeftIff(t: Tables, c: Counters, conv: string, o: string, id: int)
    requires Sound(t, c)
    ensures var left := Filter(NotInConversation(conv), TheirMessages(t, o));
            id !in Ids(Rows(t, conv)) ==> (id in Ids(left) <==> id in Ids(TheirMessages(t, o)))
  {
    var mine := TheirMessages(t, o);
    var left := Filter(NotInConversation(conv), mine);
    FilterMembers(NotInConversation(conv), mine);
    SubIds(left, mine);
    FilterMembers(OwnedBy(t, o), t.messages);
    if id in Ids(mine) && id !in Ids(Rows(t, conv)) {
      var k :| 0 <= k < |mine| && mine[k].id == id;
      assert mine[k] in mine;
      if mine[k].conversation == conv { IdInRows(t, conv, mine[k]); }
      assert mine[k] in left;
      var j :| 0 <= j < |left| && left[j] == mine[k];
      assert left[j].id == id;
    }
  }

  lemma DeleteOwnedImages(t: Tables, c: Counters, owner: string, conv: string, o: string)
    requires Sound(t, c) && Owns(t, owner, conv)
    ensures var t2 := DeleteConversation(t, owner, conv);
            TheirImages(t2, o) == Filter(NotAttachedTo(Ids(Rows(t, conv))), TheirImages(t, o))
  {
    var t2 := DeleteConversation(t, owner, conv);
    var gone, left, mine := Ids(Rows(t, conv)), Ids(TheirMessages(t2, o)), Ids(TheirMessages(t, o));
    var both := (im: ImageRow) => im.message in mine && im.message !in gone;
    DeleteOwned(t, owner, conv, o);
    forall im | im in t.images ensures both(im) == (AttachedTo(left)(im) && NotAttachedTo(gone)(im)) {
      LeftIff(t, c, conv, o, im.message);
    }
    FilterTwice(AttachedTo(left), NotAttachedTo(gone), both, t.images);
    FilterTwice(NotAttachedTo(gone), AttachedTo(mine), both, t.images);
  }

  lemma ForeignIds(t: Tables, c: Counters, conv: string, o: string, owner: string, id: int)
    requires Sound(t, c) && Owns(t, owner, conv) && o != owner && id in Ids(TheirMessages(t, o))
    ensures id !in Ids(Rows(t, conv))
  {
    var mine, rows := TheirMessages(t, o), Rows(t, conv);
    FilterMembers(OwnedBy(t, o), t.messages);
    FilterMembers(InConversation(conv), t.messages);
    var k :| 0 <= k < |mine| && mine[k].id == id;
    assert mine[k] in mine;
    forall j | 0 <= j < |rows| ensures rows[j].id != id {
      assert rows[j] in rows;
      if rows[j].id == id { SameIdSameRow(t.messages, rows[j], mine[k]); }
    }
  }

  lemma ForeignImages(t: Tables, c: Counters, owner: string, conv: string, o: string)
    requires Sound(t, c) && Owns(t, owner, conv) && o != owner
    ensures Filter(NotAttachedTo(Ids(Rows(t, conv))), TheirImages(t, o)) == TheirImages(t, o)
  {
    FilterMembers(AttachedTo(Ids(TheirMessages(t, o))), t.images);
    forall im | im in TheirImages(t, o) ensures NotAttachedTo(Ids(Rows(t, conv)))(im) {
      ForeignIds(t, c, conv, o, owner, im.message);
    }
    FilterAll(NotAttachedTo(Ids(Rows(t, conv))), TheirImages(t, o));
  }

  lemma DeleteTheirs(t: Tables, c: Counters, owner: string, conv: string, o: string)
    requires Sound(t, c)
    ensures var t2 := DeleteConversation(t, owner, conv);
            Theirs(t2, o) == if o == owner then DeleteConversation(Theirs(t, o), owner, conv) else Theirs(t, o)
  {
    SameOwns(t, o, conv);
    if Owns(t, owner, conv) {
      DeleteOwned(t, owner, conv, o);
      DeleteOwnedImages(t, c, owner, conv, o);
      DeleteOwnedConversations(t, owner, conv, o);
      if o == owner {
        assert AllTheirs(t, o, conv);
        SameRows(t, o, conv);
      } else {
        ForeignRows(t, owner, conv, o);
        ForeignImages(t, c, owner, conv, o);
      }
    }
  }

  lemma DeleteOwnedConversations(t: Tables, owner: string, conv: string, o: string)
    requires Owns(t, owner, conv)
    ensures TheirConversations(DeleteConversation(t, owner, conv), o) == TheirConversations(t, o) - {conv}
    ensures o != owner ==> TheirConversations(t, o) - {conv} == TheirConversations(t, o)
  {}

  // ---------------------------------------------------------------------------------------------
  // Exchanges are stored
  // ---------------------------------------------------------------------------------------------

  lemma AppendOwned(t: Tables, owner: string, conv: string, user: Message, answer: string, now: int, ids: NewIds, o: string)
    requires Owns(t, owner, conv) && |ids.images| == |user.images|
    ensures var t2 := AppendExchange(t, owner, conv, user, answer, now, ids);
            TheirMessages(t2, o) == TheirMessages(t, o)
              + if o == owner then NewMessages(conv, user, answer, now, ids) else []
  {
    var t2, more := AppendExchange(t, owner, conv, user, answer, now, ids), NewMessages(conv, user, answer, now, ids);
    FilterConcat(OwnedBy(t2, o), t.messages, more);
    FilterSame(OwnedBy(t, o), OwnedBy(t2, o), t.messages);
    if o == owner { FilterAll(OwnedBy(t2, o), more); } else { FilterNone(OwnedBy(t2, o), more); }
  }

  lemma TheirIdsBelow(t: Tables, c: Counters, o: string)
    requires Sound(t, c)
    ensures forall id | id in Ids(TheirMessages(t, o)) :: id <= c.message
  {
    var mine := TheirMessages(t, o);
    FilterMembers(OwnedBy(t, o), t.messages);
    forall id | id in Ids(mine) ensures id <= c.message {
      var k :| 0 <= k < |mine| && mine[k].id == id;
      assert mine[k] in mine && mine[k] in t.messages;
      assert MessageKey()(mine[k]) <= c.message;
    }
  }

  lemma AppendOwnedImages(t: Tables, c: Counters, owner: string, conv: string, user: Message, answer: string, now: int, ids: NewIds, o: string)
    requires Sound(t, c) && Owns(t, owner, conv) && NewTo(c, user, ids)
    ensures var t2 := AppendExchange(t, owner, conv, user, answer, now, ids);
            TheirImages(t2, o) == TheirImages(t, o) + if o == owner then NewImages(user, ids) else []
  {
    var t2, more := AppendExchange(t, owner, conv, user, answer, now, ids), NewImages(user, ids);
    var before, after := TheirMessages(t, o), TheirMessages(t2, o);
    AppendOwned(t, owner, conv, user, answer, now, ids, o);
    TheirIdsBelow(t, c, o);
    ImageMessagesBelow(t, c);
    assert o == owner ==> after[|before|].id == ids.user;
    forall im | im in t.images ensures AttachedTo(Ids(before))(im) == AttachedTo(Ids(after))(im) {
      OldIdsOnly(before, after, ids, im.message);
    }
    FilterSame(AttachedTo(Ids(before)), AttachedTo(Ids(after)), t.images);
    FilterConcat(AttachedTo(Ids(after)), t.images, more);
    NewImagesNot(user, ids, Ids(after));
    if o == owner {
      assert ids.user in Ids(after);
    } else {
      assert after == before;
      assert ids.user !in Ids(after);
      assert TheirImages(t, o) + [] == TheirImages(t, o);
    }
  }

  lemma AppendTheirs(t: Tables, c: Counters, owner: string, conv: string, user: Message, answer: string, now: int, ids: NewIds, o: string)
    requires Sound(t, c) && NewTo(c, user, ids)
    ensures var t2 := AppendExchange(t, owner, conv, user, answer, now, ids);
            Theirs(t2, o) == if o == owner then AppendExchange(Theirs(t, o), owner, conv, user, answer, now, ids)
                             else Theirs(t, o)
  {
    SameOwns(t, o, conv);
    if Owns(t, owner, conv) {
      AppendOwned(t, owner, conv, user, answer, now, ids, o);
      AppendOwnedImages(t, c, owner, conv, user, answer, now, ids, o);
      AppendOwnedConversations(t, owner, conv, user, answer, now, ids, o);
      NothingAdded(TheirMessages(t, o), TheirImages(t, o));
    }
  }

  lemma NothingAdded(rows: seq<MessageRow>, images: seq<ImageRow>)
    ensures rows + [] == rows && images + [] == images
  {}

  lemma AppendOwnedConversations(t: Tables, owner: string, conv: string, user: Message, answer: string, now: int, ids: NewIds, o: string)
    requires Owns(t, owner, conv) && |ids.images| == |user.images|
    ensures var t2 := AppendExchange(t, owner, conv, user, answer, now, ids);
            TheirConversations(t2, o)
            == if o == owner then TheirConversations(t, o)[conv := t2.conversations[conv]] else TheirConversations(t, o)
  {}

  // ---------------------------------------------------------------------------------------------
  // Pantry and journal
  // ---------------------------------------------------------------------------------------------

  lemma HasNameTheirs(rows: seq<IngredientRow>, o: string, name: string)
    ensures HasName(Filter(TheirIngredient(o), rows), o, name) <==> HasName(rows, o, name)
  {
    var mine := Filter(TheirIngredient(o), rows);
    FilterMembers(TheirIngredient(o), rows);
    if HasName(rows, o, name) {
      var i :| 0 <= i < |rows| && rows[i].owner == o && rows[i].name == name;
      assert rows[i] in mine;
      var j :| 0 <= j < |mine| && mine[j] == rows[i];
    }
    if HasName(mine, o, name) {
      var j :| 0 <= j < |mine| && mine[j].owner == o && mine[j].name == name;
      assert mine[j] in rows;
      var i :| 0 <= i < |rows| && rows[i] == mine[j];
    }
  }

  lemma {:induction false} SwitchedTheirs(rows: seq<IngredientRow>, owner: string, name: string, o: string)
    ensures Filter(TheirIngredient(o), SwitchedAll(rows, owner, name))
            == if o == owner then SwitchedAll(Filter(TheirIngredient(o), rows), owner, name)
               else Filter(TheirIngredient(o), rows)
    decreases |rows|
  {
    if rows != [] {
      var front, last := rows[..|rows| - 1], rows[|rows| - 1];
      SwitchedTheirs(front, owner, name, o);
      var after := SwitchedAll(rows, owner, name);
      assert after[..|front|] == SwitchedAll(front, owner, name);
      var mine := Filter(TheirIngredient(o), front);
      assert SwitchedAll(mine + [last], owner, name) == SwitchedAll(mine, owner, name) + [Switched(last, owner, name)];
    }
  }

  lemma UpsertTheirs(rows: seq<IngredientRow>, owner: string, name: string, id: int, now: int, o: string)
    ensures Filter(TheirIngredient(o), Upsert(rows, owner, name, id, now))
            == if o == owner then Upsert(Filter(TheirIngredient(o), rows), owner, name, id, now)
               else Filter(TheirIngredient(o), rows)
  {
    HasNameTheirs(rows, owner, name);
    if HasName(rows, owner, name) {
      SwitchedTheirs(rows, owner, name, o);
    } else {
      FilterSnoc(TheirIngredient(o), rows, IngredientRow(id, owner, name, true, now));
    }
  }

  lemma {:induction false} AddTheirs(rows: seq<IngredientRow>, owner: string, names: seq<string>, ids: seq<int>, now: int, o: string)
    requires |ids| == |names|
    ensures Filter(TheirIngredient(o), UpsertAll(rows, owner, names, ids, now))
            == if o == owner then UpsertAll(Filter(TheirIngredient(o), rows), owner, names, ids, now)
               else Filter(TheirIngredient(o), rows)
    decreases |names|
  {
    if names != [] {
      var n := |names| - 1;
      AddTheirs(rows, owner, names[..n], ids[..n], now, o);
      UpsertTheirs(UpsertAll(rows, owner, names[..n], ids[..n], now), owner, names[n], ids[n], now, o);
    }
  }

  lemma {:induction false} SetTheirs(rows: seq<IngredientRow>, owner: string, id: int, inStock: bool, o: string)
    ensures Filter(TheirIngredient(o), SetAll(rows, owner, id, inStock))
            == if o == owner then SetAll(Filter(TheirIngredient(o), rows), owner, id, inStock)
               else Filter(TheirIngredient(o), rows)
    decreases |rows|
  {
    if rows != [] {
      var front, last := rows[..|rows| - 1], rows[|rows| - 1];
      SetTheirs(front, owner, id, inStock, o);
      var after := SetAll(rows, owner, id, inStock);
      assert after[..|front|] == SetAll(front, owner, id, inStock);
      var mine := Filter(TheirIngredient(o), front);
      assert SetAll(mine + [last], owner, id, inStock) == SetAll(mine, owner, id, inStock) + [SetRow(last, owner, id, inStock)];
    }
  }

  lemma RemoveTheirs(t: Tables, owner: string, id: int, o: string)
    ensures Filter(TheirIngredient(o), Filter(NotIngredient(owner, id), t.ingredients))
            == if o == owner then Filter(NotIngredient(owner, id), Filter(TheirIngredient(o), t.ingredients))
               else Filter(TheirIngredient(o), t.ingredients)
    ensures Filter(TheirEntry(o), Filter(NotEntry(owner, id), t.journal))
            == if o == owner then Filter(NotEntry(owner, id), Filter(TheirEntry(o), t.journal))
               else Filter(TheirEntry(o), t.journal)
  {
    FilterSwap(TheirIngredient(o), NotIngredient(owner, id), t.ingredients);
    FilterSwap(TheirEntry(o), NotEntry(owner, id), t.journal);
    if o != owner {
      FilterTwice(TheirIngredient(o), NotIngredient(owner, id), TheirIngredient(o), t.ingredients);
      FilterTwice(TheirEntry(o), NotEntry(owner, id), TheirEntry(o), t.journal);
    }
  }

  predicate OnKitchen(a: Action) { a.AddItems? || a.SwitchItem? || a.RemoveItem? || a.AddEntry? || a.RemoveEntry? }

  /** Statements on the pantry and the journal act on their owner's share as on a database, and on no other. */
  lemma KitchenTheirs(s: Sys, m: Sys, a: Action, o: string)
    requires Enabled(s, a) && OnKitchen(a) && m.tables == Theirs(s.tables, o)
    ensures OwnerOf(a) == o && Enabled(m, a) ==> Next(m, a).tables == Theirs(Next(s, a).tables, o)
    ensures OwnerOf(a) != o ==> Theirs(Next(s, a).tables, o) == Theirs(s.tables, o)
  {
    var t := s.tables;
    match a {
      case AddItems(owner, names, ids, now) => AddTheirs(t.ingredients, owner, names, ids, now, o);
      case SwitchItem(owner, id, inStock) => SetTheirs(t.ingredients, owner, id, inStock, o);
      case RemoveItem(owner, id) => RemoveTheirs(t, owner, id, o);
      case AddEntry(owner, entry) => FilterSnoc(TheirEntry(o), t.journal, JournalRow(owner, entry));
      case RemoveEntry(owner, id) => RemoveTheirs(t, owner, id, o);
      case _ =>
    }
    SameShare(t, Next(s, a).tables, o);
  }

  lemma SameShare(t: Tables, t2: Tables, o: string)
    requires t2.conversations == t.conversations && t2.messages == t.messages && t2.images == t.images
    ensures TheirConversations(t2, o) == TheirConversations(t, o)
    ensures TheirMessages(t2, o) == TheirMessages(t, o) && TheirImages(t2, o) == TheirImages(t, o)
  {
    FilterSame(OwnedBy(t, o), OwnedBy(t2, o), t.messages);
  }

  // ---------------------------------------------------------------------------------------------
  // One step of a send
  // ---------------------------------------------------------------------------------------------

  /** A send still at work, or with rows in hand, is on a conversation whose messages are all its owner's. */
  lemma OnTheirs(s: Sys, r: Request)
    requires Inv(s) && RowsRight(s, r) && !r.phase.Closed?
    ensures AllTheirs(s.tables, r.owner, r.conv)
  {
    assert r.conv in s.used && s.used[r.conv] == r.owner;
    assert r.conv in s.tables.conversations ==> s.tables.conversations[r.conv].owner == r.owner;
  }

  /** Whatever the step reads, it is told the same by its owner's share alone. */
  lemma SteppedTheirs(s: Sys, k: int, step: Step)
    requires Inv(s) && k in s.requests && StepEnabled(s, s.requests[k], step)
    ensures var r := s.requests[k]; Stepped(Theirs(s.tables, r.owner), r, step) == Stepped(s.tables, r, step)
  {
    var r := s.requests[k];
    assert RequestRight(s, k, r);
    OnTheirs(s, r);
    ReadsTheirs(s.tables, r, step);
  }

  lemma ReadsTheirs(t: Tables, r: Request, step: Step)
    requires AllTheirs(t, r.owner, r.conv)
    ensures Stepped(Theirs(t, r.owner), r, step) == Stepped(t, r, step)
  {
    SameRows(t, r.owner, r.conv);
    SameImageRows(t, r.owner, r.conv);
    SameOwns(t, r.owner, r.conv);
    SameKitchen(t, r.owner, MEMORY_ENTRIES);
  }

  // ---------------------------------------------------------------------------------------------
  // Whole runs
  // ---------------------------------------------------------------------------------------------

  predicate Within(a: Counters, b: Counters) {
    a.message <= b.message && a.image <= b.image && a.ingredient <= b.ingredient && a.entry <= b.entry
  }

  /** `m` is what `s` would be with nobody but `o`. */
  ghost predicate Mirrors(s: Sys, m: Sys, o: string) {
    && m.tables == Theirs(s.tables, o)
    && m.requests == TheirRequests(s, o)
    && Within(m.counters, s.counters)
    && m.used.Keys <= s.used.Keys
  }

  lemma {:induction false} AscendingLower(lower: int, bound: int, rows: seq<ImageRow>)
    requires lower <= bound && Ascending(bound, rows)
    ensures Ascending(lower, rows) && LastId(lower, rows) <= LastId(bound, rows)
    decreases |rows|
  {
    if rows != [] { AscendingLower(lower, bound, rows[..|rows| - 1]); }
  }

  lemma {:induction false} AscendingIdsLower(lower: int, bound: int, ids: seq<int>)
    requires lower <= bound && AscendingIds(bound, ids)
    ensures AscendingIds(lower, ids) && LastIngredient(lower, ids) <= LastIngredient(bound, ids)
    decreases |ids|
  {
    if ids != [] { AscendingIdsLower(lower, bound, ids[..|ids| - 1]); }
  }

  lemma NewToLower(a: Counters, b: Counters, user: Message, ids: NewIds)
    requires Within(a, b) && NewTo(b, user, ids)
    ensures NewTo(a, user, ids) && Within(Counted(a, user, ids), Counted(b, user, ids))
  {
    AscendingLower(a.image, b.image, NewImages(user, ids));
  }

  /** What is new to everybody is new to them. */
  lemma EnabledAlone(s: Sys, m: Sys, a: Action, o: string)
    requires Mirrors(s, m, o) && Enabled(s, a) && OwnerOf(a) == o
    ensures Enabled(m, a)
  {
    match a {
      case AddItems(_, _, ids, _) => AscendingIdsLower(m.counters.ingredient, s.counters.ingredient, ids);
      case Advance(_, k, step) =>
        if step.Append? { NewToLower(m.counters, s.counters, s.requests[k].user, step.ids); }
      case _ =>
    }
  }

  lemma KitchenMirrored(s: Sys, m: Sys, a: Action, o: string)
    requires Mirrors(s, m, o) && Enabled(s, a) && Enabled(m, a) && OwnerOf(a) == o && OnKitchen(a)
    ensures Mirrors(Next(s, a), Next(m, a), o)
  {
    KitchenTheirs(s, m, a, o);
    if a.AddItems? { AscendingIdsLower(m.counters.ingredient, s.counters.ingredient, a.ids); }
  }

  lemma CreateMirrored(s: Sys, m: Sys, o: string, conv: string, now: int)
    requires Inv(s) && Mirrors(s, m, o) && conv !in s.used && conv !in m.used
    ensures Mirrors(Next(s, Create(o, conv, now)), Next(m, Create(o, conv, now)), o)
  {
    CreateTheirs(s.tables, s.counters, o, conv, now, o);
  }

  lemma DeleteMirrored(s: Sys, m: Sys, o: string, conv: string)
    requires Inv(s) && Mirrors(s, m, o)
    ensures Mirrors(Next(s, Delete(o, conv)), Next(m, Delete(o, conv)), o)
  {
    DeleteTheirs(s.tables, s.counters, o, conv, o);
  }

  /** One request more, or changed. */
  lemma RequestsUpdated(requests: map<int, Request>, s: Sys, k: int, r: Request, o: string)
    requires requests == s.requests[k := r]
    ensures r.owner == o ==> TheirRequests(s.(requests := requests), o) == TheirRequests(s, o)[k := r]
    ensures r.owner != o && (k in s.requests ==> s.requests[k].owner != o) ==>
              TheirRequests(s.(requests := requests), o) == TheirRequests(s, o)
  {}

  lemma BeginMirrored(s: Sys, m: Sys, o: string, k: int, conv: string, user: Message)
    requires Mirrors(s, m, o) && k !in s.requests && k !in m.requests && ValidUser(user)
    ensures Mirrors(Next(s, Begin(o, k, conv, user)), Next(m, Begin(o, k, conv, user)), o)
  {
    SameOwns(s.tables, o, conv);
    var r := Started(s.tables, o, conv, user);
    RequestsUpdated(s.requests[k := r], s, k, r, o);
  }

  lemma OwnMirrored(s: Sys, m: Sys, a: Action, o: string)
    requires Inv(s) && Mirrors(s, m, o) && Enabled(s, a) && Enabled(m, a) && OwnerOf(a) == o
    ensures Mirrors(Next(s, a), Next(m, a), o)
  {
    match a {
      case Create(owner, conv, now) => CreateMirrored(s, m, o, conv, now);
      case Delete(owner, conv) => DeleteMirrored(s, m, o, conv);
      case Begin(owner, k, conv, user) => BeginMirrored(s, m, o, k, conv, user);
      case Advance(_, k, step) => StepMirrored(s, m, k, step, o);
      case _ => KitchenMirrored(s, m, a, o);
    }
  }

  lemma QuietMirrored(s: Sys, m: Sys, k: int, r2: Request, o: string)
    requires Mirrors(s, m, o) && k in s.requests && r2.owner == o
    ensures Mirrors(s.(requests := s.requests[k := r2]), m.(requests := m.requests[k := r2]), o)
  {
    RequestsUpdated(s.requests[k := r2], s, k, r2, o);
  }

  lemma CommitMirrored(s: Sys, m: Sys, k: int, now: int, ids: NewIds, s2: Sys, m2: Sys, o: string)
    requires Inv(s) && Mirrors(s, m, o) && k in s.requests && k in m.requests && s.requests[k].owner == o
    requires Committed(s, s2, k, now, ids) && Committed(m, m2, k, now, ids)
    ensures Mirrors(s2, m2, o)
  {
    var r := s.requests[k];
    AppendTheirs(s.tables, s.counters, o, r.conv, r.user, r.text, now, ids, o);
    NewToLower(m.counters, s.counters, r.user, ids);
    RequestsUpdated(s2.requests, s, k, s2.requests[k], o);
    assert TheirRequests(s2, o) == TheirRequests(s.(requests := s2.requests), o);
  }

  lemma StepMirrored(s: Sys, m: Sys, k: int, step: Step, o: string)
    requires Inv(s) && Mirrors(s, m, o) && k in s.requests && s.requests[k].owner == o
    requires StepEnabled(s, s.requests[k], step) && k in m.requests && StepEnabled(m, m.requests[k], step)
    ensures Mirrors(AdvanceSys(s, k, step), AdvanceSys(m, k, step), o)
  {
    var r := s.requests[k];
    SameOwns(s.tables, o, r.conv);
    if step.Append? && Commits(s.tables, r, step.fails) {
      CommittedIs(s, k, step.now, step.ids);
      CommittedIs(m, k, step.now, step.ids);
      CommitMirrored(s, m, k, step.now, step.ids, AdvanceSys(s, k, step), AdvanceSys(m, k, step), o);
    } else {
      SteppedTheirs(s, k, step);
      QuietIs(s, k, step);
      QuietIs(m, k, step);
      QuietMirrored(s, m, k, Stepped(s.tables, r, step), o);
    }
  }

  lemma ForeignRequest(s: Sys, s2: Sys, k: int, r: Request, o: string)
    requires k in s.requests && s.requests[k].owner != o && r.owner != o && s2.requests == s.requests[k := r]
    ensures TheirRequests(s2, o) == TheirRequests(s, o)
  {}

  lemma ForeignStep(s: Sys, k: int, step: Step, o: string)
    requires Inv(s) && k in s.requests && s.requests[k].owner != o && StepEnabled(s, s.requests[k], step)
    ensures Theirs(AdvanceSys(s, k, step).tables, o) == Theirs(s.tables, o)
    ensures TheirRequests(AdvanceSys(s, k, step), o) == TheirRequests(s, o)
  {
    var r := s.requests[k];
    ForeignRequest(s, AdvanceSys(s, k, step), k, Stepped(s.tables, r, step), o);
    if step.Append? && Commits(s.tables, r, step.fails) {
      CommittedIs(s, k, step.now, step.ids);
      AppendTheirs(s.tables, s.counters, r.owner, r.conv, r.user, r.text, step.now, step.ids, o);
    } else {
      QuietIs(s, k, step);
    }
  }

  lemma ForeignBegin(s: Sys, owner: string, k: int, conv: string, user: Message, o: string)
    requires k !in s.requests && ValidUser(user) && owner != o
    ensures var s2 := Next(s, Begin(owner, k, conv, user));
            Theirs(s2.tables, o) == Theirs(s.tables, o) && TheirRequests(s2, o) == TheirRequests(s, o)
  {
    var r := Started(s.tables, owner, conv, user);
    RequestsUpdated(s.requests[k := r], s, k, r, o);
  }

  /** What anybody else does leaves all that is theirs as it is. */
  lemma ForeignKept(s: Sys, a: Action, o: string)
    requires Inv(s) && Enabled(s, a) && OwnerOf(a) != o
    ensures Theirs(Next(s, a).tables, o) == Theirs(s.tables, o)
    ensures TheirRequests(Next(s, a), o) == TheirRequests(s, o)
  {
    match a {
      case Create(owner, conv, now) => CreateTheirs(s.tables, s.counters, owner, conv, now, o);
      case Delete(owner, conv) => DeleteTheirs(s.tables, s.counters, owner, conv, o);
      case Begin(owner, k, conv, user) => ForeignBegin(s, owner, k, conv, user, o);
      case Advance(_, k, step) => ForeignStep(s, k, step, o);
      case _ => KitchenTheirs(s, s.(tables := Theirs(s.tables, o)), a, o);
    }
  }

  lemma ForeignMirrored(s: Sys, m: Sys, a: Action, o: string)
    requires Inv(s) && Mirrors(s, m, o) && Enabled(s, a) && OwnerOf(a) != o
    ensures Mirrors(Next(s, a), m, o)
  {
    ForeignKept(s, a, o);
    CountersGrow(s, a);
  }

  lemma CountersGrow(s: Sys, a: Action)
    requires Enabled(s, a)
    ensures Within(s.counters, Next(s, a).counters) && s.used.Keys <= Next(s, a).used.Keys
  {
    match a {
      case AddItems(_, _, ids, _) => IdsGoUp(s.counters.ingredient, ids);
      case Advance(_, k, step) =>
        if step.Append? { ImageIdsGoUp(s.counters.image, NewImages(s.requests[k].user, step.ids)); }
      case _ =>
    }
  }

  lemma {:induction false} IdsGoUp(bound: int, ids: seq<int>)
    requires AscendingIds(bound, ids)
    ensures bound <= LastIngredient(bound, ids)
    decreases |ids|
  {
    if ids != [] { IdsGoUp(bound, ids[..|ids| - 1]); }
  }

  lemma {:induction false} ImageIdsGoUp(bound: int, rows: seq<ImageRow>)
    requires Ascending(bound, rows)
    ensures bound <= LastId(bound, rows)
    decreases |rows|
  {
    if rows != [] { ImageIdsGoUp(bound, rows[..|rows| - 1]); }
  }

  lemma {:induction false} RunMirrored(s: Sys, m: Sys, acts: seq<Action>, o: string)
    requires Inv(s) && Mirrors(s, m, o) && Behaves(s, acts)
    ensures Behaves(m, OnlyBy(acts, o)) && Mirrors(After(s, acts), After(m, OnlyBy(acts, o)), o)
    decreases |acts|
  {
    if acts != [] {
      var a := acts[0];
      NextKept(s, a);
      OnlyByCons(acts, o);
      if OwnerOf(a) == o {
        OwnNext(s, m, a, o);
        RunMirrored(Next(s, a), Next(m, a), acts[1..], o);
      } else {
        ForeignMirrored(s, m, a, o);
        RunMirrored(Next(s, a), m, acts[1..], o);
      }
    }
  }

  lemma OnlyByCons(acts: seq<Action>, o: string)
    requires acts != []
    ensures OwnerOf(acts[0]) == o ==>
              OnlyBy(acts, o) != [] && OnlyBy(acts, o)[0] == acts[0] && OnlyBy(acts, o)[1..] == OnlyBy(acts[1..], o)
    ensures OwnerOf(acts[0]) != o ==> OnlyBy(acts, o) == OnlyBy(acts[1..], o)
  {
    var rest := OnlyBy(acts[1..], o);
    assert ([acts[0]] + rest)[1..] == rest && [] + rest == rest;
  }

  lemma OwnNext(s: Sys, m: Sys, a: Action, o: string)
    requires Inv(s) && Mirrors(s, m, o) && Enabled(s, a) && OwnerOf(a) == o
    ensures Enabled(m, a) && Mirrors(Next(s, a), Next(m, a), o)
  {
    EnabledAlone(s, m, a, o);
    OwnMirrored(s, m, a, o);
  }

  /**
  Owner separation: take everything others did out of any run, and what is left is a run; at its end the
  whole database is exactly this owner's share, and all of this owner's sends stand where they stood,
  with the same history, memory and stream.
  */
  lemma OthersLeaveNoTrace(acts: seq<Action>, o: string)
    requires Behaves(INIT, acts)
    ensures Behaves(INIT, OnlyBy(acts, o))
    ensures var s, alone := After(INIT, acts), After(INIT, OnlyBy(acts, o));
            alone.tables == Theirs(s.tables, o) && alone.requests == TheirRequests(s, o)
  {
    InitRight();
    RunMirrored(INIT, INIT, acts, o);
  }
}
