/** The store of internal/store as an object: tables that its methods read and update. */
module Stores {
  import opened Common
  import opened Seqs
  import opened Entities
  import opened Schema
  import opened Joins
  import opened Conversations
  import opened Pantry

  /** ErrNotFound, or the driver failing. */
  datatype StoreError = NotFound | Failed

  /** The identifiers AUTOINCREMENT gives the rows of one exchange. */
  function NextIds(c: Counters, user: Message): (ids: NewIds)
    ensures |ids.images| == |user.images|
  {
    NewIds(c.message + 1, Following(c.image, |user.images|), c.message + 2)
  }

  lemma NextIdsNew(c: Counters, user: Message)
    ensures NewTo(c, user, NextIds(c, user))
    ensures LastId(c.image, NewImages(user, NextIds(c, user))) == c.image + |user.images|
  {
    FollowingAscends(c.image, |user.images|);
    ImagesTaken(c.image, user, NextIds(c, user));
  }

  class Store {
    var conversations: map<string, ConversationRow>
    var messages: seq<MessageRow>
    var images: seq<ImageRow>
    var ingredients: seq<IngredientRow>
    var journal: seq<JournalRow>
    var last: Counters

    function View(): Tables
      reads this
    {
      Tables(conversations, messages, images, ingredients, journal)
    }

    ghost predicate Valid()
      reads this
    {
      Sound(View(), last)
    }

    constructor ()
      ensures Valid() && View() == NO_ROWS && last == NO_IDS
    {
      conversations, messages, images, ingredients, journal := map[], [], [], [], [];
      last := NO_IDS;
    }

    /** An id that is taken violates the primary key. */
    method CreateConversation(owner: string, id: string, now: int) returns (ok: bool)
      requires Valid()
      modifies this`conversations
      ensures Valid() && (ok <==> id !in old(conversations))
      ensures View() == if ok then Schema.CreateConversation(old(View()), owner, id, now) else old(View())
    {
      if id in conversations { return false; }
      CreateSound(View(), last, owner, id, now);
      conversations := conversations[id := ConversationRow(owner, "", now, now)];
      return true;
    }

    /** `fails` is whether the driver does. */
    method Conversation(owner: string, id: string, fails: bool) returns (r: Result<ConversationRow, StoreError>)
      ensures r == if fails then Err(Failed) else if Owns(View(), owner, id) then Ok(conversations[id]) else Err(NotFound)
    {
      if fails { return Err(Failed); }
      if id in conversations && conversations[id].owner == owner { return Ok(conversations[id]); }
      return Err(NotFound);
    }

    method DeleteConversation(owner: string, id: string) returns (r: Result<(), StoreError>)
      requires Valid()
      modifies this
      ensures Valid() && last == old(last)
      ensures r == if old(Owns(View(), owner, id)) then Ok(()) else Err(NotFound)
      ensures View() == Schema.DeleteConversation(old(View()), owner, id)
    {
      DeleteSound(View(), last, owner, id);
      if !(id in conversations && conversations[id].owner == owner) { return Err(NotFound); }
      ghost var after := Schema.DeleteConversation(View(), owner, id);
      var gone := Ids(Rows(View(), id));
      images := Filter(NotAttachedTo(gone), images);
      messages := Filter(NotInConversation(id), messages);
      conversations := conversations - {id};
      assert View() == after;
      return Ok(());
    }

    /**
    Three queries one after the other with nothing in between: the join is the plain one. The driver
    fails on query `failing`, counted from 0.
    */
    method Messages(owner: string, id: string, withData: bool, failing: int) returns (r: Result<seq<Message>, StoreError>)
      requires Valid()
      ensures r == if failing == 0 then Err(Failed)
                   else if !Owns(View(), owner, id) then Err(NotFound)
                   else if failing == 1 || failing == 2 then Err(Failed)
                   else Ok(Plain(Rows(View(), id), ImageRows(View(), id), withData))
    {
      var found := Conversation(owner, id, failing == 0);
      if found.Err? { return Err(found.error); }
      if failing == 1 { return Err(Failed); }
      var rows := Rows(View(), id);
      if failing == 2 { return Err(Failed); }
      RowsDistinct(View(), last, id);
      SnapshotCovered(View(), id);
      JoinRightIff(rows, ImageRows(View(), id), withData);
      var joined := Join(rows, ImageRows(View(), id), withData);
      return Ok(joined.value);
    }

    /**
    One transaction: everything is written at the commit or nothing is. `failAt` is the statement the
    driver fails on, counted from the begin (0) to the commit; any other number means that none fails.
    */
    method AppendExchange(owner: string, id: string, user: Message, answer: string, now: int, failAt: int)
      returns (r: Result<int, StoreError>)
      requires Valid()
      modifies this
      ensures Valid()
      ensures r.Err? ==> View() == old(View()) && last == old(last)
      ensures r == Err(NotFound) <==> failAt != 0 && failAt != 1 && !old(Owns(View(), owner, id))
      ensures r.Ok? <==> old(Owns(View(), owner, id)) && !(0 <= failAt < |user.images| + 5)
      ensures r.Ok? ==> var ids := NextIds(old(last), user);
                        && r.value == ids.answer && last == Counted(old(last), user, ids)
                        && View() == Schema.AppendExchange(old(View()), owner, id, user, answer, now, ids)
    {
      if failAt == 0 { return Err(Failed); }
      var written := WriteExchange(owner, id, user, answer, now, failAt);
      if written.Err? { return Err(written.error); }
      if failAt == |user.images| + 4 { return Err(Failed); }
      var (tables, counters) := written.value;
      CommitRight(owner, id, user, answer, now, tables, counters);
      conversations, messages, images := tables.conversations, tables.messages, tables.images;
      last := counters;
      return Ok(last.message);
    }

    /** The statements of the transaction, on its own copy of the tables. */
    method WriteExchange(owner: string, id: string, user: Message, answer: string, now: int, failAt: int)
      returns (r: Result<(Tables, Counters), StoreError>)
      ensures r == if failAt == 1 then Err(Failed)
                   else if !Owns(View(), owner, id) then Err(NotFound)
                   else if 2 <= failAt < |user.images| + 4 then Err(Failed)
                   else Ok((Schema.AppendExchange(View(), owner, id, user, answer, now, NextIds(last, user)),
                            last.(message := last.message + 2, image := last.image + |user.images|)))
    {
      if failAt == 1 { return Err(Failed); }
      if !(id in conversations && conversations[id].owner == owner) { return Err(NotFound); }
      var c := conversations[id];
      var named := conversations[id := c.(title := if c.title == "" then TitleFrom(user.text) else c.title,
                                          updated := now)];
      if failAt == 2 { return Err(Failed); }
      var userId := last.message + 1;
      var rows := messages + [MessageRow(userId, id, "user", user.text, now)];
      var photos, lastImage, failed := InsertImages(user, userId, failAt);
      if failed { return Err(Failed); }
      if failAt == |user.images| + 3 { return Err(Failed); }
      var answerId := userId + 1;
      rows := rows + [MessageRow(answerId, id, "assistant", answer, now)];
      assert rows == messages + NewMessages(id, user, answer, now, NextIds(last, user));
      return Ok((View().(conversations := named, messages := rows, images := photos),
                 last.(message := answerId, image := lastImage)));
    }

    /** The transaction's loop over the images of the message. */
    method InsertImages(user: Message, userId: int, failAt: int)
      returns (photos: seq<ImageRow>, lastImage: int, failed: bool)
      requires userId == last.message + 1
      ensures failed <==> 3 <= failAt < |user.images| + 3
      ensures !failed ==> photos == images + NewImages(user, NextIds(last, user)) && lastImage == last.image + |user.images|
    {
      ghost var added := NewImages(user, NextIds(last, user));
      photos, lastImage, failed := images, last.image, false;
      for i := 0 to |user.images|
        invariant photos == images + added[..i] && lastImage == last.image + i
        invariant !failed && !(3 <= failAt < i + 3)
      {
        if failAt == i + 3 {
          failed := true;
          return;
        }
        lastImage := lastImage + 1;
        photos := photos + [ImageRow(lastImage, userId, user.images[i].mediaType, user.images[i].data)];
      }
      assert added[..|user.images|] == added;
    }

    /** What the transaction has written is sound. */
    lemma CommitRight(owner: string, id: string, user: Message, answer: string, now: int, tables: Tables, counters: Counters)
      requires Valid()
      requires tables == Schema.AppendExchange(View(), owner, id, user, answer, now, NextIds(last, user))
      requires counters == last.(message := last.message + 2, image := last.image + |user.images|)
      ensures counters == Counted(last, user, NextIds(last, user)) && Sound(tables, counters)
    {
      NextIdsNew(last, user);
      AppendSound(View(), last, owner, id, user, answer, now, NextIds(last, user));
    }

    method FindImage(owner: string, id: int) returns (r: Result<Image, StoreError>)
      ensures r == match Schema.FindImage(View(), owner, id) case Some(image) => Ok(image) case None => Err(NotFound)
    {
      var found := Schema.FindImage(View(), owner, id);
      return if found.Some? then Ok(found.value) else Err(NotFound);
    }

    /**
    Every listed name draws the next identifier, also one whose row is there already. The database promises
    only that identifiers increase; any other that do are these by other names.
    */
    method AddIngredients(owner: string, names: seq<string>, now: int)
      requires Valid()
      modifies this`ingredients, this`last
      ensures Valid()
      ensures View() == Schema.AddIngredients(old(View()), owner, names, Following(old(last).ingredient, |names|), now)
    {
      ghost var ids := Following(last.ingredient, |names|);
      ghost var start := last;
      var rows := ingredients;
      for i := 0 to |names|
        invariant rows == UpsertAll(ingredients, owner, names[..i], ids[..i], now)
      {
        assert names[..i + 1][..i] == names[..i] && ids[..i + 1][..i] == ids[..i];
        rows := Upsert(rows, owner, names[i], last.ingredient + 1 + i, now);
      }
      assert names[..|names|] == names && ids[..|names|] == ids;
      FollowingAscends(last.ingredient, |names|);
      AddSound(View(), last, owner, names, ids, now);
      ingredients := rows;
      last := last.(ingredient := last.ingredient + |names|);
    }

    method Ingredients(owner: string, fails: bool) returns (r: Result<seq<Ingredient>, StoreError>)
      ensures r == if fails then Err(Failed) else Ok(Pantry.Ingredients(View(), owner))
    {
      if fails { return Err(Failed); }
      var rows := Listing(View(), owner);
      var list: seq<Ingredient> := [];
      for i := 0 to |rows|
        invariant list == Pantry.Ingredients(View(), owner)[..i]
      {
        list := list + [Ingredient(rows[i].id, rows[i].name, rows[i].inStock)];
      }
      assert list == Pantry.Ingredients(View(), owner);
      return Ok(list);
    }

    method SetInStock(owner: string, id: int, inStock: bool) returns (r: Result<Ingredient, StoreError>)
      requires Valid()
      modifies this`ingredients
      ensures Valid() && View() == Schema.SetInStock(old(View()), owner, id, inStock)
      ensures r.Ok? <==> HasIngredient(old(View()), owner, id)
      ensures r.Ok? ==> r.value.id == id && r.value.inStock == inStock
                        && exists row :: row in ingredients && IsIngredient(row, owner, id) && row.name == r.value.name
      ensures r.Err? ==> r.error == NotFound && View() == old(View())
    {
      SetSound(View(), last, owner, id, inStock);
      var k := 0;
      while k < |ingredients| && !IsIngredient(ingredients[k], owner, id)
        invariant k <= |ingredients|
        invariant forall i | 0 <= i < k :: !IsIngredient(ingredients[i], owner, id)
      {
        k := k + 1;
      }
      if k == |ingredients| {
        assert Schema.SetInStock(View(), owner, id, inStock).ingredients == ingredients;
        return Err(NotFound);
      }
      ingredients := Schema.SetInStock(View(), owner, id, inStock).ingredients;
      assert ingredients[k] in ingredients;
      return Ok(Ingredient(id, ingredients[k].name, inStock));
    }

    method DeleteIngredient(owner: string, id: int) returns (r: Result<(), StoreError>)
      requires Valid()
      modifies this`ingredients
      ensures Valid() && View() == Schema.DeleteIngredient(old(View()), owner, id)
      ensures r == if HasIngredient(old(View()), owner, id) then Ok(()) else Err(NotFound)
    {
      RemoveSound(View(), last, owner, id);
      if !HasIngredient(View(), owner, id) {
        forall row | row in ingredients ensures NotIngredient(owner, id)(row) {}
        FilterAll(NotIngredient(owner, id), ingredients);
        return Err(NotFound);
      }
      ingredients := Filter(NotIngredient(owner, id), ingredients);
      return Ok(());
    }

    method AddJournalEntry(owner: string, e: JournalEntry, now: int) returns (r: Result<JournalEntry, StoreError>)
      requires Valid()
      modifies this`journal, this`last
      ensures Valid()
      ensures r.Ok? <==> 1 <= e.taste <= 5
      ensures r.Ok? ==> r.value == e.(id := old(last).entry + 1, createdAt := now)
                        && View() == Schema.AddJournalEntry(old(View()), owner, r.value)
      ensures r.Err? ==> View() == old(View()) && last == old(last)
    {
      if !(1 <= e.taste <= 5) { return Err(Failed); }
      var saved := e.(id := last.entry + 1, createdAt := now);
      EntrySound(View(), last, owner, saved);
      journal := journal + [JournalRow(owner, saved)];
      last := last.(entry := saved.id);
      return Ok(saved);
    }

    method Journal(owner: string, limit: nat, fails: bool) returns (r: Result<seq<JournalEntry>, StoreError>)
      ensures r == if fails then Err(Failed) else Ok(Pantry.Journal(View(), owner, limit))
    {
      if fails { return Err(Failed); }
      var rows := Entries(View(), owner);
      var list: seq<JournalEntry> := [];
      for i := 0 to if |rows| <= limit then |rows| else limit
        invariant list == Pantry.Journal(View(), owner, limit)[..i]
      {
        list := list + [rows[i].entry];
      }
      assert list == Pantry.Journal(View(), owner, limit);
      return Ok(list);
    }

    method DeleteJournalEntry(owner: string, id: int) returns (r: Result<(), StoreError>)
      requires Valid()
      modifies this`journal
      ensures Valid() && View() == Schema.DeleteJournalEntry(old(View()), owner, id)
      ensures r == if HasEntry(old(View()), owner, id) then Ok(()) else Err(NotFound)
    {
      RemoveSound(View(), last, owner, id);
      if !HasEntry(View(), owner, id) {
        forall row | row in journal ensures NotEntry(owner, id)(row) {}
        FilterAll(NotEntry(owner, id), journal);
        return Err(NotFound);
      }
      journal := Filter(NotEntry(owner, id), journal);
      return Ok(());
    }
  }
}
