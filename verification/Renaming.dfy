/**
Generated identifiers are only ever compared: give a run's rows other identifiers in the same order and
the same things happen, to rows, requests and streams alike.
*/
module Renaming {
  import opened Common
  import opened Seqs
  import opened Entities
  import opened Schema
  import opened Joins
  import opened Conversations
  import opened Pantry
  import opened Stores
  import opened Memories
  import opened Protocol
  import opened Invariant
  import opened Isolation

  /** A new name for every identifier of the four tables that generate them. */
  datatype Renames = Renames(message: int -> int, image: int -> int, ingredient: int -> int, entry: int -> int)

  /** Order is kept, and so is the start. */
  ghost predicate Increasing(f: int -> int) { f(0) == 0 && forall a, b | a < b :: f(a) < f(b) }

  ghost predicate Sane(g: Renames) {
    Increasing(g.message) && Increasing(g.image) && Increasing(g.ingredient) && Increasing(g.entry)
  }

  lemma SameOrder(f: int -> int, a: int, b: int)
    requires Increasing(f)
    ensures f(a) < f(b) <==> a < b
    ensures f(a) == f(b) <==> a == b
  {
    if a < b { assert f(a) < f(b); }
    if b < a { assert f(b) < f(a); }
  }

  // ---------------------------------------------------------------------------------------------
  // Rows, requests and states by other names
  // ---------------------------------------------------------------------------------------------

  function NameMessage(g: Renames): MessageRow -> MessageRow { (m: MessageRow) => m.(id := g.message(m.id)) }

  function NameImage(g: Renames): ImageRow -> ImageRow {
    (i: ImageRow) => i.(id := g.image(i.id), message := g.message(i.message))
  }

  function NameIngredient(g: Renames): IngredientRow -> IngredientRow {
    (i: IngredientRow) => i.(id := g.ingredient(i.id))
  }

  function EntryNamed(g: Renames, e: JournalEntry): JournalEntry { e.(id := g.entry(e.id)) }

  function NameEntry(g: Renames): JournalRow -> JournalRow { (r: JournalRow) => r.(entry := EntryNamed(g, r.entry)) }

  function TablesNamed(g: Renames, t: Tables): Tables {
    t.(messages := Mapped(NameMessage(g), t.messages), images := Mapped(NameImage(g), t.images),
       ingredients := Mapped(NameIngredient(g), t.ingredients), journal := Mapped(NameEntry(g), t.journal))
  }

  function CountersNamed(g: Renames, c: Counters): Counters {
    Counters(g.message(c.message), g.image(c.image), g.ingredient(c.ingredient), g.entry(c.entry))
  }

  function ShownNamed(g: Renames): Image -> Image { (i: Image) => i.(id := g.image(i.id)) }

  /** A message as it was read: its own identifier and its photos'. */
  function ReadNamed(g: Renames): Message -> Message {
    (m: Message) => m.(id := g.message(m.id), images := Mapped(ShownNamed(g), m.images))
  }

  function StockNamed(g: Renames): Ingredient -> Ingredient { (i: Ingredient) => i.(id := g.ingredient(i.id)) }

  function PastNamed(g: Renames): JournalEntry -> JournalEntry { (e: JournalEntry) => EntryNamed(g, e) }

  function MemoryNamed(g: Renames, m: Memory): Memory {
    Memory(m.today, Mapped(StockNamed(g), m.ingredients), Mapped(PastNamed(g), m.journal))
  }

  function EventNamed(g: Renames): Event -> Event {
    (e: Event) => if e.Done? then e.(messageID := g.message(e.messageID)) else e
  }

  function PhaseNamed(g: Renames, p: Phase): Phase {
    if p.Stored? then p.(messageID := g.message(p.messageID)) else p
  }

  function RequestNamed(g: Renames, r: Request): Request {
    r.(phase := PhaseNamed(g, r.phase), rows := Mapped(NameMessage(g), r.rows),
       history := Mapped(ReadNamed(g), r.history), pantry := Mapped(StockNamed(g), r.pantry),
       memory := MemoryNamed(g, r.memory), events := Mapped(EventNamed(g), r.events))
  }

  function RequestsNamed(g: Renames, rs: map<int, Request>): map<int, Request> {
    map k | k in rs :: RequestNamed(g, rs[k])
  }

  function SysNamed(g: Renames, s: Sys): Sys {
    Sys(TablesNamed(g, s.tables), CountersNamed(g, s.counters), s.used, RequestsNamed(g, s.requests), s.commits)
  }

  function IdsNamed(g: Renames, ids: NewIds): NewIds {
    NewIds(g.message(ids.user), Mapped(g.image, ids.images), g.message(ids.answer))
  }

  function StepNamed(g: Renames, step: Step): Step {
    if step.Append? then step.(ids := IdsNamed(g, step.ids)) else step
  }

  function ActionNamed(g: Renames): Action -> Action {
    (a: Action) =>
      match a
      case AddItems(owner, names, ids, now) => AddItems(owner, names, Mapped(g.ingredient, ids), now)
      case SwitchItem(owner, id, inStock) => SwitchItem(owner, g.ingredient(id), inStock)
      case RemoveItem(owner, id) => RemoveItem(owner, g.ingredient(id))
      case AddEntry(owner, entry) => AddEntry(owner, EntryNamed(g, entry))
      case RemoveEntry(owner, id) => RemoveEntry(owner, g.entry(id))
      case Advance(owner, request, step) => Advance(owner, request, StepNamed(g, step))
      case _ => a
  }

  // ---------------------------------------------------------------------------------------------
  // Choosing rows
  // ---------------------------------------------------------------------------------------------

  lemma RowsNamed(g: Renames, t: Tables, conv: string)
    ensures Rows(TablesNamed(g, t), conv) == Mapped(NameMessage(g), Rows(t, conv))
  {
    FilterMapped(InConversation(conv), InConversation(conv), NameMessage(g), t.messages);
  }

  lemma NamedIds(g: Renames, rows: seq<MessageRow>, id: int)
    requires Sane(g)
    ensures g.message(id) in Ids(Mapped(NameMessage(g), rows)) <==> id in Ids(rows)
  {
    var named := Mapped(NameMessage(g), rows);
    if id in Ids(rows) {
      var k :| 0 <= k < |rows| && rows[k].id == id;
      assert named[k].id == g.message(id);
    }
    if g.message(id) in Ids(named) {
      var k :| 0 <= k < |named| && named[k].id == g.message(id);
      SameOrder(g.message, rows[k].id, id);
    }
  }

  lemma AttachedNamed(g: Renames, rows: seq<MessageRow>, images: seq<ImageRow>)
    requires Sane(g)
    ensures Filter(AttachedTo(Ids(Mapped(NameMessage(g), rows))), Mapped(NameImage(g), images))
            == Mapped(NameImage(g), Filter(AttachedTo(Ids(rows)), images))
    ensures Filter(NotAttachedTo(Ids(Mapped(NameMessage(g), rows))), Mapped(NameImage(g), images))
            == Mapped(NameImage(g), Filter(NotAttachedTo(Ids(rows)), images))
  {
    var named := Ids(Mapped(NameMessage(g), rows));
    forall im | im in images ensures AttachedTo(named)(NameImage(g)(im)) == AttachedTo(Ids(rows))(im) {
      NamedIds(g, rows, im.message);
    }
    FilterMapped(AttachedTo(Ids(rows)), AttachedTo(named), NameImage(g), images);
    FilterMapped(NotAttachedTo(Ids(rows)), NotAttachedTo(named), NameImage(g), images);
  }

  lemma ImageRowsNamed(g: Renames, t: Tables, conv: string)
    requires Sane(g)
    ensures ImageRows(TablesNamed(g, t), conv) == Mapped(NameImage(g), ImageRows(t, conv))
  {
    RowsNamed(g, t, conv);
    AttachedNamed(g, Rows(t, conv), t.images);
  }

  // ---------------------------------------------------------------------------------------------
  // The join
  // ---------------------------------------------------------------------------------------------

  lemma PlacedNamed(g: Renames, rows: seq<MessageRow>, images: seq<ImageRow>)
    requires Sane(g) && rows != []
    ensures PlacedAll(Mapped(NameMessage(g), rows), Mapped(NameImage(g), images))
            == Mapped(NameImage(g), PlacedAll(rows, images))
  {
    forall n | 0 <= n < |images|
      ensures Placed(Mapped(NameMessage(g), rows), NameImage(g)(images[n])) == NameImage(g)(Placed(rows, images[n]))
    {
      NamedIds(g, rows, images[n].message);
    }
  }

  lemma LoadedNamed(g: Renames, images: seq<ImageRow>)
    ensures LoadedAll(Mapped(NameImage(g), images), true) == Mapped(ShownNamed(g), LoadedAll(images, true))
  {}

  lemma MessageNamed(g: Renames, row: MessageRow, images: seq<ImageRow>)
    requires Sane(g)
    ensures MessageOf(NameMessage(g)(row), Mapped(NameImage(g), images), true) == ReadNamed(g)(MessageOf(row, images, true))
  {
    forall im | im in images
      ensures OfMessage(g.message(row.id))(NameImage(g)(im)) == OfMessage(row.id)(im)
    {
      SameOrder(g.message, im.message, row.id);
    }
    FilterMapped(OfMessage(row.id), OfMessage(g.message(row.id)), NameImage(g), images);
    LoadedNamed(g, Filter(OfMessage(row.id), images));
  }

  lemma PlainNamed(g: Renames, rows: seq<MessageRow>, images: seq<ImageRow>)
    requires Sane(g)
    ensures Plain(Mapped(NameMessage(g), rows), Mapped(NameImage(g), images), true)
            == Mapped(ReadNamed(g), Plain(rows, images, true))
  {
    forall k | 0 <= k < |rows|
      ensures MessageOf(NameMessage(g)(rows[k]), Mapped(NameImage(g), images), true)
              == ReadNamed(g)(MessageOf(rows[k], images, true))
    {
      MessageNamed(g, rows[k], images);
    }
  }

  lemma JoinedNamed(g: Renames, rows: seq<MessageRow>, images: seq<ImageRow>)
    requires Sane(g)
    ensures var before, after := Joined(rows, images, true),
                                 Joined(Mapped(NameMessage(g), rows), Mapped(NameImage(g), images), true);
            if before.None? then after == None else after == Some(Mapped(ReadNamed(g), before.value))
  {
    if rows != [] {
      PlacedNamed(g, rows, images);
      PlainNamed(g, rows, PlacedAll(rows, images));
    }
  }

  // ---------------------------------------------------------------------------------------------
  // Statements
  // ---------------------------------------------------------------------------------------------

  lemma CreateNamed(g: Renames, t: Tables, owner: string, conv: string, now: int)
    ensures CreateConversation(TablesNamed(g, t), owner, conv, now) == TablesNamed(g, CreateConversation(t, owner, conv, now))
  {}

  lemma DeleteNamed(g: Renames, t: Tables, owner: string, conv: string)
    requires Sane(g)
    ensures DeleteConversation(TablesNamed(g, t), owner, conv) == TablesNamed(g, DeleteConversation(t, owner, conv))
  {
    RowsNamed(g, t, conv);
    AttachedNamed(g, Rows(t, conv), t.images);
    FilterMapped(NotInConversation(conv), NotInConversation(conv), NameMessage(g), t.messages);
  }

  lemma NewMessagesNamed(g: Renames, conv: string, user: Message, answer: string, now: int, ids: NewIds)
    ensures NewMessages(conv, user, answer, now, IdsNamed(g, ids))
            == Mapped(NameMessage(g), NewMessages(conv, user, answer, now, ids))
  {}

  lemma NewImagesNamed(g: Renames, user: Message, ids: NewIds)
    requires |ids.images| == |user.images|
    ensures NewImages(user, IdsNamed(g, ids)) == Mapped(NameImage(g), NewImages(user, ids))
  {}

  lemma AppendNamed(g: Renames, t: Tables, owner: string, conv: string, user: Message, answer: string, now: int, ids: NewIds)
    requires |ids.images| == |user.images|
    ensures AppendExchange(TablesNamed(g, t), owner, conv, user, answer, now, IdsNamed(g, ids))
            == TablesNamed(g, AppendExchange(t, owner, conv, user, answer, now, ids))
  {
    NewMessagesNamed(g, conv, user, answer, now, ids);
    NewImagesNamed(g, user, ids);
    MappedConcat(NameMessage(g), t.messages, NewMessages(conv, user, answer, now, ids));
    MappedConcat(NameImage(g), t.images, NewImages(user, ids));
  }

  lemma HasNameNamed(g: Renames, rows: seq<IngredientRow>, owner: string, name: string)
    ensures HasName(Mapped(NameIngredient(g), rows), owner, name) <==> HasName(rows, owner, name)
  {
    var named := Mapped(NameIngredient(g), rows);
    if HasName(rows, owner, name) {
      var i :| 0 <= i < |rows| && rows[i].owner == owner && rows[i].name == name;
      assert named[i].owner == owner && named[i].name == name;
    }
    if HasName(named, owner, name) {
      var i :| 0 <= i < |named| && named[i].owner == owner && named[i].name == name;
      assert rows[i].owner == owner && rows[i].name == name;
    }
  }

  lemma UpsertNamed(g: Renames, rows: seq<IngredientRow>, owner: string, name: string, id: int, now: int)
    ensures Upsert(Mapped(NameIngredient(g), rows), owner, name, g.ingredient(id), now)
            == Mapped(NameIngredient(g), Upsert(rows, owner, name, id, now))
  {
    HasNameNamed(g, rows, owner, name);
    if !HasName(rows, owner, name) {
      MappedSnoc(NameIngredient(g), rows, IngredientRow(id, owner, name, true, now));
    }
  }

  lemma {:induction false} AddNamed(g: Renames, rows: seq<IngredientRow>, owner: string, names: seq<string>, ids: seq<int>, now: int)
    requires |ids| == |names|
    ensures UpsertAll(Mapped(NameIngredient(g), rows), owner, names, Mapped(g.ingredient, ids), now)
            == Mapped(NameIngredient(g), UpsertAll(rows, owner, names, ids, now))
    decreases |names|
  {
    if names != [] {
      var n := |names| - 1;
      AddNamed(g, rows, owner, names[..n], ids[..n], now);
      assert Mapped(g.ingredient, ids)[..n] == Mapped(g.ingredient, ids[..n]);
      UpsertNamed(g, UpsertAll(rows, owner, names[..n], ids[..n], now), owner, names[n], ids[n], now);
    }
  }

  lemma SetNamed(g: Renames, rows: seq<IngredientRow>, owner: string, id: int, inStock: bool)
    requires Sane(g)
    ensures SetAll(Mapped(NameIngredient(g), rows), owner, g.ingredient(id), inStock)
            == Mapped(NameIngredient(g), SetAll(rows, owner, id, inStock))
  {
    forall i | 0 <= i < |rows|
      ensures SetRow(NameIngredient(g)(rows[i]), owner, g.ingredient(id), inStock)
              == NameIngredient(g)(SetRow(rows[i], owner, id, inStock))
    {
      SameOrder(g.ingredient, rows[i].id, id);
    }
  }

  lemma RemoveNamed(g: Renames, t: Tables, owner: string, id: int)
    requires Sane(g)
    ensures DeleteIngredient(TablesNamed(g, t), owner, g.ingredient(id)) == TablesNamed(g, DeleteIngredient(t, owner, id))
    ensures DeleteJournalEntry(TablesNamed(g, t), owner, g.entry(id)) == TablesNamed(g, DeleteJournalEntry(t, owner, id))
  {
    forall i | i in t.ingredients
      ensures NotIngredient(owner, g.ingredient(id))(NameIngredient(g)(i)) == NotIngredient(owner, id)(i)
    {
      SameOrder(g.ingredient, i.id, id);
    }
    FilterMapped(NotIngredient(owner, id), NotIngredient(owner, g.ingredient(id)), NameIngredient(g), t.ingredients);
    forall r | r in t.journal ensures NotEntry(owner, g.entry(id))(NameEntry(g)(r)) == NotEntry(owner, id)(r) {
      SameOrder(g.entry, r.entry.id, id);
    }
    FilterMapped(NotEntry(owner, id), NotEntry(owner, g.entry(id)), NameEntry(g), t.journal);
  }

  // ---------------------------------------------------------------------------------------------
  // Listings
  // ---------------------------------------------------------------------------------------------

  lemma IngredientsNamed(g: Renames, t: Tables, owner: string)
    ensures Ingredients(TablesNamed(g, t), owner) == Mapped(StockNamed(g), Ingredients(t, owner))
  {
    FilterMapped(TheirIngredient(owner), TheirIngredient(owner), NameIngredient(g), t.ingredients);
    SortMapped(ByName(), NameIngredient(g), Filter(TheirIngredient(owner), t.ingredients));
  }

  lemma JournalNamed(g: Renames, t: Tables, owner: string, limit: nat)
    requires Sane(g)
    ensures Journal(TablesNamed(g, t), owner, limit) == Mapped(PastNamed(g), Journal(t, owner, limit))
  {
    FilterMapped(TheirEntry(owner), TheirEntry(owner), NameEntry(g), t.journal);
    forall a: JournalRow, b: JournalRow
      ensures NewestFirst()(NameEntry(g)(a), NameEntry(g)(b)) == NewestFirst()(a, b)
    {
      SameOrder(g.entry, b.entry.id, a.entry.id);
    }
    SortMapped(NewestFirst(), NameEntry(g), Filter(TheirEntry(owner), t.journal));
  }

  // ---------------------------------------------------------------------------------------------
  // The steps of a send
  // ---------------------------------------------------------------------------------------------

  lemma SameMapped(g: Renames, a: seq<MessageRow>, b: seq<MessageRow>)
    requires Sane(g)
    ensures Mapped(NameMessage(g), a) == Mapped(NameMessage(g), b) <==> a == b
  {
    if Mapped(NameMessage(g), a) == Mapped(NameMessage(g), b) {
      assert |a| == |Mapped(NameMessage(g), a)| == |b|;
      forall i | 0 <= i < |a| ensures a[i] == b[i] {
        assert Mapped(NameMessage(g), a)[i] == Mapped(NameMessage(g), b)[i];
        SameOrder(g.message, a[i].id, b[i].id);
      }
    }
  }

  lemma StartedNamed(g: Renames, t: Tables, owner: string, conv: string, user: Message)
    ensures Started(TablesNamed(g, t), owner, conv, user) == RequestNamed(g, Started(t, owner, conv, user))
  {}

  lemma ReadRowsNamed(g: Renames, t: Tables, r: Request)
    ensures Stepped(TablesNamed(g, t), RequestNamed(g, r), ReadRows) == RequestNamed(g, Stepped(t, r, ReadRows))
  {
    RowsNamed(g, t, r.conv);
  }

  lemma WithImagesNamed(g: Renames, t: Tables, r: Request)
    requires Sane(g)
    ensures WithImages(TablesNamed(g, t), RequestNamed(g, r)) == RequestNamed(g, WithImages(t, r))
  {
    ImageRowsNamed(g, t, r.conv);
    RowsNamed(g, t, r.conv);
    JoinedNamed(g, r.rows, ImageRows(t, r.conv));
    SameMapped(g, Rows(t, r.conv), r.rows);
  }

  lemma ReadPantryNamed(g: Renames, t: Tables, r: Request)
    ensures Stepped(TablesNamed(g, t), RequestNamed(g, r), ReadPantry) == RequestNamed(g, Stepped(t, r, ReadPantry))
  {
    IngredientsNamed(g, t, r.owner);
  }

  lemma ReadJournalNamed(g: Renames, t: Tables, r: Request, today: string)
    requires Sane(g)
    ensures Stepped(TablesNamed(g, t), RequestNamed(g, r), ReadJournal(today))
            == RequestNamed(g, Stepped(t, r, ReadJournal(today)))
  {
    JournalNamed(g, t, r.owner, MEMORY_ENTRIES);
  }

  lemma EndedNamed(g: Renames, r: Request, e: Event)
    ensures Ended(RequestNamed(g, r), EventNamed(g)(e)) == RequestNamed(g, Ended(r, e))
  {
    MappedSnoc(EventNamed(g), r.events, e);
  }

  lemma HearNamed(g: Renames, t: Tables, r: Request, text: string)
    ensures Stepped(TablesNamed(g, t), RequestNamed(g, r), Hear(text)) == RequestNamed(g, Stepped(t, r, Hear(text)))
  {
    MappedSnoc(EventNamed(g), r.events, Delta(text));
  }

  lemma FinishNamed(g: Renames, t: Tables, r: Request, fails: bool)
    ensures Stepped(TablesNamed(g, t), RequestNamed(g, r), Finish(fails)) == RequestNamed(g, Stepped(t, r, Finish(fails)))
  {
    if r.phase.Stored? {
      EndedNamed(g, r.(untitled := fails), Done(r.phase.messageID, if fails then "" else Titled(t, r), r.phase.reason));
    }
  }

  lemma OverNamed(g: Renames, t: Tables, r: Request, step: Step)
    requires step.Break? || step.End? || step.Append?
    ensures Stepped(TablesNamed(g, t), RequestNamed(g, r), StepNamed(g, step)) == RequestNamed(g, Stepped(t, r, step))
  {
    EndedNamed(g, r, Failure("The model could not answer right now"));
    EndedNamed(g, r, Failure("The model declined to answer that"));
    EndedNamed(g, r, Failure("The answer could not be saved"));
  }

  lemma SteppedNamed(g: Renames, t: Tables, r: Request, step: Step)
    requires Sane(g)
    ensures Stepped(TablesNamed(g, t), RequestNamed(g, r), StepNamed(g, step)) == RequestNamed(g, Stepped(t, r, step))
  {
    match step {
      case ReadRows => ReadRowsNamed(g, t, r);
      case ReadImages => WithImagesNamed(g, t, r);
      case ReadPantry => ReadPantryNamed(g, t, r);
      case ReadJournal(today) => ReadJournalNamed(g, t, r, today);
      case ReadFails =>
      case Hear(text) => HearNamed(g, t, r, text);
      case Finish(fails) => FinishNamed(g, t, r, fails);
      case _ => OverNamed(g, t, r, step);
    }
  }

  // ---------------------------------------------------------------------------------------------
  // What is enabled
  // ---------------------------------------------------------------------------------------------

  lemma {:induction false} AscendingNamed(g: Renames, bound: int, rows: seq<ImageRow>)
    requires Sane(g)
    ensures LastId(g.image(bound), Mapped(NameImage(g), rows)) == g.image(LastId(bound, rows))
    ensures Ascending(g.image(bound), Mapped(NameImage(g), rows)) <==> Ascending(bound, rows)
    decreases |rows|
  {
    if rows != [] {
      var front, last := rows[..|rows| - 1], rows[|rows| - 1];
      AscendingNamed(g, bound, front);
      assert Mapped(NameImage(g), rows)[..|front|] == Mapped(NameImage(g), front);
      SameOrder(g.image, LastId(bound, front), last.id);
    }
  }

  lemma {:induction false} AscendingIdsNamed(g: Renames, bound: int, ids: seq<int>)
    requires Sane(g)
    ensures LastIngredient(g.ingredient(bound), Mapped(g.ingredient, ids)) == g.ingredient(LastIngredient(bound, ids))
    ensures AscendingIds(g.ingredient(bound), Mapped(g.ingredient, ids)) <==> AscendingIds(bound, ids)
    decreases |ids|
  {
    if ids != [] {
      var n := |ids| - 1;
      AscendingIdsNamed(g, bound, ids[..n]);
      assert Mapped(g.ingredient, ids)[..n] == Mapped(g.ingredient, ids[..n]);
      SameOrder(g.ingredient, LastIngredient(bound, ids[..n]), ids[n]);
    }
  }

  lemma NewToNamed(g: Renames, c: Counters, user: Message, ids: NewIds)
    requires Sane(g)
    ensures NewTo(CountersNamed(g, c), user, IdsNamed(g, ids)) <==> NewTo(c, user, ids)
    ensures |ids.images| == |user.images| ==>
              Counted(CountersNamed(g, c), user, IdsNamed(g, ids)) == CountersNamed(g, Counted(c, user, ids))
  {
    SameOrder(g.message, c.message, ids.user);
    SameOrder(g.message, ids.user, ids.answer);
    if |ids.images| == |user.images| {
      NewImagesNamed(g, user, ids);
      AscendingNamed(g, c.image, NewImages(user, ids));
    }
  }

  lemma StepEnabledNamed(g: Renames, s: Sys, r: Request, step: Step)
    requires Sane(g)
    ensures StepEnabled(SysNamed(g, s), RequestNamed(g, r), StepNamed(g, step)) <==> StepEnabled(s, r, step)
  {
    if step.Append? { NewToNamed(g, s.counters, r.user, step.ids); }
  }

  lemma EnabledNamed(g: Renames, s: Sys, a: Action)
    requires Sane(g)
    ensures Enabled(SysNamed(g, s), ActionNamed(g)(a)) <==> Enabled(s, a)
  {
    match a {
      case AddItems(_, names, ids, _) => AscendingIdsNamed(g, s.counters.ingredient, ids);
      case AddEntry(owner, entry) =>
        SameOrder(g.entry, s.counters.entry, entry.id);
        assert ActionNamed(g)(a) == AddEntry(owner, EntryNamed(g, entry));
      case Advance(_, k, step) => if k in s.requests { StepEnabledNamed(g, s, s.requests[k], step); }
      case _ =>
    }
  }

  // ---------------------------------------------------------------------------------------------
  // Every action, every run
  // ---------------------------------------------------------------------------------------------

  lemma RequestsPut(g: Renames, rs: map<int, Request>, k: int, r: Request)
    ensures RequestsNamed(g, rs[k := r]) == RequestsNamed(g, rs)[k := RequestNamed(g, r)]
  {}

  lemma QuietNamed(g: Renames, s: Sys, k: int, r2: Request)
    requires k in s.requests
    ensures SysNamed(g, s.(requests := s.requests[k := r2]))
            == SysNamed(g, s).(requests := SysNamed(g, s).requests[k := RequestNamed(g, r2)])
  {
    RequestsPut(g, s.requests, k, r2);
  }

  lemma CommitsNamed(g: Renames, t: Tables, r: Request, fails: bool)
    ensures Commits(TablesNamed(g, t), RequestNamed(g, r), fails) <==> Commits(t, r, fails)
  {}

  lemma CommitNamed(g: Renames, s: Sys, k: int, now: int, ids: NewIds)
    requires Sane(g) && k in s.requests && StepEnabled(s, s.requests[k], Append(now, ids, false))
    requires Commits(s.tables, s.requests[k], false)
    ensures AdvanceSys(SysNamed(g, s), k, Append(now, IdsNamed(g, ids), false))
            == SysNamed(g, AdvanceSys(s, k, Append(now, ids, false)))
  {
    var r, step := s.requests[k], Append(now, ids, false);
    StepEnabledNamed(g, s, r, step);
    CommittedIs(s, k, now, ids);
    CommittedIs(SysNamed(g, s), k, now, IdsNamed(g, ids));
    AppendNamed(g, s.tables, r.owner, r.conv, r.user, r.text, now, ids);
    NewToNamed(g, s.counters, r.user, ids);
    RequestsPut(g, s.requests, k, r.(phase := Stored(ids.answer, r.phase.stopReason)));
    CommittedSame(SysNamed(g, s), k, now, IdsNamed(g, ids), AdvanceSys(SysNamed(g, s), k, Append(now, IdsNamed(g, ids), false)),
                  SysNamed(g, AdvanceSys(s, k, step)));
  }

  /** A commit leaves no choice. */
  lemma CommittedSame(s: Sys, k: int, now: int, ids: NewIds, a: Sys, b: Sys)
    requires k in s.requests && Committed(s, a, k, now, ids) && Committed(s, b, k, now, ids)
    ensures a == b
  {}

  lemma AdvanceNamed(g: Renames, s: Sys, k: int, step: Step)
    requires Sane(g) && k in s.requests && StepEnabled(s, s.requests[k], step)
    ensures AdvanceSys(SysNamed(g, s), k, StepNamed(g, step)) == SysNamed(g, AdvanceSys(s, k, step))
  {
    var r := s.requests[k];
    CommitsNamed(g, s.tables, r, step.Append? && step.fails);
    if step.Append? && Commits(s.tables, r, step.fails) {
      CommitNamed(g, s, k, step.now, step.ids);
    } else {
      QuietIs(s, k, step);
      QuietIs(SysNamed(g, s), k, StepNamed(g, step));
      SteppedNamed(g, s.tables, r, step);
      QuietNamed(g, s, k, Stepped(s.tables, r, step));
    }
  }

  lemma KitchenNamed(g: Renames, s: Sys, a: Action)
    requires Sane(g) && Enabled(s, a) && Enabled(SysNamed(g, s), ActionNamed(g)(a)) && OnKitchen(a)
    ensures Next(SysNamed(g, s), ActionNamed(g)(a)) == SysNamed(g, Next(s, a))
  {
    var t := s.tables;
    match a {
      case AddItems(owner, names, ids, now) =>
        AddNamed(g, t.ingredients, owner, names, ids, now);
        AscendingIdsNamed(g, s.counters.ingredient, ids);
      case SwitchItem(owner, id, inStock) => SetNamed(g, t.ingredients, owner, id, inStock);
      case RemoveItem(owner, id) => RemoveNamed(g, t, owner, id);
      case AddEntry(owner, entry) => MappedSnoc(NameEntry(g), t.journal, JournalRow(owner, entry));
      case RemoveEntry(owner, id) => RemoveNamed(g, t, owner, id);
      case _ =>
    }
  }

  lemma BeginNamed(g: Renames, s: Sys, owner: string, k: int, conv: string, user: Message)
    requires Enabled(s, Begin(owner, k, conv, user)) && Enabled(SysNamed(g, s), Begin(owner, k, conv, user))
    ensures Next(SysNamed(g, s), Begin(owner, k, conv, user)) == SysNamed(g, Next(s, Begin(owner, k, conv, user)))
  {
    StartedNamed(g, s.tables, owner, conv, user);
    RequestsPut(g, s.requests, k, Started(s.tables, owner, conv, user));
  }

  /** The same action by other names does the same by other names. */
  lemma NextNamed(g: Renames, s: Sys, a: Action)
    requires Sane(g) && Enabled(s, a)
    ensures Enabled(SysNamed(g, s), ActionNamed(g)(a))
    ensures Next(SysNamed(g, s), ActionNamed(g)(a)) == SysNamed(g, Next(s, a))
  {
    EnabledNamed(g, s, a);
    match a {
      case Create(owner, conv, now) => CreateNamed(g, s.tables, owner, conv, now);
      case Delete(owner, conv) => DeleteNamed(g, s.tables, owner, conv);
      case Begin(owner, k, conv, user) => BeginNamed(g, s, owner, k, conv, user);
      case Advance(_, k, step) => AdvanceNamed(g, s, k, step);
      case _ => KitchenNamed(g, s, a);
    }
  }

  /** And so does every run: one happens exactly when the other does, and ends the same by other names. */
  lemma {:induction false} RunNamed(g: Renames, s: Sys, acts: seq<Action>)
    requires Sane(g)
    ensures Behaves(SysNamed(g, s), Mapped(ActionNamed(g), acts)) <==> Behaves(s, acts)
    ensures Behaves(s, acts) ==>
              After(SysNamed(g, s), Mapped(ActionNamed(g), acts)) == SysNamed(g, After(s, acts))
    decreases |acts|
  {
    if acts != [] {
      EnabledNamed(g, s, acts[0]);
      assert Mapped(ActionNamed(g), acts)[1..] == Mapped(ActionNamed(g), acts[1..]);
      if Enabled(s, acts[0]) {
        NextNamed(g, s, acts[0]);
        RunNamed(g, Next(s, acts[0]), acts[1..]);
      }
    }
  }

  // ---------------------------------------------------------------------------------------------
  // The identifiers a run takes
  // ---------------------------------------------------------------------------------------------

  datatype Taken = Taken(messages: seq<int>, images: seq<int>, ingredients: seq<int>, entries: seq<int>)

  const NONE: Taken := Taken([], [], [], [])

  function And(a: Taken, b: Taken): Taken {
    Taken(a.messages + b.messages, a.images + b.images, a.ingredients + b.ingredients, a.entries + b.entries)
  }

  /** What one action takes for good; an append that fails takes nothing. */
  function TakenBy(s: Sys, a: Action): Taken {
    match a
    case AddItems(_, _, ids, _) => NONE.(ingredients := ids)
    case AddEntry(_, entry) => NONE.(entries := [entry.id])
    case Advance(_, k, step) =>
      if step.Append? && k in s.requests && Commits(s.tables, s.requests[k], step.fails) then
        NONE.(messages := [step.ids.user, step.ids.answer], images := step.ids.images)
      else NONE
    case _ => NONE
  }

  function TakenOver(s: Sys, acts: seq<Action>): Taken
    requires Behaves(s, acts)
    decreases acts
  {
    if acts == [] then NONE else And(TakenBy(s, acts[0]), TakenOver(Next(s, acts[0]), acts[1..]))
  }

  ghost predicate TakenAfter(c: Counters, t: Taken) {
    && AscendingIds(c.message, t.messages) && AscendingIds(c.image, t.images)
    && AscendingIds(c.ingredient, t.ingredients) && AscendingIds(c.entry, t.entries)
  }

  function Last(c: Counters, t: Taken): Counters {
    Counters(LastIngredient(c.message, t.messages), LastIngredient(c.image, t.images),
             LastIngredient(c.ingredient, t.ingredients), LastIngredient(c.entry, t.entries))
  }

  lemma {:induction false} AscendingOn(bound: int, a: seq<int>, b: seq<int>)
    requires AscendingIds(bound, a) && AscendingIds(LastIngredient(bound, a), b)
    ensures AscendingIds(bound, a + b) && LastIngredient(bound, a + b) == LastIngredient(LastIngredient(bound, a), b)
    decreases |b|
  {
    if b == [] {
      assert a + b == a;
    } else {
      var n := |b| - 1;
      AscendingOn(bound, a, b[..n]);
      assert (a + b)[..|a + b| - 1] == a + b[..n];
    }
  }

  lemma AscendingPair(bound: int, a: int, b: int)
    ensures AscendingIds(bound, [a, b]) <==> bound < a < b
    ensures LastIngredient(bound, [a, b]) == b
  {
    AscendingOne(bound, a);
    assert [a, b][..1] == [a] && [a, b][|[a, b]| - 1] == b;
  }

  lemma AscendingOne(bound: int, a: int)
    ensures AscendingIds(bound, [a]) <==> bound < a
    ensures LastIngredient(bound, [a]) == a
  {
    assert [a][..0] == [];
  }

  /** The counters are moved on by exactly what is taken. */
  lemma TakenCounts(s: Sys, a: Action)
    requires Enabled(s, a)
    ensures TakenAfter(s.counters, TakenBy(s, a)) && Next(s, a).counters == Last(s.counters, TakenBy(s, a))
  {
    match a {
      case AddEntry(_, entry) => AscendingOne(s.counters.entry, entry.id);
      case Advance(_, k, step) =>
        if step.Append? && Commits(s.tables, s.requests[k], step.fails) {
          CommittedIs(s, k, step.now, step.ids);
          AscendingPair(s.counters.message, step.ids.user, step.ids.answer);
          ImagesTaken(s.counters.image, s.requests[k].user, step.ids);
        } else {
          QuietIs(s, k, step);
        }
      case _ =>
    }
  }

  lemma {:induction false} TakenAscend(s: Sys, acts: seq<Action>)
    requires Behaves(s, acts)
    ensures TakenAfter(s.counters, TakenOver(s, acts))
    decreases |acts|
  {
    if acts != [] {
      var t, rest := TakenBy(s, acts[0]), TakenOver(Next(s, acts[0]), acts[1..]);
      TakenCounts(s, acts[0]);
      TakenAscend(Next(s, acts[0]), acts[1..]);
      AscendingOn(s.counters.message, t.messages, rest.messages);
      AscendingOn(s.counters.image, t.images, rest.images);
      AscendingOn(s.counters.ingredient, t.ingredients, rest.ingredients);
      AscendingOn(s.counters.entry, t.entries, rest.entries);
    }
  }

  // ---------------------------------------------------------------------------------------------
  // From unbroken identifiers to any
  // ---------------------------------------------------------------------------------------------

  /** The `k`-th of the identifiers, and on from the last of them. */
  function Nth(xs: seq<int>): int -> int {
    k => if k <= 0 then k else if k <= |xs| then xs[k - 1] else LastIngredient(0, xs) + (k - |xs|)
  }

  lemma {:induction false} AscendingAt(bound: int, xs: seq<int>, i: nat, j: nat)
    requires AscendingIds(bound, xs) && i < j < |xs|
    ensures bound < xs[i] < xs[j]
    decreases |xs|
  {
    var n := |xs| - 1;
    AboveBound(bound, xs, i);
    if j == n {
      UpToLast(bound, xs[..n], i);
    } else {
      AscendingAt(bound, xs[..n], i, j);
    }
  }

  lemma {:induction false} AboveBound(bound: int, xs: seq<int>, i: nat)
    requires AscendingIds(bound, xs) && i < |xs|
    ensures bound < xs[i]
    decreases |xs|
  {
    var n := |xs| - 1;
    if i < n { AboveBound(bound, xs[..n], i); } else { LastAbove(bound, xs[..n]); }
  }

  lemma {:induction false} LastAbove(bound: int, xs: seq<int>)
    requires AscendingIds(bound, xs)
    ensures bound <= LastIngredient(bound, xs)
    decreases |xs|
  {
    if xs != [] { LastAbove(bound, xs[..|xs| - 1]); }
  }

  lemma {:induction false} UpToLast(bound: int, xs: seq<int>, i: nat)
    requires AscendingIds(bound, xs) && i < |xs|
    ensures xs[i] <= LastIngredient(bound, xs)
    decreases |xs|
  {
    if i < |xs| - 1 { UpToLast(bound, xs[..|xs| - 1], i); }
  }

  lemma NthIncreasing(xs: seq<int>)
    requires AscendingIds(0, xs)
    ensures Increasing(Nth(xs))
  {
    forall a, b | a < b ensures Nth(xs)(a) < Nth(xs)(b) {
      LastAbove(0, xs);
      if 0 < a <= |xs| { AboveBound(0, xs, a - 1); UpToLast(0, xs, a - 1); }
      if 0 < b <= |xs| { AboveBound(0, xs, b - 1); }
      if 0 < a && b <= |xs| { AscendingAt(0, xs, a - 1, b - 1); }
    }
  }

  function Naming(t: Taken): Renames { Renames(Nth(t.messages), Nth(t.images), Nth(t.ingredients), Nth(t.entries)) }

  /** From the counter on, the names are these, one after the other. */
  ghost predicate From(f: int -> int, counter: int, xs: seq<int>) {
    forall j | 0 <= j < |xs| :: f(counter + 1 + j) == xs[j]
  }

  ghost predicate Names(g: Renames, c: Counters, t: Taken) {
    && From(g.message, c.message, t.messages) && From(g.image, c.image, t.images)
    && From(g.ingredient, c.ingredient, t.ingredients) && From(g.entry, c.entry, t.entries)
  }

  lemma NamesNext(f: int -> int, counter: int, xs: seq<int>)
    requires From(f, counter, xs)
    ensures Mapped(f, Following(counter, |xs|)) == xs
  {}

  lemma FromRest(f: int -> int, counter: int, a: seq<int>, b: seq<int>)
    requires From(f, counter, a + b)
    ensures From(f, counter, a) && From(f, counter + |a|, b)
  {
    forall j | 0 <= j < |a| ensures f(counter + 1 + j) == a[j] {
      assert (a + b)[j] == a[j];
    }
    forall j | 0 <= j < |b| ensures f(counter + |a| + 1 + j) == b[j] {
      assert (a + b)[|a| + j] == b[j];
    }
  }

  // ---------------------------------------------------------------------------------------------
  // The run with unbroken identifiers
  // ---------------------------------------------------------------------------------------------

  /** The same doing: by the other names, or naming an identifier that none is called, or storing nothing. */
  ghost predicate Corresponds(g: Renames, s: Sys, d: Action, e: Action) {
    || e == ActionNamed(g)(d)
    || (d.SwitchItem? && e.SwitchItem? && e == d.(id := e.id)
        && !HasIngredient(s.tables, d.owner, d.id) && forall n :: g.ingredient(n) != e.id)
    || (d.RemoveItem? && e.RemoveItem? && e == d.(id := e.id)
        && !HasIngredient(s.tables, d.owner, d.id) && forall n :: g.ingredient(n) != e.id)
    || (d.RemoveEntry? && e.RemoveEntry? && e == d.(id := e.id)
        && !HasEntry(s.tables, d.owner, d.id) && forall n :: g.entry(n) != e.id)
    || (d.Advance? && e.Advance? && d.step.Append? && e.step.Append? && e == d.(step := d.step.(ids := e.step.ids))
        && d.request in s.requests && !Commits(s.tables, s.requests[d.request], d.step.fails))
  }

  /** Each identifier that is taken is the next one. */
  ghost predicate Unbroken(s: Sys, acts: seq<Action>)
    requires Behaves(s, acts)
    decreases acts
  {
    acts != [] ==> UnbrokenBy(s, acts[0]) && Unbroken(Next(s, acts[0]), acts[1..])
  }

  predicate UnbrokenBy(s: Sys, a: Action) {
    var t, c := TakenBy(s, a), s.counters;
    && t.messages == Following(c.message, |t.messages|) && t.images == Following(c.image, |t.images|)
    && t.ingredients == Following(c.ingredient, |t.ingredients|) && t.entries == Following(c.entry, |t.entries|)
  }

  /** How many are taken, of each kind. */
  predicate SameCount(a: Taken, b: Taken) {
    && |a.messages| == |b.messages| && |a.images| == |b.images|
    && |a.ingredients| == |b.ingredients| && |a.entries| == |b.entries|
  }

  /** What `d` is to `e`, where `s` by other names is the state `e` meets. */
  ghost predicate StandsFor(g: Renames, s: Sys, d: Action, e: Action) {
    && Enabled(s, d) && Enabled(SysNamed(g, s), e)
    && Corresponds(g, s, d, e) && OwnerOf(d) == OwnerOf(e)
    && Next(SysNamed(g, s), e) == SysNamed(g, Next(s, d))
    && UnbrokenBy(s, d) && SameCount(TakenBy(s, d), TakenBy(SysNamed(g, s), e))
  }

  /** By the other names it is the same action. */
  lemma NamedStandsFor(g: Renames, s: Sys, d: Action, e: Action)
    requires Sane(g) && e == ActionNamed(g)(d) && Enabled(SysNamed(g, s), e) && UnbrokenBy(s, d)
    requires SameCount(TakenBy(s, d), TakenBy(SysNamed(g, s), e)) && OwnerOf(d) == OwnerOf(e)
    ensures StandsFor(g, s, d, e)
  {
    EnabledNamed(g, s, d);
    NextNamed(g, s, d);
  }

  lemma PlainStandsFor(g: Renames, s: Sys, e: Action)
    requires Sane(g) && Enabled(SysNamed(g, s), e) && ActionNamed(g)(e) == e
    requires e.Create? || e.Delete? || e.Begin? || (e.Advance? && !e.step.Append?)
    ensures StandsFor(g, s, e, e)
  {
    NamedStandsFor(g, s, e, e);
  }

  lemma ItemsStandFor(g: Renames, s: Sys, e: Action) returns (d: Action)
    requires Sane(g) && e.AddItems? && Enabled(SysNamed(g, s), e) && From(g.ingredient, s.counters.ingredient, e.ids)
    ensures StandsFor(g, s, d, e)
  {
    d := e.(ids := Following(s.counters.ingredient, |e.ids|));
    NamesNext(g.ingredient, s.counters.ingredient, e.ids);
    NamedStandsFor(g, s, d, e);
  }

  lemma EntryStandsFor(g: Renames, s: Sys, e: Action) returns (d: Action)
    requires Sane(g) && e.AddEntry? && Enabled(SysNamed(g, s), e) && From(g.entry, s.counters.entry, [e.entry.id])
    ensures StandsFor(g, s, d, e)
  {
    d := AddEntry(e.owner, e.entry.(id := s.counters.entry + 1));
    assert g.entry(s.counters.entry + 1 + 0) == [e.entry.id][0];
    assert EntryNamed(g, d.entry) == e.entry;
    NamedStandsFor(g, s, d, e);
  }

  lemma SetNothing(rows: seq<IngredientRow>, owner: string, id: int, inStock: bool)
    requires forall i | i in rows :: i.id != id
    ensures SetAll(rows, owner, id, inStock) == rows
  {
    forall k | 0 <= k < |rows| ensures SetRow(rows[k], owner, id, inStock) == rows[k] {
      assert rows[k] in rows;
    }
  }

  lemma NoneNamed(g: Renames, rows: seq<IngredientRow>, id: int)
    requires forall n :: g.ingredient(n) != id
    ensures forall i | i in Mapped(NameIngredient(g), rows) :: i.id != id
  {}

  lemma NoEntryNamed(g: Renames, rows: seq<JournalRow>, id: int)
    requires forall n :: g.entry(n) != id
    ensures forall r | r in Mapped(NameEntry(g), rows) :: r.entry.id != id
  {}

  lemma FreshIngredient(s: Sys)
    requires Inv(s)
    ensures forall i | i in s.tables.ingredients :: i.id != s.counters.ingredient + 1
    ensures forall r | r in s.tables.journal :: r.entry.id != s.counters.entry + 1
  {
    assert forall i | i in s.tables.ingredients :: IngredientKey()(i) <= s.counters.ingredient;
    assert forall r | r in s.tables.journal :: EntryKey()(r) <= s.counters.entry;
  }

  /** Nothing comes of naming what is not there. */
  lemma MissNothing(s: Sys, d: Action)
    requires Enabled(s, d)
    requires d.SwitchItem? || d.RemoveItem? ==> forall i | i in s.tables.ingredients :: i.id != d.id
    requires d.RemoveEntry? ==> forall r | r in s.tables.journal :: r.entry.id != d.id
    requires d.SwitchItem? || d.RemoveItem? || d.RemoveEntry?
    ensures Next(s, d) == s
  {
    match d {
      case SwitchItem(owner, id, inStock) => SetNothing(s.tables.ingredients, owner, id, inStock);
      case RemoveItem(owner, id) => FilterAll(NotIngredient(owner, id), s.tables.ingredients);
      case RemoveEntry(owner, id) => FilterAll(NotEntry(owner, id), s.tables.journal);
      case _ =>
    }
  }

  /** An identifier that nothing is called changes nothing, whichever it is. */
  lemma MissStandsFor(g: Renames, s: Sys, d: Action, e: Action)
    requires Inv(s) && Corresponds(g, s, d, e) && OwnerOf(d) == OwnerOf(e)
    requires || (e.SwitchItem? && d.SwitchItem? && d.id == s.counters.ingredient + 1 && forall n :: g.ingredient(n) != e.id)
             || (e.RemoveItem? && d.RemoveItem? && d.id == s.counters.ingredient + 1 && forall n :: g.ingredient(n) != e.id)
             || (e.RemoveEntry? && d.RemoveEntry? && d.id == s.counters.entry + 1 && forall n :: g.entry(n) != e.id)
    ensures StandsFor(g, s, d, e)
  {
    FreshIngredient(s);
    MissNothing(s, d);
    if e.RemoveEntry? {
      NoEntryNamed(g, s.tables.journal, e.id);
    } else {
      NoneNamed(g, s.tables.ingredients, e.id);
    }
    MissNothing(SysNamed(g, s), e);
  }

  lemma SwitchStandsFor(g: Renames, s: Sys, e: Action) returns (d: Action)
    requires Sane(g) && Inv(s) && e.SwitchItem?
    ensures StandsFor(g, s, d, e)
  {
    if n :| g.ingredient(n) == e.id {
      d := SwitchItem(e.owner, n, e.inStock);
      NamedStandsFor(g, s, d, e);
    } else {
      d := SwitchItem(e.owner, s.counters.ingredient + 1, e.inStock);
      FreshIngredient(s);
      MissStandsFor(g, s, d, e);
    }
  }

  lemma RemoveStandsFor(g: Renames, s: Sys, e: Action) returns (d: Action)
    requires Sane(g) && Inv(s) && e.RemoveItem?
    ensures StandsFor(g, s, d, e)
  {
    if n :| g.ingredient(n) == e.id {
      d := RemoveItem(e.owner, n);
      NamedStandsFor(g, s, d, e);
    } else {
      d := RemoveItem(e.owner, s.counters.ingredient + 1);
      FreshIngredient(s);
      MissStandsFor(g, s, d, e);
    }
  }

  lemma ForgetStandsFor(g: Renames, s: Sys, e: Action) returns (d: Action)
    requires Sane(g) && Inv(s) && e.RemoveEntry?
    ensures StandsFor(g, s, d, e)
  {
    if n :| g.entry(n) == e.id {
      d := RemoveEntry(e.owner, n);
      NamedStandsFor(g, s, d, e);
    } else {
      d := RemoveEntry(e.owner, s.counters.entry + 1);
      FreshIngredient(s);
      MissStandsFor(g, s, d, e);
    }
  }

  // ---------------------------------------------------------------------------------------------
  // Appends
  // ---------------------------------------------------------------------------------------------

  lemma IdsAreNamed(g: Renames, c: Counters, user: Message, ids: NewIds)
    requires |ids.images| == |user.images|
    requires From(g.message, c.message, [ids.user, ids.answer]) && From(g.image, c.image, ids.images)
    ensures IdsNamed(g, NextIds(c, user)) == ids
  {
    var pair := [ids.user, ids.answer];
    assert g.message(c.message + 1 + 0) == pair[0] && g.message(c.message + 1 + 1) == pair[1];
    NamesNext(g.image, c.image, ids.images);
  }

  lemma CommitStandsFor(g: Renames, s: Sys, e: Action) returns (d: Action)
    requires Sane(g) && e.Advance? && e.step.Append? && Enabled(SysNamed(g, s), e)
    requires Commits(s.tables, s.requests[e.request], e.step.fails)
    requires Names(g, s.counters, TakenBy(SysNamed(g, s), e))
    ensures StandsFor(g, s, d, e)
  {
    var r, ids := s.requests[e.request], e.step.ids;
    CommitsNamed(g, s.tables, r, e.step.fails);
    IdsAreNamed(g, s.counters, r.user, ids);
    d := Advance(e.owner, e.request, Append(e.step.now, NextIds(s.counters, r.user), e.step.fails));
    assert ActionNamed(g)(d) == Advance(e.owner, e.request, StepNamed(g, d.step));
    NextIdsUnbroken(s, d);
    NamedStandsFor(g, s, d, e);
  }

  lemma NextIdsUnbroken(s: Sys, d: Action)
    requires d.Advance? && d.step.Append? && d.request in s.requests
    requires d.step.ids == NextIds(s.counters, s.requests[d.request].user)
    requires Commits(s.tables, s.requests[d.request], d.step.fails)
    ensures UnbrokenBy(s, d) && |TakenBy(s, d).messages| == 2 && |TakenBy(s, d).images| == |s.requests[d.request].user.images|
    ensures TakenBy(s, d).ingredients == [] && TakenBy(s, d).entries == []
  {
    assert [s.counters.message + 1, s.counters.message + 2] == Following(s.counters.message, 2);
  }

  lemma FailedStandsFor(g: Renames, s: Sys, e: Action) returns (d: Action)
    requires Sane(g) && e.Advance? && e.step.Append? && Enabled(SysNamed(g, s), e)
    requires !Commits(s.tables, s.requests[e.request], e.step.fails)
    ensures StandsFor(g, s, d, e)
  {
    var r := s.requests[e.request];
    var step := Append(e.step.now, NextIds(s.counters, r.user), e.step.fails);
    d := Advance(e.owner, e.request, step);
    NextIdsNew(s.counters, r.user);
    FailedSame(g, s, e.request, step, e.step);
    TakesNothing(s, d);
    CommitsNamed(g, s.tables, r, e.step.fails);
    TakesNothing(SysNamed(g, s), e);
  }

  lemma TakesNothing(s: Sys, a: Action)
    requires a.Advance? && a.step.Append? && a.request in s.requests
    requires !Commits(s.tables, s.requests[a.request], a.step.fails)
    ensures TakenBy(s, a) == NONE && UnbrokenBy(s, a)
  {}

  lemma FailedSame(g: Renames, s: Sys, k: int, step: Step, other: Step)
    requires k in s.requests && step.Append? && other.Append? && other == step.(ids := other.ids)
    requires !Commits(s.tables, s.requests[k], step.fails)
    ensures AdvanceSys(SysNamed(g, s), k, other) == SysNamed(g, AdvanceSys(s, k, step))
  {
    CommitsNamed(g, s.tables, s.requests[k], step.fails);
    QuietIs(s, k, step);
    QuietIs(SysNamed(g, s), k, other);
    FailedNamed(g, s.tables, s.requests[k], step, other);
    QuietNamed(g, s, k, Stepped(s.tables, s.requests[k], step));
  }

  /** What is not stored does not show its identifiers. */
  lemma FailedNamed(g: Renames, t: Tables, r: Request, step: Step, other: Step)
    requires step.Append? && other.Append? && other == step.(ids := other.ids) && !Commits(t, r, step.fails)
    ensures Stepped(TablesNamed(g, t), RequestNamed(g, r), other) == RequestNamed(g, Stepped(t, r, step))
  {
    EndedNamed(g, r, Failure("The answer could not be saved"));
    CommitsNamed(g, t, r, step.fails);
  }

  // ---------------------------------------------------------------------------------------------
  // Every run has an unbroken twin
  // ---------------------------------------------------------------------------------------------

  lemma AdvanceTwin(g: Renames, s: Sys, e: Action) returns (d: Action)
    requires Sane(g) && e.Advance? && Enabled(SysNamed(g, s), e) && Names(g, s.counters, TakenBy(SysNamed(g, s), e))
    ensures StandsFor(g, s, d, e)
  {
    assert e.request in s.requests;
    if !e.step.Append? {
      d := e;
      assert ActionNamed(g)(e) == Advance(e.owner, e.request, StepNamed(g, e.step));
      PlainStandsFor(g, s, e);
    } else if Commits(s.tables, s.requests[e.request], e.step.fails) {
      d := CommitStandsFor(g, s, e);
    } else {
      d := FailedStandsFor(g, s, e);
    }
  }

  lemma ActionTwin(g: Renames, s: Sys, e: Action) returns (d: Action)
    requires Sane(g) && Inv(s) && Enabled(SysNamed(g, s), e) && Names(g, s.counters, TakenBy(SysNamed(g, s), e))
    ensures StandsFor(g, s, d, e)
  {
    match e {
      case AddItems(_, _, _, _) => d := ItemsStandFor(g, s, e);
      case AddEntry(_, _) => d := EntryStandsFor(g, s, e);
      case SwitchItem(_, _, _) => d := SwitchStandsFor(g, s, e);
      case RemoveItem(_, _) => d := RemoveStandsFor(g, s, e);
      case RemoveEntry(_, _) => d := ForgetStandsFor(g, s, e);
      case Advance(_, _, _) => d := AdvanceTwin(g, s, e);
      case _ =>
        d := e;
        PlainStandsFor(g, s, e);
    }
  }

  /** The counters moved on by so many. */
  function Moved(c: Counters, t: Taken): Counters {
    Counters(c.message + |t.messages|, c.image + |t.images|, c.ingredient + |t.ingredients|, c.entry + |t.entries|)
  }

  lemma NamesRest(g: Renames, c: Counters, a: Taken, b: Taken)
    requires Names(g, c, And(a, b))
    ensures Names(g, c, a) && Names(g, Moved(c, a), b)
  {
    FromRest(g.message, c.message, a.messages, b.messages);
    FromRest(g.image, c.image, a.images, b.images);
    FromRest(g.ingredient, c.ingredient, a.ingredients, b.ingredients);
    FromRest(g.entry, c.entry, a.entries, b.entries);
  }

  lemma UnbrokenCounts(s: Sys, d: Action)
    requires Enabled(s, d) && UnbrokenBy(s, d)
    ensures Next(s, d).counters == Moved(s.counters, TakenBy(s, d))
  {
    var t, c := TakenBy(s, d), s.counters;
    TakenCounts(s, d);
    FollowingAscends(c.message, |t.messages|);
    FollowingAscends(c.image, |t.images|);
    FollowingAscends(c.ingredient, |t.ingredients|);
    FollowingAscends(c.entry, |t.entries|);
  }

  /** The two runs do the same, action for action. */
  ghost predicate Twins(g: Renames, s: Sys, ds: seq<Action>, es: seq<Action>)
    requires Behaves(s, ds)
    decreases ds
  {
    && |ds| == |es|
    && (ds != [] ==>
          && Corresponds(g, s, ds[0], es[0]) && OwnerOf(ds[0]) == OwnerOf(es[0])
          && Twins(g, Next(s, ds[0]), ds[1..], es[1..]))
  }

  /** The rest of the names start where the twin's counters are now. */
  lemma RestNamed(g: Renames, s: Sys, d: Action, t: Taken, rest: Taken)
    requires Enabled(s, d) && UnbrokenBy(s, d) && SameCount(TakenBy(s, d), t) && Names(g, Moved(s.counters, t), rest)
    ensures Names(g, Next(s, d).counters, rest)
  {
    UnbrokenCounts(s, d);
    assert Moved(s.counters, TakenBy(s, d)) == Moved(s.counters, t);
  }

  lemma {:induction false} RunTwin(g: Renames, s: Sys, es: seq<Action>) returns (ds: seq<Action>)
    requires Sane(g) && Inv(s) && Behaves(SysNamed(g, s), es)
    requires Names(g, s.counters, TakenOver(SysNamed(g, s), es))
    ensures Behaves(s, ds) && Unbroken(s, ds) && Twins(g, s, ds, es)
    ensures After(SysNamed(g, s), es) == SysNamed(g, After(s, ds))
    decreases |es|
  {
    if es == [] {
      ds := [];
    } else {
      var e, rest := es[0], es[1..];
      NamesRest(g, s.counters, TakenBy(SysNamed(g, s), e), TakenOver(Next(SysNamed(g, s), e), rest));
      var d := ActionTwin(g, s, e);
      NextKept(s, d);
      RestNamed(g, s, d, TakenBy(SysNamed(g, s), e), TakenOver(Next(SysNamed(g, s), e), rest));
      var more := RunTwin(g, Next(s, d), rest);
      ds := [d] + more;
      TwinCons(g, s, d, more, es);
    }
  }

  lemma TwinCons(g: Renames, s: Sys, d: Action, more: seq<Action>, es: seq<Action>)
    requires es != [] && StandsFor(g, s, d, es[0])
    requires Behaves(Next(s, d), more) && Unbroken(Next(s, d), more) && Twins(g, Next(s, d), more, es[1..])
    ensures Behaves(s, [d] + more) && After(s, [d] + more) == After(Next(s, d), more)
    ensures Unbroken(s, [d] + more) && Twins(g, s, [d] + more, es)
  {
    var ds := [d] + more;
    assert ds[0] == d && ds[1..] == more;
  }

  lemma InitNamed(g: Renames)
    requires Sane(g)
    ensures SysNamed(g, INIT) == INIT
  {}

  lemma NamingRight(t: Taken)
    requires TakenAfter(NO_IDS, t)
    ensures Sane(Naming(t)) && Names(Naming(t), NO_IDS, t)
  {
    Numbering(t.messages);
    Numbering(t.images);
    Numbering(t.ingredients);
    Numbering(t.entries);
  }

  lemma Numbering(xs: seq<int>)
    requires AscendingIds(0, xs)
    ensures Increasing(Nth(xs)) && From(Nth(xs), 0, xs)
  {
    NthIncreasing(xs);
  }

  /** Every run is, by other names, a run whose identifiers are 1, 2, 3, ... without a gap. */
  lemma EveryRunUnbroken(es: seq<Action>) returns (g: Renames, ds: seq<Action>)
    requires Behaves(INIT, es)
    ensures Sane(g) && Behaves(INIT, ds) && Unbroken(INIT, ds) && Twins(g, INIT, ds, es)
    ensures After(INIT, es) == SysNamed(g, After(INIT, ds))
  {
    TakenAscend(INIT, es);
    NamingRight(TakenOver(INIT, es));
    g := Naming(TakenOver(INIT, es));
    InitNamed(g);
    InitRight();
    ds := RunTwin(g, INIT, es);
  }

  /**
  Owner separation as the database would have it: for any run and any owner there is a run of that owner
  alone, doing the same, in which every identifier is the next one, and at its end the database and the
  sends are this owner's share of the long run's, up to an order-preserving renaming of identifiers.
  */
  lemma AloneUpToNames(acts: seq<Action>, o: string) returns (g: Renames, alone: seq<Action>)
    requires Behaves(INIT, acts)
    ensures Sane(g) && Behaves(INIT, alone) && Unbroken(INIT, alone) && Twins(g, INIT, alone, OnlyBy(acts, o))
    ensures Theirs(After(INIT, acts).tables, o) == TablesNamed(g, After(INIT, alone).tables)
    ensures TheirRequests(After(INIT, acts), o) == RequestsNamed(g, After(INIT, alone).requests)
  {
    OthersLeaveNoTrace(acts, o);
    g, alone := EveryRunUnbroken(OnlyBy(acts, o));
  }

  /**
  Two runs in which an owner does the same, but for other identifiers in the same order, end the same for
  that owner up to those, whatever the others do.
  */
  lemma SameDoingsUpToNames(g: Renames, a: seq<Action>, b: seq<Action>, o: string)
    requires Sane(g) && Behaves(INIT, a) && Behaves(INIT, b)
    requires OnlyBy(b, o) == Mapped(ActionNamed(g), OnlyBy(a, o))
    ensures Theirs(After(INIT, b).tables, o) == TablesNamed(g, Theirs(After(INIT, a).tables, o))
    ensures TheirRequests(After(INIT, b), o) == RequestsNamed(g, TheirRequests(After(INIT, a), o))
  {
    OthersLeaveNoTrace(a, o);
    OthersLeaveNoTrace(b, o);
    InitNamed(g);
    RunNamed(g, INIT, OnlyBy(a, o));
  }
}
