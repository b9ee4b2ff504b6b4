/**
From a pasted list through the pantry to the block the model reads: what cleaning, storing, listing and
rendering leave of every name.
*/
module Kitchens {
  import opened Common
  import opened Text
  import opened Seqs
  import opened Entities
  import opened Schema
  import opened Pantry
  import opened Memories
  import opened Names
  import opened Protocol
  import opened Conversations
  import opened Invariant
  import opened Isolation

  // ---------------------------------------------------------------------------------------------
  // Names and dates are plain in every reachable state
  // ---------------------------------------------------------------------------------------------

  ghost predicate PlainRows(t: Tables) {
    && (forall i | i in t.ingredients :: PlainName(i.name))
    && (forall r | r in t.journal :: IsDate(r.entry.cookedOn) && 1 <= r.entry.taste <= 5)
  }

  ghost predicate PlainPantry(xs: seq<Ingredient>) { forall i | 0 <= i < |xs| :: PlainName(xs[i].name) }

  ghost predicate PlainJournal(es: seq<JournalEntry>) {
    |es| <= MEMORY_ENTRIES && forall i | 0 <= i < |es| :: IsDate(es[i].cookedOn) && 1 <= es[i].taste <= 5
  }

  ghost predicate PlainRequest(r: Request) {
    && PlainPantry(r.pantry) && PlainPantry(r.memory.ingredients) && PlainJournal(r.memory.journal)
    && (r.memory.today == "" || IsDate(r.memory.today))
  }

  ghost predicate PlainText(s: Sys) {
    PlainRows(s.tables) && forall k | k in s.requests :: PlainRequest(s.requests[k])
  }

  lemma {:induction false} UpsertPlain(rows: seq<IngredientRow>, owner: string, names: seq<string>, ids: seq<int>, now: int)
    requires |ids| == |names| && forall n | n in names :: PlainName(n)
    requires forall i | i in rows :: PlainName(i.name)
    ensures forall i | i in UpsertAll(rows, owner, names, ids, now) :: PlainName(i.name)
    decreases |names|
  {
    if names != [] {
      var n := |names| - 1;
      assert forall x | x in names[..n] :: x in names;
      UpsertPlain(rows, owner, names[..n], ids[..n], now);
      var before := UpsertAll(rows, owner, names[..n], ids[..n], now);
      forall i | i in Upsert(before, owner, names[n], ids[n], now) ensures PlainName(i.name) {
        UpsertNames(before, owner, names[n], ids[n], now, i);
      }
    }
  }

  lemma UpsertNames(rows: seq<IngredientRow>, owner: string, name: string, id: int, now: int, i: IngredientRow)
    requires i in Upsert(rows, owner, name, id, now)
    ensures i.name == name || exists j :: j in rows && j.name == i.name
  {
    if HasName(rows, owner, name) {
      var k :| 0 <= k < |rows| && i == Switched(rows[k], owner, name);
      assert rows[k] in rows;
    }
  }

  lemma IngredientsPlain(t: Tables, owner: string)
    requires PlainRows(t)
    ensures PlainPantry(Ingredients(t, owner))
  {
    var rows := Filter(TheirIngredient(owner), t.ingredients);
    FilterMembers(TheirIngredient(owner), t.ingredients);
    SortMembers(ByName(), rows);
    assert forall i | 0 <= i < |Listing(t, owner)| :: Listing(t, owner)[i] in Listing(t, owner);
  }

  lemma JournalPlain(t: Tables, owner: string)
    requires PlainRows(t)
    ensures PlainJournal(Journal(t, owner, MEMORY_ENTRIES))
  {
    var rows := Filter(TheirEntry(owner), t.journal);
    FilterMembers(TheirEntry(owner), t.journal);
    SortMembers(NewestFirst(), rows);
    assert forall i | 0 <= i < |Entries(t, owner)| :: Entries(t, owner)[i] in Entries(t, owner);
  }

  lemma StepPlain(s: Sys, r: Request, step: Step)
    requires PlainRows(s.tables) && PlainRequest(r) && StepEnabled(s, r, step)
    ensures PlainRequest(Stepped(s.tables, r, step))
  {
    IngredientsPlain(s.tables, r.owner);
    JournalPlain(s.tables, r.owner);
    PlainAgain(s.tables, r, step, Stepped(s.tables, r, step));
  }

  lemma PlainAgain(t: Tables, r: Request, step: Step, r2: Request)
    requires PlainRequest(r) && (step.ReadJournal? ==> IsDate(step.today))
    requires PlainPantry(Ingredients(t, r.owner)) && PlainJournal(Journal(t, r.owner, MEMORY_ENTRIES))
    requires r2.pantry == if step.ReadPantry? then Ingredients(t, r.owner) else r.pantry
    requires r2.memory == if step.ReadJournal? then Memory(step.today, r.pantry, Journal(t, r.owner, MEMORY_ENTRIES)) else r.memory
    ensures PlainRequest(r2)
  {}

  lemma RowsPlain(s: Sys, a: Action)
    requires PlainRows(s.tables) && Enabled(s, a)
    ensures PlainRows(Next(s, a).tables)
  {
    var t := s.tables;
    match a {
      case AddItems(owner, names, ids, now) => UpsertPlain(t.ingredients, owner, names, ids, now);
      case SwitchItem(owner, id, inStock) =>
        forall i | i in SetInStock(t, owner, id, inStock).ingredients ensures PlainName(i.name) {
          var k :| 0 <= k < |t.ingredients| && i == SetRow(t.ingredients[k], owner, id, inStock);
          assert t.ingredients[k] in t.ingredients;
        }
      case RemoveItem(owner, id) => FilterMembers(NotIngredient(owner, id), t.ingredients);
      case RemoveEntry(owner, id) => FilterMembers(NotEntry(owner, id), t.journal);
      case _ =>
    }
  }

  lemma NextPlain(s: Sys, a: Action)
    requires PlainText(s) && Enabled(s, a)
    ensures PlainText(Next(s, a))
  {
    RowsPlain(s, a);
    forall k | k in Next(s, a).requests ensures PlainRequest(Next(s, a).requests[k]) {
      if a.Advance? && a.request == k { StepPlain(s, s.requests[k], a.step); }
    }
  }

  lemma {:induction false} RunPlain(s: Sys, acts: seq<Action>)
    requires PlainText(s) && Behaves(s, acts)
    ensures PlainText(After(s, acts))
    decreases |acts|
  {
    if acts != [] {
      NextPlain(s, acts[0]);
      RunPlain(Next(s, acts[0]), acts[1..]);
    }
  }

  lemma ReachablePlain(s: Sys)
    requires Reachable(s)
    ensures PlainText(s)
  {
    var acts :| Behaves(INIT, acts) && s == After(INIT, acts);
    RunPlain(INIT, acts);
  }

  // ---------------------------------------------------------------------------------------------
  // A pantry over a whole run
  // ---------------------------------------------------------------------------------------------

  /** What an action of its owner does to a map from names to stock. */
  function PantryNext(m: map<string, Stock>, a: Action): map<string, Stock> {
    match a
    case AddItems(_, names, ids, _) => if |ids| == |names| then PutAllIn(m, names, ids) else m
    case SwitchItem(_, id, inStock) => SetIn(m, id, inStock)
    case RemoveItem(_, id) => Without(m, id)
    case _ => m
  }

  function PantryAfter(m: map<string, Stock>, acts: seq<Action>, owner: string): map<string, Stock>
    decreases acts
  {
    if acts == [] then m
    else PantryAfter(if OwnerOf(acts[0]) == owner then PantryNext(m, acts[0]) else m, acts[1..], owner)
  }

  lemma PantryStep(s: Sys, a: Action, owner: string)
    requires Sound(s.tables, s.counters) && Enabled(s, a)
    ensures var m := PantryOf(s.tables.ingredients, owner);
            PantryOf(Next(s, a).tables.ingredients, owner) == if OwnerOf(a) == owner then PantryNext(m, a) else m
  {
    var rows := s.tables.ingredients;
    match a {
      case AddItems(p, names, ids, now) => AddRefines(rows, p, names, ids, now, owner);
      case SwitchItem(p, id, inStock) => SetRefines(rows, p, id, inStock, owner);
      case RemoveItem(p, id) => DeleteRefines(rows, p, id, owner);
      case _ =>
    }
  }

  lemma {:induction false} PantryRun(s: Sys, acts: seq<Action>, owner: string)
    requires Inv(s) && Behaves(s, acts)
    ensures PantryOf(After(s, acts).tables.ingredients, owner)
            == PantryAfter(PantryOf(s.tables.ingredients, owner), acts, owner)
    decreases |acts|
  {
    if acts != [] {
      PantryStep(s, acts[0], owner);
      NextKept(s, acts[0]);
      PantryRun(Next(s, acts[0]), acts[1..], owner);
    }
  }

  /**
  Over any run, through sends, deletes and everybody else's doings, an owner's pantry is the map that
  their own adding, switching and removing makes; and it is listed strictly by name, each name once.
  */
  lemma PantryIsItsOwnersDoing(acts: seq<Action>, owner: string)
    requires Behaves(INIT, acts)
    ensures var t, m := After(INIT, acts).tables, PantryAfter(map[], acts, owner);
            var list := Ingredients(t, owner);
            && PantryOf(t.ingredients, owner) == m
            && (forall i | 0 <= i < |list| :: list[i].name in m && m[list[i].name] == Stock(list[i].id, list[i].inStock))
            && (forall name | name in m :: exists i :: 0 <= i < |list| && list[i].name == name)
            && (forall i, j | 0 <= i < j < |list| :: TextLess(list[i].name, list[j].name))
  {
    InitRight();
    PantryRun(INIT, acts, owner);
    RunKept(INIT, acts);
    ListingIsPantry(After(INIT, acts).tables, After(INIT, acts).counters, owner);
  }

  // ---------------------------------------------------------------------------------------------
  // What the model can read off the block
  // ---------------------------------------------------------------------------------------------

  lemma DateIsFree(d: string)
    requires IsDate(d) || d == ""
    ensures Free(IsLayout, d)
  {}

  lemma PlainNameListable(name: string)
    requires PlainName(name)
    ensures Free(IsComma, name)
  {}

  /**
  For every send of every run: the block's pantry section says exactly what was in stock and what was out
  when the pantry was read, if and only if the only thing in stock is not called "nothing". Names that are
  nothing but tag characters are told too, as empty ones.
  */
  lemma BlockTellsPantryIff(s: Sys, k: int)
    requires Reachable(s) && k in s.requests
    ensures var m := s.requests[k].memory;
            PantryInBlock(BlockText(m)) == (Stocked(m.ingredients, true), Stocked(m.ingredients, false))
            <==> Stocked(m.ingredients, true) != ["nothing"]
  {
    ReachablePlain(s);
    MemoryPlain(s.requests[k]);
    PlainPantryToldIff(s.requests[k].memory);
  }

  /**
  And so, in every reachable state and unless the only thing in stock is called "nothing": the two lists read
  off the block have one item for each ingredient, and a name is read as available (or as out) if and only
  if some ingredient in stock (or out) cleans to it.
  */
  lemma EveryIngredientTold(s: Sys, k: int, name: string)
    requires Reachable(s) && k in s.requests
    requires Stocked(s.requests[k].memory.ingredients, true) != ["nothing"]
    ensures var xs := s.requests[k].memory.ingredients;
            var (available, out) := PantryInBlock(BlockText(s.requests[k].memory));
            && |available| + |out| == |xs|
            && (name in available <==> exists i :: 0 <= i < |xs| && xs[i].inStock && Clean(xs[i].name) == name)
            && (name in out <==> exists i :: 0 <= i < |xs| && !xs[i].inStock && Clean(xs[i].name) == name)
  {
    BlockTellsPantryIff(s, k);
    TellsEach(s.requests[k].memory.ingredients, name);
  }

  lemma TellsEach(xs: seq<Ingredient>, name: string)
    ensures |Stocked(xs, true)| + |Stocked(xs, false)| == |xs|
    ensures name in Stocked(xs, true) <==> exists i :: 0 <= i < |xs| && xs[i].inStock && Clean(xs[i].name) == name
    ensures name in Stocked(xs, false) <==> exists i :: 0 <= i < |xs| && !xs[i].inStock && Clean(xs[i].name) == name
  {
    StockedCount(xs);
    StockedHasIff(xs, true, name);
    StockedHasIff(xs, false, name);
  }

  lemma PlainPantryToldIff(m: Memory)
    requires PlainDates(m) && PlainPantry(m.ingredients)
    ensures PantryInBlock(BlockText(m)) == (Stocked(m.ingredients, true), Stocked(m.ingredients, false))
            <==> Stocked(m.ingredients, true) != ["nothing"]
  {
    forall i | 0 <= i < |m.ingredients| ensures Free(IsComma, m.ingredients[i].name) {
      PlainNameListable(m.ingredients[i].name);
    }
    ListedFree(m.ingredients, true, IsComma);
    ListedFree(m.ingredients, false, IsComma);
    ListedIsStocked(m.ingredients, true);
    ListedIsStocked(m.ingredients, false);
    PantryReadBackIff(m);
  }

  lemma MemoryPlain(r: Request)
    requires PlainRequest(r)
    ensures PlainDates(r.memory) && |r.memory.journal| <= MEMORY_ENTRIES
    ensures PlainPantry(r.memory.ingredients)
  {
    var m := r.memory;
    DateIsFree(m.today);
    forall i | 0 <= i < |m.journal| ensures Free(IsLayout, m.journal[i].cookedOn) {
      DateIsFree(m.journal[i].cookedOn);
    }
  }

  /** Every block that reaches a model has its tags once each, in place, and n + 3 lines for n <= 15 entries. */
  lemma EveryBlockLaidOut(s: Sys, k: int)
    requires Reachable(s) && k in s.requests && BlockLines(s.requests[k].memory) != []
    ensures var m := s.requests[k].memory;
            var ls, p := Lines(BlockText(m)), |PantryLinesOf(m)|;
            && (forall i | 0 <= i < |ls| :: !Free(IsMarkup, ls[i]) <==> IsTagLine(m, i))
            && (p > 0 ==> p >= 3 && |ls| >= p && ls[0] == "<pantry>" && ls[p - 1] == "</pantry>")
            && (m.journal != [] ==>
                  |m.journal| <= 15 && |ls| == p + |m.journal| + 3
                  && ls[p] == "<journal>" && ls[|ls| - 1] == "</journal>")
            && (m.journal == [] ==> |ls| == p)
  {
    ReachablePlain(s);
    MemoryPlain(s.requests[k]);
    BlockLaidOut(s.requests[k].memory);
  }

  /** Entry `i` of the journal stands on its own line below the day's heading, which tells all of it or its dish has a colon. */
  ghost predicate EntryTold(m: Memory, i: nat)
    requires i < |m.journal|
  {
    var e, ls, p := m.journal[i], Lines(BlockText(m)), Height(m.ingredients);
    && |ls| == p + |m.journal| + 3
    && ls[p + 1] == "Dishes cooked before, newest first (today is " + m.today + "; taste is out of 5):"
    && |ls[p + 2 + i]| >= 13
    && (ReadEntry(ls[p + 2 + i]) == EntryRead(e.cookedOn, Clean(e.dish), e.taste, e.minutes, Clean(e.note))
        <==> Free(IsColon, Clean(e.dish)))
  }

  /** Every entry that reaches a model is told. */
  lemma EveryEntryTold(s: Sys, k: int, i: nat)
    requires Reachable(s) && k in s.requests && i < |s.requests[k].memory.journal|
    ensures EntryTold(s.requests[k].memory, i)
  {
    ReachablePlain(s);
    MemoryPlain(s.requests[k]);
    PlainEntry(s.requests[k], i);
    PlainEntryTold(s.requests[k].memory, i);
  }

  lemma PlainEntryTold(m: Memory, i: nat)
    requires PlainDates(m) && i < |m.journal| && |m.journal[i].cookedOn| == 10 && 1 <= m.journal[i].taste <= 5
    ensures EntryTold(m, i)
  {
    JournalInBlock(m);
    EntryReadBackIff(m.journal[i]);
  }

  lemma PlainEntry(r: Request, i: nat)
    requires PlainRequest(r) && i < |r.memory.journal|
    ensures var e := r.memory.journal[i]; |e.cookedOn| == 10 && 1 <= e.taste <= 5
  {}

  /**
  In every reachable state, the entries a send then reads are the owner's newest: 15 of them or all if there
  are fewer, newest first, and any entry left out is older than all of them.
  */
  lemma NewestAreRead(s: Sys, r: Request, today: string)
    requires Reachable(s) && StepEnabled(s, r, ReadJournal(today))
    ensures var kept, theirs := Stepped(s.tables, r, ReadJournal(today)).memory.journal, Filter(TheirEntry(r.owner), s.tables.journal);
            && |kept| == (if |theirs| < 15 then |theirs| else 15)
            && (forall i, j | 0 <= i < j < |kept| :: Newer(kept[i], kept[j]))
            && (forall i | 0 <= i < |kept| :: JournalRow(r.owner, kept[i]) in s.tables.journal)
            && (forall row | row in s.tables.journal && row.owner == r.owner ::
                  row.entry in kept || forall i | 0 <= i < |kept| :: Newer(kept[i], row.entry))
  {
    ReachableRight(s);
    NewestOf(s.tables, s.counters, r.owner, 15);
  }

  lemma NewestOf(t: Tables, c: Counters, owner: string, limit: nat)
    requires Sound(t, c)
    ensures var kept, theirs := Journal(t, owner, limit), Filter(TheirEntry(owner), t.journal);
            && |kept| == Min(limit, |theirs|)
            && (forall i, j | 0 <= i < j < |kept| :: Newer(kept[i], kept[j]))
            && (forall i | 0 <= i < |kept| :: JournalRow(owner, kept[i]) in t.journal)
            && (forall row | row in t.journal && row.owner == owner ::
                  row.entry in kept || forall i | 0 <= i < |kept| :: Newer(kept[i], row.entry))
  {
    var kept, all := Journal(t, owner, limit), Entries(t, owner);
    JournalKeepsNewest(t, c, owner, limit);
    EntriesSorted(t, c, owner);
    SortMembers(NewestFirst(), Filter(TheirEntry(owner), t.journal));
    assert |multiset(all)| == |all|;
    forall i, j | 0 <= i < j < |kept| ensures Newer(kept[i], kept[j]) {
      StrictPair(NewestFirst(), all, i, j);
    }
    forall i | 0 <= i < |kept| ensures JournalRow(owner, kept[i]) in t.journal {
      assert all[i] in all;
    }
    forall row | row in t.journal && row.owner == owner
      ensures row.entry in kept || forall i | 0 <= i < |kept| :: Newer(kept[i], row.entry)
    {
      var j :| 0 <= j < |all| && all[j] == row;
      if j < |kept| { assert kept[j] == row.entry; }
    }
  }

  // ---------------------------------------------------------------------------------------------
  // From the pasted list to the block
  // ---------------------------------------------------------------------------------------------

  /** What a list parses to may be added, whatever it was. */
  lemma ParsedIsPlain(lower: char -> char, text: string)
    requires CaseMap(lower) && ParseNames(lower, text).Ok?
    ensures forall n | n in ParseNames(lower, text).value :: PlainName(n)
  {
    ParsedNames(lower, text);
  }

  lemma InStockListed(t: Tables, owner: string, name: string)
    requires HasInStock(t.ingredients, owner, name)
    ensures exists i :: 0 <= i < |Ingredients(t, owner)|
                        && Ingredients(t, owner)[i].name == name && Ingredients(t, owner)[i].inStock
  {
    var j :| 0 <= j < |t.ingredients| && t.ingredients[j].owner == owner && t.ingredients[j].name == name;
    var row, rows := t.ingredients[j], Filter(TheirIngredient(owner), t.ingredients);
    FilterMembers(TheirIngredient(owner), t.ingredients);
    SortMembers(ByName(), rows);
    assert row in Listing(t, owner);
    var i :| 0 <= i < |Listing(t, owner)| && Listing(t, owner)[i] == row;
    assert Ingredients(t, owner)[i].name == name;
  }

  lemma AddedStocked(t: Tables, owner: string, names: seq<string>, ids: seq<int>, now: int, name: string)
    requires |ids| == |names| && name in names
    ensures Clean(name) in Stocked(Ingredients(AddIngredients(t, owner, names, ids, now), owner), true)
  {
    var t2 := AddIngredients(t, owner, names, ids, now);
    AllInStock(t.ingredients, owner, names, ids, now, name);
    InStockListed(t2, owner, name);
    var i :| 0 <= i < |Ingredients(t2, owner)| && Ingredients(t2, owner)[i].name == name && Ingredients(t2, owner)[i].inStock;
    StockedHasIff(Ingredients(t2, owner), true, Clean(name));
  }

  /**
  The whole way, for any list that parses and any pantry it is added to: a send that then reads the pantry
  is told that every pasted name is in stock, as cleaning leaves it, if and only if the one thing in stock
  is not called "nothing".
  */
  lemma PastedListReachesModel(s: Sys, lower: char -> char, text: string, owner: string, ids: seq<int>, now: int, today: string)
    requires Reachable(s) && CaseMap(lower) && ParseNames(lower, text).Ok? && IsDate(today)
    requires |ids| == |ParseNames(lower, text).value| && AscendingIds(s.counters.ingredient, ids)
    ensures var names := ParseNames(lower, text).value;
            var add := AddItems(owner, names, ids, now);
            && Enabled(s, add)
            && var t := Next(s, add).tables;
               var m := Memory(today, Ingredients(t, owner), Journal(t, owner, MEMORY_ENTRIES));
               (forall n | n in names :: Clean(n) in PantryInBlock(BlockText(m)).0)
               <==> Stocked(m.ingredients, true) != ["nothing"]
  {
    ParsedIsPlain(lower, text);
    ParsedNames(lower, text);
    ReachablePlain(s);
    var names := ParseNames(lower, text).value;
    var add := AddItems(owner, names, ids, now);
    var t := Next(s, add).tables;
    RowsPlain(s, add);
    ReadablePantry(t, owner, today);
    forall n | n in names ensures Clean(n) in Stocked(Ingredients(t, owner), true) {
      AddedStocked(s.tables, owner, names, ids, now, n);
    }
    assert names[0] in names;
  }

  lemma ReadablePantry(t: Tables, owner: string, today: string)
    requires PlainRows(t) && IsDate(today)
    ensures var m := Memory(today, Ingredients(t, owner), Journal(t, owner, MEMORY_ENTRIES));
            PantryInBlock(BlockText(m)).0
            == if Stocked(m.ingredients, true) == ["nothing"] then [] else Stocked(m.ingredients, true)
  {
    var m := Memory(today, Ingredients(t, owner), Journal(t, owner, MEMORY_ENTRIES));
    IngredientsPlain(t, owner);
    JournalPlain(t, owner);
    DateIsFree(today);
    forall i | 0 <= i < |m.journal| ensures Free(IsLayout, m.journal[i].cookedOn) {
      DateIsFree(m.journal[i].cookedOn);
    }
    PlainPantryToldIff(m);
    if Stocked(m.ingredients, true) == ["nothing"] { OnlyNothing(m); }
  }

  /** An ingredient named by two tag characters can be pasted; the block lists it as an empty name. */
  lemma TagsAloneArePlain()
    ensures PlainName("<>") && Clean("<>") == ""
  {
    TagsAloneVanish();
  }
}
