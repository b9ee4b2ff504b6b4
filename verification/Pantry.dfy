/** The pantry and the journal, internal/store/pantry.go and internal/store/journal.go. */
module Pantry {
  import opened Common
  import opened Seqs
  import opened Entities
  import opened Schema
  import opened Conversations

  // ---------------------------------------------------------------------------------------------
  // A pantry is a map
  // ---------------------------------------------------------------------------------------------

  datatype Stock = Stock(id: int, inStock: bool)

  /** One owner's pantry, by name. */
  function PantryOf(rows: seq<IngredientRow>, owner: string): map<string, Stock> {
    if rows == [] then map[]
    else
      var last, rest := rows[|rows| - 1], PantryOf(rows[..|rows| - 1], owner);
      if last.owner == owner then rest[last.name := Stock(last.id, last.inStock)] else rest
  }

  function PutIn(m: map<string, Stock>, name: string, id: int): map<string, Stock> {
    m[name := Stock(if name in m then m[name].id else id, true)]
  }

  function PutAllIn(m: map<string, Stock>, names: seq<string>, ids: seq<int>): map<string, Stock>
    requires |ids| == |names|
    decreases |names|
  {
    if names == [] then m
    else PutIn(PutAllIn(m, names[..|names| - 1], ids[..|names| - 1]), names[|names| - 1], ids[|names| - 1])
  }

  lemma {:induction false} PantryHas(rows: seq<IngredientRow>, owner: string, name: string)
    ensures name in PantryOf(rows, owner) <==> HasName(rows, owner, name)
    decreases |rows|
  {
    if rows != [] {
      var front, last := rows[..|rows| - 1], rows[|rows| - 1];
      PantryHas(front, owner, name);
      if HasName(rows, owner, name) && !(last.owner == owner && last.name == name) {
        var i :| 0 <= i < |rows| && rows[i].owner == owner && rows[i].name == name;
        assert front[i] == rows[i];
      }
      if HasName(front, owner, name) {
        var i :| 0 <= i < |front| && front[i].owner == owner && front[i].name == name;
        assert rows[i] == front[i];
      }
    }
  }

  lemma {:induction false} SwitchedPantry(rows: seq<IngredientRow>, owner: string, name: string, o: string)
    requires UniqueNames(rows)
    ensures var m, m2 := PantryOf(rows, o), PantryOf(SwitchedAll(rows, owner, name), o);
            m2 == if o == owner && name in m then m[name := Stock(m[name].id, true)] else m
    decreases |rows|
  {
    if rows != [] {
      var front, last := rows[..|rows| - 1], rows[|rows| - 1];
      SwitchedPantry(front, owner, name, o);
      assert SwitchedAll(rows, owner, name)[..|front|] == SwitchedAll(front, owner, name);
      LastIsOther(rows, owner, name);
    }
  }

  lemma LastIsOther(rows: seq<IngredientRow>, owner: string, name: string)
    requires UniqueNames(rows) && rows != []
    ensures var last := rows[|rows| - 1];
            name in PantryOf(rows[..|rows| - 1], owner) && last.owner == owner ==> last.name != name
  {
    var front := rows[..|rows| - 1];
    PantryHas(front, owner, name);
    if name in PantryOf(front, owner) {
      var i :| 0 <= i < |front| && front[i].owner == owner && front[i].name == name;
      assert rows[i] == front[i];
    }
  }

  /** One upsert is one update of its owner's map. */
  lemma UpsertRefines(rows: seq<IngredientRow>, owner: string, name: string, id: int, now: int, o: string)
    requires UniqueNames(rows)
    ensures PantryOf(Upsert(rows, owner, name, id, now), o)
            == if o == owner then PutIn(PantryOf(rows, o), name, id) else PantryOf(rows, o)
  {
    PantryHas(rows, owner, name);
    if HasName(rows, owner, name) {
      SwitchedPantry(rows, owner, name, o);
    } else {
      PantrySnoc(rows, IngredientRow(id, owner, name, true, now), o);
    }
  }

  lemma PantrySnoc(rows: seq<IngredientRow>, row: IngredientRow, o: string)
    ensures PantryOf(rows + [row], o)
            == if row.owner == o then PantryOf(rows, o)[row.name := Stock(row.id, row.inStock)] else PantryOf(rows, o)
  {
    assert (rows + [row])[..|rows|] == rows;
  }

  lemma UpsertUnique(rows: seq<IngredientRow>, owner: string, name: string, id: int, now: int)
    requires UniqueNames(rows)
    ensures UniqueNames(Upsert(rows, owner, name, id, now))
  {}

  /**
  AddIngredients is, for its owner, the update of a map from names to stock, one name after another,
  and nothing at all for anybody else.
  */
  lemma {:induction false} AddRefines(rows: seq<IngredientRow>, owner: string, names: seq<string>, ids: seq<int>, now: int, o: string)
    requires UniqueNames(rows) && |ids| == |names|
    ensures UniqueNames(UpsertAll(rows, owner, names, ids, now))
    ensures PantryOf(UpsertAll(rows, owner, names, ids, now), o)
            == if o == owner then PutAllIn(PantryOf(rows, o), names, ids) else PantryOf(rows, o)
    decreases |names|
  {
    if names != [] {
      var n := |names| - 1;
      AddRefines(rows, owner, names[..n], ids[..n], now, o);
      var before := UpsertAll(rows, owner, names[..n], ids[..n], now);
      UpsertUnique(before, owner, names[n], ids[n], now);
      UpsertRefines(before, owner, names[n], ids[n], now, o);
    }
  }

  /**
  After adding: what was listed is in stock, what was there keeps its id, what is new has one of the
  new ids, and nothing else changed.
  */
  lemma {:induction false} AddedPantry(m: map<string, Stock>, names: seq<string>, ids: seq<int>)
    requires |ids| == |names|
    ensures var m2 := PutAllIn(m, names, ids);
            && (forall name :: name in m2 <==> name in m || name in names)
            && (forall name | name in names :: m2[name].inStock)
            && (forall name | name in m :: m2[name].id == m[name].id)
            && (forall name | name in m && name !in names :: m2[name] == m[name])
            && (forall name | name in m2 && name !in m :: m2[name].id in ids)
    decreases |names|
  {
    if names != [] {
      var n := |names| - 1;
      AddedPantry(m, names[..n], ids[..n]);
      assert names == names[..n] + [names[n]] && ids == ids[..n] + [ids[n]];
    }
  }

  function Without(m: map<string, Stock>, id: int): map<string, Stock> {
    map name | name in m && m[name].id != id :: m[name]
  }

  lemma WithoutPut(m: map<string, Stock>, name: string, s: Stock, id: int)
    requires name !in m
    ensures Without(m[name := s], id) == if s.id == id then Without(m, id) else Without(m, id)[name := s]
  {}

  /** Deleting takes out one name of one owner. */
  lemma {:induction false} DeleteRefines(rows: seq<IngredientRow>, owner: string, id: int, o: string)
    requires UniqueNames(rows)
    ensures PantryOf(Filter(NotIngredient(owner, id), rows), o)
            == if o == owner then Without(PantryOf(rows, o), id) else PantryOf(rows, o)
    decreases |rows|
  {
    if rows != [] {
      var front, last := rows[..|rows| - 1], rows[|rows| - 1];
      DeleteRefines(front, owner, id, o);
      var kept := Filter(NotIngredient(owner, id), front);
      assert (kept + [last])[..|kept|] == kept;
      if last.owner == o {
        NameIsNew(rows, o);
        WithoutPut(PantryOf(front, o), last.name, Stock(last.id, last.inStock), id);
      }
    }
  }

  lemma NameIsNew(rows: seq<IngredientRow>, o: string)
    requires UniqueNames(rows) && rows != [] && rows[|rows| - 1].owner == o
    ensures rows[|rows| - 1].name !in PantryOf(rows[..|rows| - 1], o)
  {
    var front, last := rows[..|rows| - 1], rows[|rows| - 1];
    PantryHas(front, o, last.name);
    assert forall i | 0 <= i < |front| :: front[i] == rows[i];
  }

  // ---------------------------------------------------------------------------------------------
  // Adding twice
  // ---------------------------------------------------------------------------------------------

  predicate HasInStock(rows: seq<IngredientRow>, owner: string, name: string) {
    HasName(rows, owner, name)
    && forall i | 0 <= i < |rows| && rows[i].owner == owner && rows[i].name == name :: rows[i].inStock
  }

  lemma UpsertInStock(rows: seq<IngredientRow>, owner: string, name: string, id: int, now: int, other: string)
    ensures HasInStock(Upsert(rows, owner, name, id, now), owner, name)
    ensures HasInStock(rows, owner, other) ==> HasInStock(Upsert(rows, owner, name, id, now), owner, other)
  {
    var after := Upsert(rows, owner, name, id, now);
    if HasName(rows, owner, name) {
      var i :| 0 <= i < |rows| && rows[i].owner == owner && rows[i].name == name;
      assert after[i].owner == owner && after[i].name == name;
    } else {
      assert after[|rows|].owner == owner && after[|rows|].name == name;
    }
    if HasInStock(rows, owner, other) {
      var j :| 0 <= j < |rows| && rows[j].owner == owner && rows[j].name == other;
      assert after[j].owner == owner && after[j].name == other;
    }
  }

  lemma UpsertNoop(rows: seq<IngredientRow>, owner: string, name: string, id: int, now: int)
    requires HasInStock(rows, owner, name)
    ensures Upsert(rows, owner, name, id, now) == rows
  {}

  lemma {:induction false} AllInStock(rows: seq<IngredientRow>, owner: string, names: seq<string>, ids: seq<int>, now: int, name: string)
    requires |ids| == |names|
    requires name in names || HasInStock(rows, owner, name)
    ensures HasInStock(UpsertAll(rows, owner, names, ids, now), owner, name)
    decreases |names|
  {
    if names != [] {
      var n := |names| - 1;
      assert names == names[..n] + [names[n]];
      var before := UpsertAll(rows, owner, names[..n], ids[..n], now);
      UpsertInStock(before, owner, names[n], ids[n], now, name);
      if name != names[n] { AllInStock(rows, owner, names[..n], ids[..n], now, name); }
    }
  }

  lemma {:induction false} AddNoop(rows: seq<IngredientRow>, owner: string, names: seq<string>, ids: seq<int>, now: int)
    requires |ids| == |names| && forall name | name in names :: HasInStock(rows, owner, name)
    ensures UpsertAll(rows, owner, names, ids, now) == rows
    decreases |names|
  {
    if names != [] {
      var n := |names| - 1;
      assert names[n] in names && forall name | name in names[..n] :: name in names;
      AddNoop(rows, owner, names[..n], ids[..n], now);
      UpsertNoop(rows, owner, names[n], ids[n], now);
    }
  }

  /** Adding a list again, whenever, changes no row. */
  lemma AddTwice(t: Tables, owner: string, names: seq<string>, ids: seq<int>, again: seq<int>, now: int, later: int)
    requires |ids| == |again| == |names|
    ensures var once := AddIngredients(t, owner, names, ids, now);
            AddIngredients(once, owner, names, again, later) == once
  {
    var rows := UpsertAll(t.ingredients, owner, names, ids, now);
    forall name | name in names ensures HasInStock(rows, owner, name) {
      AllInStock(t.ingredients, owner, names, ids, now, name);
    }
    AddNoop(rows, owner, names, again, later);
  }

  // ---------------------------------------------------------------------------------------------
  // Sound tables stay sound
  // ---------------------------------------------------------------------------------------------

  /** One new id for each listed name, increasing. */
  predicate AscendingIds(bound: int, ids: seq<int>) {
    ids != [] ==>
      var n := |ids| - 1;
      AscendingIds(bound, ids[..n]) && LastIngredient(bound, ids[..n]) < ids[n]
  }

  function LastIngredient(bound: int, ids: seq<int>): int { if ids == [] then bound else ids[|ids| - 1] }

  /** Identifiers one after the other from a counter. */
  function Following(counter: int, n: nat): (ids: seq<int>)
    ensures |ids| == n && forall j | 0 <= j < n :: ids[j] == counter + 1 + j
  {
    seq(n, j => counter + 1 + j)
  }

  lemma {:induction false} FollowingAscends(counter: int, n: nat)
    ensures AscendingIds(counter, Following(counter, n)) && LastIngredient(counter, Following(counter, n)) == counter + n
    decreases n
  {
    if n > 0 {
      FollowingAscends(counter, n - 1);
      assert Following(counter, n)[..n - 1] == Following(counter, n - 1);
    }
  }

  lemma {:induction false} ImagesAscend(bound: int, user: Message, ids: NewIds, n: nat)
    requires |ids.images| == |user.images| && n <= |ids.images|
    ensures Ascending(bound, NewImages(user, ids)[..n]) <==> AscendingIds(bound, ids.images[..n])
    ensures LastId(bound, NewImages(user, ids)[..n]) == LastIngredient(bound, ids.images[..n])
    decreases n
  {
    if n > 0 {
      ImagesAscend(bound, user, ids, n - 1);
      assert NewImages(user, ids)[..n][..n - 1] == NewImages(user, ids)[..n - 1];
      assert ids.images[..n][..n - 1] == ids.images[..n - 1];
    }
  }

  lemma ImagesTaken(bound: int, user: Message, ids: NewIds)
    requires |ids.images| == |user.images|
    ensures Ascending(bound, NewImages(user, ids)) <==> AscendingIds(bound, ids.images)
    ensures LastId(bound, NewImages(user, ids)) == LastIngredient(bound, ids.images)
  {
    var n := |ids.images|;
    ImagesAscend(bound, user, ids, n);
    assert NewImages(user, ids)[..n] == NewImages(user, ids) && ids.images[..n] == ids.images;
  }

  lemma UpsertOrdered(rows: seq<IngredientRow>, owner: string, name: string, id: int, now: int, bound: int)
    requires Ordered(IngredientKey(), rows) && Below(IngredientKey(), rows, bound) && bound < id
    ensures var after := Upsert(rows, owner, name, id, now);
            Ordered(IngredientKey(), after) && Below(IngredientKey(), after, id)
  {
    if HasName(rows, owner, name) {
      SameKeysOrdered(IngredientKey(), rows, Upsert(rows, owner, name, id, now), bound);
      BelowMore(IngredientKey(), Upsert(rows, owner, name, id, now), bound, id);
    } else {
      OrderedSnoc(IngredientKey(), rows, IngredientRow(id, owner, name, true, now), bound);
    }
  }

  lemma {:induction false} AddOrdered(rows: seq<IngredientRow>, owner: string, names: seq<string>, ids: seq<int>, now: int, bound: int)
    requires |ids| == |names| && AscendingIds(bound, ids)
    requires Ordered(IngredientKey(), rows) && Below(IngredientKey(), rows, bound)
    ensures var after := UpsertAll(rows, owner, names, ids, now);
            Ordered(IngredientKey(), after) && Below(IngredientKey(), after, LastIngredient(bound, ids))
    decreases |names|
  {
    if names != [] {
      var n := |names| - 1;
      AddOrdered(rows, owner, names[..n], ids[..n], now, bound);
      UpsertOrdered(UpsertAll(rows, owner, names[..n], ids[..n], now), owner, names[n], ids[n], now,
                    LastIngredient(bound, ids[..n]));
    }
  }

  lemma AddSound(t: Tables, c: Counters, owner: string, names: seq<string>, ids: seq<int>, now: int)
    requires Sound(t, c) && |ids| == |names| && AscendingIds(c.ingredient, ids)
    ensures Sound(AddIngredients(t, owner, names, ids, now), c.(ingredient := LastIngredient(c.ingredient, ids)))
  {
    AddRefines(t.ingredients, owner, names, ids, now, owner);
    AddOrdered(t.ingredients, owner, names, ids, now, c.ingredient);
  }

  lemma SetSound(t: Tables, c: Counters, owner: string, id: int, inStock: bool)
    requires Sound(t, c)
    ensures Sound(SetInStock(t, owner, id, inStock), c)
  {
    var after := SetInStock(t, owner, id, inStock).ingredients;
    SetUnique(t.ingredients, after);
    SameKeysOrdered(IngredientKey(), t.ingredients, after, c.ingredient);
  }

  lemma SetUnique(rows: seq<IngredientRow>, after: seq<IngredientRow>)
    requires UniqueNames(rows) && |after| == |rows|
    requires forall i | 0 <= i < |rows| :: after[i].owner == rows[i].owner && after[i].name == rows[i].name
    ensures UniqueNames(after)
  {}

  function SetIn(m: map<string, Stock>, id: int, inStock: bool): map<string, Stock> {
    map name | name in m :: if m[name].id == id then Stock(id, inStock) else m[name]
  }

  /** Switching touches the stock of one name of one owner. */
  lemma {:induction false} SetRefines(rows: seq<IngredientRow>, owner: string, id: int, inStock: bool, o: string)
    requires UniqueNames(rows)
    ensures PantryOf(SetAll(rows, owner, id, inStock), o)
            == if o == owner then SetIn(PantryOf(rows, o), id, inStock) else PantryOf(rows, o)
    decreases |rows|
  {
    if rows != [] {
      var front, last := rows[..|rows| - 1], rows[|rows| - 1];
      SetRefines(front, owner, id, inStock, o);
      assert SetAll(rows, owner, id, inStock)[..|front|] == SetAll(front, owner, id, inStock);
      SetInPut(PantryOf(front, o), last.name, Stock(last.id, last.inStock), id, inStock);
    }
  }

  lemma SetInPut(m: map<string, Stock>, name: string, s: Stock, id: int, inStock: bool)
    ensures SetIn(m[name := s], id, inStock)
            == SetIn(m, id, inStock)[name := if s.id == id then Stock(id, inStock) else s]
  {}

  /** A row and the map agree. */
  lemma {:induction false} PantryRow(rows: seq<IngredientRow>, i: nat)
    requires UniqueNames(rows) && i < |rows|
    ensures var m := PantryOf(rows, rows[i].owner);
            rows[i].name in m && m[rows[i].name] == Stock(rows[i].id, rows[i].inStock)
    decreases |rows|
  {
    if i < |rows| - 1 { PantryRow(rows[..|rows| - 1], i); }
  }

  lemma {:induction false} FilterUnique(keep: IngredientRow -> bool, rows: seq<IngredientRow>)
    requires UniqueNames(rows)
    ensures UniqueNames(Filter(keep, rows))
    decreases |rows|
  {
    if rows != [] {
      var front, last := rows[..|rows| - 1], rows[|rows| - 1];
      FilterUnique(keep, front);
      FilterMembers(keep, front);
      var kept := Filter(keep, front);
      forall i | 0 <= i < |kept| ensures kept[i].owner != last.owner || kept[i].name != last.name {
        assert kept[i] in front;
        var j :| 0 <= j < |front| && front[j] == kept[i];
        assert rows[j] == front[j];
      }
    }
  }

  lemma RemoveSound(t: Tables, c: Counters, owner: string, id: int)
    requires Sound(t, c)
    ensures Sound(DeleteIngredient(t, owner, id), c)
    ensures Sound(DeleteJournalEntry(t, owner, id), c)
  {
    FilterOrdered(IngredientKey(), NotIngredient(owner, id), t.ingredients);
    FilterBelow(IngredientKey(), NotIngredient(owner, id), t.ingredients, c.ingredient);
    FilterUnique(NotIngredient(owner, id), t.ingredients);
    FilterOrdered(EntryKey(), NotEntry(owner, id), t.journal);
    FilterBelow(EntryKey(), NotEntry(owner, id), t.journal, c.entry);
    FilterMembers(NotEntry(owner, id), t.journal);
  }

  lemma EntrySound(t: Tables, c: Counters, owner: string, entry: JournalEntry)
    requires Sound(t, c) && c.entry < entry.id && 1 <= entry.taste <= 5
    ensures Sound(AddJournalEntry(t, owner, entry), c.(entry := entry.id))
  {
    OrderedSnoc(EntryKey(), t.journal, JournalRow(owner, entry), c.entry);
  }

  // ---------------------------------------------------------------------------------------------
  // Listings
  // ---------------------------------------------------------------------------------------------

  /** Byte order of UTF-8 text is code point order. */
  predicate TextLess(a: string, b: string) {
    if a == "" || b == "" then a == "" && b != ""
    else a[0] < b[0] || (a[0] == b[0] && TextLess(a[1..], b[1..]))
  }

  lemma {:induction false} TextLessTransitive(a: string, b: string, c: string)
    requires TextLess(a, b) && TextLess(b, c)
    ensures TextLess(a, c)
    decreases |a|
  {
    if a != "" && a[0] == b[0] && b[0] == c[0] { TextLessTransitive(a[1..], b[1..], c[1..]); }
  }

  lemma {:induction false} TextLessTotal(a: string, b: string)
    ensures a != b <==> TextLess(a, b) || TextLess(b, a)
    ensures !(TextLess(a, b) && TextLess(b, a))
    decreases |a|
  {
    if a != "" && b != "" && a[0] == b[0] {
      TextLessTotal(a[1..], b[1..]);
      assert a == [a[0]] + a[1..] && b == [b[0]] + b[1..];
    }
  }

  /** One text before another: it ends first, or is smaller where they first differ. */
  lemma {:induction false} TextLessIff(a: string, b: string)
    ensures TextLess(a, b)
            <==> exists n | 0 <= n <= |a| && n < |b| :: a[..n] == b[..n] && (n == |a| || a[n] < b[n])
    decreases |a|
  {
    if a == "" || b == "" {
      if b != "" { assert a[..0] == b[..0]; }
    } else {
      TextLessIff(a[1..], b[1..]);
      if a[0] < b[0] {
        assert a[..0] == b[..0];
      } else if TextLess(a, b) {
        var n :| 0 <= n <= |a[1..]| && n < |b[1..]| && a[1..][..n] == b[1..][..n] && (n == |a[1..]| || a[1..][n] < b[1..][n]);
        assert a[..n + 1] == [a[0]] + a[1..][..n] && b[..n + 1] == [b[0]] + b[1..][..n];
      }
      if n :| 0 <= n <= |a| && n < |b| && a[..n] == b[..n] && (n == |a| || a[n] < b[n]) {
        if n > 0 {
          assert a[0] == a[..n][0] == b[..n][0] == b[0];
          assert a[1..][..n - 1] == a[..n][1..] && b[1..][..n - 1] == b[..n][1..];
        }
      }
    }
  }

  /** Newer: cooked on a later date, or on the same one and entered later. */
  lemma NewerIff(a: JournalEntry, b: JournalEntry)
    ensures Newer(a, b)
            <==> || (exists n | 0 <= n <= |b.cookedOn| && n < |a.cookedOn| ::
                       b.cookedOn[..n] == a.cookedOn[..n] && (n == |b.cookedOn| || b.cookedOn[n] < a.cookedOn[n]))
                 || (a.cookedOn == b.cookedOn && a.id > b.id)
  {
    TextLessIff(b.cookedOn, a.cookedOn);
  }

  function ByName(): (IngredientRow, IngredientRow) -> bool {
    (a: IngredientRow, b: IngredientRow) => TextLess(a.name, b.name)
  }

  predicate Newer(a: JournalEntry, b: JournalEntry) {
    TextLess(b.cookedOn, a.cookedOn) || (a.cookedOn == b.cookedOn && a.id > b.id)
  }

  function NewestFirst(): (JournalRow, JournalRow) -> bool {
    (a: JournalRow, b: JournalRow) => Newer(a.entry, b.entry)
  }

  function Listing(t: Tables, owner: string): seq<IngredientRow> {
    SortBy(ByName(), Filter(TheirIngredient(owner), t.ingredients))
  }

  function Ingredients(t: Tables, owner: string): (r: seq<Ingredient>) {
    var rows := Listing(t, owner);
    seq(|rows|, i requires 0 <= i < |rows| => Ingredient(rows[i].id, rows[i].name, rows[i].inStock))
  }

  function Entries(t: Tables, owner: string): seq<JournalRow> {
    SortBy(NewestFirst(), Filter(TheirEntry(owner), t.journal))
  }

  function Journal(t: Tables, owner: string, limit: nat): (r: seq<JournalEntry>) {
    var rows := Entries(t, owner);
    seq(if |rows| <= limit then |rows| else limit, i requires 0 <= i < |rows| => rows[i].entry)
  }

  lemma ByNameTransitive()
    ensures Transitive(ByName())
  {
    forall a: IngredientRow, b: IngredientRow, c: IngredientRow | ByName()(a, b) && ByName()(b, c)
      ensures ByName()(a, c)
    {
      TextLessTransitive(a.name, b.name, c.name);
    }
  }

  lemma NewestFirstTransitive()
    ensures Transitive(NewestFirst())
  {
    forall a: JournalRow, b: JournalRow, c: JournalRow | NewestFirst()(a, b) && NewestFirst()(b, c)
      ensures NewestFirst()(a, c)
    {
      if TextLess(c.entry.cookedOn, b.entry.cookedOn) && TextLess(b.entry.cookedOn, a.entry.cookedOn) {
        TextLessTransitive(c.entry.cookedOn, b.entry.cookedOn, a.entry.cookedOn);
      }
    }
  }

  /** The pantry is listed strictly by name: no name twice, all of the owner's rows and no other. */
  lemma ListingSorted(t: Tables, c: Counters, owner: string)
    requires Sound(t, c)
    ensures StrictlyBy(ByName(), Listing(t, owner))
    ensures forall r :: r in Listing(t, owner) <==> r in t.ingredients && r.owner == owner
  {
    var rows := Filter(TheirIngredient(owner), t.ingredients);
    FilterUnique(TheirIngredient(owner), t.ingredients);
    FilterMembers(TheirIngredient(owner), t.ingredients);
    forall i, j | 0 <= i < j < |rows| ensures ByName()(rows[i], rows[j]) || ByName()(rows[j], rows[i]) {
      assert rows[i] in rows && rows[j] in rows;
      TextLessTotal(rows[i].name, rows[j].name);
    }
    ByNameTransitive();
    SortStrict(ByName(), rows);
    SortMembers(ByName(), rows);
  }

  /** What is listed is the owner's map: every name in it once, as it is there. */
  lemma ListingIsPantry(t: Tables, c: Counters, owner: string)
    requires Sound(t, c)
    ensures var m, list := PantryOf(t.ingredients, owner), Ingredients(t, owner);
            && (forall i | 0 <= i < |list| :: list[i].name in m && m[list[i].name] == Stock(list[i].id, list[i].inStock))
            && (forall name | name in m :: exists i :: 0 <= i < |list| && list[i].name == name)
            && (forall i, j | 0 <= i < j < |list| :: TextLess(list[i].name, list[j].name))
  {
    var m, list, rows := PantryOf(t.ingredients, owner), Ingredients(t, owner), Listing(t, owner);
    ListingSorted(t, c, owner);
    forall i | 0 <= i < |list| ensures list[i].name in m && m[list[i].name] == Stock(list[i].id, list[i].inStock) {
      assert rows[i] in rows;
      var k :| 0 <= k < |t.ingredients| && t.ingredients[k] == rows[i];
      PantryRow(t.ingredients, k);
    }
    forall name | name in m ensures exists i :: 0 <= i < |list| && list[i].name == name {
      PantryHas(t.ingredients, owner, name);
      var k :| 0 <= k < |t.ingredients| && t.ingredients[k].owner == owner && t.ingredients[k].name == name;
      assert t.ingredients[k] in rows;
      var i :| 0 <= i < |rows| && rows[i] == t.ingredients[k];
      assert list[i].name == name;
    }
    forall i, j | 0 <= i < j < |list| ensures TextLess(list[i].name, list[j].name) {
      StrictPair(ByName(), rows, i, j);
    }
  }

  /** The journal is listed strictly newest first: all of the owner's entries and no other. */
  lemma EntriesSorted(t: Tables, c: Counters, owner: string)
    requires Sound(t, c)
    ensures StrictlyBy(NewestFirst(), Entries(t, owner))
    ensures forall r :: r in Entries(t, owner) <==> r in t.journal && r.owner == owner
  {
    var rows := Filter(TheirEntry(owner), t.journal);
    FilterOrdered(EntryKey(), TheirEntry(owner), t.journal);
    FilterMembers(TheirEntry(owner), t.journal);
    forall i, j | 0 <= i < j < |rows| ensures NewestFirst()(rows[i], rows[j]) || NewestFirst()(rows[j], rows[i]) {
      OrderedPair(EntryKey(), rows, i, j);
      TextLessTotal(rows[i].entry.cookedOn, rows[j].entry.cookedOn);
    }
    NewestFirstTransitive();
    SortStrict(NewestFirst(), rows);
    SortMembers(NewestFirst(), rows);
  }

  lemma {:induction false} StrictPair<T(!new)>(less: (T, T) -> bool, xs: seq<T>, i: nat, j: nat)
    requires StrictlyBy(less, xs) && i < j < |xs|
    ensures less(xs[i], xs[j])
    decreases |xs|
  {
    if i == 0 {
      assert xs[j] == xs[1..][j - 1] && xs[1..][j - 1] in xs[1..];
    } else {
      StrictPair(less, xs[1..], i - 1, j - 1);
    }
  }

  /** A limit keeps the newest: every entry left out is older than every entry kept. */
  lemma JournalKeepsNewest(t: Tables, c: Counters, owner: string, limit: nat)
    requires Sound(t, c)
    ensures var kept, all := Journal(t, owner, limit), Entries(t, owner);
            && |kept| == Min(limit, |all|)
            && (forall i | 0 <= i < |kept| :: kept[i] == all[i].entry)
            && (forall i, j | 0 <= i < |kept| <= j < |all| :: Newer(kept[i], all[j].entry))
  {
    var kept, all := Journal(t, owner, limit), Entries(t, owner);
    EntriesSorted(t, c, owner);
    forall i, j | 0 <= i < |kept| <= j < |all| ensures Newer(kept[i], all[j].entry) {
      StrictPair(NewestFirst(), all, i, j);
    }
  }
}
