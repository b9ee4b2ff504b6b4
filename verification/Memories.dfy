/** The memory block the model reads, internal/chat/memory.go, and a reader that undoes its pantry. */
module Memories {
  import opened Common
  import opened Text
  import opened Seqs
  import opened Entities

  datatype Memory = Memory(today: string, ingredients: seq<Ingredient>, journal: seq<JournalEntry>)

  // ---------------------------------------------------------------------------------------------
  // Cleaning
  // ---------------------------------------------------------------------------------------------

  predicate IsMarkup(c: char) { c == '<' || c == '>' }

  /** The replacer: markup characters go, line breaks become spaces. */
  function Replaced(s: string): string {
    if s == "" then ""
    else if IsMarkup(s[0]) then Replaced(s[1..])
    else [if s[0] == '\n' || s[0] == '\r' then ' ' else s[0]] + Replaced(s[1..])
  }

  function Clean(s: string): string { Squeeze(Replaced(s)) }

  predicate IsComma(c: char) { c == ',' }

  /** Tag characters and line breaks, which cleaned text never holds. */
  predicate IsLayout(c: char) { IsMarkup(c) || c == '\n' }

  lemma {:induction false} ReplacedFree(s: string, other: char -> bool)
    requires Free(other, s) && !other(' ')
    ensures Free(IsLayout, Replaced(s)) && Free(other, Replaced(s))
    decreases |s|
  {
    if s != "" { ReplacedFree(s[1..], other); }
  }

  lemma CleanFree(s: string, other: char -> bool)
    requires Free(other, s) && !other(' ')
    ensures Free(IsLayout, Clean(s)) && Free(other, Clean(s))
  {
    ReplacedFree(s, other);
    FieldsKeepFree(IsSpace, IsLayout, Replaced(s));
    FieldsKeepFree(IsSpace, other, Replaced(s));
    JoinFree(IsLayout, Fields(IsSpace, Replaced(s)), " ");
    JoinFree(other, Fields(IsSpace, Replaced(s)), " ");
  }

  lemma {:induction false} ReplacedConcat(a: string, b: string)
    ensures Replaced(a + b) == Replaced(a) + Replaced(b)
    decreases |a|
  {
    if a == "" {
      assert a + b == b;
    } else {
      assert (a + b)[1..] == a[1..] + b;
      ReplacedConcat(a[1..], b);
    }
  }

  lemma ReplacedChar(c: char)
    ensures Replaced([c]) == if c == '<' || c == '>' then "" else [if c == '\n' || c == '\r' then ' ' else c]
  {
    assert [c][1..] == "" && Replaced("") == "";
  }

  lemma ReplacedAround(a: string, c: char, b: string)
    ensures Replaced(a + [c] + b)
            == Replaced(a) + (if c == '<' || c == '>' then "" else [if c == '\n' || c == '\r' then ' ' else c]) + Replaced(b)
  {
    ReplacedConcat(a + [c], b);
    ReplacedConcat(a, [c]);
    ReplacedChar(c);
  }

  lemma {:induction false} ReplacedPlain(s: string)
    requires forall i | 0 <= i < |s| :: s[i] != '<' && s[i] != '>' && s[i] != '\n' && s[i] != '\r'
    ensures Replaced(s) == s
    decreases |s|
  {
    if s != "" { ReplacedPlain(s[1..]); }
  }

  /** Tag characters leave no trace. */
  lemma CleanDrops(a: string, c: char, b: string)
    requires c == '<' || c == '>'
    ensures Clean(a + [c] + b) == Clean(a + b)
  {
    ReplacedAround(a, c, b);
    ReplacedConcat(a, b);
    assert Replaced(a) + "" + Replaced(b) == Replaced(a) + Replaced(b);
  }

  lemma ReplacedSpace(c: char) returns (d: char)
    requires IsSpace(c)
    ensures IsSpace(d) && forall a, b :: Replaced(a + [c] + b) == Replaced(a) + [d] + Replaced(b)
  {
    d := if c == '\n' || c == '\r' then ' ' else c;
    forall a, b ensures Replaced(a + [c] + b) == Replaced(a) + [d] + Replaced(b) { ReplacedAround(a, c, b); }
  }

  /** White space of any kind is a blank, more of it no more than one, and none is left around. */
  lemma CleanSpaces(a: string, c: char, b: string)
    requires IsSpace(c)
    ensures Clean(a + [c] + b) == Clean(a + " " + b)
    ensures Clean(a + [c] + " " + b) == Clean(a + [c] + b)
    ensures Clean([c] + a) == Clean(a) == Clean(a + [c])
  {
    CleanSame(a, c, b);
    CleanTwice(a, c, b);
    CleanEnds(a, c);
  }

  lemma CleanSame(a: string, c: char, b: string)
    requires IsSpace(c)
    ensures Clean(a + [c] + b) == Clean(a + " " + b)
  {
    var d := ReplacedSpace(c);
    SqueezeLaws(Replaced(a), d, Replaced(b));
    ReplacedAround(a, ' ', b);
  }

  lemma CleanTwice(a: string, c: char, b: string)
    requires IsSpace(c)
    ensures Clean(a + [c] + " " + b) == Clean(a + [c] + b)
  {
    var d := ReplacedSpace(c);
    SqueezeLaws(Replaced(a), d, Replaced(b));
    ReplacedAround(a + [c], ' ', b);
    ReplacedAround(a, c, "");
    assert a + [c] + "" == a + [c] && Replaced(a) + [d] + "" == Replaced(a) + [d];
  }

  lemma CleanEnds(a: string, c: char)
    requires IsSpace(c)
    ensures Clean([c] + a) == Clean(a) == Clean(a + [c])
  {
    var d := ReplacedOne(c);
    ReplacedConcat([c], a);
    ReplacedConcat(a, [c]);
    SqueezeLaws(Replaced(a), d, "");
  }

  lemma ReplacedOne(c: char) returns (d: char)
    requires IsSpace(c)
    ensures IsSpace(d) && Replaced([c]) == [d]
  {
    d := if c == '\n' || c == '\r' then ' ' else c;
    assert [c][1..] == "" && Replaced("") == "";
  }

  /** What is clean stays as it is; so with the two lemmas above it is known what any text becomes. */
  lemma CleanKeeps(s: string)
    requires Spaced(s) && forall i | 0 <= i < |s| :: s[i] != '<' && s[i] != '>'
    ensures Clean(s) == s
  {
    ReplacedPlain(s);
    SpacedStays(s);
  }

  // ---------------------------------------------------------------------------------------------
  // Rendering
  // ---------------------------------------------------------------------------------------------

  /** The cleaned names in stock (or out of it), in pantry order. */
  function Listed(ingredients: seq<Ingredient>, inStock: bool): seq<string> {
    if ingredients == [] then []
    else
      var last := ingredients[|ingredients| - 1];
      Listed(ingredients[..|ingredients| - 1], inStock)
      + if last.inStock == inStock then [Clean(last.name)] else []
  }

  function ListOrNone(items: seq<string>): string {
    if items == [] then "nothing" else Join(items, ", ")
  }

  function StockLine(have: seq<string>): string { "Available: " + ListOrNone(have) }

  function OutLine(out: seq<string>): string { "Out of stock: " + Join(out, ", ") }

  function PantryText(have: seq<string>, out: seq<string>): string {
    if have == [] && out == [] then ""
    else "<pantry>\n" + (StockLine(have) + "\n") + (if out != [] then OutLine(out) + "\n" else "") + "</pantry>\n"
  }

  function EntryHead(e: JournalEntry): string {
    "- " + e.cookedOn + " " + Clean(e.dish) + ": taste " + DecimalInt(e.taste) + "/5"
  }

  function EntryMinutes(e: JournalEntry): string {
    if e.minutes.Some? then ", took " + DecimalInt(e.minutes.value) + " min" else ""
  }

  function EntryNote(e: JournalEntry): string {
    if Clean(e.note) != "" then ". " + Clean(e.note) else ""
  }

  function EntryText(e: JournalEntry): string { EntryHead(e) + EntryMinutes(e) + EntryNote(e) }

  function EntriesText(journal: seq<JournalEntry>): string {
    if journal == [] then ""
    else EntriesText(journal[..|journal| - 1]) + EntryText(journal[|journal| - 1]) + "\n"
  }

  function HeaderText(today: string): string {
    ("Dishes cooked before" + ", newest first" + " (today is ") + today + "; taste is out of 5):"
  }

  function JournalText(today: string, journal: seq<JournalEntry>): string {
    if journal == [] then ""
    else "<journal>\n" + (HeaderText(today) + "\n") + EntriesText(journal) + "</journal>\n"
  }

  function BlockText(m: Memory): string {
    TrimSpace(PantryText(Listed(m.ingredients, true), Listed(m.ingredients, false))
              + JournalText(m.today, m.journal))
  }

  method Block(m: Memory) returns (block: string)
    ensures block == BlockText(m)
  {
    var have: seq<string>, out: seq<string> := [], [];
    for n := 0 to |m.ingredients|
      invariant have == Listed(m.ingredients[..n], true) && out == Listed(m.ingredients[..n], false)
    {
      assert m.ingredients[..n + 1][..n] == m.ingredients[..n];
      var i := m.ingredients[n];
      if i.inStock {
        have := have + [Clean(i.name)];
      } else {
        out := out + [Clean(i.name)];
      }
    }
    assert m.ingredients[..|m.ingredients|] == m.ingredients;
    var b := WritePantry(have, out);
    if |m.journal| > 0 {
      b := b + ("<journal>\n" + (HeaderText(m.today) + "\n"));
      ghost var heading := b;
      for n := 0 to |m.journal|
        invariant b == heading + EntriesText(m.journal[..n])
      {
        EntriesSnoc(heading, m.journal, n);
        b := WriteEntry(b, m.journal[n]);
      }
      assert m.journal[..|m.journal|] == m.journal;
      b := b + "</journal>\n";
      Grouped(PantryText(have, out), "<journal>\n" + (HeaderText(m.today) + "\n"), EntriesText(m.journal), "</journal>\n");
    } else {
      assert b + "" == b;
    }
    return TrimSpace(b);
  }

  method WritePantry(have: seq<string>, out: seq<string>) returns (b: string)
    ensures b == PantryText(have, out)
  {
    b := "";
    if |have| > 0 || |out| > 0 {
      ghost var lines := ("<pantry>\n", StockLine(have) + "\n", if out != [] then OutLine(out) + "\n" else "", "</pantry>\n");
      b := b + "<pantry>\n";
      b := b + ("Available: " + ListOrNone(have) + "\n");
      assert b == lines.0 + lines.1;
      if |out| > 0 {
        b := b + ("Out of stock: " + Join(out, ", ") + "\n");
      }
      assert b == lines.0 + lines.1 + lines.2;
      b := b + "</pantry>\n";
    }
  }

  method WriteEntry(b: string, e: JournalEntry) returns (r: string)
    ensures r == b + EntryText(e) + "\n"
  {
    r := b + EntryHead(e);
    if e.minutes.Some? {
      r := r + (", took " + DecimalInt(e.minutes.value) + " min");
    }
    var note := Clean(e.note);
    if note != "" {
      r := r + (". " + note);
    }
    assert r == b + EntryHead(e) + EntryMinutes(e) + EntryNote(e);
    Grouped(b, EntryHead(e), EntryMinutes(e), EntryNote(e));
    r := r + "\n";
  }

  lemma EntriesSnoc(heading: string, journal: seq<JournalEntry>, n: nat)
    requires n < |journal|
    ensures heading + EntriesText(journal[..n + 1])
            == heading + EntriesText(journal[..n]) + EntryText(journal[n]) + "\n"
  {
    assert journal[..n + 1][..n] == journal[..n];
    Grouped(heading, EntriesText(journal[..n]), EntryText(journal[n]), "\n");
  }

  lemma Grouped(a: string, b: string, c: string, d: string)
    ensures a + b + c + d == a + (b + c + d)
  {}

  // ---------------------------------------------------------------------------------------------
  // The layout of the block
  // ---------------------------------------------------------------------------------------------

  function PantryLines(have: seq<string>, out: seq<string>): seq<string> {
    if have == [] && out == [] then []
    else ["<pantry>", StockLine(have)] + (if out != [] then [OutLine(out)] else []) + ["</pantry>"]
  }

  function EntryLines(journal: seq<JournalEntry>): (r: seq<string>)
    ensures |r| == |journal| && forall i | 0 <= i < |r| :: r[i] == EntryText(journal[i])
  {
    seq(|journal|, i requires 0 <= i < |journal| => EntryText(journal[i]))
  }

  function JournalLines(today: string, journal: seq<JournalEntry>): seq<string> {
    if journal == [] then []
    else ["<journal>", HeaderText(today)] + EntryLines(journal) + ["</journal>"]
  }

  function PantryLinesOf(m: Memory): seq<string> {
    PantryLines(Listed(m.ingredients, true), Listed(m.ingredients, false))
  }

  function BlockLines(m: Memory): seq<string> { PantryLinesOf(m) + JournalLines(m.today, m.journal) }

  /** Dates are written as they are, so they must not hold tag characters or line breaks themselves. */
  ghost predicate PlainDates(m: Memory) {
    Free(IsLayout, m.today) && forall i | 0 <= i < |m.journal| :: Free(IsLayout, m.journal[i].cookedOn)
  }

  lemma PantryTextIs(have: seq<string>, out: seq<string>)
    ensures PantryText(have, out) == Unlines(PantryLines(have, out))
  {
    if have != [] || out != [] {
      var middle := if out != [] then [OutLine(out)] else [];
      Framed("<pantry>", StockLine(have), middle, "</pantry>");
      UnlinesOne(OutLine(out));
      assert "<pantry>" + "\n" == "<pantry>\n" && "</pantry>" + "\n" == "</pantry>\n";
    }
  }

  lemma UnlinesOne(a: string)
    ensures Unlines([a]) == a + "\n"
  {
    assert [a][1..] == [];
  }

  lemma UnlinesTwo(a: string, b: string)
    ensures Unlines([a, b]) == (a + "\n") + (b + "\n")
  {
    assert [a, b][1..] == [b];
    UnlinesOne(b);
  }

  lemma {:induction false} EntriesTextIs(journal: seq<JournalEntry>)
    ensures EntriesText(journal) == Unlines(EntryLines(journal))
    decreases |journal|
  {
    if journal != [] {
      var front, last := journal[..|journal| - 1], EntryText(journal[|journal| - 1]);
      EntriesTextIs(front);
      EntryLinesSnoc(journal);
      UnlinesSnoc(EntryLines(front), last);
      Regroup(EntriesText(front), last, "\n");
    }
  }

  lemma EntryLinesSnoc(journal: seq<JournalEntry>)
    requires journal != []
    ensures EntryLines(journal) == EntryLines(journal[..|journal| - 1]) + [EntryText(journal[|journal| - 1])]
  {
    OneLonger(EntryLines(journal), EntryLines(journal[..|journal| - 1]));
  }

  lemma OneLonger(all: seq<string>, front: seq<string>)
    requires |all| == |front| + 1 && forall i | 0 <= i < |front| :: all[i] == front[i]
    ensures all == front + [all[|front|]]
  {}

  lemma UnlinesSnoc(ls: seq<string>, last: string)
    ensures Unlines(ls + [last]) == Unlines(ls) + (last + "\n")
  {
    UnlinesConcat(ls, [last]);
    UnlinesOne(last);
  }

  lemma JournalTextIs(today: string, journal: seq<JournalEntry>)
    ensures JournalText(today, journal) == Unlines(JournalLines(today, journal))
  {
    if journal != [] {
      EntriesTextIs(journal);
      Framed("<journal>", HeaderText(today), EntryLines(journal), "</journal>");
      assert "<journal>" + "\n" == "<journal>\n" && "</journal>" + "\n" == "</journal>\n";
    }
  }

  lemma Framed(a: string, b: string, ls: seq<string>, z: string)
    ensures Unlines([a, b] + ls + [z]) == (a + "\n") + (b + "\n") + Unlines(ls) + (z + "\n")
  {
    UnlinesTwo(a, b);
    UnlinesConcat([a, b], ls);
    UnlinesSnoc([a, b] + ls, z);
  }

  lemma Regroup(a: string, b: string, c: string)
    ensures a + b + c == a + (b + c)
  {}

  /** The block is its lines joined, whatever the cook wrote. */
  lemma BlockJoined(m: Memory)
    ensures BlockText(m) == Join(BlockLines(m), "\n")
  {
    var ls := BlockLines(m);
    PantryTextIs(Listed(m.ingredients, true), Listed(m.ingredients, false));
    JournalTextIs(m.today, m.journal);
    UnlinesConcat(PantryLinesOf(m), JournalLines(m.today, m.journal));
    if ls != [] {
      TagLines(m);
      TagEnds(ls[0], ls[|ls| - 1]);
      TrimUnlines(ls);
    }
  }

  lemma TagEnds(first: string, last: string)
    requires IsTag(first) && IsTag(last)
    ensures !IsSpace(first[0]) && !IsSpace(last[|last| - 1])
  {}

  lemma CleanIsFree(s: string)
    ensures Free(IsLayout, Clean(s))
  {
    CleanFree(s, c => false);
  }

  lemma {:induction false} ListedClean(ingredients: seq<Ingredient>, inStock: bool)
    ensures AllFree(IsLayout, Listed(ingredients, inStock))
    decreases |ingredients|
  {
    if ingredients != [] {
      ListedClean(ingredients[..|ingredients| - 1], inStock);
      CleanIsFree(ingredients[|ingredients| - 1].name);
    }
  }

  lemma PantryLinesFree(m: Memory, i: nat)
    requires 0 < i < |PantryLinesOf(m)| - 1
    ensures Free(IsLayout, PantryLinesOf(m)[i])
  {
    var have, out := Listed(m.ingredients, true), Listed(m.ingredients, false);
    ListedClean(m.ingredients, true);
    ListedClean(m.ingredients, false);
    StockLineFree(have);
    OutLineFree(out);
    assert PantryLinesOf(m)[i] == if i == 1 then StockLine(have) else OutLine(out);
  }

  lemma StockLineFree(have: seq<string>)
    requires AllFree(IsLayout, have)
    ensures Free(IsLayout, StockLine(have))
  {
    JoinFree(IsLayout, have, ", ");
  }

  lemma OutLineFree(out: seq<string>)
    requires AllFree(IsLayout, out)
    ensures Free(IsLayout, OutLine(out))
  {
    JoinFree(IsLayout, out, ", ");
  }

  lemma EntryFree(e: JournalEntry)
    requires Free(IsLayout, e.cookedOn)
    ensures Free(IsLayout, EntryText(e))
  {
    CleanIsFree(e.dish);
    CleanIsFree(e.note);
    DigitsFree(e.taste);
    if e.minutes.Some? { DigitsFree(e.minutes.value); }
    assert Free(IsLayout, EntryHead(e)) && Free(IsLayout, EntryMinutes(e)) && Free(IsLayout, EntryNote(e));
  }

  lemma DigitsFree(n: int)
    ensures Free(IsLayout, DecimalInt(n))
  {
    var s := DecimalInt(n);
    forall i | 0 <= i < |s| ensures !IsLayout(s[i]) { assert s[i] in s; }
  }

  predicate IsTagLine(m: Memory, i: int) {
    var p := |PantryLinesOf(m)|;
    (p > 0 && (i == 0 || i == p - 1)) || (m.journal != [] && (i == p || i == |BlockLines(m)| - 1))
  }

  lemma TagLines(m: Memory)
    ensures var ls, p := BlockLines(m), |PantryLinesOf(m)|;
            && (p > 0 ==> p >= 3 && ls[0] == "<pantry>" && ls[p - 1] == "</pantry>")
            && (m.journal != [] ==> |ls| == p + |m.journal| + 3 && ls[p] == "<journal>" && ls[|ls| - 1] == "</journal>")
            && (m.journal == [] ==> |ls| == p)
  {}

  lemma HeaderFree(today: string)
    requires Free(IsLayout, today)
    ensures Free(IsLayout, HeaderText(today))
  {
    assert Free(IsLayout, "Dishes cooked before");
    assert Free(IsLayout, ", newest first");
    assert Free(IsLayout, " (today is ");
    assert Free(IsLayout, "; taste is out of 5):");
  }

  lemma OtherLineFree(m: Memory, i: nat)
    requires PlainDates(m) && i < |BlockLines(m)| && !IsTagLine(m, i)
    ensures Free(IsLayout, BlockLines(m)[i])
  {
    var p := |PantryLinesOf(m)|;
    TagLines(m);
    if i < p {
      PantryLinesFree(m, i);
    } else if i > p + 1 {
      EntryFree(m.journal[i - p - 2]);
    } else {
      HeaderFree(m.today);
      assert BlockLines(m)[i] == HeaderText(m.today);
    }
  }

  lemma TagLineMarked(m: Memory, i: nat)
    requires i < |BlockLines(m)| && IsTagLine(m, i)
    ensures !Free(IsMarkup, BlockLines(m)[i]) && Free(IsBreak, BlockLines(m)[i])
  {
    TagLines(m);
    assert IsTag(BlockLines(m)[i]);
    TagMarked(BlockLines(m)[i]);
  }

  predicate IsTag(l: string) { l == "<pantry>" || l == "</pantry>" || l == "<journal>" || l == "</journal>" }

  lemma TagMarked(l: string)
    requires IsTag(l)
    ensures !Free(IsMarkup, l) && Free(IsBreak, l)
  {
    assert IsMarkup(l[0]);
  }

  /**
  Cooks cannot break the layout: the block splits back into exactly its own lines (a journal of n
  entries takes n + 3), and the only lines with a tag character are the tags, each where it belongs.
  */
  lemma BlockLaidOut(m: Memory)
    requires PlainDates(m) && BlockLines(m) != []
    ensures Lines(BlockText(m)) == BlockLines(m)
    ensures forall i | 0 <= i < |BlockLines(m)| :: !Free(IsMarkup, BlockLines(m)[i]) <==> IsTagLine(m, i)
    ensures var ls, p := BlockLines(m), |PantryLinesOf(m)|;
            && (p > 0 ==> p >= 3 && ls[0] == "<pantry>" && ls[p - 1] == "</pantry>")
            && (m.journal != [] ==> |ls| == p + |m.journal| + 3 && ls[p] == "<journal>" && ls[|ls| - 1] == "</journal>")
            && (m.journal == [] ==> |ls| == p)
  {
    var ls := BlockLines(m);
    BlockJoined(m);
    TagLines(m);
    forall i | 0 <= i < |ls|
      ensures Free(IsBreak, ls[i]) && (!Free(IsMarkup, ls[i]) <==> IsTagLine(m, i))
    {
      if IsTagLine(m, i) { TagLineMarked(m, i); } else { OtherLineFree(m, i); }
    }
    LinesOfJoin(ls);
  }

  // ---------------------------------------------------------------------------------------------
  // Reading the pantry back
  // ---------------------------------------------------------------------------------------------

  function TrimAll(xs: seq<string>): (r: seq<string>)
    ensures |r| == |xs| && forall i | 0 <= i < |r| :: r[i] == TrimSpace(xs[i])
  {
    seq(|xs|, i requires 0 <= i < |xs| => TrimSpace(xs[i]))
  }

  function ReadItems(s: string): seq<string> { TrimAll(Split(IsComma, s)) }

  /** The in-stock and out-of-stock names of a block, as a reader who knows the layout sees them. */
  function PantryInBlock(block: string): (seq<string>, seq<string>) {
    var ls := Lines(block);
    if |ls| < 3 || ls[0] != "<pantry>" || !("Available: " <= ls[1]) then ([], [])
    else
      var stock := ls[1][|"Available: "|..];
      (if stock == "nothing" then [] else ReadItems(stock),
       if "Out of stock: " <= ls[2] then ReadItems(ls[2][|"Out of stock: "|..]) else [])
  }

  /** Names as cleaning leaves them: no space around. Some may be empty. */
  ghost predicate Trimmed(names: seq<string>) {
    forall i | 0 <= i < |names| :: TrimSpace(names[i]) == names[i]
  }

  lemma TrimIndented(x: string)
    requires TrimSpace(x) == x
    ensures TrimSpace(" " + x) == x
  {
    assert (" " + x)[1..] == x;
  }

  lemma TrimmedItems(names: seq<string>)
    requires Trimmed(names) && names != []
    ensures TrimAll([names[0]] + Pad(" ", names[1..])) == names
  {
    var items := [names[0]] + Pad(" ", names[1..]);
    forall i | 0 <= i < |names| ensures TrimSpace(items[i]) == names[i] {
      PaddedAt(" ", names, i);
      TrimIndented(names[i]);
    }
  }

  lemma CommaJoined(names: seq<string>)
    requires names != [] && AllFree(IsComma, names)
    ensures Split(IsComma, Join(names, ", ")) == [names[0]] + Pad(" ", names[1..])
  {
    SplitOfJoin(IsComma, "", names, ',', " ");
    assert [','] + " " == ", " && "" + Join(names, ", ") == Join(names, ", ") && "" + names[0] == names[0];
  }

  lemma CommaBetween(name: string, rest: string)
    ensures |Split(IsComma, name + ", " + rest)| == |Split(IsComma, name)| + |Split(IsComma, rest)|
  {
    SplitCount(IsComma, name + ", ", rest);
    SplitCount(IsComma, name, ", ");
    SplitCons(IsComma, "", ',', " ");
    SplitOne(IsComma, " ");
    assert "" + ([','] + " ") == ", ";
  }

  /** At least as many items as names, and more if a name has a comma of its own. */
  lemma {:induction false} CommaCount(names: seq<string>)
    requires names != []
    ensures |Split(IsComma, Join(names, ", "))| >= |names|
    ensures |Split(IsComma, Join(names, ", "))| == |names| ==> AllFree(IsComma, names)
    decreases |names|
  {
    SplitFreeIff(IsComma, names[0]);
    if |names| > 1 {
      CommaCount(names[1..]);
      CommaBetween(names[0], Join(names[1..], ", "));
      if AllFree(IsComma, names[1..]) && Free(IsComma, names[0]) { AllFreeCons(IsComma, names); }
    }
  }

  lemma AllFreeCons(sep: char -> bool, xs: seq<string>)
    requires xs != [] && Free(sep, xs[0]) && AllFree(sep, xs[1..])
    ensures AllFree(sep, xs)
  {
    forall i | 0 <= i < |xs| ensures Free(sep, xs[i]) {
      if i > 0 { assert xs[i] == xs[1..][i - 1]; }
    }
  }

  /** A list is read back exactly when no name in it has a comma. */
  lemma ItemsReadBackIff(names: seq<string>)
    requires Trimmed(names) && names != []
    ensures ReadItems(Join(names, ", ")) == names <==> AllFree(IsComma, names)
  {
    CommaCount(names);
    if AllFree(IsComma, names) {
      CommaJoined(names);
      TrimmedItems(names);
    }
  }

  lemma {:induction false} ListedTrimmed(ingredients: seq<Ingredient>, inStock: bool)
    ensures Trimmed(Listed(ingredients, inStock))
    decreases |ingredients|
  {
    if ingredients != [] {
      ListedTrimmed(ingredients[..|ingredients| - 1], inStock);
      SqueezedEnds(Replaced(ingredients[|ingredients| - 1].name));
    }
  }

  lemma {:induction false} ListedFree(ingredients: seq<Ingredient>, inStock: bool, other: char -> bool)
    requires !other(' ') && forall i | 0 <= i < |ingredients| :: Free(other, ingredients[i].name)
    ensures AllFree(other, Listed(ingredients, inStock))
    decreases |ingredients|
  {
    if ingredients != [] {
      ListedFree(ingredients[..|ingredients| - 1], inStock, other);
      CleanFree(ingredients[|ingredients| - 1].name, other);
    }
  }

  lemma NothingFree()
    ensures Free(IsComma, "nothing") && |Split(IsComma, "nothing")| == 1
  {
    SplitOne(IsComma, "nothing");
  }

  lemma NothingReadsAsNone(have: seq<string>)
    ensures ListOrNone(have) == "nothing" <==> have == [] || have == ["nothing"]
  {
    if have != [] {
      NothingFree();
      CommaCount(have);
    }
  }

  /** What the reader makes of the line of what is in stock. */
  lemma StockReadBackIff(have: seq<string>)
    requires Trimmed(have)
    ensures var read := if ListOrNone(have) == "nothing" then [] else ReadItems(ListOrNone(have));
            read == have <==> have != ["nothing"] && AllFree(IsComma, have)
  {
    NothingReadsAsNone(have);
    if have != [] { ItemsReadBackIff(have); }
  }

  /** The reader sees the two lines. */
  lemma PantryLinesRead(have: seq<string>, out: seq<string>, ls: seq<string>, block: string)
    requires have != [] || out != []
    requires PantryLines(have, out) <= ls && Lines(block) == ls
    ensures PantryInBlock(block)
            == (if ListOrNone(have) == "nothing" then [] else ReadItems(ListOrNone(have)),
                if out == [] then [] else ReadItems(Join(out, ", ")))
  {
    assert ls[0] == PantryLines(have, out)[0] && ls[1] == PantryLines(have, out)[1] && ls[2] == PantryLines(have, out)[2];
    assert StockLine(have)[|"Available: "|..] == ListOrNone(have);
    assert "</pantry>"[0] != "Out of stock: "[0];
    assert out != [] ==> OutLine(out)[|"Out of stock: "|..] == Join(out, ", ");
  }

  // What there is to tell, by positions in the pantry.

  function StockedAt(ingredients: seq<Ingredient>, inStock: bool): nat -> bool {
    (i: nat) => i < |ingredients| && ingredients[i].inStock == inStock
  }

  function CleanedAt(ingredients: seq<Ingredient>): nat -> string {
    (i: nat) => if i < |ingredients| then Clean(ingredients[i].name) else ""
  }

  /** The cleaned names of all ingredients in stock (or of all that are out), each in its place. */
  function Stocked(ingredients: seq<Ingredient>, inStock: bool): seq<string> {
    Mapped(CleanedAt(ingredients), Picked(StockedAt(ingredients, inStock), |ingredients|))
  }

  function ListedGrown(ingredients: seq<Ingredient>, inStock: bool): nat -> seq<string> {
    (n: nat) => if n <= |ingredients| then Listed(ingredients[..n], inStock) else []
  }

  lemma ListedStep(ingredients: seq<Ingredient>, inStock: bool, n: nat)
    requires n < |ingredients|
    ensures GrowsAt(ListedGrown(ingredients, inStock), StockedAt(ingredients, inStock), CleanedAt(ingredients), n)
  {
    assert ingredients[..n + 1][..n] == ingredients[..n];
  }

  lemma ListedIsStocked(ingredients: seq<Ingredient>, inStock: bool)
    ensures Listed(ingredients, inStock) == Stocked(ingredients, inStock)
  {
    forall n: nat | n < |ingredients|
      ensures GrowsAt(ListedGrown(ingredients, inStock), StockedAt(ingredients, inStock), CleanedAt(ingredients), n)
    {
      ListedStep(ingredients, inStock, n);
    }
    assert ingredients[..0] == [] && ingredients[..|ingredients|] == ingredients;
    GrowsByPicked(ListedGrown(ingredients, inStock), StockedAt(ingredients, inStock), CleanedAt(ingredients), |ingredients|);
  }

  /** Every ingredient is in exactly one of the two lists, once for each time it is there. */
  lemma StockedCount(ingredients: seq<Ingredient>)
    ensures |Stocked(ingredients, true)| + |Stocked(ingredients, false)| == |ingredients|
  {
    PickedBoth(StockedAt(ingredients, true), |ingredients|);
    PickedSame((i: nat) => !StockedAt(ingredients, true)(i), StockedAt(ingredients, false), |ingredients|);
  }

  /** A name is among them exactly when some ingredient in stock (or out) cleans to it. */
  lemma StockedHasIff(ingredients: seq<Ingredient>, inStock: bool, name: string)
    ensures name in Stocked(ingredients, inStock)
            <==> exists i :: 0 <= i < |ingredients| && ingredients[i].inStock == inStock && Clean(ingredients[i].name) == name
  {
    var js := Picked(StockedAt(ingredients, inStock), |ingredients|);
    PickedIs(StockedAt(ingredients, inStock), |ingredients|);
    if name in Stocked(ingredients, inStock) {
      var k :| 0 <= k < |js| && Stocked(ingredients, inStock)[k] == name;
      assert js[k] in js;
    }
    if i :| 0 <= i < |ingredients| && ingredients[i].inStock == inStock && Clean(ingredients[i].name) == name {
      assert i in js;
      var k :| 0 <= k < |js| && js[k] == i;
      assert Stocked(ingredients, inStock)[k] == name;
    }
  }

  /**
  For any pantry at all, the rendered block tells exactly what is in stock and what is out, empty names
  included, if and only if no listed name has a comma and the only thing in stock is not called "nothing".
  */
  lemma PantryReadBackIff(m: Memory)
    requires PlainDates(m)
    ensures var have, out := Stocked(m.ingredients, true), Stocked(m.ingredients, false);
            PantryInBlock(BlockText(m)) == (have, out)
            <==> have != ["nothing"] && AllFree(IsComma, have) && AllFree(IsComma, out)
  {
    var have, out := Listed(m.ingredients, true), Listed(m.ingredients, false);
    ListedIsStocked(m.ingredients, true);
    ListedIsStocked(m.ingredients, false);
    ListedTrimmed(m.ingredients, true);
    ListedTrimmed(m.ingredients, false);
    StockReadBackIff(have);
    if BlockLines(m) == [] {
      BlockJoined(m);
      assert Lines("") == [""];
    } else {
      BlockLaidOut(m);
      if have != [] || out != [] {
        PantryLinesRead(have, out, BlockLines(m), BlockText(m));
        if out != [] { ItemsReadBackIff(out); }
      }
    }
  }

  lemma OnlyNothing(m: Memory)
    requires PlainDates(m) && Stocked(m.ingredients, true) == ["nothing"]
    ensures PantryInBlock(BlockText(m)).0 == []
  {
    var have, out := Listed(m.ingredients, true), Listed(m.ingredients, false);
    ListedIsStocked(m.ingredients, true);
    BlockLaidOut(m);
    NothingReadsAsNone(have);
    PantryLinesRead(have, out, BlockLines(m), BlockText(m));
  }

  /** A name of tag characters alone is a name to the pantry and nothing at all to the block. */
  lemma TagsAloneVanish()
    ensures Squeeze("<>") == "<>" && Clean("<>") == ""
  {
    SplitName("<>");
    assert Replaced("<>"[1..]) == Replaced("<>"[1..][1..]) == "";
  }

  lemma SplitName(word: string)
    requires word != "" && Free(IsSpace, word)
    ensures Squeeze(word) == word
  {
    FieldsOfSpaced([word]);
  }

  // ---------------------------------------------------------------------------------------------
  // Reading an entry back
  // ---------------------------------------------------------------------------------------------

  predicate IsColon(c: char) { c == ':' }

  /** An entry as the model can read it off its line. */
  datatype EntryRead = EntryRead(date: string, dish: string, taste: int, minutes: Option<int>, note: string)

  /** The date is ten characters long, the dish goes up to a colon, the taste is a digit before "/5". */
  function ReadEntry(line: string): EntryRead
    requires |line| >= 13
  {
    var rest := line[13..];
    var n := Span(IsColon, rest);
    if |rest| < n + 11 then EntryRead(line[2..12], rest[..n], 0, None, "")
    else
      var (minutes, note) := ReadTail(rest[n + 11..]);
      EntryRead(line[2..12], rest[..n], IntOf(rest[n + 8..n + 9]), minutes, note)
  }

  /** Then the minutes, if they are there, and the note, if there is one. */
  function ReadTail(tail: string): (Option<int>, string) {
    if ", took " <= tail then
      var t := tail[|", took "|..];
      var n := Span(IsSpace, t);
      (Some(IntOf(t[..n])), if |t| < n + 4 then "" else ReadNote(t[n + 4..]))
    else (None, ReadNote(tail))
  }

  function ReadNote(tail: string): string { if ". " <= tail then tail[|". "|..] else "" }

  lemma NoteRead(e: JournalEntry)
    ensures ReadNote(EntryNote(e)) == Clean(e.note)
  {}

  lemma DigitsSolid(n: int)
    ensures Free(IsSpace, DecimalInt(n))
  {
    var s := DecimalInt(n);
    forall i | 0 <= i < |s| ensures !IsSpace(s[i]) { assert s[i] in s; }
  }

  lemma TailRead(e: JournalEntry)
    ensures ReadTail(EntryMinutes(e) + EntryNote(e)) == (e.minutes, Clean(e.note))
  {
    NoteRead(e);
    if e.minutes.Some? {
      MinutesRead(e.minutes.value, EntryNote(e));
    } else {
      NoMinutes(EntryNote(e));
    }
  }

  lemma NoMinutes(note: string)
    requires note == "" || note[0] == '.'
    ensures ReadTail("" + note) == (None, ReadNote(note))
  {
    assert "" + note == note;
  }

  lemma MinutesRead(minutes: int, note: string)
    ensures ReadTail((", took " + DecimalInt(minutes) + " min") + note) == (Some(minutes), ReadNote(note))
  {
    var digits := DecimalInt(minutes);
    DigitsSolid(minutes);
    IntRead(minutes);
    MinutesSplit(digits, note);
    SpanAt(IsSpace, digits, " min" + note);
  }

  lemma MinutesSplit(digits: string, note: string)
    ensures var tail, rest := (", took " + digits + " min") + note, digits + (" min" + note);
            && ", took " <= tail && tail[|", took "|..] == rest
            && rest[..|digits|] == digits && |rest| >= |digits| + 4 && rest[|digits| + 4..] == note
  {}

  lemma EntryParts(e: JournalEntry)
    requires |e.cookedOn| == 10
    ensures var line := EntryText(e);
            && |line| >= 13 && line[2..12] == e.cookedOn
            && line[13..] == Clean(e.dish) + (": taste " + DecimalInt(e.taste) + ("/5" + (EntryMinutes(e) + EntryNote(e))))
  {
    var tail := Clean(e.dish) + (": taste " + DecimalInt(e.taste) + ("/5" + (EntryMinutes(e) + EntryNote(e))));
    EntrySplit("- ", e.cookedOn, " ", Clean(e.dish), ": taste ", DecimalInt(e.taste), "/5", EntryMinutes(e), EntryNote(e));
    assert EntryText(e) == "- " + e.cookedOn + " " + tail;
    DateAndRest(e.cookedOn, tail);
  }

  lemma DateAndRest(date: string, tail: string)
    requires |date| == 10
    ensures var line := "- " + date + " " + tail; line[2..12] == date && line[13..] == tail
  {}

  lemma EntrySplit(a: string, b: string, c: string, d: string, e: string, f: string, g: string, h: string, i: string)
    ensures (a + b + c + d + e + f + g) + h + i == a + b + c + (d + (e + f + (g + (h + i))))
  {}

  /** A line split at its first colon. */
  lemma ColonSplit(dish: string, digit: string, tail: string)
    requires |digit| == 1
    ensures var rest := dish + (": taste " + digit + ("/5" + tail));
            var n := Span(IsColon, rest);
            && (rest[..n] == dish <==> Free(IsColon, dish))
            && (Free(IsColon, dish) ==>
                  |rest| >= n + 11 && rest[n + 8..n + 9] == digit && rest[n + 11..] == tail)
  {
    var after := ": taste " + digit + ("/5" + tail);
    assert after[0] == ':' && after[8..9] == digit && after[11..] == tail;
    if Free(IsColon, dish) { SpanAt(IsColon, dish, after); }
  }

  /**
  An entry's line tells its date and, exactly when the cleaned dish holds no colon, everything: the cleaned
  dish, the taste, the minutes if they were noted and the cleaned note.
  */
  lemma EntryReadBackIff(e: JournalEntry)
    requires |e.cookedOn| == 10 && 1 <= e.taste <= 5
    ensures |EntryText(e)| >= 13 && ReadEntry(EntryText(e)).date == e.cookedOn
    ensures ReadEntry(EntryText(e)) == EntryRead(e.cookedOn, Clean(e.dish), e.taste, e.minutes, Clean(e.note))
            <==> Free(IsColon, Clean(e.dish))
  {
    EntryParts(e);
    OneDigit(e.taste);
    IntRead(e.taste);
    ColonSplit(Clean(e.dish), DecimalInt(e.taste), EntryMinutes(e) + EntryNote(e));
    TailRead(e);
  }

  /** How many lines the pantry takes. */
  function Height(ingredients: seq<Ingredient>): nat {
    if ingredients == [] then 0
    else if forall i | 0 <= i < |ingredients| :: ingredients[i].inStock then 3
    else 4
  }

  lemma PantryHeight(m: Memory)
    ensures |PantryLinesOf(m)| == Height(m.ingredients)
  {
    var out := Stocked(m.ingredients, false);
    ListedIsStocked(m.ingredients, true);
    ListedIsStocked(m.ingredients, false);
    StockedCount(m.ingredients);
    if out != [] {
      StockedHasIff(m.ingredients, false, out[0]);
    }
    forall i | 0 <= i < |m.ingredients| && !m.ingredients[i].inStock ensures out != [] {
      StockedHasIff(m.ingredients, false, Clean(m.ingredients[i].name));
    }
  }

  /** Below a pantry of `p` lines: the journal's heading says what day it is, then a line for each entry, in order. */
  ghost predicate ShowsJournal(ls: seq<string>, p: nat, today: string, journal: seq<JournalEntry>) {
    && |ls| == p + |journal| + 3
    && ls[p + 1] == "Dishes cooked before, newest first (today is " + today + "; taste is out of 5):"
    && forall i | 0 <= i < |journal| :: ls[p + 2 + i] == EntryText(journal[i])
  }

  lemma JournalInBlock(m: Memory)
    requires PlainDates(m) && m.journal != []
    ensures ShowsJournal(Lines(BlockText(m)), Height(m.ingredients), m.today, m.journal)
  {
    PantryHeight(m);
    BlockSplits(m);
    JournalBelow(PantryLinesOf(m), m.today, m.journal);
  }

  lemma BlockSplits(m: Memory)
    requires PlainDates(m) && m.journal != []
    ensures Lines(BlockText(m)) == PantryLinesOf(m) + JournalLines(m.today, m.journal)
  {
    BlockLaidOut(m);
  }

  lemma JournalBelow(above: seq<string>, today: string, journal: seq<JournalEntry>)
    requires journal != []
    ensures ShowsJournal(above + JournalLines(today, journal), |above|, today, journal)
  {
    HeaderIs(today);
    ShiftedLines(above, JournalLines(today, journal));
    forall i | 0 <= i < |journal| ensures JournalLines(today, journal)[2 + i] == EntryText(journal[i]) {
      EntryBelow(today, journal, i);
    }
  }

  lemma EntryBelow(today: string, journal: seq<JournalEntry>, i: nat)
    requires i < |journal|
    ensures JournalLines(today, journal)[2 + i] == EntryText(journal[i])
  {
    Between(["<journal>", HeaderText(today)], EntryLines(journal), ["</journal>"], i);
  }

  lemma Between(a: seq<string>, b: seq<string>, c: seq<string>, i: nat)
    requires i < |b|
    ensures (a + b + c)[|a| + i] == b[i]
  {}

  lemma ShiftedLines(above: seq<string>, ls: seq<string>)
    ensures forall k | 0 <= k < |ls| :: (above + ls)[|above| + k] == ls[k]
  {}

  lemma HeaderIs(today: string)
    ensures HeaderText(today) == "Dishes cooked before, newest first (today is " + today + "; taste is out of 5):"
  {
    assert "Dishes cooked before" + ", newest first" + " (today is " == "Dishes cooked before, newest first (today is ";
  }

  lemma OneDigit(n: nat)
    requires n < 10
    ensures |DecimalInt(n)| == 1
  {}
}
