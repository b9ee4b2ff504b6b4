/** Pasted ingredient lists, internal/api/names.go. */
module Names {
  import opened Common
  import opened Text

  const MAX_NAME: int := 60
  const MAX_NAMES: int := 50

  datatype BadList = NameTooLong | NoNames | TooManyNames

  predicate IsSeparator(c: char) { c == ',' || c == ';' || c == '\n' }

  /**
  What the parser needs of a per-character lower-casing: doing it twice changes nothing more, and it
  neither makes nor removes separators and white space.
  */
  ghost predicate CaseMap(lower: char -> char) {
    && lower(' ') == ' '
    && forall c :: lower(lower(c)) == lower(c) && (IsSpace(lower(c)) <==> IsSpace(c))
                   && (IsSeparator(lower(c)) <==> IsSeparator(c))
  }

  function AsciiLower(c: char): char {
    if 'A' <= c <= 'Z' then c - 'A' + 'a' else c
  }

  lemma AsciiLowerIsCaseMap()
    ensures CaseMap(AsciiLower)
    ensures forall c :: AsciiLower(c) as int == c as int + if 'A' <= c <= 'Z' then 32 else 0
  {
    assert forall c :: 'A' <= c <= 'Z' ==> 'a' <= AsciiLower(c) <= 'z';
  }

  function Lower(lower: char -> char, s: string): (r: string)
    ensures |r| == |s| && forall i | 0 <= i < |s| :: r[i] == lower(s[i])
  {
    seq(|s|, i requires 0 <= i < |s| => lower(s[i]))
  }

  function NameOf(lower: char -> char, part: string): string {
    Lower(lower, Squeeze(part))
  }

  function NamesOf(lower: char -> char, parts: seq<string>): (r: seq<string>)
    ensures |r| == |parts| && forall i | 0 <= i < |parts| :: r[i] == NameOf(lower, parts[i])
  {
    seq(|parts|, i requires 0 <= i < |parts| => NameOf(lower, parts[i]))
  }

  /** The non-empty names in the order they first occur. */
  function Firsts(ns: seq<string>): seq<string> {
    if ns == [] then []
    else
      var front, last := Firsts(ns[..|ns| - 1]), ns[|ns| - 1];
      if last == "" || last in front then front else front + [last]
  }

  function ParseNames(lower: char -> char, text: string): Result<seq<string>, BadList> {
    var all := NamesOf(lower, Fields(IsSeparator, text));
    var names := Firsts(all);
    if !AllShort(all) then Err(NameTooLong)
    else if names == [] then Err(NoNames)
    else if |names| > MAX_NAMES then Err(TooManyNames)
    else Ok(names)
  }

  predicate AllShort(ns: seq<string>) { forall n | n in ns :: |n| <= MAX_NAME }

  /** One part more: a name that is there already, or none, changes nothing. */
  lemma OneMore(all: seq<string>, i: nat)
    requires i < |all| && AllShort(all[..i])
    ensures Firsts(all[..i + 1])
            == if all[i] == "" || all[i] in Firsts(all[..i]) then Firsts(all[..i]) else Firsts(all[..i]) + [all[i]]
    ensures all[i] == "" || all[i] in Firsts(all[..i]) || |all[i]| <= MAX_NAME <==> AllShort(all[..i + 1])
  {
    assert all[..i + 1] == all[..i] + [all[i]];
    FirstsMembers(all[..i]);
  }

  lemma ShortPrefix(all: seq<string>, n: nat)
    requires n <= |all|
    ensures AllShort(all) ==> AllShort(all[..n])
  {
    assert forall x | x in all[..n] :: x in all;
  }

  method ParseIngredientNames(lower: char -> char, text: string) returns (r: Result<seq<string>, BadList>)
    ensures r == ParseNames(lower, text)
  {
    var seen: set<string> := {};
    var names: seq<string> := [];
    var parts := Fields(IsSeparator, text);
    ghost var all := NamesOf(lower, parts);
    for i := 0 to |parts|
      invariant names == Firsts(all[..i])
      invariant forall n :: n in seen <==> n in names
      invariant AllShort(all[..i])
    {
      var name := NameOf(lower, parts[i]);
      OneMore(all, i);
      if name == "" || name in seen { continue; }
      if |name| > MAX_NAME {
        ShortPrefix(all, i + 1);
        return Err(NameTooLong);
      }
      seen := seen + {name};
      names := names + [name];
    }
    assert all[..|parts|] == all;
    if |names| == 0 { return Err(NoNames); }
    if |names| > MAX_NAMES { return Err(TooManyNames); }
    return Ok(names);
  }

  /** A comma, a semicolon or a line break ends a part, and nothing else does. */
  lemma PartsCut(a: string, c: char, b: string)
    ensures c == ',' || c == ';' || c == '\n' ==>
              Fields(IsSeparator, a + [c] + b) == Fields(IsSeparator, a) + Fields(IsSeparator, b)
    ensures (forall i | 0 <= i < |a| :: a[i] != ',' && a[i] != ';' && a[i] != '\n') ==>
              Fields(IsSeparator, a) == if a == "" then [] else [a]
  {
    if c == ',' || c == ';' || c == '\n' { FieldsCut(IsSeparator, a, c, b); }
    if forall i | 0 <= i < |a| :: a[i] != ',' && a[i] != ';' && a[i] != '\n' { FieldsFree(IsSeparator, a); }
  }

  // ---------------------------------------------------------------------------------------------
  // What a parsed list is
  // ---------------------------------------------------------------------------------------------

  ghost predicate Distinct(ns: seq<string>) {
    forall i, j | 0 <= i < j < |ns| :: ns[i] != ns[j]
  }

  lemma {:induction false} FirstsMembers(ns: seq<string>)
    ensures forall n :: n in Firsts(ns) <==> n in ns && n != ""
    ensures Distinct(Firsts(ns))
    decreases |ns|
  {
    if ns != [] {
      var front := ns[..|ns| - 1];
      FirstsMembers(front);
      assert ns == front + [ns[|ns| - 1]];
    }
  }

  /** Names come out in first-occurrence order: one listed earlier was seen before one listed later. */
  ghost predicate FirstAt(ns: seq<string>, name: string, at: int) {
    0 <= at < |ns| && ns[at] == name && name !in ns[..at]
  }

  lemma {:induction false} FirstsInOrder(ns: seq<string>, i: nat, j: nat, p: int, q: int)
    requires i < j < |Firsts(ns)|
    requires FirstAt(ns, Firsts(ns)[i], p) && FirstAt(ns, Firsts(ns)[j], q)
    ensures p < q
    decreases |ns|
  {
    var front := ns[..|ns| - 1];
    FirstsMembers(ns);
    FirstsMembers(front);
    assert ns == front + [ns[|ns| - 1]];
    assert ns[..|front|] == front;
    if j < |Firsts(front)| {
      assert Firsts(front)[i] in front && Firsts(front)[j] in front;
      assert p < |front| && q < |front|;
      assert front[..p] == ns[..p] && front[..q] == ns[..q];
      FirstsInOrder(front, i, j, p, q);
    } else {
      assert Firsts(ns)[j] !in front && Firsts(front)[i] in front;
      assert forall k | 0 <= k < |front| :: front[k] == ns[k];
    }
  }

  lemma {:induction false} FirstsOfDistinct(ns: seq<string>)
    requires Distinct(ns) && "" !in ns
    ensures Firsts(ns) == ns
    decreases |ns|
  {
    if ns != [] {
      var front := ns[..|ns| - 1];
      FirstsOfDistinct(front);
      assert ns == front + [ns[|ns| - 1]];
    }
  }

  /** A normal name: lower case, single spaces between words, none around, and no separator. */
  ghost predicate Normal(lower: char -> char, name: string) {
    name != "" && Squeeze(name) == name && Lower(lower, name) == name && Free(IsSeparator, name)
  }

  /** Lower-casing word by word. */
  lemma {:induction false} LowerJoin(lower: char -> char, xs: seq<string>, d: string)
    ensures Lower(lower, Join(xs, d))
            == Join(seq(|xs|, i requires 0 <= i < |xs| => Lower(lower, xs[i])), Lower(lower, d))
    decreases |xs|
  {
    var ys := seq(|xs|, i requires 0 <= i < |xs| => Lower(lower, xs[i]));
    if |xs| > 1 {
      LowerJoin(lower, xs[1..], d);
      var zs := seq(|xs[1..]|, i requires 0 <= i < |xs[1..]| => Lower(lower, xs[1..][i]));
      assert ys[1..] == zs;
      assert Lower(lower, xs[0] + d + Join(xs[1..], d))
          == Lower(lower, xs[0]) + Lower(lower, d) + Lower(lower, Join(xs[1..], d));
    }
  }

  lemma LowerFree(lower: char -> char, sep: char -> bool, s: string)
    requires forall c :: sep(lower(c)) <==> sep(c)
    requires Free(sep, s)
    ensures Free(sep, Lower(lower, s))
  {}

  lemma NameIsNormal(lower: char -> char, part: string)
    requires CaseMap(lower) && Free(IsSeparator, part)
    ensures NameOf(lower, part) == "" || Normal(lower, NameOf(lower, part))
    ensures Squeeze(" " + NameOf(lower, part)) == Squeeze(NameOf(lower, part)) == NameOf(lower, part)
  {
    var words, name := Fields(IsSpace, part), NameOf(lower, part);
    var lows := seq(|words|, i requires 0 <= i < |words| => Lower(lower, words[i]));
    LowerJoin(lower, words, " ");
    assert Lower(lower, " ") == " ";
    forall i | 0 <= i < |lows| ensures lows[i] != "" && Free(IsSpace, lows[i]) {
      LowerFree(lower, IsSpace, words[i]);
    }
    FieldsOfSpaced(lows);
    assert Squeeze(name) == name;
    SqueezeStable(name);
    FieldsKeepFree(IsSpace, IsSeparator, part);
    JoinFree(IsSeparator, words, " ");
    LowerFree(lower, IsSeparator, Squeeze(part));
  }

  lemma AllNamesNormal(lower: char -> char, text: string)
    requires CaseMap(lower)
    ensures var all := NamesOf(lower, Fields(IsSeparator, text));
            forall n | n in all :: n == "" || Normal(lower, n)
  {
    var parts := Fields(IsSeparator, text);
    forall i | 0 <= i < |parts|
      ensures NameOf(lower, parts[i]) == "" || Normal(lower, NameOf(lower, parts[i]))
    {
      NameIsNormal(lower, parts[i]);
    }
  }

  /** A list that parses gives 1 to 50 distinct normal names of at most 60 characters: those written. */
  lemma ParsedNames(lower: char -> char, text: string)
    requires CaseMap(lower) && ParseNames(lower, text).Ok?
    ensures var names := ParseNames(lower, text).value;
            && 1 <= |names| <= 50 && Distinct(names)
            && (forall n | n in names :: Normal(lower, n) && |n| <= 60)
            && (forall n :: n in names <==> n != "" && n in NamesOf(lower, Fields(IsSeparator, text)))
  {
    AllNamesNormal(lower, text);
    FirstsMembers(NamesOf(lower, Fields(IsSeparator, text)));
  }

  function Wanted(all: seq<string>): set<string> { set n | n in all && n != "" }

  lemma WantedCount(all: seq<string>)
    ensures |Wanted(all)| == |Firsts(all)|
  {
    FirstsMembers(all);
    DistinctCount(Firsts(all));
    assert Wanted(all) == set n | n in Firsts(all);
  }

  /** When a list is refused: each of the three answers, exactly. */
  lemma RefusedIff(lower: char -> char, text: string)
    ensures var all, r := NamesOf(lower, Fields(IsSeparator, text)), ParseNames(lower, text);
            && (r == Err(NameTooLong) <==> exists n :: n in all && |n| > 60)
            && (r == Err(NoNames) <==> Wanted(all) == {})
            && (r == Err(TooManyNames) <==> |Wanted(all)| > 50 && forall n | n in all :: |n| <= 60)
  {
    var all := NamesOf(lower, Fields(IsSeparator, text));
    WantedCount(all);
    LongIsWanted(all);
  }

  lemma LongIsWanted(all: seq<string>)
    ensures (exists n :: n in all && |n| > MAX_NAME) ==> Wanted(all) != {}
  {
    if n :| n in all && |n| > MAX_NAME {
      assert n in Wanted(all);
    }
  }

  lemma {:induction false} DistinctCount(ns: seq<string>)
    requires Distinct(ns)
    ensures |set n | n in ns| == |ns|
    decreases |ns|
  {
    if ns != [] {
      var front, last := ns[..|ns| - 1], ns[|ns| - 1];
      DistinctCount(front);
      assert (set n | n in ns) == (set n | n in front) + {last};
      assert last !in front;
    } else {
      assert (set n | n in ns) == {};
    }
  }

  lemma PartsReadBack(names: seq<string>)
    requires names != [] && Items(IsSeparator, names)
    ensures Fields(IsSeparator, Join(names, ", ")) == [names[0]] + Pad(" ", names[1..])
  {
    FieldsOfJoin(IsSeparator, "", names, ',', " ");
    assert [','] + " " == ", ";
    assert "" + Join(names, ", ") == Join(names, ", ");
    assert "" + names[0] == names[0];
  }

  /** Normal names joined by ", " are the names read back. */
  lemma NamesReadBack(lower: char -> char, names: seq<string>)
    requires names != [] && forall i | 0 <= i < |names| :: Normal(lower, names[i])
    ensures NamesOf(lower, Fields(IsSeparator, Join(names, ", "))) == names
  {
    PartsReadBack(names);
    var parts := [names[0]] + Pad(" ", names[1..]);
    forall i | 0 <= i < |names| ensures NameOf(lower, parts[i]) == names[i] {
      PaddedAt(" ", names, i);
      PartReadBack(lower, names[i]);
    }
    NamesOfAre(lower, parts, names);
  }

  lemma PartReadBack(lower: char -> char, name: string)
    requires Normal(lower, name)
    ensures NameOf(lower, name) == name && NameOf(lower, " " + name) == name
  {
    SqueezeStable(name);
  }

  lemma NamesOfAre(lower: char -> char, parts: seq<string>, names: seq<string>)
    requires |parts| == |names| && forall i | 0 <= i < |parts| :: NameOf(lower, parts[i]) == names[i]
    ensures NamesOf(lower, parts) == names
  {}

  /** The parsed names, written out again with commas, parse to themselves. */
  lemma ParseRoundTrip(lower: char -> char, text: string)
    requires CaseMap(lower) && ParseNames(lower, text).Ok?
    ensures ParseNames(lower, Join(ParseNames(lower, text).value, ", ")) == ParseNames(lower, text)
  {
    var names := ParseNames(lower, text).value;
    ParsedNames(lower, text);
    forall i | 0 <= i < |names| ensures Normal(lower, names[i]) { assert names[i] in names; }
    NamesReadBack(lower, names);
    FirstsOfDistinct(names);
  }

  lemma AsciiRoundTrip(text: string)
    requires ParseNames(AsciiLower, text).Ok?
    ensures ParseNames(AsciiLower, Join(ParseNames(AsciiLower, text).value, ", ")) == ParseNames(AsciiLower, text)
  {
    AsciiLowerIsCaseMap();
    ParseRoundTrip(AsciiLower, text);
  }
}
