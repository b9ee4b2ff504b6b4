/** The string functions of the Go library that the service's parsers and printers are made of. */
module Text {

  /** unicode.IsSpace. */
  predicate IsSpace(c: char) {
    || '\t' <= c <= '\U{000D}' || c == ' ' || c == '\U{0085}' || c == '\U{00A0}' || c == '\U{1680}'
    || '\U{2000}' <= c <= '\U{200A}' || c == '\U{2028}' || c == '\U{2029}' || c == '\U{202F}'
    || c == '\U{205F}' || c == '\U{3000}'
  }

  ghost predicate Free(sep: char -> bool, s: string) {
    forall i | 0 <= i < |s| :: !sep(s[i])
  }

  /** Every string is a non-empty run of non-separators. */
  ghost predicate Items(sep: char -> bool, xs: seq<string>) {
    forall i | 0 <= i < |xs| :: xs[i] != "" && Free(sep, xs[i])
  }

  ghost predicate AllFree(sep: char -> bool, xs: seq<string>) {
    forall i | 0 <= i < |xs| :: Free(sep, xs[i])
  }

  /** How many leading characters are not separators. */
  function Span(sep: char -> bool, s: string): (n: nat)
    ensures n <= |s| && (n < |s| ==> sep(s[n])) && Free(sep, s[..n])
  {
    if s == "" || sep(s[0]) then 0
    else
      var n := 1 + Span(sep, s[1..]);
      assert s[..n] == [s[0]] + s[1..][..n - 1];
      n
  }

  /** strings.FieldsFunc: the maximal runs of non-separators. */
  function Fields(sep: char -> bool, s: string): (r: seq<string>)
    ensures Items(sep, r)
    decreases |s|
  {
    if s == "" then []
    else if sep(s[0]) then Fields(sep, s[1..])
    else
      var n := Span(sep, s);
      [s[..n]] + Fields(sep, s[n..])
  }

  /** strings.Join. */
  function Join(xs: seq<string>, d: string): string {
    if xs == [] then ""
    else if |xs| == 1 then xs[0]
    else xs[0] + d + Join(xs[1..], d)
  }

  /** All of them in a row. */
  function Concat(xs: seq<string>): string {
    if xs == [] then "" else Concat(xs[..|xs| - 1]) + xs[|xs| - 1]
  }

  function Pad(pad: string, xs: seq<string>): (r: seq<string>)
    ensures |r| == |xs| && forall i | 0 <= i < |xs| :: r[i] == pad + xs[i]
  {
    seq(|xs|, i requires 0 <= i < |xs| => pad + xs[i])
  }

  /** The first as it is, the others padded. */
  lemma PaddedAt(pad: string, xs: seq<string>, i: nat)
    requires i < |xs|
    ensures ([xs[0]] + Pad(pad, xs[1..]))[i] == if i == 0 then xs[0] else pad + xs[i]
  {}

  function TrimLeft(s: string): (r: string)
    ensures r == "" || !IsSpace(r[0])
  {
    if s != "" && IsSpace(s[0]) then TrimLeft(s[1..]) else s
  }

  function TrimRight(s: string): (r: string)
    ensures r <= s && (r == "" || !IsSpace(r[|r| - 1]))
  {
    if s != "" && IsSpace(s[|s| - 1]) then TrimRight(s[..|s| - 1]) else s
  }

  /** strings.TrimSpace. */
  function TrimSpace(s: string): (r: string)
    ensures r == "" || (!IsSpace(r[0]) && !IsSpace(r[|r| - 1]))
  {
    var t := TrimLeft(s);
    assert TrimRight(t) <= t;
    TrimRight(t)
  }

  /** strings.Fields joined by single spaces. */
  function Squeeze(s: string): string { Join(Fields(IsSpace, s), " ") }

  /** %d for a number that is not negative. */
  function Decimal(n: nat): (r: string)
    ensures r != "" && forall c | c in r :: '0' <= c <= '9'
  {
    if n < 10 then [['0', '1', '2', '3', '4', '5', '6', '7', '8', '9'][n]]
    else Decimal(n / 10) + Decimal(n % 10)
  }

  /** %d. */
  function DecimalInt(n: int): (r: string)
    ensures r != "" && forall c | c in r :: c == '-' || '0' <= c <= '9'
  {
    if n < 0 then "-" + Decimal(-n) else Decimal(n)
  }

  /** Where the first line ends. */
  predicate IsBreak(c: char) { c == '\n' }

  /** strings.Split: what is between the separators, empty or not. */
  function Split(sep: char -> bool, s: string): (r: seq<string>)
    ensures r != []
    decreases |s|
  {
    var n := Span(sep, s);
    if n == |s| then [s] else [s[..n]] + Split(sep, s[n + 1..])
  }

  function Lines(s: string): (r: seq<string>)
    ensures r != []
  {
    Split(IsBreak, s)
  }

  // ---------------------------------------------------------------------------------------------
  // Splitting undoes joining
  // ---------------------------------------------------------------------------------------------

  lemma {:induction false} SpanAt(sep: char -> bool, x: string, rest: string)
    requires Free(sep, x) && (rest == "" || sep(rest[0]))
    ensures Span(sep, x + rest) == |x|
    decreases |x|
  {
    if x == "" {
      assert x + rest == rest;
    } else {
      assert (x + rest)[1..] == x[1..] + rest;
      SpanAt(sep, x[1..], rest);
    }
  }

  /** A leading run is the first field. */
  lemma FieldsHead(sep: char -> bool, x: string, rest: string)
    requires x != "" && Free(sep, x) && (rest == "" || sep(rest[0]))
    ensures Fields(sep, x + rest) == [x] + Fields(sep, rest)
  {
    SpanAt(sep, x, rest);
    assert (x + rest)[..|x|] == x && (x + rest)[|x|..] == rest;
  }

  /** Items separator-free and not empty, joined by a separator and some padding, split apart again. */
  lemma {:induction false} FieldsOfJoin(sep: char -> bool, lead: string, xs: seq<string>, c: char, pad: string)
    requires sep(c) && Free(sep, pad) && Free(sep, lead)
    requires xs != [] && Items(sep, xs)
    ensures Fields(sep, lead + Join(xs, [c] + pad)) == [lead + xs[0]] + Pad(pad, xs[1..])
    decreases |xs|
  {
    var d, x := [c] + pad, xs[0];
    assert Free(sep, lead + x);
    if |xs| == 1 {
      assert lead + x + "" == lead + x;
      FieldsHead(sep, lead + x, "");
      assert Pad(pad, xs[1..]) == [];
    } else {
      var tail := Join(xs[1..], d);
      JoinedFirst(lead, xs, c, pad);
      FieldsHead(sep, lead + x, [c] + (pad + tail));
      assert ([c] + (pad + tail))[1..] == pad + tail;
      FieldsOfJoin(sep, pad, xs[1..], c, pad);
      PadStep(pad, xs);
    }
  }

  lemma FieldsOfSpaced(xs: seq<string>)
    requires Items(IsSpace, xs)
    ensures Fields(IsSpace, Join(xs, " ")) == xs
  {
    if xs != [] {
      FieldsOfJoin(IsSpace, "", xs, ' ', "");
      assert [' '] + "" == " ";
      assert "" + Join(xs, " ") == Join(xs, " ");
      assert forall i | 0 <= i < |xs| :: xs[i] == "" + xs[i];
      assert xs == ["" + xs[0]] + Pad("", xs[1..]);
    }
  }

  /** Squeezing twice is squeezing once, and a squeezed text may be indented without effect. */
  lemma SqueezeStable(s: string)
    ensures Squeeze(Squeeze(s)) == Squeeze(s)
    ensures Squeeze(" " + Squeeze(s)) == Squeeze(s)
  {
    FieldsOfSpaced(Fields(IsSpace, s));
    assert (" " + Squeeze(s))[1..] == Squeeze(s);
  }

  // ---------------------------------------------------------------------------------------------
  // What squeezing is
  // ---------------------------------------------------------------------------------------------

  lemma FieldsRun(sep: char -> bool, s: string)
    ensures var n := Span(sep, s);
            Fields(sep, s) == if s == "" then [] else if n == 0 then Fields(sep, s[1..]) else [s[..n]] + Fields(sep, s[n..])
  {}

  lemma CutFirst(a: string, c: char, b: string, n: nat)
    requires n <= |a|
    ensures a + [c] + b == a[..n] + (a[n..] + [c] + b)
  {}

  /** A separator anywhere cuts the fields in two. */
  lemma {:induction false} FieldsCut(sep: char -> bool, a: string, c: char, b: string)
    requires sep(c)
    ensures Fields(sep, a + [c] + b) == Fields(sep, a) + Fields(sep, b)
    decreases |a|
  {
    var n := Span(sep, a);
    FieldsRun(sep, a);
    if a == "" {
      CutNone(c, b);
      FieldsRun(sep, [c] + b);
    } else if n == 0 {
      FieldsCut(sep, a[1..], c, b);
      FieldsRun(sep, a + [c] + b);
      CutTail(a, c, b);
    } else {
      CutFirst(a, c, b, n);
      FieldsHead(sep, a[..n], a[n..] + [c] + b);
      FieldsCut(sep, a[n..], c, b);
      OneInFront(a[..n], Fields(sep, a[n..]), Fields(sep, b));
    }
  }

  lemma CutNone(c: char, b: string)
    ensures "" + [c] + b == [c] + b && ([c] + b)[1..] == b
  {}

  lemma CutTail(a: string, c: char, b: string)
    requires a != ""
    ensures (a + [c] + b)[1..] == a[1..] + [c] + b
  {}

  lemma OneInFront(x: string, xs: seq<string>, ys: seq<string>)
    ensures [x] + (xs + ys) == [x] + xs + ys
  {}

  /** Without a separator there is one field, or none. */
  lemma FieldsFree(sep: char -> bool, s: string)
    requires Free(sep, s)
    ensures Fields(sep, s) == if s == "" then [] else [s]
  {
    if s != "" {
      FieldsHead(sep, s, "");
      assert s + "" == s;
    }
  }

  /** White space is single blanks, each between two other characters. */
  predicate Spaced(s: string) {
    forall i | 0 <= i < |s| && IsSpace(s[i]) :: s[i] == ' ' && 0 < i < |s| - 1 && !IsSpace(s[i + 1])
  }

  lemma {:induction false} SpacedStays(s: string)
    requires Spaced(s)
    ensures Squeeze(s) == s
    decreases |s|
  {
    var n := Span(IsSpace, s);
    if n == |s| {
      OneWord(s);
    } else {
      SpacedRest(s, n);
      SpacedStays(s[n + 1..]);
      WordsOn(s, n);
    }
  }

  lemma OneWord(s: string)
    requires Span(IsSpace, s) == |s|
    ensures Squeeze(s) == s
  {
    assert s[..|s|] == s;
    FieldsFree(IsSpace, s);
  }

  lemma WordsOn(s: string, n: nat)
    requires 0 < n < |s| - 1 && n == Span(IsSpace, s) && s[n] == ' '
    requires Squeeze(s[n + 1..]) == s[n + 1..]
    ensures Squeeze(s) == s
  {
    FirstWord(s, n);
    JoinFirst(s[..n], Fields(IsSpace, s[n + 1..]), " ");
    AroundBlank(s, n);
  }

  lemma AroundBlank(s: string, n: nat)
    requires n < |s| && s[n] == ' '
    ensures s == s[..n] + " " + s[n + 1..]
  {}

  lemma FirstWord(s: string, n: nat)
    requires 0 < n < |s| && n == Span(IsSpace, s)
    ensures Fields(IsSpace, s) == [s[..n]] + Fields(IsSpace, s[n + 1..])
  {
    FieldsRun(IsSpace, s);
    FieldsRun(IsSpace, s[n..]);
    assert s[n..][0] == s[n] && s[n..][1..] == s[n + 1..];
  }

  lemma JoinFirst(x: string, xs: seq<string>, d: string)
    requires Join(xs, d) != ""
    ensures Join([x] + xs, d) == x + d + Join(xs, d)
  {
    assert ([x] + xs)[1..] == xs;
  }

  lemma SpacedRest(s: string, n: nat)
    requires Spaced(s) && n < |s| && IsSpace(s[n])
    ensures 0 < n < |s| - 1 && s[n] == ' ' && Spaced(s[n + 1..])
  {
    var rest := s[n + 1..];
    forall i | 0 <= i < |rest| && IsSpace(rest[i]) ensures rest[i] == ' ' && 0 < i < |rest| - 1 && !IsSpace(rest[i + 1]) {
      assert rest[i] == s[n + 1 + i];
    }
  }

  /** White space of any kind and length is one blank, and none around: with `SpacedStays`, all of squeezing. */
  lemma SqueezeLaws(a: string, c: char, b: string)
    requires IsSpace(c)
    ensures Squeeze(a + [c] + b) == Squeeze(a + " " + b)
    ensures Squeeze(a + [c] + " " + b) == Squeeze(a + [c] + b)
    ensures Squeeze([c] + a) == Squeeze(a) == Squeeze(a + [c])
  {
    FieldsCut(IsSpace, a, c, b);
    FieldsCut(IsSpace, a, ' ', b);
    FieldsCut(IsSpace, a, c, " " + b);
    FieldsCut(IsSpace, "", ' ', b);
    FieldsCut(IsSpace, a, c, "");
    assert a + [c] + (" " + b) == a + [c] + " " + b && "" + [' '] + b == " " + b && a + [c] + "" == a + [c];
    assert Fields(IsSpace, "") == [] && ([c] + a)[1..] == a;
    assert Fields(IsSpace, a) + [] == Fields(IsSpace, a) && [] + Fields(IsSpace, b) == Fields(IsSpace, b);
  }

  // ---------------------------------------------------------------------------------------------
  // Numbers read back
  // ---------------------------------------------------------------------------------------------

  /** The number that digits write. */
  function ValueOf(digits: string): int {
    if digits == "" then 0
    else ValueOf(digits[..|digits| - 1]) * 10 + (digits[|digits| - 1] as int - '0' as int)
  }

  function IntOf(s: string): int {
    if s != "" && s[0] == '-' then -ValueOf(s[1..]) else ValueOf(s)
  }

  /** A number's digits are its own, and no zero leads them. */
  lemma {:induction false} DecimalRead(n: nat)
    ensures ValueOf(Decimal(n)) == n
    ensures Decimal(n)[0] == '0' ==> n == 0 && Decimal(n) == "0"
  {
    if n >= 10 {
      var front, last := Decimal(n / 10), Decimal(n % 10);
      DecimalRead(n / 10);
      assert |last| == 1;
      assert (front + last)[..|front|] == front && (front + last)[0] == front[0];
    }
    DigitRead(n % 10);
  }

  lemma DigitRead(n: nat)
    requires n < 10
    ensures |Decimal(n)| == 1 && Decimal(n)[0] as int - '0' as int == n && ValueOf(Decimal(n)) == n
  {
    assert Decimal(n)[..0] == "";
  }

  lemma IntRead(n: int)
    ensures IntOf(DecimalInt(n)) == n
  {
    var digits := Decimal(if n < 0 then -n else n);
    DecimalRead(if n < 0 then -n else n);
    SignRead(digits);
  }

  lemma SignRead(digits: string)
    requires digits != "" && forall c | c in digits :: '0' <= c <= '9'
    ensures IntOf(digits) == ValueOf(digits) && IntOf("-" + digits) == -ValueOf(digits)
  {
    assert digits[0] in digits;
    assert ("-" + digits)[1..] == digits;
  }

  // ---------------------------------------------------------------------------------------------
  // Characters of joined text
  // ---------------------------------------------------------------------------------------------

  lemma {:induction false} JoinFree(sep: char -> bool, xs: seq<string>, d: string)
    requires Free(sep, d) && AllFree(sep, xs)
    ensures Free(sep, Join(xs, d))
    decreases |xs|
  {
    if |xs| > 1 { JoinFree(sep, xs[1..], d); }
  }

  lemma {:induction false} FieldsKeepFree(sep: char -> bool, other: char -> bool, s: string)
    requires Free(other, s)
    ensures AllFree(other, Fields(sep, s))
    decreases |s|
  {
    if s != "" {
      if sep(s[0]) {
        FieldsKeepFree(sep, other, s[1..]);
      } else {
        FieldsKeepFree(sep, other, s[Span(sep, s)..]);
      }
    }
  }

  /** The first and last characters of a squeezed text are not space. */
  lemma {:induction false} JoinEnds(xs: seq<string>, d: string)
    requires xs != [] && Items(IsSpace, xs)
    ensures var s := Join(xs, d); s != "" && !IsSpace(s[0]) && !IsSpace(s[|s| - 1])
    decreases |xs|
  {
    if |xs| > 1 { JoinEnds(xs[1..], d); }
  }

  lemma TrimNothing(s: string)
    requires s == "" || (!IsSpace(s[0]) && !IsSpace(s[|s| - 1]))
    ensures TrimSpace(s) == s
  {}

  ghost predicate Blank(s: string) { forall i | 0 <= i < |s| :: IsSpace(s[i]) }

  /** Trimming takes the white space off both ends, all of it and nothing else. */
  lemma TrimIff(s: string, r: string)
    ensures TrimSpace(s) == r
            <==> (r == "" || (!IsSpace(r[0]) && !IsSpace(r[|r| - 1])))
                 && exists a, b :: Blank(a) && Blank(b) && s == a + r + b
  {
    var t := TrimLeft(s);
    var a := TrimmedLeft(s);
    var b := TrimmedRight(t);
    if TrimSpace(s) == r {
      assert s == a + r + b;
    }
    if (r == "" || (!IsSpace(r[0]) && !IsSpace(r[|r| - 1]))) && exists a, b :: Blank(a) && Blank(b) && s == a + r + b {
      var a, b :| Blank(a) && Blank(b) && s == a + r + b;
      TrimBlanks(a, r, b);
    }
  }

  lemma {:induction false} TrimmedLeft(s: string) returns (a: string)
    ensures Blank(a) && s == a + TrimLeft(s)
    decreases |s|
  {
    a := "";
    if s != "" && IsSpace(s[0]) {
      var more := TrimmedLeft(s[1..]);
      a := [s[0]] + more;
    }
  }

  lemma {:induction false} TrimmedRight(s: string) returns (b: string)
    ensures Blank(b) && s == TrimRight(s) + b
    decreases |s|
  {
    b := "";
    if s != "" && IsSpace(s[|s| - 1]) {
      var more := TrimmedRight(s[..|s| - 1]);
      b := more + [s[|s| - 1]];
    }
  }

  lemma {:induction false} TrimBlanks(a: string, r: string, b: string)
    requires Blank(a) && Blank(b) && (r == "" || (!IsSpace(r[0]) && !IsSpace(r[|r| - 1])))
    ensures TrimSpace(a + r + b) == r
    decreases |a| + |b|
  {
    if a != "" {
      assert (a + r + b)[1..] == a[1..] + r + b;
      TrimBlanks(a[1..], r, b);
    } else {
      assert a + r + b == r + b;
      TrimBlankEnd(r, b);
    }
  }

  lemma {:induction false} TrimBlankEnd(r: string, b: string)
    requires Blank(b) && (r == "" || (!IsSpace(r[0]) && !IsSpace(r[|r| - 1])))
    ensures TrimSpace(r + b) == r
    decreases |b|
  {
    if b == "" {
      assert r + b == r;
      TrimNothing(r);
    } else if r == "" {
      assert r + b == b && b[1..] == r + b[1..];
      TrimBlankEnd(r, b[1..]);
    } else {
      var c := b[..|b| - 1];
      TrimBlankEnd(r, c);
      assert TrimLeft(r + b) == r + b && TrimLeft(r + c) == r + c;
      assert (r + b)[..|r + b| - 1] == r + c;
    }
  }

  lemma SqueezedEnds(s: string)
    ensures TrimSpace(Squeeze(s)) == Squeeze(s)
  {
    if Fields(IsSpace, s) != [] { JoinEnds(Fields(IsSpace, s), " "); }
    TrimNothing(Squeeze(s));
  }

  // ---------------------------------------------------------------------------------------------
  // Lines
  // ---------------------------------------------------------------------------------------------

  lemma SplitCons(sep: char -> bool, item: string, c: char, rest: string)
    requires Free(sep, item) && sep(c)
    ensures Split(sep, item + ([c] + rest)) == [item] + Split(sep, rest)
  {
    SpanAt(sep, item, [c] + rest);
    CutAt(item, c, rest);
  }

  lemma CutAt(item: string, c: char, rest: string)
    ensures var s := item + ([c] + rest); s[..|item|] == item && s[|item| + 1..] == rest
  {}

  lemma SplitOne(sep: char -> bool, item: string)
    requires Free(sep, item)
    ensures Split(sep, item) == [item]
  {
    SpanAt(sep, item, "");
    assert item + "" == item;
  }

  lemma JoinedFirst(lead: string, xs: seq<string>, c: char, pad: string)
    requires |xs| > 1
    ensures lead + Join(xs, [c] + pad) == (lead + xs[0]) + ([c] + (pad + Join(xs[1..], [c] + pad)))
  {}

  lemma PadStep(pad: string, xs: seq<string>)
    requires |xs| > 1
    ensures Pad(pad, xs[1..]) == [pad + xs[1]] + Pad(pad, xs[1..][1..])
  {}

  /** Items without separators, joined by a separator and some padding, split apart again, empty ones too. */
  lemma {:induction false} SplitOfJoin(sep: char -> bool, lead: string, xs: seq<string>, c: char, pad: string)
    requires sep(c) && Free(sep, pad) && Free(sep, lead)
    requires xs != [] && AllFree(sep, xs)
    ensures Split(sep, lead + Join(xs, [c] + pad)) == [lead + xs[0]] + Pad(pad, xs[1..])
    decreases |xs|
  {
    assert Free(sep, lead + xs[0]);
    if |xs| == 1 {
      SplitOne(sep, lead + xs[0]);
      assert Pad(pad, xs[1..]) == [];
    } else {
      JoinedFirst(lead, xs, c, pad);
      SplitCons(sep, lead + xs[0], c, pad + Join(xs[1..], [c] + pad));
      SplitOfJoin(sep, pad, xs[1..], c, pad);
      PadStep(pad, xs);
    }
  }

  lemma LinesOfJoin(ls: seq<string>)
    requires ls != [] && AllFree(IsBreak, ls)
    ensures Lines(Join(ls, "\n")) == ls
  {
    SplitOfJoin(IsBreak, "", ls, '\n', "");
    assert ['\n'] + "" == "\n" && "" + Join(ls, "\n") == Join(ls, "\n");
    Unpadded(ls);
  }

  lemma Unpadded(ls: seq<string>)
    requires ls != []
    ensures ["" + ls[0]] + Pad("", ls[1..]) == ls
  {
    var padded := ["" + ls[0]] + Pad("", ls[1..]);
    forall i | 0 <= i < |ls| ensures padded[i] == ls[i] {
      assert "" + ls[i] == ls[i];
    }
  }

  /** Splitting counts the separators. */
  lemma {:induction false} SplitCount(sep: char -> bool, a: string, b: string)
    ensures |Split(sep, a + b)| == |Split(sep, a)| + |Split(sep, b)| - 1
    decreases |a|
  {
    var n := Span(sep, a);
    if n == |a| {
      SplitOne(sep, a);
      SplitAfter(sep, a, b);
    } else {
      assert a + b == a[..n] + ([a[n]] + (a[n + 1..] + b));
      SplitCons(sep, a[..n], a[n], a[n + 1..] + b);
      SplitCount(sep, a[n + 1..], b);
    }
  }

  lemma SplitAfter(sep: char -> bool, a: string, b: string)
    requires Free(sep, a)
    ensures |Split(sep, a + b)| == |Split(sep, b)|
  {
    SpanAfter(sep, a, b);
    var m := Span(sep, b);
    if m < |b| { assert (a + b)[|a| + m + 1..] == b[m + 1..]; }
  }

  lemma {:induction false} SpanAfter(sep: char -> bool, a: string, b: string)
    requires Free(sep, a)
    ensures Span(sep, a + b) == |a| + Span(sep, b)
    decreases |a|
  {
    if a == "" {
      assert a + b == b;
    } else {
      assert (a + b)[1..] == a[1..] + b;
      SpanAfter(sep, a[1..], b);
    }
  }

  lemma SplitFreeIff(sep: char -> bool, s: string)
    ensures |Split(sep, s)| == 1 <==> Free(sep, s)
  {
    if Free(sep, s) { SplitOne(sep, s); }
  }

  /** Every line ended by a line break. */
  function Unlines(ls: seq<string>): string {
    if ls == [] then "" else ls[0] + "\n" + Unlines(ls[1..])
  }

  lemma {:induction false} UnlinesConcat(a: seq<string>, b: seq<string>)
    ensures Unlines(a + b) == Unlines(a) + Unlines(b)
    decreases |a|
  {
    if a == [] {
      assert a + b == b;
    } else {
      assert (a + b)[1..] == a[1..] + b;
      UnlinesConcat(a[1..], b);
    }
  }

  lemma {:induction false} UnlinesIsJoin(ls: seq<string>)
    requires ls != []
    ensures Unlines(ls) == Join(ls, "\n") + "\n"
    decreases |ls|
  {
    if |ls| > 1 { UnlinesIsJoin(ls[1..]); }
  }

  /** Text that starts and ends with a character that is not space loses only its last line break. */
  lemma TrimUnlines(ls: seq<string>)
    requires ls != [] && ls[0] != "" && ls[|ls| - 1] != ""
    requires !IsSpace(ls[0][0]) && !IsSpace(ls[|ls| - 1][|ls[|ls| - 1]| - 1])
    ensures TrimSpace(Unlines(ls)) == Join(ls, "\n")
  {
    var s := Join(ls, "\n");
    UnlinesIsJoin(ls);
    JoinFirstLast(ls);
    assert (s + "\n")[..|s|] == s;
    assert TrimLeft(s + "\n") == s + "\n";
    assert TrimRight(s) == s;
  }

  lemma {:induction false} JoinFirstLast(ls: seq<string>)
    requires ls != [] && ls[0] != "" && ls[|ls| - 1] != ""
    ensures var s := Join(ls, "\n");
            s != "" && s[0] == ls[0][0] && s[|s| - 1] == ls[|ls| - 1][|ls[|ls| - 1]| - 1]
    decreases |ls|
  {
    if |ls| == 2 {
      assert Join(ls[1..], "\n") == ls[1];
    } else if |ls| > 2 {
      JoinLast(ls[1..]);
    }
  }

  lemma {:induction false} JoinLast(ls: seq<string>)
    requires ls != [] && ls[|ls| - 1] != ""
    ensures var s := Join(ls, "\n"); s != "" && s[|s| - 1] == ls[|ls| - 1][|ls[|ls| - 1]| - 1]
    decreases |ls|
  {
    if |ls| > 1 { JoinLast(ls[1..]); }
  }
}
