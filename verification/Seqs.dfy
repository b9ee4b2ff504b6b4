/** Rows of a table: choosing some, and keeping them in order. */
module Seqs {

  /** The elements to keep, in order. */
  function Filter<T>(keep: T -> bool, xs: seq<T>): (r: seq<T>)
    ensures |r| <= |xs|
  {
    if xs == [] then []
    else
      var front, last := Filter(keep, xs[..|xs| - 1]), xs[|xs| - 1];
      if keep(last) then front + [last] else front
  }

  lemma {:induction false} FilterMembers<T(!new)>(keep: T -> bool, xs: seq<T>)
    ensures forall x :: x in Filter(keep, xs) <==> x in xs && keep(x)
    decreases |xs|
  {
    if xs != [] {
      FilterMembers(keep, xs[..|xs| - 1]);
      assert xs == xs[..|xs| - 1] + [xs[|xs| - 1]];
    }
  }

  lemma {:induction false} FilterConcat<T(!new)>(keep: T -> bool, a: seq<T>, b: seq<T>)
    ensures Filter(keep, a + b) == Filter(keep, a) + Filter(keep, b)
    decreases |b|
  {
    if b == [] {
      assert a + b == a;
    } else {
      var front, last := b[..|b| - 1], b[|b| - 1];
      assert (a + b)[..|a + b| - 1] == a + front;
      FilterConcat(keep, a, front);
    }
  }

  lemma FilterSnoc<T(!new)>(keep: T -> bool, xs: seq<T>, x: T)
    ensures Filter(keep, xs + [x]) == Filter(keep, xs) + if keep(x) then [x] else []
  {
    assert (xs + [x])[..|xs|] == xs;
  }

  /** Only what the choice says of the elements at hand matters. */
  lemma {:induction false} FilterSame<T(!new)>(f: T -> bool, g: T -> bool, xs: seq<T>)
    requires forall x | x in xs :: f(x) == g(x)
    ensures Filter(f, xs) == Filter(g, xs)
    decreases |xs|
  {
    if xs != [] {
      assert forall x | x in xs[..|xs| - 1] :: x in xs;
      FilterSame(f, g, xs[..|xs| - 1]);
    }
  }

  lemma {:induction false} FilterAll<T(!new)>(keep: T -> bool, xs: seq<T>)
    requires forall x | x in xs :: keep(x)
    ensures Filter(keep, xs) == xs
    decreases |xs|
  {
    if xs != [] {
      assert forall x | x in xs[..|xs| - 1] :: x in xs;
      FilterAll(keep, xs[..|xs| - 1]);
    }
  }

  lemma {:induction false} FilterNone<T(!new)>(keep: T -> bool, xs: seq<T>)
    requires forall x | x in xs :: !keep(x)
    ensures Filter(keep, xs) == []
    decreases |xs|
  {
    if xs != [] {
      assert forall x | x in xs[..|xs| - 1] :: x in xs;
      FilterNone(keep, xs[..|xs| - 1]);
    }
  }

  /** Choosing twice is choosing by both; so a second choice that follows from the first changes nothing. */
  lemma {:induction false} FilterTwice<T(!new)>(f: T -> bool, g: T -> bool, both: T -> bool, xs: seq<T>)
    requires forall x | x in xs :: both(x) == (f(x) && g(x))
    ensures Filter(f, Filter(g, xs)) == Filter(both, xs)
    decreases |xs|
  {
    if xs != [] {
      assert forall x | x in xs[..|xs| - 1] :: x in xs;
      FilterTwice(f, g, both, xs[..|xs| - 1]);
      var front, last := Filter(g, xs[..|xs| - 1]), xs[|xs| - 1];
      if g(last) { assert (front + [last])[..|front|] == front; }
    }
  }

  lemma FilterSwap<T(!new)>(f: T -> bool, g: T -> bool, xs: seq<T>)
    ensures Filter(f, Filter(g, xs)) == Filter(g, Filter(f, xs))
  {
    FilterTwice(f, g, x => f(x) && g(x), xs);
    FilterTwice(g, f, x => f(x) && g(x), xs);
  }

  /** Keys strictly increase along the rows. */
  ghost predicate Ordered<T(!new)>(key: T -> int, xs: seq<T>) {
    xs != [] ==>
      && Ordered(key, xs[..|xs| - 1])
      && forall x | x in xs[..|xs| - 1] :: key(x) < key(xs[|xs| - 1])
  }

  ghost predicate Below<T(!new)>(key: T -> int, xs: seq<T>, bound: int) {
    forall x | x in xs :: key(x) <= bound
  }

  lemma {:induction false} FilterOrdered<T(!new)>(key: T -> int, keep: T -> bool, xs: seq<T>)
    requires Ordered(key, xs)
    ensures Ordered(key, Filter(keep, xs))
    decreases |xs|
  {
    if xs != [] {
      var front, last := xs[..|xs| - 1], xs[|xs| - 1];
      FilterOrdered(key, keep, front);
      if keep(last) {
        var kept := Filter(keep, front);
        FilterMembers(keep, front);
        assert forall x | x in front :: key(x) < key(last);
        assert forall x :: x in kept ==> x in front;
        assert Filter(keep, xs) == kept + [last] && (kept + [last])[..|kept|] == kept;
      }
    }
  }

  lemma FilterBelow<T(!new)>(key: T -> int, keep: T -> bool, xs: seq<T>, bound: int)
    requires Below(key, xs, bound)
    ensures Below(key, Filter(keep, xs), bound)
  {
    FilterMembers(keep, xs);
  }

  lemma OrderedSnoc<T(!new)>(key: T -> int, xs: seq<T>, x: T, bound: int)
    requires Ordered(key, xs) && Below(key, xs, bound) && bound < key(x)
    ensures Ordered(key, xs + [x]) && Below(key, xs + [x], key(x))
  {
    assert (xs + [x])[..|xs|] == xs;
  }

  lemma {:induction false} OrderedPair<T(!new)>(key: T -> int, xs: seq<T>, i: nat, j: nat)
    requires Ordered(key, xs) && i < j < |xs|
    ensures key(xs[i]) < key(xs[j])
    decreases |xs|
  {
    var front := xs[..|xs| - 1];
    if j == |xs| - 1 {
      assert xs[i] == front[i] && front[i] in front;
    } else {
      OrderedPair(key, front, i, j);
    }
  }

  /** Rows that keep their keys keep their order. */
  lemma {:induction false} SameKeysOrdered<T(!new)>(key: T -> int, xs: seq<T>, ys: seq<T>, bound: int)
    requires |xs| == |ys| && forall i | 0 <= i < |xs| :: key(xs[i]) == key(ys[i])
    requires Ordered(key, xs) && Below(key, xs, bound)
    ensures Ordered(key, ys) && Below(key, ys, bound)
    decreases |xs|
  {
    forall y | y in ys ensures key(y) <= bound {
      var i :| 0 <= i < |ys| && ys[i] == y;
      assert xs[i] in xs;
    }
    if xs != [] {
      var n := |xs| - 1;
      BelowPrefix(key, xs, n, bound);
      SameKeysOrdered(key, xs[..n], ys[..n], bound);
      forall y | y in ys[..n] ensures key(y) < key(ys[n]) {
        var i :| 0 <= i < n && ys[..n][i] == y;
        assert xs[..n][i] in xs[..n];
      }
    }
  }

  lemma BelowPrefix<T(!new)>(key: T -> int, xs: seq<T>, n: nat, bound: int)
    requires n <= |xs| && Below(key, xs, bound)
    ensures Below(key, xs[..n], bound)
  {
    assert forall x | x in xs[..n] :: x in xs;
  }

  // ---------------------------------------------------------------------------------------------
  // Positions
  // ---------------------------------------------------------------------------------------------

  /** Positions below `n`, each after the one before it. */
  ghost predicate Rising(js: seq<nat>, n: int) {
    js != [] ==> js[|js| - 1] < n && Rising(js[..|js| - 1], js[|js| - 1])
  }

  lemma {:induction false} RisingPair(js: seq<nat>, n: int, k: nat, l: nat)
    requires Rising(js, n) && k < l < |js|
    ensures js[k] < js[l] < n
    decreases |js|
  {
    var last := |js| - 1;
    if l < last { RisingPair(js[..last], js[last], k, l); } else { RisingAt(js[..last], js[last], k); }
  }

  lemma {:induction false} RisingAt(js: seq<nat>, n: int, k: nat)
    requires Rising(js, n) && k < |js|
    ensures js[k] < n
    decreases |js|
  {
    if k < |js| - 1 { RisingAt(js[..|js| - 1], js[|js| - 1], k); }
  }

  lemma RisingWider(js: seq<nat>, n: int, m: int)
    requires Rising(js, n) && n <= m
    ensures Rising(js, m)
  {}

  /** The chosen positions below `n`, in order. */
  function Picked(chosen: nat -> bool, n: nat): seq<nat> {
    if n == 0 then [] else Picked(chosen, n - 1) + if chosen(n - 1) then [n - 1] else []
  }

  /** They rise, and they are exactly the chosen ones. */
  lemma {:induction false} PickedIs(chosen: nat -> bool, n: nat)
    ensures Rising(Picked(chosen, n), n)
    ensures forall i: nat :: i in Picked(chosen, n) <==> i < n && chosen(i)
    decreases n
  {
    if n > 0 {
      PickedIs(chosen, n - 1);
      var front := Picked(chosen, n - 1);
      RisingWider(front, n - 1, n);
      if chosen(n - 1) {
        assert Picked(chosen, n) == front + [n - 1] && (front + [n - 1])[..|front|] == front;
      } else {
        assert Picked(chosen, n) == front;
      }
    }
  }

  lemma PickedSnoc<U(!new)>(chosen: nat -> bool, value: nat -> U, n: nat)
    ensures Mapped(value, Picked(chosen, n + 1))
            == Mapped(value, Picked(chosen, n)) + if chosen(n) then [value(n)] else []
  {
    var front := Picked(chosen, n);
    if chosen(n) { MappedSnoc(value, front, n); } else { assert Mapped(value, front) + [] == Mapped(value, front); }
  }

  /** From `k` on to the next position: the value there, if it is chosen. */
  ghost predicate GrowsAt<U(!new)>(grown: nat -> seq<U>, chosen: nat -> bool, value: nat -> U, k: nat) {
    grown(k + 1) == grown(k) + if chosen(k) then [value(k)] else []
  }

  ghost predicate OverwritesAt<U(!new)>(latest: nat -> U, chosen: nat -> bool, value: nat -> U, k: nat) {
    latest(k + 1) == if chosen(k) then value(k) else latest(k)
  }

  /** What grows by the values of the chosen positions, one by one, is those values. */
  lemma {:induction false} GrowsByPicked<U(!new)>(grown: nat -> seq<U>, chosen: nat -> bool, value: nat -> U, n: nat)
    requires grown(0) == []
    requires forall k: nat | k < n :: GrowsAt(grown, chosen, value, k)
    ensures grown(n) == Mapped(value, Picked(chosen, n))
    decreases n
  {
    if n > 0 {
      GrowsByPicked(grown, chosen, value, n - 1);
      PickedSnoc(chosen, value, n - 1);
      assert GrowsAt(grown, chosen, value, n - 1);
    }
  }

  /** What each chosen position overwrites is the value of the last. */
  lemma {:induction false} OverwrittenByPicked<U(!new)>(latest: nat -> U, chosen: nat -> bool, value: nat -> U, n: nat)
    requires forall k: nat | k < n :: OverwritesAt(latest, chosen, value, k)
    ensures var js := Picked(chosen, n); latest(n) == if js == [] then latest(0) else value(js[|js| - 1])
    decreases n
  {
    if n > 0 {
      OverwrittenByPicked(latest, chosen, value, n - 1);
      assert OverwritesAt(latest, chosen, value, n - 1);
    }
  }

  /** The last of the chosen positions. */
  lemma {:induction false} PickedLast(chosen: nat -> bool, n: nat, i: nat)
    requires i < n && chosen(i) && forall k | i < k < n :: !chosen(k)
    ensures Picked(chosen, n) != [] && Picked(chosen, n)[|Picked(chosen, n)| - 1] == i
    decreases n
  {
    if i < n - 1 { PickedLast(chosen, n - 1, i); }
  }

  lemma {:induction false} PickedSame(f: nat -> bool, g: nat -> bool, n: nat)
    requires forall i: nat | i < n :: f(i) == g(i)
    ensures Picked(f, n) == Picked(g, n)
    decreases n
  {
    if n > 0 { PickedSame(f, g, n - 1); }
  }

  /** Two lists of chosen positions are all there is to choose. */
  lemma {:induction false} PickedBoth(chosen: nat -> bool, n: nat)
    ensures |Picked(chosen, n)| + |Picked((i: nat) => !chosen(i), n)| == n
    decreases n
  {
    if n > 0 { PickedBoth(chosen, n - 1); }
  }

  // ---------------------------------------------------------------------------------------------
  // Changing every row
  // ---------------------------------------------------------------------------------------------

  function Mapped<T, U>(f: T -> U, xs: seq<T>): (r: seq<U>)
    ensures |r| == |xs| && forall i | 0 <= i < |r| :: r[i] == f(xs[i])
  {
    seq(|xs|, i requires 0 <= i < |xs| => f(xs[i]))
  }

  lemma MappedConcat<T(!new), U(!new)>(f: T -> U, a: seq<T>, b: seq<T>)
    ensures Mapped(f, a + b) == Mapped(f, a) + Mapped(f, b)
  {}

  lemma MappedSnoc<T(!new), U(!new)>(f: T -> U, a: seq<T>, x: T)
    ensures Mapped(f, a + [x]) == Mapped(f, a) + [f(x)]
  {}

  /** Choosing the same rows before and after a change. */
  lemma {:induction false} FilterMapped<T(!new), U(!new)>(keep: T -> bool, keep2: U -> bool, f: T -> U, xs: seq<T>)
    requires forall x | x in xs :: keep2(f(x)) == keep(x)
    ensures Filter(keep2, Mapped(f, xs)) == Mapped(f, Filter(keep, xs))
    decreases |xs|
  {
    if xs != [] {
      var front, last := xs[..|xs| - 1], xs[|xs| - 1];
      assert forall x | x in front :: x in xs;
      FilterMapped(keep, keep2, f, front);
      assert Mapped(f, xs)[..|front|] == Mapped(f, front);
      MappedSnoc(f, Filter(keep, front), last);
    }
  }

  // ---------------------------------------------------------------------------------------------
  // ORDER BY
  // ---------------------------------------------------------------------------------------------

  function InsertBy<T>(less: (T, T) -> bool, x: T, xs: seq<T>): seq<T> {
    if xs == [] || less(x, xs[0]) then [x] + xs
    else [xs[0]] + InsertBy(less, x, xs[1..])
  }

  function SortBy<T>(less: (T, T) -> bool, xs: seq<T>): (r: seq<T>) {
    if xs == [] then [] else InsertBy(less, xs[|xs| - 1], SortBy(less, xs[..|xs| - 1]))
  }

  lemma {:induction false} InsertMapped<T(!new)>(less: (T, T) -> bool, f: T -> T, x: T, xs: seq<T>)
    requires forall a, b :: less(f(a), f(b)) == less(a, b)
    ensures InsertBy(less, f(x), Mapped(f, xs)) == Mapped(f, InsertBy(less, x, xs))
    decreases |xs|
  {
    if xs == [] || less(x, xs[0]) {
      MappedConcat(f, [x], xs);
    } else {
      assert Mapped(f, xs)[1..] == Mapped(f, xs[1..]);
      InsertMapped(less, f, x, xs[1..]);
      MappedConcat(f, [xs[0]], InsertBy(less, x, xs[1..]));
    }
  }

  /** Sorting before or after a change that keeps the order. */
  lemma {:induction false} SortMapped<T(!new)>(less: (T, T) -> bool, f: T -> T, xs: seq<T>)
    requires forall a, b :: less(f(a), f(b)) == less(a, b)
    ensures SortBy(less, Mapped(f, xs)) == Mapped(f, SortBy(less, xs))
    decreases |xs|
  {
    if xs != [] {
      var front, last := xs[..|xs| - 1], xs[|xs| - 1];
      assert Mapped(f, xs)[..|front|] == Mapped(f, front);
      SortMapped(less, f, front);
      InsertMapped(less, f, last, SortBy(less, front));
    }
  }

  /** Each element strictly before all that follow it. */
  ghost predicate StrictlyBy<T(!new)>(less: (T, T) -> bool, xs: seq<T>) {
    xs != [] ==> (forall y | y in xs[1..] :: less(xs[0], y)) && StrictlyBy(less, xs[1..])
  }

  ghost predicate Transitive<T(!new)>(less: (T, T) -> bool) {
    forall a, b, c :: less(a, b) && less(b, c) ==> less(a, c)
  }

  /** Any two positions hold comparable elements. */
  ghost predicate Comparable<T(!new)>(less: (T, T) -> bool, xs: seq<T>) {
    forall i, j | 0 <= i < j < |xs| :: less(xs[i], xs[j]) || less(xs[j], xs[i])
  }

  lemma {:induction false} InsertMembers<T(!new)>(less: (T, T) -> bool, x: T, xs: seq<T>)
    ensures multiset(InsertBy(less, x, xs)) == multiset(xs) + multiset{x}
    decreases |xs|
  {
    if xs != [] && !less(x, xs[0]) {
      InsertMembers(less, x, xs[1..]);
      assert xs == [xs[0]] + xs[1..];
    }
  }

  /** Sorting neither loses, invents nor repeats rows. */
  lemma {:induction false} SortMembers<T(!new)>(less: (T, T) -> bool, xs: seq<T>)
    ensures multiset(SortBy(less, xs)) == multiset(xs)
    ensures forall x :: x in SortBy(less, xs) <==> x in xs
    decreases |xs|
  {
    if xs != [] {
      var front, last := xs[..|xs| - 1], xs[|xs| - 1];
      SortMembers(less, front);
      InsertMembers(less, last, SortBy(less, front));
      assert xs == front + [last];
    }
    forall x ensures x in SortBy(less, xs) <==> x in xs {
      assert x in SortBy(less, xs) <==> x in multiset(SortBy(less, xs));
      assert x in xs <==> x in multiset(xs);
    }
  }

  lemma {:induction false} InsertStrict<T(!new)>(less: (T, T) -> bool, x: T, xs: seq<T>)
    requires Transitive(less) && StrictlyBy(less, xs) && forall y | y in xs :: less(x, y) || less(y, x)
    ensures StrictlyBy(less, InsertBy(less, x, xs))
    decreases |xs|
  {
    if xs == [] {
    } else if less(x, xs[0]) {
      assert ([x] + xs)[1..] == xs;
      forall y | y in xs ensures less(x, y) {
        if y != xs[0] { assert y in xs[1..]; }
      }
    } else {
      assert forall y | y in xs[1..] :: y in xs;
      InsertStrict(less, x, xs[1..]);
      InsertMembers(less, x, xs[1..]);
      var rest := InsertBy(less, x, xs[1..]);
      forall y | y in rest ensures less(xs[0], y) {
        assert y in multiset(rest);
        assert xs[0] in xs;
      }
      assert ([xs[0]] + rest)[1..] == rest;
    }
  }

  /** Rows comparable by a transitive order come out strictly in that order. */
  lemma {:induction false} SortStrict<T(!new)>(less: (T, T) -> bool, xs: seq<T>)
    requires Transitive(less) && Comparable(less, xs)
    ensures StrictlyBy(less, SortBy(less, xs))
    decreases |xs|
  {
    if xs != [] {
      var front, last := xs[..|xs| - 1], xs[|xs| - 1];
      SortStrict(less, front);
      SortMembers(less, front);
      forall y | y in SortBy(less, front) ensures less(last, y) || less(y, last) {
        var i :| 0 <= i < |front| && front[i] == y;
        assert xs[i] == y;
      }
      InsertStrict(less, last, SortBy(less, front));
    }
  }
}
