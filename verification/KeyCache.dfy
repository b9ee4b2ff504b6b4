/**
The cache of Google's signing keys, internal/auth/google_keys.go: trusted for `KEYS_TTL`, refetched
for an unknown key id, but not within `KEYS_COOLDOWN` of the last successful fetch.

Time is in nanoseconds since the zero time, which is also what a cache that never fetched holds.
*/
module KeyCache {
  import opened Common

  type Time = int

  const KEYS_TTL: int := 6 * 3600 * 1_000_000_000
  const KEYS_COOLDOWN: int := 60 * 1_000_000_000

  /** RSA keys are compared, never computed with. */
  datatype PublicKey = PublicKey(n: nat, e: int)

  /** One published key; a number is missing when its base64 does not decode. */
  datatype Jwk = Jwk(kid: string, kty: string, n: Option<nat>, e: Option<int>)

  /** What the request for the key set came to. */
  datatype Fetch = Failed | Fetched(rows: seq<Jwk>)

  datatype Cache = Cache(keys: map<string, PublicKey>, fetched: Time)

  const EMPTY: Cache := Cache(map[], 0)

  /** One call: the clock on entry, what a fetch would come to, and the clock after it. */
  datatype Lookup = Lookup(kid: string, now: Time, outcome: Fetch, arrived: Time)

  datatype Answer = Found(key: PublicKey) | UnknownKey | Unreachable

  predicate Usable(row: Jwk) { row.kty == "RSA" && row.n.Some? && row.e.Some? }

  /** The keys of a set: its usable rows by id, a later row replacing an earlier one. */
  function KeysOf(rows: seq<Jwk>): map<string, PublicKey> {
    if rows == [] then map[]
    else
      var row, keys := rows[|rows| - 1], KeysOf(rows[..|rows| - 1]);
      if Usable(row) then keys[row.kid := PublicKey(row.n.value, row.e.value)] else keys
  }

  predicate Fresh(c: Cache, l: Lookup) { l.kid in c.keys && l.now - c.fetched < KEYS_TTL }

  predicate Attempts(c: Cache, l: Lookup) { !Fresh(c, l) && l.now - c.fetched >= KEYS_COOLDOWN }

  predicate Refetches(c: Cache, l: Lookup) { Attempts(c, l) && l.outcome.Fetched? }

  function Next(c: Cache, l: Lookup): Cache {
    if Refetches(c, l) then Cache(KeysOf(l.outcome.rows), l.arrived) else c
  }

  function AnswerTo(c: Cache, l: Lookup): Answer {
    if Attempts(c, l) && l.outcome.Failed? then Unreachable
    else if l.kid in Next(c, l).keys then Found(Next(c, l).keys[l.kid])
    else UnknownKey
  }

  function After(ls: seq<Lookup>): Cache {
    if ls == [] then EMPTY else Next(After(ls[..|ls| - 1]), ls[|ls| - 1])
  }

  /** A clock past the first hours of year one that never steps back, read twice in each call. */
  ghost predicate Clocked(ls: seq<Lookup>) {
    && (forall i | 0 <= i < |ls| :: KEYS_TTL <= ls[i].now <= ls[i].arrived)
    && (forall i, j | 0 <= i < j < |ls| :: ls[i].arrived <= ls[j].now)
  }

  /** Call `i` of the run replaced the key set. */
  predicate RefetchedAt(ls: seq<Lookup>, i: int)
    requires 0 <= i < |ls|
  {
    Refetches(After(ls[..i]), ls[i])
  }

  // ---------------------------------------------------------------------------------------------
  // Which rows decide a key
  // ---------------------------------------------------------------------------------------------

  /** Row `i` is the last RSA row with this id whose two numbers decode. */
  ghost predicate Decides(rows: seq<Jwk>, i: int, kid: string) {
    && 0 <= i < |rows| && rows[i].kty == "RSA" && rows[i].n.Some? && rows[i].e.Some? && rows[i].kid == kid
    && forall j | i < j < |rows| :: !(rows[j].kty == "RSA" && rows[j].n.Some? && rows[j].e.Some? && rows[j].kid == kid)
  }

  /** A key id is held exactly when a usable row has it, with the numbers of the last such row. */
  lemma {:induction false} KeysOfIff(rows: seq<Jwk>, kid: string, key: PublicKey)
    ensures kid in KeysOf(rows) && KeysOf(rows)[kid] == key
            <==> exists i :: Decides(rows, i, kid) && rows[i].n == Some(key.n) && rows[i].e == Some(key.e)
    decreases rows
  {
    if rows != [] {
      var last, front := |rows| - 1, rows[..|rows| - 1];
      KeysOfIff(front, kid, key);
      if Usable(rows[last]) && rows[last].kid == kid {
        assert Decides(rows, last, kid);
        forall i | Decides(rows, i, kid) ensures i == last {}
      } else {
        forall i ensures Decides(rows, i, kid) <==> Decides(front, i, kid) {}
      }
    }
  }

  // ---------------------------------------------------------------------------------------------
  // Every run
  // ---------------------------------------------------------------------------------------------

  /** The set held before call `i` is the one fetched at call `j`, the last refetch before `i`. */
  ghost predicate HeldSince(ls: seq<Lookup>, i: int, j: int)
    requires 0 <= i <= |ls|
  {
    && 0 <= j < i && RefetchedAt(ls, j)
    && After(ls[..i]) == Cache(KeysOf(ls[j].outcome.rows), ls[j].arrived)
    && forall k | j < k < i :: !RefetchedAt(ls, k)
  }

  lemma {:induction false} SetInHand(ls: seq<Lookup>, i: nat)
    requires i <= |ls|
    ensures (After(ls[..i]) == EMPTY && forall k | 0 <= k < i :: !RefetchedAt(ls, k))
            || exists j :: HeldSince(ls, i, j)
    decreases i
  {
    if i == 0 {
      assert ls[..0] == [];
    } else {
      var last := i - 1;
      assert ls[..i][..last] == ls[..last];
      SetInHand(ls, last);
      if RefetchedAt(ls, last) {
        assert HeldSince(ls, i, last);
      } else if After(ls[..last]) != EMPTY || exists k | 0 <= k < last :: RefetchedAt(ls, k) {
        var j :| HeldSince(ls, last, j);
        assert HeldSince(ls, i, j);
      }
    }
  }

  /** The refetch an answer at call `i` rests on: call `i` itself, or the last one before it. */
  ghost predicate RestsOn(ls: seq<Lookup>, i: int, j: int)
    requires 0 <= i < |ls|
  {
    0 <= j <= i && RefetchedAt(ls, j) && forall k | j < k <= i :: !RefetchedAt(ls, k)
  }

  /**
  Every answer of every run is justified. A key comes from a set fetched during the call or less
  than six hours before it; "unknown" is said only of a set fetched during the call or less than
  a minute before it; and the set is the most recent one there was.
  */
  lemma AnswersJustified(ls: seq<Lookup>, i: nat)
    requires i < |ls| && Clocked(ls)
    ensures var answer := AnswerTo(After(ls[..i]), ls[i]);
            match answer
            case Found(key) =>
              exists j :: RestsOn(ls, i, j)
                && ls[i].kid in KeysOf(ls[j].outcome.rows) && KeysOf(ls[j].outcome.rows)[ls[i].kid] == key
                && (j == i || ls[i].now - ls[j].arrived < 6 * 60 * MINUTE)
            case UnknownKey =>
              exists j :: RestsOn(ls, i, j)
                && ls[i].kid !in KeysOf(ls[j].outcome.rows)
                && (j == i || ls[i].now - ls[j].arrived < MINUTE)
            case Unreachable =>
              ls[i].outcome.Failed? && forall j :: !Suffices(ls, i, j)
  {
    SetInHand(ls, i);
    AttemptsIff(ls, i);
    if RefetchedAt(ls, i) {
      assert RestsOn(ls, i, i);
    } else if exists j :: HeldSince(ls, i, j) {
      var j :| HeldSince(ls, i, j);
      assert RestsOn(ls, i, j);
    }
  }

  /** Call `i` of the run goes out to fetch, whatever comes of it. */
  predicate AttemptsAt(ls: seq<Lookup>, i: int)
    requires 0 <= i < |ls|
  {
    Attempts(After(ls[..i]), ls[i])
  }

  const MINUTE: int := 60_000_000_000

  /** The set in hand at call `i`, fetched at call `j`, is too young to fetch again for this key. */
  ghost predicate Suffices(ls: seq<Lookup>, i: int, j: int)
    requires 0 <= i < |ls|
  {
    && HeldSince(ls, i, j)
    && (ls[i].now - ls[j].arrived < MINUTE
        || (ls[i].kid in KeysOf(ls[j].outcome.rows) && ls[i].now - ls[j].arrived < 6 * 60 * MINUTE))
  }

  lemma OneInHand(ls: seq<Lookup>, i: nat, j: int, j2: int)
    requires i <= |ls| && HeldSince(ls, i, j) && HeldSince(ls, i, j2)
    ensures j == j2
  {
    assert RefetchedAt(ls, j) && RefetchedAt(ls, j2);
  }

  /**
  Exactly when a call fetches, in every run: unless the set in hand is less than a minute old, or has the
  key and is less than six hours old.
  */
  lemma AttemptsIff(ls: seq<Lookup>, i: nat)
    requires i < |ls| && Clocked(ls)
    ensures AttemptsAt(ls, i) <==> !exists j :: Suffices(ls, i, j)
  {
    SetInHand(ls, i);
    if exists j :: HeldSince(ls, i, j) {
      var j :| HeldSince(ls, i, j);
      assert Suffices(ls, i, j) <==> !AttemptsAt(ls, i);
      forall j2 | HeldSince(ls, i, j2) ensures j2 == j { OneInHand(ls, i, j, j2); }
    }
  }

  /** A key in hand for less than six hours is answered, whatever a fetch would come to. */
  lemma HeldIsAnswered(ls: seq<Lookup>, i: nat, j: nat)
    requires i < |ls| && Clocked(ls) && HeldSince(ls, i, j)
    requires ls[i].kid in KeysOf(ls[j].outcome.rows) && ls[i].now - ls[j].arrived < 6 * 60 * MINUTE
    ensures !AttemptsAt(ls, i)
    ensures AnswerTo(After(ls[..i]), ls[i]) == Found(KeysOf(ls[j].outcome.rows)[ls[i].kid])
  {}

  /** A call that fetches in vain gives no key; any other answers from the set it fetched or has in hand. */
  lemma AnswerIs(ls: seq<Lookup>, i: nat)
    requires i < |ls|
    ensures var answer := AnswerTo(After(ls[..i]), ls[i]);
            && (answer == Unreachable <==> AttemptsAt(ls, i) && ls[i].outcome.Failed?)
            && (answer != Unreachable ==>
                  var keys := if AttemptsAt(ls, i) then KeysOf(ls[i].outcome.rows) else After(ls[..i]).keys;
                  answer == if ls[i].kid in keys then Found(keys[ls[i].kid]) else UnknownKey)
  {}

  /** After a fetch that succeeded nobody fetches again, in vain or not, for the length of the cooldown. */
  lemma FetchesSpaced(ls: seq<Lookup>, i: nat, j: nat)
    requires i < j < |ls| && Clocked(ls) && RefetchedAt(ls, i) && AttemptsAt(ls, j)
    ensures ls[j].now - ls[i].arrived >= KEYS_COOLDOWN
  {
    SetInHand(ls, j);
    assert RefetchedAt(ls, i);
    var k :| HeldSince(ls, j, k);
    assert i <= k;
    if i < k { assert ls[i].arrived <= ls[k].now; }
  }

  /** How many fetches succeeded with the set arriving within [a, b]. */
  function FetchesIn(ls: seq<Lookup>, n: nat, a: Time, b: Time): nat
    requires n <= |ls|
  {
    if n == 0 then 0
    else FetchesIn(ls, n - 1, a, b) + if RefetchedAt(ls, n - 1) && a <= ls[n - 1].arrived <= b then 1 else 0
  }

  /** Fetch `i` is the last of `count` fetches counted, so they span at least `count - 1` cooldowns. */
  ghost predicate LastOf(ls: seq<Lookup>, n: nat, i: int, a: Time, b: Time, count: nat)
    requires n <= |ls|
  {
    0 <= i < n && RefetchedAt(ls, i) && ls[i].arrived <= b && (count - 1) * KEYS_COOLDOWN <= ls[i].arrived - a
  }

  lemma {:induction false} FetchesBelow(ls: seq<Lookup>, n: nat, a: Time, b: Time)
    requires n <= |ls| && Clocked(ls) && a <= b
    ensures FetchesIn(ls, n, a, b) == 0 || exists i :: LastOf(ls, n, i, a, b, FetchesIn(ls, n, a, b))
    decreases n
  {
    if n > 0 {
      var last := n - 1;
      var before := FetchesIn(ls, last, a, b);
      FetchesBelow(ls, last, a, b);
      if RefetchedAt(ls, last) && a <= ls[last].arrived <= b {
        if before > 0 {
          var i :| LastOf(ls, last, i, a, b, before);
          FetchesSpaced(ls, i, last);
        }
        assert LastOf(ls, n, last, a, b, before + 1);
      } else if before > 0 {
        var i :| LastOf(ls, last, i, a, b, before);
        assert LastOf(ls, n, i, a, b, before);
      }
    }
  }

  lemma CooldownsFit(count: int, span: int)
    requires (count - 1) * KEYS_COOLDOWN <= span
    ensures count <= span / KEYS_COOLDOWN + 1
  {}

  /** In any span T there are at most `T / KEYS_COOLDOWN + 1` successful fetches. */
  lemma FetchesBounded(ls: seq<Lookup>, a: Time, b: Time)
    requires Clocked(ls) && a <= b
    ensures FetchesIn(ls, |ls|, a, b) <= (b - a) / KEYS_COOLDOWN + 1
  {
    FetchesBelow(ls, |ls|, a, b);
    if FetchesIn(ls, |ls|, a, b) > 0 {
      var i :| LastOf(ls, |ls|, i, a, b, FetchesIn(ls, |ls|, a, b));
      CooldownsFit(FetchesIn(ls, |ls|, a, b), b - a);
    }
  }

  // ---------------------------------------------------------------------------------------------
  // What the cooldown does not cover
  // ---------------------------------------------------------------------------------------------

  /** However a run goes on, who fetches next does so no sooner than a cooldown after its last call. */
  ghost predicate HeldBack(ls: seq<Lookup>)
    requires ls != []
  {
    forall more: seq<Lookup>, j | |ls| <= j < |ls + more| && Clocked(ls + more) && AttemptsAt(ls + more, j) ::
      (ls + more)[j].now - ls[|ls| - 1].arrived >= KEYS_COOLDOWN
  }

  /**
  For every run that ends in an attempt: the cooldown holds back all that may follow exactly when the
  attempt succeeded. After a failed one the next call may go out at once.
  */
  lemma NextAttemptSpacedIff(ls: seq<Lookup>)
    requires ls != [] && Clocked(ls) && AttemptsAt(ls, |ls| - 1)
    ensures HeldBack(ls) <==> ls[|ls| - 1].outcome.Fetched?
  {
    var last := |ls| - 1;
    if ls[last].outcome.Fetched? {
      forall more: seq<Lookup>, j | |ls| <= j < |ls + more| && Clocked(ls + more) && AttemptsAt(ls + more, j)
        ensures (ls + more)[j].now - ls[last].arrived >= KEYS_COOLDOWN
      {
        assert (ls + more)[..last] == ls[..last];
        FetchesSpaced(ls + more, last, j);
      }
    } else {
      AtOnce(ls);
    }
  }

  /** The same call again, as soon as the failed one is over. */
  lemma AtOnce(ls: seq<Lookup>)
    requires ls != [] && Clocked(ls) && AttemptsAt(ls, |ls| - 1) && ls[|ls| - 1].outcome.Failed?
    ensures !HeldBack(ls)
  {
    var last := ls[|ls| - 1];
    var again := last.(now := last.arrived);
    var run := ls + [again];
    assert run[..|ls|] == ls;
    assert After(ls) == After(ls[..|ls| - 1]);
    assert AttemptsAt(run, |ls|);
    forall i, j | 0 <= i < j < |run| ensures run[i].arrived <= run[j].now {
      if j == |ls| && i < |ls| - 1 { assert ls[i].arrived <= last.now; }
    }
    assert Clocked(run);
    assert run[|ls|].now - last.arrived < KEYS_COOLDOWN;
  }

  /** So an outage turns a stream of calls into a stream of requests: `n` in no time at all. */
  lemma {:induction false} OutageUnspaced(l: Lookup, n: nat, i: nat)
    requires l.outcome.Failed? && l.now >= KEYS_COOLDOWN && i < n
    ensures var ls := seq(n, k => l); After(ls[..i]) == EMPTY && Attempts(After(ls[..i]), ls[i])
    decreases i
  {
    var ls := seq(n, k => l);
    if i > 0 {
      OutageUnspaced(l, n, i - 1);
      assert ls[..i][..i - 1] == ls[..i - 1];
    } else {
      assert ls[..0] == [];
    }
  }
}
