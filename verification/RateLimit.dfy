/**
The keyed token-bucket limiter of internal/api/ratelimit.go.

Times are integer nanoseconds and a bucket holds credit in nanoseconds: one token is worth
`perToken` of credit, credit returns at one nanosecond per nanosecond, and a full bucket holds
`burst * perToken`.
*/
module RateLimit {
  import opened Common

  type Time = int

  const SECOND: int := 1_000_000_000

  // ---------------------------------------------------------------------------------------------
  // Configuration
  // ---------------------------------------------------------------------------------------------

  datatype Config = Config(burst: int, perToken: int, idle: int) {
    function Cap(): int { burst * perToken }

    /** A positive rate and at least one token: the only configurations that really limit. */
    predicate Limiting() { perToken > 0 && burst >= 1 }
  }

  /** Integer division as the source language does it: the quotient is truncated toward zero. */
  function TruncDiv(a: int, b: int): int
    requires b != 0
  {
    if a >= 0 then (if b > 0 then a / b else -(a / -b))
    else (if b > 0 then -(-a / b) else -a / -b)
  }

  function NewConfig(requests: int, window: int): Config
    requires requests != 0
  {
    Config(requests, TruncDiv(window, requests), window)
  }

  /** A bucket idle for `idle` has refilled, or the configuration never refuses, or always does. */
  ghost predicate Covers(cfg: Config) { cfg.Limiting() ==> cfg.Cap() <= cfg.idle }

  lemma IdleCoversRefill(requests: int, window: int)
    requires requests != 0
    ensures Covers(NewConfig(requests, window))
  {
    if NewConfig(requests, window).Limiting() && window >= 0 {
      assert window == requests * (window / requests) + window % requests;
    }
  }

  // ---------------------------------------------------------------------------------------------
  // One bucket: the exact-arithmetic reading of rate.Limiter
  // ---------------------------------------------------------------------------------------------

  datatype Tokens = Tokens(credit: int, last: Time)

  function Full(cfg: Config): Tokens { Tokens(cfg.Cap(), 0) }

  /** The credit in hand at `now`; a clock that went backwards refills nothing. */
  function Credit(cfg: Config, t: Tokens, now: Time): int {
    Min(cfg.Cap(), t.credit + if now < t.last then 0 else now - t.last)
  }

  predicate Admits(cfg: Config, t: Tokens, now: Time) {
    cfg.perToken <= 0 || (1 <= cfg.burst && cfg.perToken <= Credit(cfg, t, now))
  }

  /** A denied call changes nothing, and neither does any call on an unlimited bucket. */
  function Spend(cfg: Config, t: Tokens, now: Time): Tokens {
    if cfg.perToken > 0 && Admits(cfg, t, now)
    then Tokens(Credit(cfg, t, now) - cfg.perToken, now)
    else t
  }

  // ---------------------------------------------------------------------------------------------
  // The limiter, and the limiter that never forgets a bucket
  // ---------------------------------------------------------------------------------------------

  datatype Bucket = Bucket(tokens: Tokens, seen: Time)

  datatype State = State(buckets: map<string, Bucket>, lastSweep: Time)

  datatype Call = Call(key: string, now: Time)

  function Swept(cfg: Config, s: State, now: Time): State {
    if now - s.lastSweep < cfg.idle then s
    else State(map k | k in s.buckets && now - s.buckets[k].seen < cfg.idle :: s.buckets[k], now)
  }

  function TokensOf(cfg: Config, s: State, key: string): Tokens {
    if key in s.buckets then s.buckets[key].tokens else Full(cfg)
  }

  function Allow(cfg: Config, s: State, c: Call): (State, bool) {
    var s1 := Swept(cfg, s, c.now);
    var t := TokensOf(cfg, s1, c.key);
    (s1.(buckets := s1.buckets[c.key := Bucket(Spend(cfg, t, c.now), c.now)]), Admits(cfg, t, c.now))
  }

  /** The reference: an ever-growing map from which nothing is dropped. */
  type Ledger = map<string, Tokens>

  function Held(cfg: Config, m: Ledger, key: string): Tokens {
    if key in m then m[key] else Full(cfg)
  }

  function AllowKeeping(cfg: Config, m: Ledger, c: Call): (Ledger, bool) {
    var t := Held(cfg, m, c.key);
    (m[c.key := Spend(cfg, t, c.now)], Admits(cfg, t, c.now))
  }

  function Answers(cfg: Config, s: State, calls: seq<Call>): (r: seq<bool>)
    ensures |r| == |calls|
    decreases calls
  {
    if calls == [] then []
    else var (s1, ok) := Allow(cfg, s, calls[0]); [ok] + Answers(cfg, s1, calls[1..])
  }

  function After(cfg: Config, s: State, calls: seq<Call>): State
    decreases calls
  {
    if calls == [] then s else After(cfg, Allow(cfg, s, calls[0]).0, calls[1..])
  }

  function AnswersKeeping(cfg: Config, m: Ledger, calls: seq<Call>): (r: seq<bool>)
    ensures |r| == |calls|
    decreases calls
  {
    if calls == [] then []
    else var (m1, ok) := AllowKeeping(cfg, m, calls[0]); [ok] + AnswersKeeping(cfg, m1, calls[1..])
  }

  /** The clock never steps back: the first call is no earlier than `from`, each next no earlier than the last. */
  ghost predicate InOrder(from: Time, calls: seq<Call>)
    decreases calls
  {
    calls != [] ==> from <= calls[0].now && InOrder(calls[0].now, calls[1..])
  }

  function New(start: Time): State { State(map[], start) }

  // ---------------------------------------------------------------------------------------------
  // Sweeping is invisible
  // ---------------------------------------------------------------------------------------------

  /** What the code keeps true of a bucket last touched no later than `seen`. */
  ghost predicate Sound(cfg: Config, t: Tokens, seen: Time) {
    if cfg.Limiting() then 0 <= t.credit <= cfg.Cap() && (t.last <= seen || t.credit == cfg.Cap())
    else t == Full(cfg)
  }

  lemma SpendSound(cfg: Config, t: Tokens, seen: Time, now: Time)
    requires seen <= now && Sound(cfg, t, seen)
    ensures Sound(cfg, Spend(cfg, t, now), now)
  {}

  /** A swept limiter stands for a ledger when what it holds agrees and what it dropped is full. */
  ghost predicate Stands(cfg: Config, s: State, m: Ledger, now: Time) {
    && (forall k | k in s.buckets ::
          k in m && s.buckets[k].tokens == m[k] && s.buckets[k].seen <= now
          && Sound(cfg, m[k], s.buckets[k].seen))
    && (forall k | k in m && k !in s.buckets ::
          Sound(cfg, m[k], now) && Credit(cfg, m[k], now) == cfg.Cap())
  }

  lemma SweptStands(cfg: Config, s: State, m: Ledger, before: Time, now: Time)
    requires Covers(cfg) && before <= now && Stands(cfg, s, m, before)
    ensures Stands(cfg, Swept(cfg, s, now), m, now)
  {}

  /** At a call the two limiters may hold different records, but the records behave alike. */
  lemma HeldAlike(cfg: Config, s: State, m: Ledger, key: string, now: Time)
    requires Stands(cfg, s, m, now)
    ensures var t, u := TokensOf(cfg, s, key), Held(cfg, m, key);
            && Sound(cfg, u, now)
            && Admits(cfg, t, now) == Admits(cfg, u, now)
            && Spend(cfg, t, now) == Spend(cfg, u, now)
  {}

  lemma StandsStep(cfg: Config, s: State, m: Ledger, before: Time, c: Call)
    requires Covers(cfg) && before <= c.now && Stands(cfg, s, m, before)
    ensures && Allow(cfg, s, c).1 == AllowKeeping(cfg, m, c).1
            && Stands(cfg, Allow(cfg, s, c).0, AllowKeeping(cfg, m, c).0, c.now)
  {
    SweptStands(cfg, s, m, before, c.now);
    HeldAlike(cfg, Swept(cfg, s, c.now), m, c.key, c.now);
    SpendSound(cfg, Held(cfg, m, c.key), c.now, c.now);
  }

  lemma {:induction false} SweepingInvisibleFrom(cfg: Config, s: State, m: Ledger, before: Time, calls: seq<Call>)
    requires Covers(cfg) && InOrder(before, calls) && Stands(cfg, s, m, before)
    ensures Answers(cfg, s, calls) == AnswersKeeping(cfg, m, calls)
    decreases calls
  {
    if calls != [] {
      StandsStep(cfg, s, m, before, calls[0]);
      SweepingInvisibleFrom(cfg, Allow(cfg, s, calls[0]).0, AllowKeeping(cfg, m, calls[0]).0,
                            calls[0].now, calls[1..]);
    }
  }

  /** Every run whose clock never steps back gets the answers of the limiter that drops nothing. */
  lemma SweepingInvisible(requests: int, window: int, start: Time, from: Time, calls: seq<Call>)
    requires requests != 0 && InOrder(from, calls)
    ensures var cfg := NewConfig(requests, window);
            Answers(cfg, New(start), calls) == AnswersKeeping(cfg, map[], calls)
  {
    IdleCoversRefill(requests, window);
    SweepingInvisibleFrom(NewConfig(requests, window), New(start), map[], from, calls);
  }

  // ---------------------------------------------------------------------------------------------
  // Exactly when dropping one bucket shows
  // ---------------------------------------------------------------------------------------------

  /** The answers one bucket gives to calls at the given times, in whatever order they enter. */
  function Served(cfg: Config, t: Tokens, times: seq<Time>): (r: seq<bool>)
    ensures |r| == |times|
    decreases times
  {
    if times == [] then []
    else [Admits(cfg, t, times[0])] + Served(cfg, Spend(cfg, t, times[0]), times[1..])
  }

  function Repeat(now: Time, n: nat): (r: seq<Time>) { seq(n, i => now) }

  predicate AllAdmitted(answers: seq<bool>) {
    forall i | 0 <= i < |answers| :: answers[i]
  }

  /** What every bucket keeps, whatever the clock does. */
  predicate Ranged(cfg: Config, t: Tokens) {
    if cfg.Limiting() then 0 <= t.credit <= cfg.Cap() else t == Full(cfg)
  }

  lemma SpendRanged(cfg: Config, t: Tokens, now: Time)
    requires Ranged(cfg, t)
    ensures Ranged(cfg, Spend(cfg, t, now))
  {}

  /** A bucket serves `n` calls at one instant exactly when it holds `n` tokens then. */
  lemma {:induction false} BurstServedIff(cfg: Config, t: Tokens, now: Time, n: nat)
    requires cfg.Limiting() && Ranged(cfg, t)
    ensures AllAdmitted(Served(cfg, t, Repeat(now, n))) <==> n * cfg.perToken <= Credit(cfg, t, now)
    decreases n
  {
    if n > 0 {
      var t1 := Spend(cfg, t, now);
      var rest := Served(cfg, t1, Repeat(now, n - 1));
      assert Repeat(now, n)[1..] == Repeat(now, n - 1);
      AllAdmittedCons(Admits(cfg, t, now), rest);
      OneFewer(n, cfg.perToken);
      if Admits(cfg, t, now) {
        SpendRanged(cfg, t, now);
        BurstServedIff(cfg, t1, now, n - 1);
        assert Credit(cfg, t1, now) == Credit(cfg, t, now) - cfg.perToken;
      }
    }
  }

  lemma OneFewer(n: nat, each: nat)
    requires n > 0
    ensures n * each == (n - 1) * each + each && (n - 1) * each >= 0
  {}

  lemma AllAdmittedCons(first: bool, rest: seq<bool>)
    ensures AllAdmitted([first] + rest) <==> first && AllAdmitted(rest)
  {
    var all := [first] + rest;
    if AllAdmitted(all) {
      assert all[0];
      forall i | 0 <= i < |rest| ensures rest[i] { assert all[i + 1]; }
    }
  }

  /** Every stamp is `since` or later; their order is free. */
  predicate NoEarlier(since: Time, times: seq<Time>) {
    forall i | 0 <= i < |times| :: since <= times[i]
  }

  /** Full, as far as it matters: a configuration that does not limit cannot tell. */
  predicate FullAt(cfg: Config, t: Tokens, now: Time) { cfg.Limiting() ==> Credit(cfg, t, now) == cfg.Cap() }

  /** A full bucket stays full until it is next called, and then it is as a fresh one. */
  lemma FullLater(cfg: Config, t: Tokens, since: Time, now: Time)
    requires Ranged(cfg, t) && FullAt(cfg, t, since) && since <= now
    ensures FullAt(cfg, t, now)
    ensures Admits(cfg, t, now) == Admits(cfg, Full(cfg), now) && Spend(cfg, t, now) == Spend(cfg, Full(cfg), now)
  {
    if cfg.Limiting() { assert cfg.Cap() >= cfg.perToken by { assert cfg.burst * cfg.perToken >= 1 * cfg.perToken; } }
  }

  /** No caller whose calls are stamped `since` or later, in any order, can tell the two buckets apart. */
  ghost predicate Unnoticed(cfg: Config, t: Tokens, u: Tokens, since: Time) {
    forall times | NoEarlier(since, times) :: Served(cfg, t, times) == Served(cfg, u, times)
  }

  /** A bucket can be replaced by a fresh one unnoticed exactly when it is full at the earliest stamp to come. */
  lemma ReplaceableIff(cfg: Config, t: Tokens, since: Time)
    requires Ranged(cfg, t)
    ensures Unnoticed(cfg, Full(cfg), t, since) <==> FullAt(cfg, t, since)
  {
    var full := Full(cfg);
    if FullAt(cfg, t, since) {
      forall times | NoEarlier(since, times) ensures Served(cfg, full, times) == Served(cfg, t, times) {
        if times != [] { FullLater(cfg, t, since, times[0]); }
      }
    } else {
      var times := Repeat(since, cfg.burst);
      BurstServedIff(cfg, t, since, cfg.burst);
      BurstServedIff(cfg, full, since, cfg.burst);
      assert NoEarlier(since, times);
      assert Served(cfg, t, times) != Served(cfg, full, times);
    }
  }

  predicate Dropped(cfg: Config, s: State, now: Time, key: string) {
    key in s.buckets && now - s.lastSweep >= cfg.idle && now - s.buckets[key].seen >= cfg.idle
  }

  /**
  Exactly when one sweep is harmless, whatever order calls enter in: nobody whose calls are still to
  come, none of them stamped before `since`, can ever tell if and only if every bucket the sweep drops
  is full at `since`. A late arrival is stamped before the sweep, so `since` may be earlier than `now`.
  */
  lemma SweepHarmlessIff(cfg: Config, s: State, now: Time, since: Time)
    requires forall k | k in s.buckets :: Ranged(cfg, s.buckets[k].tokens)
    ensures (forall k :: Unnoticed(cfg, TokensOf(cfg, Swept(cfg, s, now), k), TokensOf(cfg, s, k), since))
            <==> (forall k | Dropped(cfg, s, now, k) :: FullAt(cfg, s.buckets[k].tokens, since))
  {
    forall k
      ensures Unnoticed(cfg, TokensOf(cfg, Swept(cfg, s, now), k), TokensOf(cfg, s, k), since)
              <==> (Dropped(cfg, s, now, k) ==> FullAt(cfg, s.buckets[k].tokens, since))
    {
      if Dropped(cfg, s, now, k) { ReplaceableIff(cfg, s.buckets[k].tokens, since); }
    }
  }

  // ---------------------------------------------------------------------------------------------
  // Exactly when dropping buckets shows over a run in any order
  // ---------------------------------------------------------------------------------------------

  /** The buckets kept are the ledger's; those dropped may have been anything. */
  ghost predicate Follows(cfg: Config, s: State, m: Ledger) {
    && (forall k | k in m :: Ranged(cfg, m[k]))
    && (forall k | k in s.buckets :: k in m && s.buckets[k].tokens == m[k])
  }

  /** If the caller's bucket was dropped, now or before, the one that was dropped is full by now. */
  predicate FindsFull(cfg: Config, s: State, m: Ledger, c: Call) {
    c.key in m && c.key !in Swept(cfg, s, c.now).buckets ==> FullAt(cfg, m[c.key], c.now)
  }

  /** Everybody who comes back to a dropped bucket would have found it full. */
  predicate Prudent(cfg: Config, s: State, m: Ledger, calls: seq<Call>)
    decreases calls
  {
    calls != [] ==>
      && FindsFull(cfg, s, m, calls[0])
      && Prudent(cfg, Allow(cfg, s, calls[0]).0, AllowKeeping(cfg, m, calls[0]).0, calls[1..])
  }

  /** The sweeping limiter gives these calls the answers of the one that forgets nothing. */
  predicate Alike(cfg: Config, s: State, m: Ledger, calls: seq<Call>) {
    Answers(cfg, s, calls) == AnswersKeeping(cfg, m, calls)
  }

  lemma FollowsStep(cfg: Config, s: State, m: Ledger, c: Call)
    requires Follows(cfg, s, m) && FindsFull(cfg, s, m, c)
    ensures Allow(cfg, s, c).1 == AllowKeeping(cfg, m, c).1
    ensures Follows(cfg, Allow(cfg, s, c).0, AllowKeeping(cfg, m, c).0)
  {
    var t := Held(cfg, m, c.key);
    FullRanged(cfg);
    SpendRanged(cfg, t, c.now);
    if c.key in m && c.key !in Swept(cfg, s, c.now).buckets { FullLater(cfg, t, c.now, c.now); }
  }

  lemma FullRanged(cfg: Config)
    ensures Ranged(cfg, Full(cfg))
  {
    if cfg.Limiting() { assert cfg.burst * cfg.perToken >= 0; }
  }

  lemma AlikeCons(cfg: Config, s: State, m: Ledger, calls: seq<Call>)
    requires calls != [] && Allow(cfg, s, calls[0]).1 == AllowKeeping(cfg, m, calls[0]).1
    ensures Alike(cfg, s, m, calls)
            <==> Alike(cfg, Allow(cfg, s, calls[0]).0, AllowKeeping(cfg, m, calls[0]).0, calls[1..])
  {
    var ok := Allow(cfg, s, calls[0]).1;
    var a, b := Answers(cfg, Allow(cfg, s, calls[0]).0, calls[1..]),
                AnswersKeeping(cfg, AllowKeeping(cfg, m, calls[0]).0, calls[1..]);
    assert ([ok] + a)[1..] == a && ([ok] + b)[1..] == b;
  }

  lemma {:induction false} PrudentAlike(cfg: Config, s: State, m: Ledger, calls: seq<Call>)
    requires Follows(cfg, s, m) && Prudent(cfg, s, m, calls)
    ensures Alike(cfg, s, m, calls)
    decreases calls
  {
    if calls != [] {
      var c := calls[0];
      FollowsStep(cfg, s, m, c);
      PrudentAlike(cfg, Allow(cfg, s, c).0, AllowKeeping(cfg, m, c).0, calls[1..]);
      AlikeCons(cfg, s, m, calls);
    }
  }

  /** The same call over and over, as often as a full bucket bears. */
  function Burst(cfg: Config, c: Call): seq<Call> { seq(if cfg.burst > 0 then cfg.burst else 0, i => c) }

  function Again(c: Call, n: nat): (r: seq<Call>) { seq(n, i => c) }

  lemma {:induction false} KeepingServed(cfg: Config, m: Ledger, c: Call, n: nat)
    ensures AnswersKeeping(cfg, m, Again(c, n)) == Served(cfg, Held(cfg, m, c.key), Repeat(c.now, n))
    decreases n
  {
    if n > 0 {
      assert Again(c, n)[1..] == Again(c, n - 1) && Repeat(c.now, n)[1..] == Repeat(c.now, n - 1);
      KeepingServed(cfg, AllowKeeping(cfg, m, c).0, c, n - 1);
    }
  }

  /** No sweep at the same instant drops the bucket just called. */
  lemma {:induction false} SweepingServed(cfg: Config, s: State, c: Call, n: nat)
    requires cfg.idle > 0
    ensures Answers(cfg, s, Again(c, n)) == Served(cfg, TokensOf(cfg, Swept(cfg, s, c.now), c.key), Repeat(c.now, n))
    decreases n
  {
    if n > 0 {
      var s1 := Allow(cfg, s, c).0;
      assert Again(c, n)[1..] == Again(c, n - 1) && Repeat(c.now, n)[1..] == Repeat(c.now, n - 1);
      SweepingServed(cfg, s1, c, n - 1);
      assert TokensOf(cfg, Swept(cfg, s1, c.now), c.key) == TokensOf(cfg, s1, c.key);
    }
  }

  lemma BurstAlikeIff(cfg: Config, s: State, m: Ledger, c: Call)
    requires cfg.idle > 0 && Follows(cfg, s, m)
    ensures Alike(cfg, s, m, Burst(cfg, c)) <==> FindsFull(cfg, s, m, c)
  {
    var n := |Burst(cfg, c)|;
    var t, u := TokensOf(cfg, Swept(cfg, s, c.now), c.key), Held(cfg, m, c.key);
    assert Burst(cfg, c) == Again(c, n);
    KeepingServed(cfg, m, c, n);
    SweepingServed(cfg, s, c, n);
    if c.key in m && c.key !in Swept(cfg, s, c.now).buckets {
      if FullAt(cfg, u, c.now) {
        if n > 0 { FullLater(cfg, u, c.now, c.now); }
      } else {
        FullRanged(cfg);
        BurstServedIff(cfg, u, c.now, n);
        BurstServedIff(cfg, t, c.now, n);
      }
    }
  }

  /** The run up to its call `n`, and that call repeated in a burst. */
  function UpTo(cfg: Config, calls: seq<Call>, n: nat): seq<Call>
    requires n < |calls|
  {
    calls[..n] + Burst(cfg, calls[n])
  }

  lemma UpToCons(cfg: Config, calls: seq<Call>, n: nat)
    requires 0 < n < |calls|
    ensures UpTo(cfg, calls, n) == [calls[0]] + UpTo(cfg, calls[1..], n - 1)
  {
    assert calls[..n] == [calls[0]] + calls[1..][..n - 1];
  }

  lemma UpToAlike(cfg: Config, s: State, m: Ledger, calls: seq<Call>, n: nat)
    requires 0 < n < |calls| && Allow(cfg, s, calls[0]).1 == AllowKeeping(cfg, m, calls[0]).1
    ensures Alike(cfg, s, m, UpTo(cfg, calls, n))
            <==> Alike(cfg, Allow(cfg, s, calls[0]).0, AllowKeeping(cfg, m, calls[0]).0, UpTo(cfg, calls[1..], n - 1))
  {
    var run := UpTo(cfg, calls, n);
    UpToCons(cfg, calls, n);
    assert run[0] == calls[0] && run[1..] == UpTo(cfg, calls[1..], n - 1);
    AlikeCons(cfg, s, m, run);
  }

  /** Whoever comes back in a burst gets the same answers, at whichever call of the run they do. */
  ghost predicate AlikeThroughout(cfg: Config, s: State, m: Ledger, calls: seq<Call>) {
    forall n | 0 <= n < |calls| :: Alike(cfg, s, m, UpTo(cfg, calls, n))
  }

  lemma ThroughoutCons(cfg: Config, s: State, m: Ledger, calls: seq<Call>)
    requires calls != [] && Allow(cfg, s, calls[0]).1 == AllowKeeping(cfg, m, calls[0]).1
    ensures AlikeThroughout(cfg, s, m, calls)
            <==> Alike(cfg, s, m, UpTo(cfg, calls, 0))
                 && AlikeThroughout(cfg, Allow(cfg, s, calls[0]).0, AllowKeeping(cfg, m, calls[0]).0, calls[1..])
  {
    var s1, m1, rest := Allow(cfg, s, calls[0]).0, AllowKeeping(cfg, m, calls[0]).0, calls[1..];
    forall n | 0 < n < |calls|
      ensures Alike(cfg, s, m, UpTo(cfg, calls, n)) <==> Alike(cfg, s1, m1, UpTo(cfg, rest, n - 1))
    {
      UpToAlike(cfg, s, m, calls, n);
    }
    if AlikeThroughout(cfg, s, m, calls) {
      forall n | 0 <= n < |rest| ensures Alike(cfg, s1, m1, UpTo(cfg, rest, n)) {
        assert Alike(cfg, s, m, UpTo(cfg, calls, n + 1));
      }
    }
  }

  lemma {:induction false} ThroughoutIff(cfg: Config, s: State, m: Ledger, calls: seq<Call>)
    requires cfg.idle > 0 && Follows(cfg, s, m)
    ensures AlikeThroughout(cfg, s, m, calls) <==> Prudent(cfg, s, m, calls)
    decreases calls
  {
    if calls != [] {
      var c := calls[0];
      assert calls[..0] + Burst(cfg, c) == Burst(cfg, c);
      BurstAlikeIff(cfg, s, m, c);
      if FindsFull(cfg, s, m, c) {
        FollowsStep(cfg, s, m, c);
        ThroughoutCons(cfg, s, m, calls);
        ThroughoutIff(cfg, Allow(cfg, s, c).0, AllowKeeping(cfg, m, c).0, calls[1..]);
      } else {
        assert !Alike(cfg, s, m, UpTo(cfg, calls, 0));
      }
    }
  }

  /**
  Exactly when sweeping is invisible, for every run, in clock order or not: if everybody who comes back
  to a dropped bucket would have found it full, all answers are those of the limiter that drops nothing;
  and if somebody would not, the run up to there with that caller's burst gets an answer that is not.
  */
  lemma SweepingInvisibleIff(requests: int, window: int, start: Time, calls: seq<Call>)
    requires requests != 0 && window > 0
    ensures var cfg := NewConfig(requests, window);
            && (AlikeThroughout(cfg, New(start), map[], calls) <==> Prudent(cfg, New(start), map[], calls))
            && (Prudent(cfg, New(start), map[], calls) ==> Alike(cfg, New(start), map[], calls))
  {
    var cfg := NewConfig(requests, window);
    ThroughoutIff(cfg, New(start), map[], calls);
    if Prudent(cfg, New(start), map[], calls) { PrudentAlike(cfg, New(start), map[], calls); }
  }

  // ---------------------------------------------------------------------------------------------
  // What the sweeps alone must see to
  // ---------------------------------------------------------------------------------------------

  /** Full at every stamp still to come of its key; so, at the earliest. */
  predicate FullFor(cfg: Config, t: Tokens, key: string, calls: seq<Call>) {
    forall i | 0 <= i < |calls| && calls[i].key == key :: FullAt(cfg, t, calls[i].now)
  }

  /** Each sweep of the run drops only buckets that are full for all that is still to come. */
  ghost predicate SweepsHarmless(cfg: Config, s: State, calls: seq<Call>)
    decreases calls
  {
    calls != [] ==>
      && (forall k | Dropped(cfg, s, calls[0].now, k) :: FullFor(cfg, s.buckets[k].tokens, k, calls))
      && SweepsHarmless(cfg, Allow(cfg, s, calls[0]).0, calls[1..])
  }

  ghost predicate DroppedFull(cfg: Config, s: State, m: Ledger, calls: seq<Call>) {
    forall k | k in m && k !in s.buckets :: FullFor(cfg, m[k], k, calls)
  }

  lemma FullForRest(cfg: Config, t: Tokens, key: string, calls: seq<Call>)
    requires calls != [] && FullFor(cfg, t, key, calls)
    ensures FullFor(cfg, t, key, calls[1..])
  {
    forall i | 0 <= i < |calls[1..]| && calls[1..][i].key == key ensures FullAt(cfg, t, calls[1..][i].now) {
      assert calls[1..][i] == calls[i + 1];
    }
  }

  /** What is not held after a sweep was dropped before it or by it; either way it is full. */
  lemma HarmlessStep(cfg: Config, s: State, m: Ledger, calls: seq<Call>)
    requires calls != [] && Follows(cfg, s, m) && DroppedFull(cfg, s, m, calls)
    requires forall k | Dropped(cfg, s, calls[0].now, k) :: FullFor(cfg, s.buckets[k].tokens, k, calls)
    ensures FindsFull(cfg, s, m, calls[0])
    ensures DroppedFull(cfg, Allow(cfg, s, calls[0]).0, AllowKeeping(cfg, m, calls[0]).0, calls[1..])
  {
    var c := calls[0];
    forall k | k in m && k !in Swept(cfg, s, c.now).buckets ensures FullFor(cfg, m[k], k, calls) {
      assert k in s.buckets ==> Dropped(cfg, s, c.now, k);
    }
    var s1, m1 := Allow(cfg, s, c).0, AllowKeeping(cfg, m, c).0;
    forall k | k in m1 && k !in s1.buckets ensures FullFor(cfg, m1[k], k, calls[1..]) {
      FullForRest(cfg, m[k], k, calls);
    }
  }

  lemma {:induction false} HarmlessPrudent(cfg: Config, s: State, m: Ledger, calls: seq<Call>)
    requires Follows(cfg, s, m) && DroppedFull(cfg, s, m, calls) && SweepsHarmless(cfg, s, calls)
    ensures Prudent(cfg, s, m, calls)
    decreases calls
  {
    if calls != [] {
      HarmlessStep(cfg, s, m, calls);
      FollowsStep(cfg, s, m, calls[0]);
      HarmlessPrudent(cfg, Allow(cfg, s, calls[0]).0, AllowKeeping(cfg, m, calls[0]).0, calls[1..]);
    }
  }

  /** In any order: sweeps that drop only what is full at the earliest stamp still to come never show. */
  lemma HarmlessSweepsInvisible(requests: int, window: int, start: Time, calls: seq<Call>)
    requires requests != 0 && SweepsHarmless(NewConfig(requests, window), New(start), calls)
    ensures var cfg := NewConfig(requests, window);
            Answers(cfg, New(start), calls) == AnswersKeeping(cfg, map[], calls)
  {
    var cfg := NewConfig(requests, window);
    HarmlessPrudent(cfg, New(start), map[], calls);
    PrudentAlike(cfg, New(start), map[], calls);
  }

  // ---------------------------------------------------------------------------------------------
  // Two runs out of order
  // ---------------------------------------------------------------------------------------------

  lemma AnswersCons(cfg: Config, s: State, m: Ledger, c: Call, rest: seq<Call>)
    ensures Answers(cfg, s, [c] + rest) == [Allow(cfg, s, c).1] + Answers(cfg, Allow(cfg, s, c).0, rest)
    ensures AnswersKeeping(cfg, m, [c] + rest)
            == [AllowKeeping(cfg, m, c).1] + AnswersKeeping(cfg, AllowKeeping(cfg, m, c).0, rest)
  {
    assert ([c] + rest)[0] == c && ([c] + rest)[1..] == rest;
  }

  /** The answers to three calls, one after the other. */
  lemma ThreeCalls(cfg: Config, s: State, m: Ledger, a: Call, b: Call, c: Call)
    ensures var (s1, x1) := Allow(cfg, s, a); var (s2, x2) := Allow(cfg, s1, b);
            Answers(cfg, s, [a, b, c]) == [x1] + ([x2] + [Allow(cfg, s2, c).1])
    ensures var (m1, y1) := AllowKeeping(cfg, m, a); var (m2, y2) := AllowKeeping(cfg, m1, b);
            AnswersKeeping(cfg, m, [a, b, c]) == [y1] + ([y2] + [AllowKeeping(cfg, m2, c).1])
  {
    var none: seq<Call> := [];
    var s1, m1 := Allow(cfg, s, a).0, AllowKeeping(cfg, m, a).0;
    var s2, m2 := Allow(cfg, s1, b).0, AllowKeeping(cfg, m1, b).0;
    AnswersCons(cfg, s2, m2, c, none);
    AnswersCons(cfg, s1, m1, b, [c] + none);
    AnswersCons(cfg, s, m, a, [b] + ([c] + none));
    assert [a] + ([b] + ([c] + none)) == [a, b, c];
  }

  /**
  The clock is read before the lock is taken, so calls can enter out of clock order; then the sweep
  can drop a bucket that has not refilled. Here one token per second: the call at 1.9 s empties the
  bucket, the late arrival stamped 1.5 s marks it seen earlier than it was spent, and the sweep at
  2.5 s lets through a call that the never-forgetting limiter refuses.
  */
  lemma OutOfOrderSweepShows()
    ensures var cfg := NewConfig(1, SECOND);
            var calls := [Call("a", 1_900_000_000), Call("a", 1_500_000_000), Call("a", 2_500_000_000)];
            Answers(cfg, New(SECOND), calls) == [true, false, true]
            && AnswersKeeping(cfg, map[], calls) == [true, false, false]
  {
    ThreeCalls(NewConfig(1, SECOND), New(SECOND), map[],
               Call("a", 1_900_000_000), Call("a", 1_500_000_000), Call("a", 2_500_000_000));
  }

  /**
  Nor does it help that the dropped bucket is full when it is dropped: the sweep at 1.9 s drops the full
  bucket of "a", and a late arrival stamped 1.5 s, when it was not full, gets a fresh one.
  */
  lemma LateArrivalShows()
    ensures var cfg := NewConfig(1, SECOND);
            var calls := [Call("a", 900_000_000), Call("b", 1_900_000_000), Call("a", 1_500_000_000)];
            Answers(cfg, New(0), calls) == [true, true, true]
            && AnswersKeeping(cfg, map[], calls) == [true, true, false]
    ensures var cfg := NewConfig(1, SECOND); var s := Allow(cfg, New(0), Call("a", 900_000_000)).0;
            Dropped(cfg, s, 1_900_000_000, "a") && FullAt(cfg, s.buckets["a"].tokens, 1_900_000_000)
            && !FullAt(cfg, s.buckets["a"].tokens, 1_500_000_000)
  {
    ThreeCalls(NewConfig(1, SECOND), New(0), map[],
               Call("a", 900_000_000), Call("b", 1_900_000_000), Call("a", 1_500_000_000));
  }

  // ---------------------------------------------------------------------------------------------
  // The rate bound
  // ---------------------------------------------------------------------------------------------

  /** How many of the calls by `key` stamped within [a, b] were admitted. */
  function AdmittedIn(calls: seq<Call>, answers: seq<bool>, key: string, a: Time, b: Time): (n: nat)
    requires |calls| == |answers|
    decreases calls
  {
    if calls == [] then 0
    else (if answers[0] && calls[0].key == key && a <= calls[0].now <= b then 1 else 0)
         + AdmittedIn(calls[1..], answers[1..], key, a, b)
  }

  /** Every record is sound at `now`. */
  ghost predicate AllSound(cfg: Config, m: Ledger, now: Time) {
    forall k | k in m :: Sound(cfg, m[k], now)
  }

  lemma KeepingSound(cfg: Config, m: Ledger, before: Time, c: Call)
    requires before <= c.now && AllSound(cfg, m, before)
    ensures AllSound(cfg, AllowKeeping(cfg, m, c).0, c.now)
  {
    forall k | k in m ensures Sound(cfg, m[k], c.now) {}
    SpendSound(cfg, Held(cfg, m, c.key), c.now, c.now);
  }

  /** The credit those admitted calls cost. */
  function PaidIn(cfg: Config, m: Ledger, calls: seq<Call>, key: string, a: Time, b: Time): int
    decreases calls
  {
    if calls == [] then 0
    else
      var (m1, ok) := AllowKeeping(cfg, m, calls[0]);
      (if ok && calls[0].key == key && a <= calls[0].now <= b then cfg.perToken else 0)
      + PaidIn(cfg, m1, calls[1..], key, a, b)
  }

  lemma AdmittedInCons(cfg: Config, m: Ledger, calls: seq<Call>, key: string, a: Time, b: Time)
    requires calls != []
    ensures var (m1, ok) := AllowKeeping(cfg, m, calls[0]);
            AdmittedIn(calls, AnswersKeeping(cfg, m, calls), key, a, b)
            == AdmittedIn(calls[1..], AnswersKeeping(cfg, m1, calls[1..]), key, a, b)
               + if ok && calls[0].key == key && a <= calls[0].now <= b then 1 else 0
  {
    var (m1, ok) := AllowKeeping(cfg, m, calls[0]);
    assert AnswersKeeping(cfg, m, calls)[1..] == AnswersKeeping(cfg, m1, calls[1..]);
  }

  lemma PaidForOneMore(n: int, perToken: int, paid: int, more: int, one: int)
    requires paid == n * perToken && more == one * perToken
    ensures paid + more == (n + one) * perToken
  {}

  lemma {:induction false} PaidPerAdmitted(cfg: Config, m: Ledger, calls: seq<Call>, key: string, a: Time, b: Time)
    ensures PaidIn(cfg, m, calls, key, a, b)
            == AdmittedIn(calls, AnswersKeeping(cfg, m, calls), key, a, b) * cfg.perToken
    decreases calls
  {
    if calls != [] {
      var (m1, ok) := AllowKeeping(cfg, m, calls[0]);
      PaidPerAdmitted(cfg, m1, calls[1..], key, a, b);
      AdmittedInCons(cfg, m, calls, key, a, b);
      var one := if ok && calls[0].key == key && a <= calls[0].now <= b then 1 else 0;
      PaidForOneMore(AdmittedIn(calls[1..], AnswersKeeping(cfg, m1, calls[1..]), key, a, b), cfg.perToken,
                     PaidIn(cfg, m1, calls[1..], key, a, b), one * cfg.perToken, one);
    }
  }

  lemma {:induction false} NothingPaidAfter(
      cfg: Config, m: Ledger, now: Time, calls: seq<Call>, key: string, a: Time, b: Time)
    requires InOrder(now, calls) && (calls != [] ==> b < calls[0].now)
    ensures PaidIn(cfg, m, calls, key, a, b) == 0
    decreases calls
  {
    if calls != [] {
      NothingPaidAfter(cfg, AllowKeeping(cfg, m, calls[0]).0, calls[0].now, calls[1..], key, a, b);
    }
  }

  lemma CreditGrows(cfg: Config, t: Tokens, now: Time, later: Time)
    requires now <= later
    ensures Credit(cfg, t, later) <= Credit(cfg, t, now) + (later - now)
  {}

  /** One call takes exactly its cost out of the credit in hand, if admitted, and nothing if not. */
  lemma CallPaidFor(cfg: Config, m: Ledger, c: Call, key: string)
    requires cfg.Limiting() && AllSound(cfg, m, c.now)
    ensures var (m1, ok) := AllowKeeping(cfg, m, c);
            Credit(cfg, Held(cfg, m1, key), c.now)
            == Credit(cfg, Held(cfg, m, key), c.now) - if ok && c.key == key then cfg.perToken else 0
  {}

  /** Inside the interval, every admitted call is paid for by credit in hand or by time passing. */
  lemma {:induction false} AdmittedPaidFor(
      cfg: Config, m: Ledger, now: Time, calls: seq<Call>, key: string, a: Time, b: Time)
    requires cfg.Limiting() && AllSound(cfg, m, now) && a <= now <= b && InOrder(now, calls)
    ensures PaidIn(cfg, m, calls, key, a, b) <= Credit(cfg, Held(cfg, m, key), now) + (b - now)
    decreases calls
  {
    NonNegative(cfg, Held(cfg, m, key), now);
    if calls == [] {
    } else if calls[0].now > b {
      NothingPaidAfter(cfg, m, now, calls, key, a, b);
    } else {
      var c, m1 := calls[0], AllowKeeping(cfg, m, calls[0]).0;
      KeepingSound(cfg, m, now, c);
      AdmittedPaidFor(cfg, m1, c.now, calls[1..], key, a, b);
      CallPaidFor(cfg, m, c, key);
      CreditGrows(cfg, Held(cfg, m, key), now, c.now);
    }
  }

  lemma NonNegative(cfg: Config, t: Tokens, now: Time)
    requires cfg.Limiting() && Sound(cfg, t, now)
    ensures Credit(cfg, t, now) >= 0
  {}

  lemma {:induction false} PaidBelowCap(
      cfg: Config, m: Ledger, before: Time, calls: seq<Call>, key: string, a: Time, b: Time)
    requires cfg.Limiting() && AllSound(cfg, m, before) && before <= a <= b && InOrder(before, calls)
    ensures PaidIn(cfg, m, calls, key, a, b) <= cfg.Cap() + (b - a)
    decreases calls
  {
    if calls == [] {
      assert cfg.Cap() >= 0;
    } else if calls[0].now < a {
      KeepingSound(cfg, m, before, calls[0]);
      PaidBelowCap(cfg, AllowKeeping(cfg, m, calls[0]).0, calls[0].now, calls[1..], key, a, b);
    } else {
      assert AllSound(cfg, m, a);
      AdmittedPaidFor(cfg, m, a, calls, key, a, b);
    }
  }

  lemma TokensFit(n: nat, burst: int, perToken: int, span: int)
    requires perToken > 0 && span >= 0 && n * perToken <= burst * perToken + span
    ensures n <= burst + span / perToken
  {
    var extra := n - burst - span / perToken;
    assert extra * perToken == n * perToken - burst * perToken - (span / perToken) * perToken;
    assert extra >= 1 ==> extra * perToken >= perToken;
  }

  /**
  The rate bound, across any number of sweeps and recreated buckets: in any interval of length T a
  key has at most `burst + T / perToken` calls admitted.
  */
  lemma RateBound(requests: int, window: int, start: Time, from: Time, calls: seq<Call>, key: string, a: Time, b: Time)
    requires requests != 0 && NewConfig(requests, window).Limiting() && a <= b && InOrder(from, calls)
    ensures var cfg := NewConfig(requests, window);
            AdmittedIn(calls, Answers(cfg, New(start), calls), key, a, b)
            <= requests + (b - a) / (window / requests)
  {
    var cfg := NewConfig(requests, window);
    SweepingInvisible(requests, window, start, from, calls);
    var before := if calls == [] || a <= calls[0].now then a else calls[0].now;
    PaidBelowCap(cfg, map[], before, calls, key, a, b);
    PaidPerAdmitted(cfg, map[], calls, key, a, b);
    TokensFit(AdmittedIn(calls, Answers(cfg, New(start), calls), key, a, b), requests, cfg.perToken, b - a);
    PositiveRate(requests, window);
  }

  lemma PositiveRate(requests: int, window: int)
    requires requests != 0 && NewConfig(requests, window).Limiting()
    ensures NewConfig(requests, window).perToken == window / requests
  {}

  // ---------------------------------------------------------------------------------------------
  // No starvation
  // ---------------------------------------------------------------------------------------------

  function LedgerAfter(cfg: Config, m: Ledger, calls: seq<Call>): Ledger
    decreases calls
  {
    if calls == [] then m else LedgerAfter(cfg, AllowKeeping(cfg, m, calls[0]).0, calls[1..])
  }

  /** What the ledger holds of `key` after the first `i` calls decides the answer to call `i`. */
  lemma {:induction false} AnswerAt(cfg: Config, m: Ledger, before: Time, calls: seq<Call>, i: nat)
    requires i < |calls| && AllSound(cfg, m, before) && InOrder(before, calls)
    ensures var mi := LedgerAfter(cfg, m, calls[..i]);
            && AnswersKeeping(cfg, m, calls)[i] == AllowKeeping(cfg, mi, calls[i]).1
            && LedgerAfter(cfg, m, calls[..i + 1]) == AllowKeeping(cfg, mi, calls[i]).0
            && AllSound(cfg, mi, calls[i].now)
    decreases i
  {
    var m1 := AllowKeeping(cfg, m, calls[0]).0;
    KeepingSound(cfg, m, before, calls[0]);
    assert calls[..i + 1][1..] == calls[1..][..i];
    if i == 0 {
      assert calls[..1][1..] == [];
    } else {
      AnswerAt(cfg, m1, calls[0].now, calls[1..], i - 1);
      assert calls[..i][1..] == calls[1..][..i - 1];
    }
  }

  lemma {:induction false} SilentKeyKept(cfg: Config, m: Ledger, before: Time, calls: seq<Call>, key: string, i: nat, j: nat)
    requires i <= j < |calls| && AllSound(cfg, m, before) && InOrder(before, calls)
    requires forall k | i <= k < j :: calls[k].key != key
    ensures Held(cfg, LedgerAfter(cfg, m, calls[..i]), key) == Held(cfg, LedgerAfter(cfg, m, calls[..j]), key)
    decreases j
  {
    if i < j {
      SilentKeyKept(cfg, m, before, calls, key, i, j - 1);
      AnswerAt(cfg, m, before, calls, j - 1);
      assert j - 1 + 1 == j;
    }
  }

  /** A bucket that refuses admits again once one token's time has passed. */
  lemma OneTokenReturns(cfg: Config, t: Tokens, now: Time, later: Time)
    requires cfg.Limiting() && Sound(cfg, t, now) && later - now >= cfg.perToken
    ensures Admits(cfg, t, later)
  {
    assert cfg.burst * cfg.perToken >= 1 * cfg.perToken;
  }

  lemma SilentIsAdmittedKeeping(cfg: Config, before: Time, calls: seq<Call>, i: nat, j: nat)
    requires i < j < |calls| && InOrder(before, calls)
    requires calls[i].key == calls[j].key && forall k | i < k < j :: calls[k].key != calls[i].key
    requires cfg.burst >= 1 && calls[j].now - calls[i].now >= cfg.perToken
    requires !AnswersKeeping(cfg, map[], calls)[i]
    ensures AnswersKeeping(cfg, map[], calls)[j]
  {
    var key := calls[i].key;
    AnswerAt(cfg, map[], before, calls, i);
    AnswerAt(cfg, map[], before, calls, j);
    SilentKeyKept(cfg, map[], before, calls, key, i + 1, j);
    var t := Held(cfg, LedgerAfter(cfg, map[], calls[..i]), key);
    assert Held(cfg, LedgerAfter(cfg, map[], calls[..i + 1]), key) == t;
    OneTokenReturns(cfg, t, calls[i].now, calls[j].now);
  }

  /** A refused caller who stays silent while one token returns is admitted on the next call. */
  lemma RefusedThenSilentIsAdmitted(
      requests: int, window: int, start: Time, from: Time, calls: seq<Call>, i: nat, j: nat)
    requires requests >= 1 && i < j < |calls| && InOrder(from, calls)
    requires calls[i].key == calls[j].key && forall k | i < k < j :: calls[k].key != calls[i].key
    requires !Answers(NewConfig(requests, window), New(start), calls)[i]
    requires calls[j].now - calls[i].now >= NewConfig(requests, window).perToken
    ensures Answers(NewConfig(requests, window), New(start), calls)[j]
  {
    SweepingInvisible(requests, window, start, from, calls);
    SilentIsAdmittedKeeping(NewConfig(requests, window), from, calls, i, j);
  }

  // ---------------------------------------------------------------------------------------------
  // Retry-After
  // ---------------------------------------------------------------------------------------------

  /** Duration.Round to the second (halves away from zero) as whole seconds, and at least one. */
  function RetryAfter(cfg: Config): (seconds: int) {
    var d := cfg.perToken;
    var rounded := if d < 0 then -((-d + SECOND / 2) / SECOND) else (d + SECOND / 2) / SECOND;
    if rounded > 1 then rounded else 1
  }

  lemma RoundedIff(cfg: Config)
    requires cfg.perToken > 0
    ensures cfg.perToken <= RetryAfter(cfg) * SECOND
            <==> (cfg.perToken < SECOND || cfg.perToken % SECOND == 0 || cfg.perToken % SECOND >= SECOND / 2)
  {
    assert cfg.perToken == (cfg.perToken / SECOND) * SECOND + cfg.perToken % SECOND;
  }

  lemma CapCoversOne(cfg: Config)
    requires cfg.Limiting()
    ensures cfg.Cap() >= cfg.perToken
  {
    assert cfg.burst * cfg.perToken >= 1 * cfg.perToken;
  }

  /**
  Waiting the advertised seconds is enough, whatever state the refusal left, exactly when the
  refill time is under a second or its fraction of a second does not round down.
  */
  lemma RetryAfterSufficesIff(cfg: Config)
    requires cfg.Limiting()
    ensures (forall t, now | Sound(cfg, t, now) && !Admits(cfg, t, now) ::
               Admits(cfg, t, now + RetryAfter(cfg) * SECOND))
            <==> (cfg.perToken < SECOND || cfg.perToken % SECOND == 0 || cfg.perToken % SECOND >= SECOND / 2)
  {
    var wait := RetryAfter(cfg) * SECOND;
    RoundedIff(cfg);
    CapCoversOne(cfg);
    if cfg.perToken <= wait {
      forall t, now | Sound(cfg, t, now) && !Admits(cfg, t, now) ensures Admits(cfg, t, now + wait) {}
    } else {
      var t := Tokens(0, 0);
      assert Sound(cfg, t, 0) && !Admits(cfg, t, 0) && !Admits(cfg, t, 0 + wait);
    }
  }

  // ---------------------------------------------------------------------------------------------
  // The map stays small
  // ---------------------------------------------------------------------------------------------

  /** The keys that called after `since`. */
  function CallersSince(calls: seq<Call>, since: Time): set<string> {
    set i | 0 <= i < |calls| && since < calls[i].now :: calls[i].key
  }

  /** Buckets kept at `now` were stamped by a call, and since one idle period before the last sweep. */
  ghost predicate Tidy(cfg: Config, s: State, past: seq<Call>, now: Time) {
    && s.lastSweep <= now
    && forall k | k in s.buckets ::
         && s.lastSweep - cfg.idle < s.buckets[k].seen <= now
         && Call(k, s.buckets[k].seen) in past
  }

  lemma TidyStep(cfg: Config, s: State, past: seq<Call>, before: Time, c: Call)
    requires cfg.idle > 0 && before <= c.now && Tidy(cfg, s, past, before)
    ensures var s1 := Allow(cfg, s, c).0;
            && Tidy(cfg, s1, past + [c], c.now)
            && s.lastSweep <= s1.lastSweep
            && forall k | k in s1.buckets :: c.now - 2 * cfg.idle < s1.buckets[k].seen
  {
    var s1 := Allow(cfg, s, c).0;
    forall k | k in s1.buckets ensures Call(k, s1.buckets[k].seen) in past + [c] {}
  }

  lemma {:induction false} TidyRun(cfg: Config, s: State, past: seq<Call>, before: Time, calls: seq<Call>)
    requires cfg.idle > 0 && InOrder(before, calls) && Tidy(cfg, s, past, before)
    ensures var s1, now := After(cfg, s, calls), if calls == [] then before else calls[|calls| - 1].now;
            && Tidy(cfg, s1, past + calls, now)
            && s.lastSweep <= s1.lastSweep
            && (calls != [] ==> forall k | k in s1.buckets :: now - 2 * cfg.idle < s1.buckets[k].seen)
    decreases calls
  {
    if calls == [] {
      assert past + calls == past;
    } else {
      TidyStep(cfg, s, past, before, calls[0]);
      assert past + calls == past + [calls[0]] + calls[1..];
      TidyRun(cfg, Allow(cfg, s, calls[0]).0, past + [calls[0]], calls[0].now, calls[1..]);
      if |calls| == 1 { assert calls[1..] == []; }
    }
  }

  lemma SubsetCount<T>(a: set<T>, b: set<T>)
    requires a <= b
    ensures |a| <= |b|
  {
    if a != {} {
      var x :| x in a;
      SubsetCount(a - {x}, b - {x});
    }
  }

  /** Every bucket was stamped by a call after `since`; so the buckets are among those callers'. */
  ghost predicate Recent(s: State, calls: seq<Call>, since: Time) {
    && s.buckets.Keys <= CallersSince(calls, since)
    && |s.buckets.Keys| <= |CallersSince(calls, since)|
    && forall k | k in s.buckets :: since < s.buckets[k].seen
  }

  lemma CallersCounted(cfg: Config, s: State, calls: seq<Call>, now: Time, since: Time)
    requires Tidy(cfg, s, calls, now) && forall k | k in s.buckets :: since < s.buckets[k].seen
    ensures Recent(s, calls, since)
  {
    forall k | k in s.buckets ensures k in CallersSince(calls, since) {
      var i :| 0 <= i < |calls| && calls[i] == Call(k, s.buckets[k].seen);
    }
    SubsetCount(s.buckets.Keys, CallersSince(calls, since));
  }

  /** The state after the calls, the last of them at `now`. */
  ghost predicate Bounded(s: State, start: Time, calls: seq<Call>, now: Time, span: Time) {
    start <= s.lastSweep <= now && Recent(s, calls, now - span)
  }

  /**
  The map cannot grow without bound: after any run in clock order every bucket kept was used less
  than two windows ago, so there are no more buckets than keys that called in that span.
  */
  lemma BucketsBounded(requests: int, window: int, start: Time, calls: seq<Call>)
    requires requests != 0 && window > 0 && calls != [] && InOrder(start, calls)
    ensures Bounded(After(NewConfig(requests, window), New(start), calls), start, calls, calls[|calls| - 1].now, 2 * window)
  {
    var cfg, now := NewConfig(requests, window), calls[|calls| - 1].now;
    SettledFromStart(cfg, start, calls, now);
    SettledBounded(cfg, After(cfg, New(start), calls), start, calls, now);
  }

  ghost predicate Settled(cfg: Config, s: State, start: Time, calls: seq<Call>, now: Time) {
    && Tidy(cfg, s, calls, now) && start <= s.lastSweep
    && forall k | k in s.buckets :: now - 2 * cfg.idle < s.buckets[k].seen
  }

  lemma SettledBounded(cfg: Config, s: State, start: Time, calls: seq<Call>, now: Time)
    requires Settled(cfg, s, start, calls, now)
    ensures Bounded(s, start, calls, now, 2 * cfg.idle)
  {
    CallersCounted(cfg, s, calls, now, now - 2 * cfg.idle);
  }

  lemma SettledFromStart(cfg: Config, start: Time, calls: seq<Call>, now: Time)
    requires cfg.idle > 0 && calls != [] && InOrder(start, calls) && now == calls[|calls| - 1].now
    ensures Settled(cfg, After(cfg, New(start), calls), start, calls, now)
  {
    var none: seq<Call> := [];
    TidyRun(cfg, New(start), none, start, calls);
    assert none + calls == calls;
  }

  /** A sweep is stamped an idle period after the one before, or does not happen; the order of calls is no matter. */
  lemma {:induction false} SweepForward(cfg: Config, s: State, calls: seq<Call>)
    requires cfg.idle > 0
    ensures s.lastSweep <= After(cfg, s, calls).lastSweep
    decreases calls
  {
    if calls != [] { SweepForward(cfg, Allow(cfg, s, calls[0]).0, calls[1..]); }
  }

  lemma {:induction false} AfterOn(cfg: Config, s: State, a: seq<Call>, b: seq<Call>)
    ensures After(cfg, s, a + b) == After(cfg, After(cfg, s, a), b)
    decreases a
  {
    if a == [] {
      assert a + b == b;
    } else {
      assert (a + b)[1..] == a[1..] + b;
      AfterOn(cfg, Allow(cfg, s, a[0]).0, a[1..], b);
    }
  }

  /** From any call to any later one of a run, in clock order or not, the last sweep never goes back. */
  lemma LastSweepForward(requests: int, window: int, start: Time, calls: seq<Call>, i: nat, j: nat)
    requires requests != 0 && window > 0 && i <= j <= |calls|
    ensures var cfg := NewConfig(requests, window);
            After(cfg, New(start), calls[..i]).lastSweep <= After(cfg, New(start), calls[..j]).lastSweep
  {
    var cfg := NewConfig(requests, window);
    assert calls[..j] == calls[..i] + calls[i..j];
    AfterOn(cfg, New(start), calls[..i], calls[i..j]);
    SweepForward(cfg, After(cfg, New(start), calls[..i]), calls[i..j]);
  }

  // ---------------------------------------------------------------------------------------------
  // Exactly which calls are admitted
  // ---------------------------------------------------------------------------------------------

  /** How many of the calls by `key` from `j` up to `i` were admitted. */
  function AdmittedFrom(calls: seq<Call>, answers: seq<bool>, key: string, j: nat, i: nat): nat
    requires j <= i <= |calls| == |answers|
    decreases i
  {
    if i == j then 0
    else AdmittedFrom(calls, answers, key, j, i - 1) + if answers[i - 1] && calls[i - 1].key == key then 1 else 0
  }

  /** `x` more of credit at `now` goes over what call `j` and those after it left, or does not. */
  predicate FitsSince(calls: seq<Call>, answers: seq<bool>, key: string, j: nat, i: nat, now: Time, x: int, cap: int, each: int)
    requires j < i <= |calls| == |answers|
  {
    answers[j] && calls[j].key == key ==>
      x + AdmittedFrom(calls, answers, key, j, i) * each <= cap + (now - calls[j].now)
  }

  ghost predicate Fits(calls: seq<Call>, answers: seq<bool>, key: string, i: nat, now: Time, x: int, cap: int, each: int)
    requires i <= |calls| == |answers|
  {
    forall j: nat | j < i :: FitsSince(calls, answers, key, j, i, now, x, cap, each)
  }

  lemma OneMore(n: nat, each: int)
    ensures (n + 1) * each == n * each + each
  {}

  predicate Mine(calls: seq<Call>, answers: seq<bool>, key: string, i: nat)
    requires i < |calls| == |answers|
  {
    answers[i] && calls[i].key == key
  }

  lemma FitsItself(calls: seq<Call>, answers: seq<bool>, key: string, i: nat, now: Time, x: int, cap: int, each: int)
    requires i < |calls| == |answers|
    ensures FitsSince(calls, answers, key, i, i + 1, now, x, cap, each)
            <==> (Mine(calls, answers, key, i) ==> x + each <= cap + (now - calls[i].now))
  {
    assert AdmittedFrom(calls, answers, key, i, i) == 0;
    assert AdmittedFrom(calls, answers, key, i, i + 1) == if Mine(calls, answers, key, i) then 1 else 0;
  }

  lemma FitsEarlier(calls: seq<Call>, answers: seq<bool>, key: string, j: nat, i: nat, now: Time, x: int, cap: int, each: int)
    requires j < i < |calls| == |answers|
    ensures FitsSince(calls, answers, key, j, i + 1, now, x, cap, each)
            <==> if Mine(calls, answers, key, i)
                 then FitsSince(calls, answers, key, j, i, calls[i].now, x + each - (now - calls[i].now), cap, each)
                 else FitsSince(calls, answers, key, j, i, now, x, cap, each)
  {
    OneMore(AdmittedFrom(calls, answers, key, j, i), each);
  }

  /** An admitted call is one more to fit, for those before it and for itself; no other call is. */
  lemma FitsSnoc(calls: seq<Call>, answers: seq<bool>, key: string, i: nat, now: Time, x: int, cap: int, each: int)
    requires i < |calls| == |answers|
    ensures Fits(calls, answers, key, i + 1, now, x, cap, each)
            <==> if Mine(calls, answers, key, i) then
                   var y := x + each - (now - calls[i].now);
                   y <= cap && Fits(calls, answers, key, i, calls[i].now, y, cap, each)
                 else Fits(calls, answers, key, i, now, x, cap, each)
  {
    var y := x + each - (now - calls[i].now);
    var mine := Mine(calls, answers, key, i);
    FitsItself(calls, answers, key, i, now, x, cap, each);
    if Fits(calls, answers, key, i + 1, now, x, cap, each) {
      assert FitsSince(calls, answers, key, i, i + 1, now, x, cap, each);
      forall j: nat | j < i
        ensures if mine then FitsSince(calls, answers, key, j, i, calls[i].now, y, cap, each)
                else FitsSince(calls, answers, key, j, i, now, x, cap, each)
      {
        assert FitsSince(calls, answers, key, j, i + 1, now, x, cap, each);
        FitsEarlier(calls, answers, key, j, i, now, x, cap, each);
      }
    }
    if if mine then y <= cap && Fits(calls, answers, key, i, calls[i].now, y, cap, each)
       else Fits(calls, answers, key, i, now, x, cap, each)
    {
      var n := i + 1;
      forall j: nat | j < n ensures FitsSince(calls, answers, key, j, n, now, x, cap, each) {
        if j < i { FitsEarlier(calls, answers, key, j, i, now, x, cap, each); }
      }
    }
  }

  /** Stamps before call `i` are no later than its own. */
  lemma {:induction false} EarlierStamps(from: Time, calls: seq<Call>, i: nat)
    requires i < |calls| && InOrder(from, calls)
    ensures from <= calls[i].now && forall j | 0 <= j < i :: calls[j].now <= calls[i].now
    decreases i
  {
    if i > 0 {
      EarlierStamps(calls[0].now, calls[1..], i - 1);
      forall j | 0 <= j < i ensures calls[j].now <= calls[i].now {
        if j > 0 { assert calls[j] == calls[1..][j - 1]; }
      }
    }
  }

  /** The credit of a key before call `i`, by nothing but the stamps of its admitted calls. */
  lemma {:induction false} CreditIff(cfg: Config, from: Time, calls: seq<Call>, key: string, i: nat, now: Time, x: int)
    requires cfg.Limiting() && InOrder(from, calls) && i <= |calls| && x <= cfg.Cap()
    requires i > 0 ==> calls[i - 1].now <= now
    ensures var answers, t := AnswersKeeping(cfg, map[], calls), Held(cfg, LedgerAfter(cfg, map[], calls[..i]), key);
            x <= Credit(cfg, t, now) <==> Fits(calls, answers, key, i, now, x, cfg.Cap(), cfg.perToken)
    decreases i
  {
    var answers := AnswersKeeping(cfg, map[], calls);
    if i == 0 {
      assert calls[..0] == [];
    } else {
      var last := i - 1;
      var c := calls[last];
      AnswerAt(cfg, map[], from, calls, last);
      FitsSnoc(calls, answers, key, last, now, x, cfg.Cap(), cfg.perToken);
      EarlierStamps(from, calls, last);
      if answers[last] && c.key == key {
        var y := x + cfg.perToken - (now - c.now);
        if y <= cfg.Cap() { CreditIff(cfg, from, calls, key, last, c.now, y); }
      } else {
        CreditIff(cfg, from, calls, key, last, now, x);
      }
    }
  }

  /** Counted in, call `i` and the key's admitted calls since any earlier one are within the burst and what returned since. */
  ghost predicate WithinBurst(calls: seq<Call>, answers: seq<bool>, i: nat, requests: int, p: int)
    requires i < |calls| == |answers|
  {
    forall j: nat | j < i && answers[j] && calls[j].key == calls[i].key ::
      (AdmittedFrom(calls, answers, calls[i].key, j, i) + 1) * p <= requests * p + (calls[i].now - calls[j].now)
  }

  /**
  Exactly which calls are admitted, for every run in clock order, by the numbers the limiter was made with
  and nothing else: those within the burst. In particular the first `requests` calls of a key always are.
  */
  lemma AdmittedIff(requests: int, window: int, start: Time, from: Time, calls: seq<Call>, i: nat)
    requires requests >= 1 && window >= requests && InOrder(from, calls) && i < |calls|
    ensures var answers := Answers(NewConfig(requests, window), New(start), calls);
            answers[i] <==> WithinBurst(calls, answers, i, requests, window / requests)
  {
    WindowPerRequest(requests, window);
    SweepingInvisible(requests, window, start, from, calls);
    AdmittedFits(NewConfig(requests, window), from, calls, i);
    FitsWithin(calls, AnswersKeeping(NewConfig(requests, window), map[], calls), i, requests, window / requests);
  }

  lemma AdmittedFits(cfg: Config, from: Time, calls: seq<Call>, i: nat)
    requires cfg.Limiting() && InOrder(from, calls) && i < |calls|
    ensures var answers := AnswersKeeping(cfg, map[], calls);
            answers[i] <==> Fits(calls, answers, calls[i].key, i, calls[i].now, cfg.perToken, cfg.Cap(), cfg.perToken)
  {
    CapCoversOne(cfg);
    AnswerAt(cfg, map[], from, calls, i);
    EarlierStamps(from, calls, i);
    CreditIff(cfg, from, calls, calls[i].key, i, calls[i].now, cfg.perToken);
  }

  lemma FitsWithin(calls: seq<Call>, answers: seq<bool>, i: nat, requests: int, p: int)
    requires i < |calls| == |answers|
    ensures Fits(calls, answers, calls[i].key, i, calls[i].now, p, requests * p, p)
            <==> WithinBurst(calls, answers, i, requests, p)
  {
    forall j: nat | j < i
      ensures FitsSince(calls, answers, calls[i].key, j, i, calls[i].now, p, requests * p, p)
              <==> (answers[j] && calls[j].key == calls[i].key ==>
                      (AdmittedFrom(calls, answers, calls[i].key, j, i) + 1) * p <= requests * p + (calls[i].now - calls[j].now))
    {
      OneMore(AdmittedFrom(calls, answers, calls[i].key, j, i), p);
    }
  }

  lemma WindowPerRequest(requests: int, window: int)
    requires requests >= 1 && window >= requests
    ensures window / requests >= 1
  {
    var q := window / requests;
    assert window == requests * q + window % requests;
    assert q <= 0 ==> requests * q <= 0;
  }

  /** A new limiter admits as many calls of a key at one stamp as it was made for, and no more. */
  lemma FullBurst(requests: int, window: int, start: Time, c: Call, n: nat)
    requires requests >= 1 && window >= requests
    ensures AllAdmitted(Answers(NewConfig(requests, window), New(start), Again(c, n))) <==> n <= requests
  {
    var cfg := NewConfig(requests, window);
    WindowPerRequest(requests, window);
    SweepingServed(cfg, New(start), c, n);
    FullRanged(cfg);
    BurstServedIff(cfg, Full(cfg), c.now, n);
    Fewer(n, requests, cfg.perToken);
  }

  lemma Fewer(a: int, b: int, each: int)
    requires each > 0
    ensures a * each <= b * each <==> a <= b
  {
    Difference(a, b, each);
    assert a <= b ==> (b - a) * each >= 0;
    assert a > b ==> (b - a) * each < 0;
  }

  lemma Difference(a: int, b: int, each: int)
    ensures b * each - a * each == (b - a) * each
  {}

  /** With less than a nanosecond to a call everything is admitted; with a negative burst nothing is. */
  lemma {:induction false} DegenerateAnswers(requests: int, window: int, s: State, calls: seq<Call>, i: nat)
    requires requests != 0 && i < |calls| && (TruncDiv(window, requests) <= 0 || requests < 0)
    ensures Answers(NewConfig(requests, window), s, calls)[i] <==> TruncDiv(window, requests) <= 0
    decreases i
  {
    if i > 0 { DegenerateAnswers(requests, window, Allow(NewConfig(requests, window), s, calls[0]).0, calls[1..], i - 1); }
  }

  /** The hint is the refill time to the nearest second, and never less than one. */
  lemma RetryAfterNearest(cfg: Config)
    requires cfg.perToken > 0
    ensures RetryAfter(cfg) >= 1
    ensures cfg.perToken >= 500_000_000 ==>
              -500_000_000 < RetryAfter(cfg) * 1_000_000_000 - cfg.perToken <= 500_000_000
    ensures cfg.perToken < 500_000_000 ==> RetryAfter(cfg) == 1
  {
    assert cfg.perToken == (cfg.perToken / SECOND) * SECOND + cfg.perToken % SECOND;
  }

  /**
  An admitted call, stamped before or after the one before it, leaves what it found less one token, and from
  its own stamp on time counts: when the clock stepped back by `d`, those `d` are credited again.
  */
  lemma CreditAfter(requests: int, window: int, t: Tokens, now: Time, later: Time)
    requires requests >= 1 && window >= requests && 0 <= t.credit <= requests * (window / requests)
    requires Admits(NewConfig(requests, window), t, now) && now <= later
    ensures var p := window / requests;
            var found := Min(requests * p, if now < t.last then t.credit else t.credit + (now - t.last));
            Credit(NewConfig(requests, window), Spend(NewConfig(requests, window), t, now), later)
            == Min(requests * p, found - p + (later - now))
  {
    WindowPerRequest(requests, window);
  }

  /**
  After any call, in whatever order they come: a caller's bucket is there, seen now; any other is as it was if
  the last sweep is less than a window ago or it was itself seen less than a window ago, and gone otherwise.
  */
  lemma KeptIff(requests: int, window: int, s: State, c: Call, key: string)
    requires requests != 0
    ensures var s2 := Allow(NewConfig(requests, window), s, c).0;
            && c.key in s2.buckets && s2.buckets[c.key].seen == c.now
            && s2.lastSweep == (if c.now - s.lastSweep < window then s.lastSweep else c.now)
            && (key != c.key ==>
                  (key in s2.buckets <==>
                     key in s.buckets && (c.now - s.lastSweep < window || c.now - s.buckets[key].seen < window)))
            && (key != c.key && key in s2.buckets ==> s2.buckets[key] == s.buckets[key])
  {}
}
