/** The limiter as the source keeps it: buckets are shared objects updated in place behind a map. */
module Limiters {
  import opened RateLimit

  class Visitor {
    var tokens: Tokens
    var seen: Time

    constructor (tokens: Tokens)
      ensures this.tokens == tokens
    {
      this.tokens := tokens;
      seen := 0;
    }

    /** rate.Limiter's AllowN(now, 1). */
    method AllowOne(cfg: Config, now: Time) returns (ok: bool)
      modifies this`tokens
      ensures ok == Admits(cfg, old(tokens), now)
      ensures tokens == Spend(cfg, old(tokens), now)
    {
      if cfg.perToken <= 0 { return true; }
      var elapsed := if now < tokens.last then 0 else now - tokens.last;
      var credit := tokens.credit + elapsed;
      if credit > cfg.burst * cfg.perToken { credit := cfg.burst * cfg.perToken; }
      ok := 1 <= cfg.burst && credit - cfg.perToken >= 0;
      if ok { tokens := Tokens(credit - cfg.perToken, now); }
    }
  }

  class Limiter {
    const cfg: Config
    var buckets: map<string, Visitor>
    var lastSweep: Time

    /** No two keys share a bucket. */
    ghost predicate Valid()
      reads this
    {
      forall k, l | k in buckets && l in buckets && k != l :: buckets[k] != buckets[l]
    }

    ghost function View(): State
      reads this, buckets.Values
    {
      State(map k | k in buckets :: Bucket(buckets[k].tokens, buckets[k].seen), lastSweep)
    }

    constructor (requests: int, window: int, now: Time)
      requires requests != 0
      ensures Valid() && cfg == NewConfig(requests, window) && View() == New(now)
      ensures buckets == map[]
    {
      cfg := NewConfig(requests, window);
      buckets, lastSweep := map[], now;
    }

    method Allow(key: string, now: Time) returns (ok: bool)
      requires Valid()
      modifies this`buckets, this`lastSweep, buckets.Values
      ensures Valid() && fresh(buckets.Values - old(buckets.Values))
      ensures (View(), ok) == RateLimit.Allow(cfg, old(View()), Call(key, now))
    {
      Sweep(now);
      ghost var s1 := View();
      var visitor := VisitorFor(key);
      ghost var s2 := View();
      visitor.seen := now;
      ok := visitor.AllowOne(cfg, now);
      ghost var updated := Bucket(Spend(cfg, TokensOf(cfg, s1, key), now), now);
      Updated(s1, s2, key, updated);
    }

    /** Only the bucket of `key` differs between the two states and now. */
    lemma Updated(s1: State, s2: State, key: string, b: Bucket)
      requires key in buckets && buckets.Keys == s1.buckets.Keys + {key} && lastSweep == s1.lastSweep
      requires Bucket(buckets[key].tokens, buckets[key].seen) == b
      requires s2.buckets.Keys == buckets.Keys
      requires forall k | k in buckets && k != key :: View().buckets[k] == s2.buckets[k] == s1.buckets[k]
      ensures View() == s1.(buckets := s1.buckets[key := b])
    {
      assert View().buckets == s1.buckets[key := b];
    }

    /** The caller's bucket; a caller without one gets a full one. */
    method VisitorFor(key: string) returns (visitor: Visitor)
      requires Valid()
      modifies this`buckets
      ensures Valid() && key in buckets && visitor == buckets[key]
      ensures buckets.Values <= old(buckets.Values) + {visitor}
      ensures visitor in old(buckets.Values) || fresh(visitor)
      ensures visitor.tokens == TokensOf(cfg, old(View()), key)
      ensures buckets.Keys == old(buckets.Keys) + {key}
      ensures forall k | k in old(buckets) :: buckets[k] == old(buckets[k])
    {
      if key in buckets {
        visitor := buckets[key];
      } else {
        visitor := new Visitor(Full(cfg));
        buckets := buckets[key := visitor];
      }
    }

    method Sweep(now: Time)
      requires Valid()
      modifies this`buckets, this`lastSweep
      ensures Valid() && buckets.Values <= old(buckets.Values)
      ensures View() == Swept(cfg, old(View()), now)
    {
      if now - lastSweep < cfg.idle { return; }
      ghost var before := buckets;
      var pending := buckets.Keys;
      while pending != {}
        invariant pending <= before.Keys
        invariant forall k :: k in buckets <==> k in before && (k in pending || now - before[k].seen < cfg.idle)
        invariant forall k | k in buckets :: buckets[k] == before[k]
        decreases pending
      {
        var key :| key in pending;
        if now - buckets[key].seen >= cfg.idle {
          buckets := buckets - {key};
        }
        pending := pending - {key};
      }
      lastSweep := now;
    }
  }
}
