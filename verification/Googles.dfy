/** The verifier's key fields as the source keeps them. */
module Googles {
  import opened Common
  import opened KeyCache

  class Google {
    var keys: map<string, PublicKey>
    var fetched: Time

    function View(): Cache
      reads this
    {
      Cache(keys, fetched)
    }

    constructor ()
      ensures View() == EMPTY
    {
      keys, fetched := map[], 0;
    }

    /** `now` and `arrived` are the two readings of the clock; `outcome` is what a fetch would come to. */
    method Key(kid: string, now: Time, outcome: Fetch, arrived: Time) returns (answer: Answer)
      modifies this
      ensures var l := Lookup(kid, now, outcome, arrived);
              View() == Next(old(View()), l) && answer == AnswerTo(old(View()), l)
    {
      var inTime := now - fetched < KEYS_TTL;
      if kid in keys && inTime {
        return Found(keys[kid]);
      }
      if now - fetched >= KEYS_COOLDOWN {
        var ok := Refresh(outcome, arrived);
        if !ok { return Unreachable; }
      }
      if kid in keys {
        return Found(keys[kid]);
      }
      return UnknownKey;
    }

    method Refresh(outcome: Fetch, arrived: Time) returns (ok: bool)
      modifies this
      ensures ok <==> outcome.Fetched?
      ensures View() == if ok then Cache(KeysOf(outcome.rows), arrived) else old(View())
    {
      if outcome.Failed? { return false; }
      var rows := outcome.rows;
      var loaded: map<string, PublicKey> := map[];
      for i := 0 to |rows|
        invariant loaded == KeysOf(rows[..i])
      {
        assert rows[..i + 1][..i] == rows[..i];
        var k := rows[i];
        if k.kty != "RSA" { continue; }
        if k.n.None? || k.e.None? { continue; }
        loaded := loaded[k.kid := PublicKey(k.n.value, k.e.value)];
      }
      assert rows[..|rows|] == rows;
      keys, fetched := loaded, arrived;
      return true;
    }
  }
}
