/** API-key verification and its last-used throttle. */
module Throttle {
  import opened Amount

  /** Seconds between two last-used writes of one key. */
  const TOUCH_INTERVAL := 60

  datatype ApiKey = ApiKey(id: string, name: string, scopes: seq<string>, lastUsedAt: int)

  predicate Due(lastUsedAt: int, now: int) { now - lastUsedAt >= TOUCH_INTERVAL }

  class KeyStore {
    /** The stored keys by the hash of their secret. */
    var keys: map<string, ApiKey>

    /** A presented bearer with its hash. `readFails` and `writeFails` are what the database does to the lookup and
        to the touch; a failed touch is only logged, so the key still verifies, with the time it was read with. */
    method VerifyApiKey(presented: string, hash: string, now: int, readFails: bool, writeFails: bool)
      returns (key: Option<ApiKey>, wrote: bool)
      modifies this
      ensures key == if presented == "" || readFails || hash !in old(keys) then None else Some(old(keys)[hash])
      ensures wrote <==> key.Some? && now - key.value.lastUsedAt >= 60 && !writeFails
      ensures keys == if wrote then old(keys)[hash := old(keys)[hash].(lastUsedAt := now)] else old(keys)
      ensures key.Some? ==> (keys[hash].lastUsedAt, if wrote then 1 else 0)
                            == Touch(key.value.lastUsedAt, [Call(now, writeFails)])
    {
      wrote := false;
      if presented == "" || readFails || hash !in keys { return None, false; }
      key := Some(keys[hash]);
      if Due(key.value.lastUsedAt, now) && !writeFails {
        keys := keys[hash := keys[hash].(lastUsedAt := now)];
        wrote := true;
      }
    }
  }

  /** One successful verification of a key: when, and whether a touch would fail. */
  datatype Call = Call(now: int, writeFails: bool)

  /** The stored time and the number of writes after a run of verifications. */
  function Touch(lastUsedAt: int, calls: seq<Call>): (int, nat) {
    if calls == [] then (lastUsedAt, 0)
    else
      var before := Touch(lastUsedAt, calls[..|calls| - 1]);
      var last := calls[|calls| - 1];
      if Due(before.0, last.now) && !last.writeFails then (last.now, before.1 + 1) else before
  }

  predicate Forward(calls: seq<Call>) { forall i, j :: 0 <= i < j < |calls| ==> calls[i].now <= calls[j].now }

  /** However many verifications a key gets, it is written at most once a minute: writes span the calls' times, whether
      or not some of them fail and whatever time was stored before. */
  lemma {:induction false} WritesAreSpaced(lastUsedAt: int, calls: seq<Call>)
    requires Forward(calls)
    ensures var (last, writes) := Touch(lastUsedAt, calls);
            && (writes == 0 ==> last == lastUsedAt)
            && (writes > 0 ==> calls != [] && (writes - 1) * 60 <= last - calls[0].now
                               && last <= calls[|calls| - 1].now)
  {
    if calls != [] { WritesAreSpaced(lastUsedAt, calls[..|calls| - 1]); }
  }

  /** So there are at most as many writes as whole minutes in the run, plus one; and after the last verification the
      stored time is less than a minute old, unless a touch was due then and failed. */
  lemma TouchBound(lastUsedAt: int, calls: seq<Call>)
    requires Forward(calls) && calls != []
    ensures Touch(lastUsedAt, calls).1 <= (calls[|calls| - 1].now - calls[0].now) / 60 + 1
    ensures var last := calls[|calls| - 1];
            last.now - Touch(lastUsedAt, calls).0 < 60
            <==> !(last.writeFails && Due(Touch(lastUsedAt, calls[..|calls| - 1]).0, last.now))
  {
    WritesAreSpaced(lastUsedAt, calls);
    var n, span := Touch(lastUsedAt, calls).1, calls[|calls| - 1].now - calls[0].now;
    if n > 0 { assert (n - 1) * 60 <= span; }
  }
}
