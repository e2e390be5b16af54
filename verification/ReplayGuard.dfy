// The replay guard of signed service calls (`bridge_auth.py`): a clock window, and a store that remembers nonces for
// a while.
module ReplayGuard {
  import opened Wrappers

  /** The key under which a nonce is remembered. */
  datatype Nonce = Nonce(service: string, keyId: string, nonce: string)

  /**
   * A call as the verifier sees it, at a time after the epoch: its nonce and timestamp, and what the checks on the rest
   * of it say.
   */
  datatype Call = Call(
    nonce: Nonce,
    timestamp: Option<int>,          // `None` when the header is not a number
    at: real,
    complete: bool,                  // no header is missing
    nonceShaped: bool,
    keyKnown: bool,
    contentMatches: bool,            // the body has the hash in the header
    signatureMatches: bool)
  {
    predicate WellFormed() {
      complete && nonceShaped && keyKnown && timestamp.Some?
    }

    predicate Authentic() {
      contentMatches && signatureMatches
    }
  }

  datatype Verdict = Accepted | Required | Invalid | Expired | Replay

  /** Until when each nonce is remembered. */
  type Store = map<Nonce, real>

  predicate InWindow(c: Call, skew: nat)
    requires c.timestamp.Some?
  {
    c.timestamp.value - skew <= c.at.Floor <= c.timestamp.value + skew
  }

  predicate Remembered(store: Store, c: Call) {
    c.nonce in store && c.at < store[c.nonce]
  }

  function Judge(store: Store, c: Call, skew: nat): Verdict {
    if !c.complete then Required
    else if !c.WellFormed() then Invalid
    else if !InWindow(c, skew) then Expired
    else if !c.Authentic() then Invalid
    else if Remembered(store, c) then Replay
    else Accepted
  }

  class ServiceAuthVerifier {
    const skew: nat
    const ttl: nat
    var store: Store

    constructor (skew: nat, ttl: nat)
      ensures this.skew == skew && this.ttl == ttl && store == map[]
    {
      this.skew, this.ttl, store := skew, ttl, map[];
    }

    /** Every verdict has its condition, and only an accepted call changes the store. */
    method Verify(c: Call) returns (v: Verdict)
      modifies this
      ensures v == Judge(old(store), c, skew)
      ensures store == After(old(store), c, skew, ttl)
      ensures v.Required? <==> !c.complete
      ensures v.Expired? <==>
        && c.complete && c.nonceShaped && c.keyKnown && c.timestamp.Some?
        && (c.at.Floor < c.timestamp.value - skew || c.at.Floor > c.timestamp.value + skew)
      ensures v.Accepted? || v.Replay? <==>
        && c.complete && c.nonceShaped && c.keyKnown && c.timestamp.Some?
        && c.timestamp.value - skew <= c.at.Floor <= c.timestamp.value + skew
        && c.contentMatches && c.signatureMatches
      ensures v.Accepted? ==> c.nonce !in old(store) || old(store)[c.nonce] <= c.at
      ensures v.Replay? ==> c.nonce in old(store) && c.at < old(store)[c.nonce]
      ensures store == if v.Accepted? then old(store)[c.nonce := c.at + ttl as real] else old(store)
    {
      if !c.complete {
        return Required;
      }
      if !c.nonceShaped || !c.keyKnown || c.timestamp.None? {
        return Invalid;
      }
      var drift := c.at.Floor - c.timestamp.value;
      if (if drift < 0 then -drift else drift) > skew {
        return Expired;
      }
      if !c.contentMatches || !c.signatureMatches {
        return Invalid;
      }
      var accepted := SetIfAbsent(c.nonce, c.at);
      v := if accepted then Accepted else Replay;
    }

    /** SET with NX and EX: stores the key unless it is there and has not expired. */
    method SetIfAbsent(key: Nonce, now: real) returns (stored: bool)
      modifies this
      ensures stored <==> !(key in old(store) && now < old(store)[key])
      ensures store == if stored then old(store)[key := now + ttl as real] else old(store)
    {
      if key in store && now < store[key] {
        return false;
      }
      store := store[key := now + ttl as real];
      stored := true;
    }
  }

  function After(store: Store, c: Call, skew: nat, ttl: nat): Store {
    if Judge(store, c, skew).Accepted? then store[c.nonce := c.at + ttl as real] else store
  }

  /** The store after the first `n` calls. */
  function StoreAt(calls: seq<Call>, n: nat, skew: nat, ttl: nat): Store
    requires n <= |calls|
  {
    if n == 0 then map[] else After(StoreAt(calls, n - 1, skew, ttl), calls[n - 1], skew, ttl)
  }

  predicate AcceptedAt(calls: seq<Call>, i: nat, skew: nat, ttl: nat)
    requires i < |calls|
  {
    Judge(StoreAt(calls, i, skew, ttl), calls[i], skew).Accepted?
  }

  predicate Same(c: Call, d: Call) {
    c.nonce == d.nonce && c.timestamp == d.timestamp
  }

  /**
   * In every run a nonce is in the store only because a complete, authentic call within the clock window carried it,
   * and until its lifetime after that call.
   */
  lemma {:induction false} NonceWasProven(calls: seq<Call>, n: nat, nonce: Nonce, skew: nat, ttl: nat) returns (i: nat)
    requires n <= |calls| && nonce in StoreAt(calls, n, skew, ttl)
    ensures i < n && calls[i].nonce == nonce
    ensures StoreAt(calls, n, skew, ttl)[nonce] == calls[i].at + ttl as real
    ensures
      var c := calls[i];
      && c.complete && c.nonceShaped && c.keyKnown && c.contentMatches && c.signatureMatches && c.timestamp.Some?
      && c.timestamp.value - skew <= c.at.Floor <= c.timestamp.value + skew
  {
    if AcceptedAt(calls, n - 1, skew, ttl) && calls[n - 1].nonce == nonce {
      i := n - 1;
    } else {
      i := NonceWasProven(calls, n - 1, nonce, skew, ttl);
    }
  }

  /** An accepted nonce is remembered at least for the time it is stored, whatever comes after. */
  lemma {:induction false} NonceIsKept(calls: seq<Call>, i: nat, n: nat, skew: nat, ttl: nat)
    requires i < n <= |calls| && AcceptedAt(calls, i, skew, ttl) && TimeFlows(calls)
    ensures calls[i].nonce in StoreAt(calls, n, skew, ttl)
    ensures calls[i].at + ttl as real <= StoreAt(calls, n, skew, ttl)[calls[i].nonce]
  {
    if i < n - 1 {
      NonceIsKept(calls, i, n - 1, skew, ttl);
      assert calls[i].at <= calls[n - 1].at;
    }
  }

  predicate TimeFlows(calls: seq<Call>) {
    forall i, j :: 0 <= i < j < |calls| ==> calls[i].at <= calls[j].at
  }

  /** Storing nonces long enough for both ends of the clock window, and the second the clock truncates, is enough. */
  lemma LongEnoughIsSafe(calls: seq<Call>, i: nat, j: nat, skew: nat, ttl: nat)
    requires ttl >= 2 * skew + 1 && TimeFlows(calls)
    requires i < j < |calls| && AcceptedAt(calls, i, skew, ttl) && AcceptedAt(calls, j, skew, ttl)
    ensures !Same(calls[i], calls[j])
  {
    NonceIsKept(calls, i, j, skew, ttl);
  }

  /** No two accepted calls of the run are the same. */
  ghost predicate NoRepeats(calls: seq<Call>, skew: nat, ttl: nat) {
    forall i, j :: 0 <= i < j < |calls| && AcceptedAt(calls, i, skew, ttl) && AcceptedAt(calls, j, skew, ttl) ==>
      !Same(calls[i], calls[j])
  }

  /** The two ends of the clock window of one timestamp. */
  function WindowEnds(skew: nat): seq<Call> {
    var nonce := Nonce("s", "k", "n");
    [Call(nonce, Some(skew), 0.0, true, true, true, true, true),
     Call(nonce, Some(skew), 2.0 * skew as real + 0.5, true, true, true, true, true)]
  }

  /**
   * In every run no two accepted calls carry the same service, key, nonce and timestamp, exactly when nonces are
   * stored for at least twice the clock skew and one second.
   */
  lemma NoRepeatsIff(skew: nat, ttl: nat)
    ensures ttl >= 2 * skew + 1 <==> forall calls :: TimeFlows(calls) ==> NoRepeats(calls, skew, ttl)
  {
    if ttl >= 2 * skew + 1 {
      forall calls | TimeFlows(calls) ensures NoRepeats(calls, skew, ttl) {
        forall i, j | 0 <= i < j < |calls| && AcceptedAt(calls, i, skew, ttl) && AcceptedAt(calls, j, skew, ttl)
          ensures !Same(calls[i], calls[j])
        {
          LongEnoughIsSafe(calls, i, j, skew, ttl);
        }
      }
    } else {
      var calls := WindowEnds(skew);
      assert calls[1].at.Floor == 2 * skew;
      var first := StoreAt(calls, 1, skew, ttl);
      assert AcceptedAt(calls, 0, skew, ttl);
      assert StoreAt(calls, 0, skew, ttl) == map[] && first == map[calls[0].nonce := 0.0 + ttl as real];
      assert AcceptedAt(calls, 1, skew, ttl) && Same(calls[0], calls[1]);
      assert TimeFlows(calls) && !NoRepeats(calls, skew, ttl);
    }
  }
}
