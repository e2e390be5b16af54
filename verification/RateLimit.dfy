// The per-minute rate limiter (`human_auth.py`): a counter for every token and minute, which expires.
module RateLimit {
  import opened Wrappers

  /** The key of a counter. */
  datatype Slot = Slot(token: string, bucket: int)

  datatype Counter = Counter(count: nat, expires: Option<real>)

  /** A request at a time; `interrupted` when the process stops between counting it and setting the expiry. */
  datatype Request = Request(token: string, at: real, interrupted: bool)

  type Store = map<Slot, Counter>

  const MINUTE := 60.0
  const LIFETIME := 120.0

  /** Python `int(now // 60)`. */
  function Bucket(at: real): int {
    (at / MINUTE).Floor
  }

  function SlotOf(r: Request): Slot {
    Slot(r.token, Bucket(r.at))
  }

  /** INCR on a store whose expired keys are gone. */
  function Incremented(store: Store, slot: Slot, now: real): Counter {
    if slot in store && (store[slot].expires.None? || now < store[slot].expires.value)
    then store[slot].(count := store[slot].count + 1)
    else Counter(1, None)
  }

  function After(store: Store, r: Request): Store {
    var counter := Incremented(store, SlotOf(r), r.at);
    store[SlotOf(r) := if counter.count == 1 && !r.interrupted
      then counter.(expires := Some(r.at + LIFETIME)) else counter]
  }

  predicate Admits(store: Store, r: Request, limit: nat) {
    !r.interrupted && Incremented(store, SlotOf(r), r.at).count <= limit
  }

  class HumanRateLimiter {
    const limit: nat
    var store: Store

    constructor (limit: nat)
      ensures this.limit == limit && store == map[]
    {
      this.limit, store := limit, map[];
    }

    method Check(r: Request) returns (admitted: bool)
      modifies this
      ensures store == After(old(store), r)
      ensures admitted <==> Admits(old(store), r, limit)
      ensures
        var slot := Slot(r.token, (r.at / 60.0).Floor);
        var live := slot in old(store) && (old(store)[slot].expires.None? || r.at < old(store)[slot].expires.value);
        var count := if live then old(store)[slot].count + 1 else 1;
        && (admitted <==> !r.interrupted && count <= limit)
        && var expires := if live then old(store)[slot].expires else None;
           store == old(store)[slot :=
             Counter(count, if count == 1 && !r.interrupted then Some(r.at + 120.0) else expires)]
    {
      var slot := Slot(r.token, Bucket(r.at));
      var counter := Incremented(store, slot, r.at);
      store := store[slot := counter];
      if r.interrupted {
        return false;
      }
      if counter.count == 1 {
        store := store[slot := counter.(expires := Some(r.at + LIFETIME))];
      }
      admitted := counter.count <= limit;
    }
  }

  // ----- Runs

  function StoreAt(run: seq<Request>, n: nat): Store
    requires n <= |run|
  {
    if n == 0 then map[] else After(StoreAt(run, n - 1), run[n - 1])
  }

  predicate AdmittedAt(run: seq<Request>, i: nat, limit: nat)
    requires i < |run|
  {
    Admits(StoreAt(run, i), run[i], limit)
  }

  /** How many of the first `n` requests fell into the slot. */
  function Seen(run: seq<Request>, n: nat, slot: Slot): nat
    requires n <= |run|
  {
    if n == 0 then 0 else Seen(run, n - 1, slot) + if SlotOf(run[n - 1]) == slot then 1 else 0
  }

  /** A counter outlives the minute it counts, so it holds every request of that minute. */
  lemma {:induction false} CounterIsExact(run: seq<Request>, n: nat, slot: Slot)
    requires n <= |run|
    ensures slot in StoreAt(run, n) <==> Seen(run, n, slot) > 0
    ensures slot in StoreAt(run, n) ==> StoreAt(run, n)[slot].count == Seen(run, n, slot)
    ensures slot in StoreAt(run, n) && StoreAt(run, n)[slot].expires.Some? ==>
      MINUTE * (slot.bucket + 1) as real < StoreAt(run, n)[slot].expires.value
  {
    if n > 0 {
      CounterIsExact(run, n - 1, slot);
      BucketBounds(run[n - 1].at);
    }
  }

  lemma BucketBounds(at: real)
    ensures MINUTE * Bucket(at) as real <= at < MINUTE * (Bucket(at) + 1) as real
  {
  }

  /** A request is admitted exactly when fewer than the limit came before it in its minute. */
  lemma AdmittedIff(run: seq<Request>, i: nat, limit: nat)
    requires i < |run|
    ensures AdmittedAt(run, i, limit) <==> !run[i].interrupted && Seen(run, i, SlotOf(run[i])) < limit
  {
    CounterIsExact(run, i, SlotOf(run[i]));
    BucketBounds(run[i].at);
  }

  /** Python `max(1, 60 - int(now % 60))`: what a refused caller is told to wait. */
  function RetryAfter(at: real): (seconds: int)
    ensures 1 <= seconds <= 60
  {
    var wait := 60 - (at - MINUTE * Bucket(at) as real).Floor;
    BucketBounds(at);
    if wait < 1 then 1 else wait
  }

  /** Waiting as told is enough to be counted in a new minute, and waiting a second less is not. */
  lemma RetryAfterReachesNextMinute(at: real)
    ensures Bucket(at + RetryAfter(at) as real) == Bucket(at) + 1
    ensures Bucket(at + (RetryAfter(at) as real - 1.0)) == Bucket(at)
  {
    BucketBounds(at);
    BucketBounds(at + RetryAfter(at) as real);
    BucketBounds(at + (RetryAfter(at) as real - 1.0));
  }

  /** How many of the first `n` requests of the slot were admitted. */
  function AdmittedIn(run: seq<Request>, n: nat, slot: Slot, limit: nat): nat
    requires n <= |run|
  {
    if n == 0 then 0
    else AdmittedIn(run, n - 1, slot, limit) + if SlotOf(run[n - 1]) == slot && AdmittedAt(run, n - 1, limit)
      then 1 else 0
  }

  /** At most the limit is admitted in every minute of every run. */
  lemma {:induction false} AtMostLimitAMinute(run: seq<Request>, n: nat, slot: Slot, limit: nat)
    requires n <= |run|
    ensures AdmittedIn(run, n, slot, limit) <= limit
    ensures AdmittedIn(run, n, slot, limit) <= Seen(run, n, slot)
  {
    if n > 0 {
      AtMostLimitAMinute(run, n - 1, slot, limit);
      AdmittedIff(run, n - 1, limit);
    }
  }

  /**
   * How many of the first `n` requests of the token were admitted within a minute from `from` on, both ends included.
   */
  function AdmittedWithin(run: seq<Request>, n: nat, token: string, from: real, limit: nat): nat
    requires n <= |run|
  {
    if n == 0 then 0
    else
      var r := run[n - 1];
      AdmittedWithin(run, n - 1, token, from, limit) +
      if r.token == token && from <= r.at <= from + MINUTE && AdmittedAt(run, n - 1, limit) then 1 else 0
  }

  lemma WindowBuckets(from: real, at: real)
    requires from <= at <= from + MINUTE
    ensures Bucket(at) == Bucket(from) || Bucket(at) == Bucket(from) + 1
  {
    BucketBounds(from);
    BucketBounds(at);
  }

  lemma {:induction false} WindowInTwoMinutes(run: seq<Request>, n: nat, token: string, from: real, limit: nat)
    requires n <= |run|
    ensures AdmittedWithin(run, n, token, from, limit) <=
      AdmittedIn(run, n, Slot(token, Bucket(from)), limit) + AdmittedIn(run, n, Slot(token, Bucket(from) + 1), limit)
  {
    if n > 0 {
      WindowInTwoMinutes(run, n - 1, token, from, limit);
      var at := run[n - 1].at;
      if from <= at <= from + MINUTE {
        WindowBuckets(from, at);
      }
    }
  }

  /** At most twice the limit is admitted in any sixty seconds of any run. */
  lemma AtMostTwiceTheLimit(run: seq<Request>, token: string, from: real, limit: nat)
    ensures AdmittedWithin(run, |run|, token, from, limit) <= 2 * limit
  {
    WindowInTwoMinutes(run, |run|, token, from, limit);
    AtMostLimitAMinute(run, |run|, Slot(token, Bucket(from)), limit);
    AtMostLimitAMinute(run, |run|, Slot(token, Bucket(from) + 1), limit);
  }
}
