// The hash-chained monitor log (`dr_g11_offline.py`, `DisposableMonitorStore`): appending, verifying, and what a
// verified chain determines.
//
// SHA-256 and the canonical JSON text are parameters: a digest that is injective on the texts it is given and never
// yields the zero digest, and a text that reads back as the payload it was written from.
module MonitorLog {
  import opened Wrappers

  type Digest = string
  type Time = int          // microseconds

  const SECOND: int := 1000000

  const ZERO: Digest := Zeros(64)

  function Zeros(n: nat): (s: string)
    ensures |s| == n && forall c :: c in s ==> c == '0'
  {
    if n == 0 then "" else Zeros(n - 1) + ['0']
  }

  datatype Payload = Payload(
    capturedAt: Time,
    alertsInternal: bool,            // every alert is an internal preview
    killSwitchEngaged: bool,
    externalDeliveryDisabled: bool,
    criticalAlerts: nat,
    unhealthyDependencies: nat)

  datatype Row = Row(seqNo: nat, capturedAt: Time, text: string, previous: Digest, sha: Digest)

  /** The functions the store calls. */
  datatype Env = Env(sha: string -> Digest, write: Payload -> string, read: string -> Option<Payload>)

  /** The assumptions about them. */
  ghost predicate Sound(e: Env) {
    && (forall x, y :: e.sha(x) == e.sha(y) ==> x == y)
    && (forall x :: e.sha(x) != ZERO && '|' !in e.sha(x))
    && (forall p :: e.read(e.write(p)) == Some(p))
  }

  // ----- What is hashed

  const DIGITS := ['0', '1', '2', '3', '4', '5', '6', '7', '8', '9']

  function Decimal(n: nat): (s: string)
    ensures s != [] && forall c :: c in s ==> c in DIGITS
  {
    if n < 10 then [DIGITS[n]] else Decimal(n / 10) + [DIGITS[n % 10]]
  }

  /** `rc|seq|previous|text`. */
  function Hashed(rc: string, seqNo: nat, previous: Digest, text: string): string {
    rc + "|" + (Decimal(seqNo) + "|" + (previous + "|" + text))
  }

  lemma {:induction false} DecimalInjective(m: nat, n: nat)
    requires Decimal(m) == Decimal(n)
    ensures m == n
  {
    hide Decimal;
    DecimalParts(m);
    DecimalParts(n);
    DigitsDiffer(m % 10, n % 10);
    if m >= 10 && n >= 10 {
      DecimalInjective(m / 10, n / 10);
    }
  }

  lemma DecimalParts(n: nat)
    ensures
      var s := Decimal(n);
      && s[|s| - 1] == DIGITS[n % 10]
      && (n < 10 <==> |s| == 1)
      && (n >= 10 ==> s[..|s| - 1] == Decimal(n / 10))
  {
  }

  lemma DigitsDiffer(i: nat, j: nat)
    requires i < 10 && j < 10 && DIGITS[i] == DIGITS[j]
    ensures i == j
  {
  }

  /** A text can be cut at its first bar in one way only. */
  lemma {:induction false} FirstBar(a: string, restA: string, b: string, restB: string)
    requires '|' !in a && '|' !in b && a + "|" + restA == b + "|" + restB
    ensures a == b && restA == restB
  {
    BarAfter(a, restA);
    BarAfter(b, restB);
    var x := a + "|" + restA;
    if |a| == |b| {
      assert a == x[..|a|] && b == x[..|b|];
      assert restA == x[|a| + 1..] && restB == x[|b| + 1..];
    }
  }

  lemma BarAfter(a: string, rest: string)
    ensures
      var x := a + "|" + rest;
      x[|a|] == '|' && forall i :: 0 <= i < |a| ==> x[i] == a[i]
  {
  }

  /** The hashed text determines all four of its fields. */
  lemma HashedInjective(rc: string, m: nat, p: Digest, x: string, rc': string, n: nat, q: Digest, y: string)
    requires '|' !in rc && '|' !in rc' && '|' !in p && '|' !in q
    requires Hashed(rc, m, p, x) == Hashed(rc', n, q, y)
    ensures rc == rc' && m == n && p == q && x == y
  {
    FirstBar(rc, Decimal(m) + "|" + (p + "|" + x), rc', Decimal(n) + "|" + (q + "|" + y));
    FirstBar(Decimal(m), p + "|" + x, Decimal(n), q + "|" + y);
    FirstBar(p, x, q, y);
    DecimalInjective(m, n);
  }

  /** The hashed text is the release, the number, the previous digest and the payload text, with bars between them. */
  lemma HashedSpelledOut(rc: string, seqNo: nat, previous: Digest, text: string)
    ensures Hashed(rc, seqNo, previous, text) == rc + "|" + Decimal(seqNo) + "|" + previous + "|" + text
  {
    hide Decimal;
    var number := Decimal(seqNo);
    assert rc + "|" + (number + "|" + (previous + "|" + text)) == rc + "|" + number + "|" + previous + "|" + text;
  }

  // ----- Verified chains

  function Head(rows: seq<Row>): Digest {
    if rows == [] then ZERO else rows[|rows| - 1].sha
  }

  /** Row `k` continues the chain of the rows before it. */
  predicate RowVerifies(e: Env, rc: string, rows: seq<Row>, k: nat)
    requires k < |rows|
  {
    var row := rows[k];
    && row.seqNo == k + 1
    && row.previous == Head(rows[..k])
    && e.read(row.text).Some?
    && var p := e.read(row.text).value;
    && e.write(p) == row.text
    && p.capturedAt == row.capturedAt
    && p.externalDeliveryDisabled && p.killSwitchEngaged && p.alertsInternal
    && (k > 0 ==> rows[k - 1].capturedAt < row.capturedAt)
    && row.sha == e.sha(Hashed(rc, row.seqNo, row.previous, row.text))
  }

  predicate Verified(e: Env, rc: string, rows: seq<Row>) {
    forall k :: 0 <= k < |rows| ==> RowVerifies(e, rc, rows, k)
  }

  // ----- The store

  datatype SoakPlan = SoakPlan(
    span: int, samples: nat, oversizedGaps: seq<int>, critical: nat, unhealthy: nat, head: Digest)

  class DisposableMonitorStore {
    const env: Env
    const rc: string
    var binding: Option<string>      // the release recorded with the rows
    var rows: seq<Row>

    constructor (env: Env, rc: string)
      ensures this.env == env && this.rc == rc && binding == Some(rc) && rows == []
    {
      this.env, this.rc, binding, rows := env, rc, Some(rc), [];
    }

    /** Samples that are not later than the last one are refused. The payload is already normalised. */
    method Append(payload: Payload) returns (ok: bool)
      modifies this`rows
      ensures ok <==> Accepts(old(rows), payload)
      ensures rows == Appended(env, rc, old(rows), payload)
      ensures
        var n := |old(rows)|;
        && (ok <==> n == 0 || old(rows)[n - 1].capturedAt < payload.capturedAt)
        && (!ok ==> rows == old(rows))
        && (ok ==>
              var seqNo := if n == 0 then 1 else old(rows)[n - 1].seqNo + 1;
              var previous := if n == 0 then ZERO else old(rows)[n - 1].sha;
              var text := env.write(payload);
              rows == old(rows) +
                [Row(seqNo, payload.capturedAt, text, previous, env.sha(Hashed(rc, seqNo, previous, text)))])
    {
      var text := env.write(payload);
      var last := |rows|;
      if last > 0 && payload.capturedAt <= rows[last - 1].capturedAt {
        return false;
      }
      var seqNo := if last == 0 then 1 else rows[last - 1].seqNo + 1;
      var previous := if last == 0 then ZERO else rows[last - 1].sha;
      var sha := env.sha(Hashed(rc, seqNo, previous, text));
      rows := rows + [Row(seqNo, payload.capturedAt, text, previous, sha)];
      ok := true;
    }

    method Verify() returns (head: Option<Digest>)
      ensures head == if binding == Some(rc) && Verified(env, rc, rows) then Some(Head(rows)) else None
    {
      if binding != Some(rc) {
        return None;
      }
      var previous := ZERO;
      for k := 0 to |rows|
        invariant previous == Head(rows[..k])
        invariant forall i :: 0 <= i < k ==> RowVerifies(env, rc, rows, i)
      {
        var row := rows[k];
        ghost var continues := RowVerifies(env, rc, rows, k);
        if row.seqNo != k + 1 || row.previous != previous {
          return None;
        }
        var payload := env.read(row.text);
        if payload.None? || env.write(payload.value) != row.text || payload.value.capturedAt != row.capturedAt {
          return None;
        }
        if !payload.value.externalDeliveryDisabled ||
          !payload.value.killSwitchEngaged || !payload.value.alertsInternal {
          return None;
        }
        if k > 0 && row.capturedAt <= rows[k - 1].capturedAt {
          return None;
        }
        var expected := env.sha(Hashed(rc, row.seqNo, previous, row.text));
        if row.sha != expected {
          return None;
        }
        previous := expected;
      }
      assert rows[..|rows|] == rows;
      head := Some(previous);
    }

    /** The soak report over a verified log, with its alerts and the gaps longer than the maximum. */
    method PrepareSoak(minimumHours: int, maximumGap: int) returns (plan: Option<SoakPlan>)
      ensures plan.Some? <==> minimumHours >= 48 && maximumGap > 0 && binding == Some(rc) && Verified(env, rc, rows)
      ensures plan.Some? ==>
        && plan.value.span == Span(rows)
        && plan.value.span ==
             (if |rows| > 1 then WholeSeconds(rows[|rows| - 1].capturedAt - rows[0].capturedAt) else 0)
        && plan.value.samples == |rows|
        && plan.value.oversizedGaps == Oversized(rows, maximumGap, |rows|)
        && plan.value.critical == Sum(Payloads(env, rows), (p: Payload) => p.criticalAlerts)
        && plan.value.unhealthy == Sum(Payloads(env, rows), (p: Payload) => p.unhealthyDependencies)
        && plan.value.head == Head(rows)
    {
      hide Verified, Payloads, Sum, WholeSeconds;
      NothingSummed(env);
      if minimumHours < 48 || maximumGap <= 0 {
        return None;
      }
      var chain := Verify();
      if chain.None? {
        return None;
      }
      var gaps: seq<int> := [];
      var critical, unhealthy := 0, 0;
      for k := 0 to |rows|
        invariant gaps == Oversized(rows, maximumGap, k)
        invariant critical == Sum(Payloads(env, rows[..k]), (p: Payload) => p.criticalAlerts)
        invariant unhealthy == Sum(Payloads(env, rows[..k]), (p: Payload) => p.unhealthyDependencies)
      {
        PayloadsOneMore(env, rc, rows, k);
        var payload := env.read(rows[k].text).value;
        SumOneMore(Payloads(env, rows[..k]), payload);
        critical, unhealthy := critical + payload.criticalAlerts, unhealthy + payload.unhealthyDependencies;
        if k > 0 {
          var gap := WholeSeconds(rows[k].capturedAt - rows[k - 1].capturedAt);
          if gap > maximumGap {
            gaps := gaps + [gap];
          }
        }
      }
      assert rows[..|rows|] == rows;
      plan := Some(SoakPlan(Span(rows), |rows|, gaps, critical, unhealthy, chain.value));
    }
  }

  /** What normalising a snapshot enforces. */
  predicate Safe(p: Payload) {
    p.externalDeliveryDisabled && p.killSwitchEngaged && p.alertsInternal
  }

  predicate Accepts(rows: seq<Row>, payload: Payload) {
    rows == [] || rows[|rows| - 1].capturedAt < payload.capturedAt
  }

  function Appended(e: Env, rc: string, rows: seq<Row>, payload: Payload): seq<Row> {
    if !Accepts(rows, payload) then rows
    else
      var seqNo := if rows == [] then 1 else rows[|rows| - 1].seqNo + 1;
      var text := e.write(payload);
      rows + [Row(seqNo, payload.capturedAt, text, Head(rows), e.sha(Hashed(rc, seqNo, Head(rows), text)))]
  }

  /** The log after appending the payloads one by one. */
  function Log(e: Env, rc: string, payloads: seq<Payload>): seq<Row> {
    if payloads == [] then []
    else Appended(e, rc, Log(e, rc, payloads[..|payloads| - 1]), payloads[|payloads| - 1])
  }

  /** The payloads that the rows read back as. */
  function Payloads(e: Env, rows: seq<Row>): seq<Payload> {
    if rows == [] then []
    else
      var last := e.read(rows[|rows| - 1].text);
      Payloads(e, rows[..|rows| - 1]) + if last.Some? then [last.value] else []
  }

  function Sum(payloads: seq<Payload>, count: Payload -> nat): nat {
    if payloads == [] then 0 else Sum(payloads[..|payloads| - 1], count) + count(payloads[|payloads| - 1])
  }

  lemma PayloadsOneMore(e: Env, rc: string, rows: seq<Row>, k: nat)
    requires Verified(e, rc, rows) && k < |rows|
    ensures e.read(rows[k].text).Some?
    ensures Payloads(e, rows[..k + 1]) == Payloads(e, rows[..k]) + [e.read(rows[k].text).value]
  {
    assert RowVerifies(e, rc, rows, k);
    assert rows[..k + 1][..k] == rows[..k];
  }

  lemma SumOneMore(payloads: seq<Payload>, last: Payload)
    ensures forall count :: Sum(payloads + [last], count) == Sum(payloads, count) + count(last)
  {
    assert (payloads + [last])[..|payloads|] == payloads;
  }

  lemma NothingSummed(e: Env)
    ensures Payloads(e, []) == [] && forall count :: Sum([], count) == 0
  {
  }

  /** Python `int(seconds)`, which truncates. */
  function WholeSeconds(t: Time): int {
    if t >= 0 then t / SECOND else -((-t) / SECOND)
  }

  function Span(rows: seq<Row>): int {
    if |rows| > 1 then WholeSeconds(rows[|rows| - 1].capturedAt - rows[0].capturedAt) else 0
  }

  function Oversized(rows: seq<Row>, maximumGap: int, n: nat): seq<int>
    requires n <= |rows|
  {
    if n <= 1 then []
    else
      var gap := WholeSeconds(rows[n - 1].capturedAt - rows[n - 2].capturedAt);
      Oversized(rows, maximumGap, n - 1) + if gap > maximumGap then [gap] else []
  }

  /** Row `k` follows on the one before, is safe, and has its own digest. */
  predicate IsSound(e: Env, rc: string, rows: seq<Row>, k: nat)
    requires k < |rows|
  {
    var row := rows[k];
    && row.seqNo == k + 1
    && row.previous == (if k == 0 then ZERO else rows[k - 1].sha)
    && (k > 0 ==> rows[k - 1].capturedAt < row.capturedAt)
    && row.sha == e.sha(Hashed(rc, row.seqNo, row.previous, row.text))
    && e.read(row.text).Some?
    && var p := e.read(row.text).value;
       && e.write(p) == row.text && p.capturedAt == row.capturedAt
       && p.alertsInternal && p.killSwitchEngaged && p.externalDeliveryDisabled
  }

  lemma VerifiedSpelledOut(e: Env, rc: string, rows: seq<Row>)
    ensures Verified(e, rc, rows) <==> forall k :: 0 <= k < |rows| ==> IsSound(e, rc, rows, k)
  {
    hide RowVerifies, IsSound;
    forall k | 0 <= k < |rows| ensures RowVerifies(e, rc, rows, k) <==> IsSound(e, rc, rows, k) {
      RowSpelledOut(e, rc, rows, k);
    }
  }

  lemma RowSpelledOut(e: Env, rc: string, rows: seq<Row>, k: nat)
    requires k < |rows|
    ensures RowVerifies(e, rc, rows, k) <==> IsSound(e, rc, rows, k)
  {
    hide Hashed;
    assert k > 0 ==> rows[..k][k - 1] == rows[k - 1];
  }

  /** Python's `int` of a number of seconds: towards zero. */
  lemma WholeSecondsAre(t: Time, n: int)
    ensures WholeSeconds(t) == n <==>
      if n > 0 then n * SECOND <= t < (n + 1) * SECOND
      else if n < 0 then (n - 1) * SECOND < t <= n * SECOND
      else -SECOND < t < SECOND
  {
  }

  /** Sample `k` comes too long after the one before it. */
  predicate IsOversized(rows: seq<Row>, maximumGap: int, k: nat) {
    0 < k < |rows| && WholeSeconds(rows[k].capturedAt - rows[k - 1].capturedAt) > maximumGap
  }

  /** The gap before sample `k`. */
  function GapBefore(rows: seq<Row>, k: nat): int
    requires 0 < k < |rows|
  {
    WholeSeconds(rows[k].capturedAt - rows[k - 1].capturedAt)
  }

  /** The reported gaps are those that are too long, in order: the `i`-th is before sample `at[i]`. */
  lemma {:induction false} OversizedAre(rows: seq<Row>, maximumGap: int, n: nat) returns (at: seq<nat>)
    requires n <= |rows|
    ensures |at| == |Oversized(rows, maximumGap, n)|
    ensures forall i, j :: 0 <= i < j < |at| ==> at[i] < at[j]
    ensures forall k: nat :: k in at <==> k < n && IsOversized(rows, maximumGap, k)
    ensures forall i | 0 <= i < |at| ::
      0 < at[i] < n && Oversized(rows, maximumGap, n)[i] == GapBefore(rows, at[i])
  {
    hide GapBefore, IsOversized, Oversized;
    OversizedStep(rows, maximumGap, n);
    if n <= 1 {
      at := [];
    } else {
      at := OversizedAre(rows, maximumGap, n - 1);
      if IsOversized(rows, maximumGap, n - 1) {
        at := at + [n - 1];
      }
    }
  }

  lemma OversizedStep(rows: seq<Row>, maximumGap: int, n: nat)
    requires n <= |rows|
    ensures n <= 1 ==>
      Oversized(rows, maximumGap, n) == [] && forall k: nat :: k < n ==> !IsOversized(rows, maximumGap, k)
    ensures n > 1 ==>
      Oversized(rows, maximumGap, n) == Oversized(rows, maximumGap, n - 1) +
        if IsOversized(rows, maximumGap, n - 1) then [GapBefore(rows, n - 1)] else []
  {
  }

  // ----- What the chain guarantees

  /** Appending a safe sample to a verified log gives a verified log. */
  lemma AppendVerifies(e: Env, rc: string, before: seq<Row>, payload: Payload)
    requires Sound(e) && Safe(payload) && Verified(e, rc, before)
    ensures Verified(e, rc, Appended(e, rc, before, payload))
  {
    var after := Appended(e, rc, before, payload);
    assert before != [] ==> RowVerifies(e, rc, before, |before| - 1);
    forall k | 0 <= k < |after| ensures RowVerifies(e, rc, after, k) {
      assert after[..k] == before[..k];
      assert before[..|before|] == before;
      if k < |before| {
        assert RowVerifies(e, rc, before, k);
      }
    }
  }

  /** Whatever samples are appended, accepted or refused, the log passes verification. */
  lemma {:induction false} EveryLogVerifies(e: Env, rc: string, payloads: seq<Payload>)
    requires Sound(e) && forall i :: 0 <= i < |payloads| ==> Safe(payloads[i])
    ensures Verified(e, rc, Log(e, rc, payloads))
  {
    if payloads != [] {
      var n := |payloads| - 1;
      EveryLogVerifies(e, rc, payloads[..n]);
      AppendVerifies(e, rc, Log(e, rc, payloads[..n]), payloads[n]);
    }
  }

  /** Every prefix of a verified log verifies. */
  lemma PrefixVerifies(e: Env, rc: string, rows: seq<Row>, n: nat)
    requires Verified(e, rc, rows) && n <= |rows|
    ensures Verified(e, rc, rows[..n])
  {
    forall k | 0 <= k < n ensures RowVerifies(e, rc, rows[..n], k) {
      assert RowVerifies(e, rc, rows, k);
      assert rows[..n][..k] == rows[..k];
    }
  }

  /** The head digest determines the whole log, and its release: two verified logs with the same head are equal. */
  lemma {:induction false} HeadDeterminesLog(e: Env, rc: string, a: seq<Row>, rc': string, b: seq<Row>)
    requires Sound(e) && '|' !in rc && '|' !in rc' && Verified(e, rc, a) && Verified(e, rc', b)
    requires Head(a) == Head(b)
    ensures a == b && (a != [] ==> rc == rc')
    decreases |a|
  {
    hide Hashed, Verified, RowVerifies, Sound, Head;
    HeadShape(e, rc, a);
    HeadShape(e, rc', b);
    if a != [] {
      var m, n := |a| - 1, |b| - 1;
      LastRow(e, rc, a);
      LastRow(e, rc', b);
      ShaInjective(e);
      HashedInjective(rc, a[m].seqNo, a[m].previous, a[m].text, rc', b[n].seqNo, b[n].previous, b[n].text);
      HeadDeterminesLog(e, rc, a[..m], rc', b[..n]);
      assert a == a[..m] + [a[m]] && b == b[..n] + [b[n]];
    }
  }

  /** What the last row of a verified log is. */
  lemma LastRow(e: Env, rc: string, rows: seq<Row>)
    requires Sound(e) && Verified(e, rc, rows) && rows != []
    ensures
      var n := |rows| - 1;
      var row := rows[n];
      && Verified(e, rc, rows[..n]) && row.previous == Head(rows[..n]) && '|' !in row.previous
      && e.read(row.text).Some? && row.capturedAt == e.read(row.text).value.capturedAt
      && Head(rows) == row.sha == e.sha(Hashed(rc, row.seqNo, row.previous, row.text))
  {
    hide Hashed;
    var n := |rows| - 1;
    assert RowVerifies(e, rc, rows, n);
    PrefixVerifies(e, rc, rows, n);
    HeadShape(e, rc, rows[..n]);
  }

  lemma ShaInjective(e: Env)
    requires Sound(e)
    ensures forall x, y :: e.sha(x) == e.sha(y) ==> x == y
  {
  }

  lemma HeadShape(e: Env, rc: string, rows: seq<Row>)
    requires Sound(e) && Verified(e, rc, rows)
    ensures '|' !in Head(rows)
    ensures Head(rows) == ZERO <==> rows == []
  {
    if rows != [] {
      assert RowVerifies(e, rc, rows, |rows| - 1);
    }
  }

  // ----- Gaps and span

  predicate WholeSecondTimes(rows: seq<Row>) {
    forall k :: 0 <= k < |rows| ==> rows[k].capturedAt % SECOND == 0
  }

  /** The longest time between two samples that is not an oversized gap. */
  function LongestGap(maximumGap: int): Time {
    (maximumGap + 1) * SECOND - 1
  }

  /** Without an oversized gap, the time from the first sample to the `n`-th. */
  lemma {:induction false} SpanIsBounded(e: Env, rc: string, rows: seq<Row>, maximumGap: int, n: nat)
    requires Verified(e, rc, rows) && 0 < n <= |rows| && maximumGap > 0
    requires Oversized(rows, maximumGap, |rows|) == []
    ensures 0 <= rows[n - 1].capturedAt - rows[0].capturedAt <= LongestGap(maximumGap) * (n - 1)
    ensures WholeSecondTimes(rows) ==> rows[n - 1].capturedAt - rows[0].capturedAt <= maximumGap * SECOND * (n - 1)
  {
    if n > 1 {
      hide Verified, Oversized, WholeSecondTimes, LongestGap;
      SpanIsBounded(e, rc, rows, maximumGap, n - 1);
      OneGap(e, rc, rows, maximumGap, n);
      Times(LongestGap(maximumGap), n - 1);
      Times(maximumGap * SECOND, n - 1);
    }
  }

  lemma OneGap(e: Env, rc: string, rows: seq<Row>, maximumGap: int, n: nat)
    requires Verified(e, rc, rows) && 1 < n <= |rows|
    requires Oversized(rows, maximumGap, |rows|) == []
    ensures 0 < rows[n - 1].capturedAt - rows[n - 2].capturedAt <= LongestGap(maximumGap)
    ensures WholeSecondTimes(rows) ==> rows[n - 1].capturedAt - rows[n - 2].capturedAt <= maximumGap * SECOND
  {
    hide Oversized, WholeSeconds, LongestGap;
    assert RowVerifies(e, rc, rows, n - 1);
    NoGapBefore(rows, maximumGap, n, |rows|);
    GapTime(rows[n - 2].capturedAt, rows[n - 1].capturedAt, maximumGap);
  }

  lemma GapTime(from: Time, to: Time, maximumGap: int)
    requires from < to && WholeSeconds(to - from) <= maximumGap
    ensures to - from <= LongestGap(maximumGap)
    ensures from % SECOND == 0 && to % SECOND == 0 ==> to - from <= maximumGap * SECOND
  {
    var gap := to - from;
    assert gap < (maximumGap + 1) * SECOND;
    if from % SECOND == 0 && to % SECOND == 0 {
      assert gap == (to / SECOND - from / SECOND) * SECOND;
    }
  }

  lemma Times(x: int, n: nat)
    requires n > 0
    ensures x * n == x * (n - 1) + x
  {
  }

  lemma {:induction false} NoGapBefore(rows: seq<Row>, maximumGap: int, n: nat, m: nat)
    requires 1 < n <= m <= |rows| && Oversized(rows, maximumGap, m) == []
    ensures WholeSeconds(rows[n - 1].capturedAt - rows[n - 2].capturedAt) <= maximumGap
    decreases m
  {
    if n < m {
      NoGapBefore(rows, maximumGap, n, m - 1);
    }
  }

  /**
   * Without an oversized gap the span is at most that of samples as far apart as they may be, which is less than a
   * second a gap above the maximum; with whole-second timestamps it is at most the maximum for every gap.
   */
  lemma SoakSpan(e: Env, rc: string, rows: seq<Row>, maximumGap: int)
    requires Verified(e, rc, rows) && rows != [] && maximumGap > 0
    requires Oversized(rows, maximumGap, |rows|) == []
    ensures WholeSecondTimes(rows) ==> Span(rows) <= maximumGap * (|rows| - 1)
    ensures Span(rows) <= WholeSeconds(LongestGap(maximumGap) * (|rows| - 1))
    ensures |rows| > 1 ==> Span(rows) < (maximumGap + 1) * (|rows| - 1)
  {
    hide WholeSeconds, Oversized, Verified, LongestGap, WholeSecondTimes;
    var n := |rows|;
    SpanIsBounded(e, rc, rows, maximumGap, n);
    GapProducts(maximumGap, n - 1);
    var span := rows[n - 1].capturedAt - rows[0].capturedAt;
    Truncated(span, LongestGap(maximumGap) * (n - 1));
    if n > 1 {
      Below(span, (maximumGap + 1) * (n - 1));
    }
    if WholeSecondTimes(rows) {
      Below(span, maximumGap * (n - 1) + 1);
    }
  }

  lemma GapProducts(maximumGap: int, gaps: nat)
    ensures LongestGap(maximumGap) * gaps == (maximumGap + 1) * gaps * SECOND - gaps
    ensures maximumGap * SECOND * gaps == maximumGap * gaps * SECOND
  {
  }

  lemma Truncated(t: Time, u: Time)
    requires 0 <= t <= u
    ensures 0 <= WholeSeconds(t) <= WholeSeconds(u)
  {
  }

  lemma Below(t: Time, seconds: int)
    requires 0 <= t < seconds * SECOND
    ensures WholeSeconds(t) < seconds
  {
  }

  // ----- Logs of evenly spaced samples

  /** `n` safe samples, `gap` apart. */
  function Spaced(n: nat, gap: Time): seq<Payload> {
    seq(n, k requires 0 <= k < n => Payload(k * gap, true, true, true, 0, 0))
  }

  lemma {:induction false} SpacedLog(e: Env, rc: string, n: nat, gap: Time, maximumGap: int)
    requires Sound(e) && 0 < gap && WholeSeconds(gap) <= maximumGap
    ensures
      var rows := Log(e, rc, Spaced(n, gap));
      && |rows| == n && Verified(e, rc, rows)
      && (forall k :: 0 <= k < n ==> rows[k].capturedAt == k * gap)
      && Oversized(rows, maximumGap, n) == []
  {
    hide Verified, Sound, Appended, Log;
    SafeSamples(n, gap);
    EveryLogVerifies(e, rc, Spaced(n, gap));
    SpacedOneMore(e, rc, n, gap);
    if n > 0 {
      var before, rows := Log(e, rc, Spaced(n - 1, gap)), Log(e, rc, Spaced(n, gap));
      SpacedLog(e, rc, n - 1, gap, maximumGap);
      Times(gap, n);
      OversizedOfPrefix(before, rows, maximumGap, n - 1);
    }
  }

  lemma SafeSamples(n: nat, gap: Time)
    ensures forall k :: 0 <= k < n ==> Safe(Spaced(n, gap)[k])
  {
  }

  /** The last sample is accepted when it is later than the one before. */
  lemma SpacedOneMore(e: Env, rc: string, n: nat, gap: Time)
    ensures n == 0 ==> Log(e, rc, Spaced(n, gap)) == []
    ensures
      n > 0 ==>
      var before, rows := Log(e, rc, Spaced(n - 1, gap)), Log(e, rc, Spaced(n, gap));
      (before == [] || before[|before| - 1].capturedAt < (n - 1) * gap) ==>
        && before <= rows && |rows| == |before| + 1 && rows[|before|].capturedAt == (n - 1) * gap
  {
    if n > 0 {
      assert Spaced(n, gap)[..n - 1] == Spaced(n - 1, gap);
      assert Spaced(n, gap)[n - 1].capturedAt == (n - 1) * gap;
    }
  }

  lemma {:induction false} OversizedOfPrefix(before: seq<Row>, rows: seq<Row>, maximumGap: int, n: nat)
    requires n <= |before| && before <= rows
    ensures Oversized(rows, maximumGap, n) == Oversized(before, maximumGap, n)
  {
    if n > 1 {
      OversizedOfPrefix(before, rows, maximumGap, n - 1);
    }
  }

  /** The bound that fractions of a second allow is met by a log of every length. */
  lemma SoakSpanIsMet(e: Env, rc: string, maximumGap: int, n: nat) returns (rows: seq<Row>)
    requires Sound(e) && maximumGap > 0 && n > 0
    ensures Verified(e, rc, rows) && |rows| == n && Oversized(rows, maximumGap, n) == []
    ensures Span(rows) == WholeSeconds(LongestGap(maximumGap) * (n - 1))
  {
    rows := Log(e, rc, Spaced(n, LongestGap(maximumGap)));
    SpacedLog(e, rc, n, LongestGap(maximumGap), maximumGap);
    assert LongestGap(maximumGap) * (n - 1) == (n - 1) * LongestGap(maximumGap);
  }

  /**
   * The maximum for every gap bounds the span of all logs of `n` samples without an oversized gap exactly when there is
   * at most one gap: with two or more, the fractions that each truncates away add up.
   */
  lemma SoakSpanIff(e: Env, rc: string, maximumGap: int, n: nat)
    requires Sound(e) && maximumGap > 0 && n > 0
    ensures n <= 2 <==>
      forall rows :: Verified(e, rc, rows) && |rows| == n && Oversized(rows, maximumGap, n) == [] ==>
        Span(rows) <= maximumGap * (n - 1)
  {
    if n <= 2 {
      forall rows | Verified(e, rc, rows) && |rows| == n && Oversized(rows, maximumGap, n) == []
        ensures Span(rows) <= maximumGap * (n - 1)
      {
        if n == 2 {
          NoGapBefore(rows, maximumGap, 2, 2);
        }
      }
    } else {
      var rows := SoakSpanIsMet(e, rc, maximumGap, n);
      FractionsAddUp(maximumGap, n - 1);
      assert Verified(e, rc, rows) && Span(rows) > maximumGap * (n - 1);
    }
  }

  lemma FractionsAddUp(maximumGap: int, gaps: nat)
    requires maximumGap > 0 && gaps >= 2
    ensures WholeSeconds(LongestGap(maximumGap) * gaps) > maximumGap * gaps
  {
    assert LongestGap(maximumGap) * gaps == (maximumGap * gaps) * SECOND + (SECOND - 1) * gaps;
    assert (SECOND - 1) * gaps >= SECOND;
    assert maximumGap * gaps >= 0;
  }

  /** Three samples 300.9 seconds apart have no gap above 300 seconds, and span 601. */
  lemma FractionsEscape(e: Env, rc: string)
    requires Sound(e)
    ensures
      var rows := Log(e, rc, Spaced(3, 300900000));
      Verified(e, rc, rows) && |rows| == 3 && Oversized(rows, 300, 3) == [] && Span(rows) == 601 > 300 * (3 - 1)
  {
    SpacedLog(e, rc, 3, 300900000, 300);
  }
}
