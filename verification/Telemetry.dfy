/** Per-day counters and latest-value gauges, buffered until the bridge accepts them. */
module TelemetryBuffer {
  import opened Common
  import opened NewestDays

  /** ISO dates order as day numbers do. */
  type Days = map<int, map<string, int>>
  type Gauges = map<string, real>

  const MIN_FLUSH_INTERVAL := 45.0
  const MAX_METRICS_PER_FLUSH := 400

  /** What one flush sends. */
  datatype Payload = Payload(days: Days, gauges: Gauges)

  // ---------------------------------------------------------------- buffer arithmetic

  function Get(bucket: map<string, int>, key: string): int {
    if key in bucket then bucket[key] else 0
  }

  function Bucket(days: Days, day: int): map<string, int> {
    if day in days then days[day] else map[]
  }

  function Buffered(days: Days, day: int, key: string): int {
    Get(Bucket(days, day), key)
  }

  function AddBucket(bucket: map<string, int>, amounts: map<string, int>): map<string, int> {
    map k | k in bucket.Keys + amounts.Keys :: Get(bucket, k) + Get(amounts, k)
  }

  function PruneDays(days: Days): Days {
    Newest(days)
  }

  /** `incr_many` on the buffer: nothing for no amounts, else add and prune. */
  function IncrDays(days: Days, day: int, amounts: map<string, int>): Days {
    if amounts == map[] then days else PruneDays(days[day := AddBucket(Bucket(days, day), amounts)])
  }

  function SettleBucket(bucket: map<string, int>, sent: map<string, int>): map<string, int> {
    map k | k in bucket.Keys + sent.Keys && (k in sent ==> Get(bucket, k) - sent[k] > 0) ::
      Get(bucket, k) - Get(sent, k)
  }

  /** What stays buffered after `sent` was accepted. */
  function SettleDays(days: Days, sent: Days): Days {
    map d | d in days.Keys + sent.Keys && (d in sent ==> SettleBucket(Bucket(days, d), sent[d]) != map[]) ::
      if d in sent then SettleBucket(Bucket(days, d), sent[d]) else days[d]
  }

  function SettleGauges(gauges: Gauges, sent: Gauges): Gauges {
    map g | g in gauges && (g in sent ==> gauges[g] != sent[g]) :: gauges[g]
  }

  /** Days with at least one counter. */
  function NonEmpty(days: Days): Days {
    map d | d in days && days[d] != map[] :: days[d]
  }

  // ---------------------------------------------------------------- counters as a set

  /** The (day, counter) pairs of a buffer. */
  ghost function Pairs(days: Days): set<(int, string)> {
    set d, k | d in days && k in days[d] :: (d, k)
  }

  lemma {:induction false} PairsOfDay(day: int, keys: set<string>)
    ensures |set k | k in keys :: (day, k)| == |keys|
  {
    if keys != {} {
      var x :| x in keys;
      PairsOfDay(day, keys - {x});
      assert (set k | k in keys :: (day, k)) == (set k | k in keys - {x} :: (day, k)) + {(day, x)};
    }
  }

  lemma PairsAdd(days: Days, day: int, bucket: map<string, int>)
    requires day !in days
    ensures |Pairs(days[day := bucket])| == |Pairs(days)| + |bucket|
  {
    var added := set k | k in bucket.Keys :: (day, k);
    PairsOfDay(day, bucket.Keys);
    var after := days[day := bucket];
    forall p: (int, string) ensures p in Pairs(after) <==> p in Pairs(days) || p in added {
      var (d, k) := p;
      assert p in Pairs(after) <==> d in after && k in after[d];
      assert p in Pairs(days) <==> d in days && k in days[d];
    }
    assert Pairs(days) !! added;
    assert Pairs(after) == Pairs(days) + added;
  }

  /** Every day of `out` carries part of the same day of `days`, unchanged. */
  ghost predicate SubDays(out: Days, days: Days) {
    forall d :: d in out ==> d in days && out[d] != map[] && forall k :: k in out[d] ==>
        k in days[d] && out[d][k] == days[d][k]
  }

  /** A request bounded to `budget` counters: part of the buffer, newest days first, as full as allowed. */
  ghost predicate IsCap(days: Days, out: Days, budget: nat) {
    && SubDays(out, days)
    && (forall d, e :: e in out && d in days && d > e && days[d] != map[] ==> d in out && out[d] == days[d])
    && |Pairs(out)| == if |Pairs(days)| <= budget then |Pairs(days)| else budget
  }

  /** The first `n` counters of a bucket, in whatever order it yields them. */
  method TakeFirst(bucket: map<string, int>, n: nat) returns (out: map<string, int>)
    ensures |out| == if |bucket| <= n then |bucket| else n
    ensures forall k :: k in out ==> k in bucket && out[k] == bucket[k]
    ensures |bucket| <= n ==> out == bucket
  {
    out := map[];
    var todo := bucket.Keys;
    while todo != {} && |out| < n
      invariant |out| <= n && |out| + |todo| == |bucket|
      invariant todo == bucket.Keys - out.Keys
      invariant forall k :: k in out ==> k in bucket && out[k] == bucket[k]
    {
      var k :| k in todo;
      out, todo := out[k := bucket[k]], todo - {k};
    }
    if todo == {} {
      assert out.Keys == bucket.Keys;
    }
  }

  /**
   * How far `_cap` got: `todo` days are older than those handled, and `out` holds the handled ones while budget
   * lasts.
   */
  ghost predicate CapSoFar(days: Days, out: Days, todo: set<int>, full: bool) {
    && todo <= days.Keys && out.Keys <= days.Keys - todo
    && SubDays(out, days)
    && (forall d, e :: d in days && d !in todo && e in todo ==> e < d)
    && (forall d, e :: e in out && d in days && d > e && days[d] != map[] ==> d in out && out[d] == days[d])
    && (full ==> forall d :: d in days && d !in todo && days[d] != map[] ==> d in out && out[d] == days[d])
  }

  lemma CapNext(days: Days, out: Days, todo: set<int>, day: int, counters: map<string, int>)
    requires CapSoFar(days, out, todo, true)
    requires day in todo && forall e :: e in todo ==> e <= day
    requires forall k :: k in counters ==> k in days[day] && counters[k] == days[day][k]
    ensures counters != map[] ==> CapSoFar(days, out[day := counters], todo - {day}, counters == days[day])
    ensures counters == map[] && days[day] == map[] ==> CapSoFar(days, out, todo - {day}, true)
  {
  }

  /** `_cap` */
  method Cap(days: Days, limit: nat) returns (out: Days)
    ensures IsCap(days, out, limit)
  {
    hide Pairs;
    out := map[];
    var budget := limit;
    var todo := days.Keys;
    NoPairs();
    while todo != {} && budget > 0
      invariant 0 <= budget <= limit && |Pairs(out)| == limit - budget
      invariant CapSoFar(days, out, todo, budget > 0)
      decreases |todo|
    {
      ghost var newest := MaxDay(todo);
      var day: int :| day in todo && forall e :: e in todo ==> e <= day;
      var counters := TakeFirst(days[day], budget);
      CapNext(days, out, todo, day, counters);
      todo := todo - {day};
      if counters != map[] {
        PairsAdd(out, day, counters);
        out := out[day := counters];
        budget := budget - |counters|;
      }
    }
    CapDone(days, out, todo, budget, limit);
  }

  lemma NoPairs()
    ensures |Pairs(map[])| == 0
  {
    assert Pairs(map[]) == {};
  }

  lemma CapDone(days: Days, out: Days, todo: set<int>, budget: nat, limit: nat)
    requires budget <= limit && |Pairs(out)| == limit - budget && CapSoFar(days, out, todo, budget > 0)
    requires todo == {} || budget == 0
    ensures IsCap(days, out, limit)
  {
    SubDaysPairs(out, days);
    if budget > 0 {
      forall p | p in Pairs(days) ensures p in Pairs(out) {
        var (d, k) := p;
        assert d in out && k in out[d];
      }
      assert Pairs(out) == Pairs(days);
    }
  }

  lemma SubDaysPairs(out: Days, days: Days)
    requires SubDays(out, days)
    ensures Pairs(out) <= Pairs(days) && |Pairs(out)| <= |Pairs(days)|
  {
    SubsetSize(Pairs(out), Pairs(days));
  }

  // ---------------------------------------------------------------- the buffer object

  /** The amounts `incr_many` records: valid keys, non-zero values. */
  function Clean(metrics: map<string, int>, valid: string -> bool): map<string, int> {
    map k | k in metrics && valid(k) && metrics[k] != 0 :: metrics[k]
  }

  /** What a report of raw metrics records for a counter. */
  ghost function Recorded(metrics: map<string, int>, valid: string -> bool, key: string): int {
    if key in metrics && valid(key) then metrics[key] else 0
  }

  /** A report with no valid, non-zero amount is ignored. */
  ghost predicate Counts(metrics: map<string, int>, valid: string -> bool) {
    exists k :: Recorded(metrics, valid, k) != 0
  }

  /**
   * What a report does to the buffer, in its raw amounts: on a day that survives pruning every counter rises by its
   * own valid amount and by nothing else; exactly the newest days survive.
   */
  lemma IncrRecords(days: Days, day: int, metrics: map<string, int>, valid: string -> bool)
    ensures var after := IncrDays(days, day, Clean(metrics, valid));
            if Counts(metrics, valid) then
              && after.Keys == Retained(days.Keys + {day})
              && forall d, k :: d in after ==>
                   Buffered(after, d, k) == Buffered(days, d, k) + if d == day then Recorded(metrics, valid, k) else 0
            else after == days
  {
    var clean := Clean(metrics, valid);
    forall k ensures Get(clean, k) == Recorded(metrics, valid, k) && (k in clean <==> Get(clean, k) != 0) {}
    if Counts(metrics, valid) {
      var k :| Recorded(metrics, valid, k) != 0;
      assert k in clean;
      var added := days[day := AddBucket(Bucket(days, day), clean)];
      assert added.Keys == days.Keys + {day};
    } else {
      assert clean == map[];
    }
  }

  class Telemetry {
    var days: Days
    var gauges: Gauges
    var lastFlush: real
    const valid: string -> bool

    constructor (days: Days, gauges: Gauges, valid: string -> bool)
      ensures this.days == days && this.gauges == gauges && this.lastFlush == 0.0 && this.valid == valid
    {
      this.days, this.gauges, this.lastFlush, this.valid := days, gauges, 0.0, valid;
    }

    method IncrMany(metrics: map<string, int>, day: int)
      modifies this`days
      ensures days == IncrDays(old(days), day, Clean(metrics, valid))
      ensures forall d, k :: d in days ==>
                Buffered(days, d, k) ==
                  Buffered(old(days), d, k) + if d == day then Recorded(metrics, valid, k) else 0
      ensures days.Keys == if Counts(metrics, valid) then Retained(old(days).Keys + {day}) else old(days).Keys
    {
      IncrRecords(days, day, metrics, valid);
      hide Recorded, Buffered, Retained;
      var clean := Clean(metrics, valid);
      if clean == map[] {
        return;
      }
      var start := Bucket(days, day);
      var bucket := start;
      var todo := clean.Keys;
      while todo != {}
        invariant days == old(days)
        invariant todo <= clean.Keys
        invariant bucket.Keys == start.Keys + (clean.Keys - todo)
        invariant forall k :: k in bucket ==> bucket[k] == Get(start, k) + (if k in todo then 0 else Get(clean, k))
      {
        var key :| key in todo;
        bucket, todo := bucket[key := Get(bucket, key) + clean[key]], todo - {key};
      }
      assert bucket == AddBucket(start, clean);
      days := days[day := bucket];
      Prune();
    }

    /** `_prune`: drop the oldest days beyond `RETAIN_DAYS`. */
    method Prune()
      modifies this`days
      ensures days == PruneDays(old(days))
    {
      days := DropOldDays(days);
    }

    method SetGauge(metric: string, value: real)
      modifies this`gauges
      ensures gauges == if valid(metric) then old(gauges)[metric := value] else old(gauges)
    {
      if valid(metric) {
        gauges := gauges[metric := value];
      }
    }

    /** The locked first half of `flush`: what to send, unless throttled or nothing is buffered. */
    method BeginFlush(force: bool, now: real) returns (payload: Option<Payload>)
      modifies this`lastFlush
      ensures var throttled := !force && now - old(lastFlush) < 45.0;
              var empty := NonEmpty(days) == map[] && gauges == map[];
              && (payload.None? <==> throttled || empty)
              && (payload.Some? ==>
                    IsCap(NonEmpty(days), payload.value.days, 400) && payload.value.gauges == gauges)
              && lastFlush == if empty && !throttled then now else old(lastFlush)
    {
      if !force && now - lastFlush < MIN_FLUSH_INTERVAL {
        return None;
      }
      var live := NonEmpty(days);
      if live == map[] && gauges == map[] {
        lastFlush := now;
        return None;
      }
      var capped := Cap(live, MAX_METRICS_PER_FLUSH);
      payload := Some(Payload(capped, gauges));
    }

    /** The second half of `flush`, once the bridge has answered. */
    method FinishFlush(payload: Payload, accepted: bool, now: real)
      modifies this
      ensures days == if accepted then SettleDays(old(days), payload.days) else old(days)
      ensures gauges == if accepted then SettleGauges(old(gauges), payload.gauges) else old(gauges)
      ensures lastFlush == if accepted then now else old(lastFlush)
    {
      if !accepted {
        return;
      }
      lastFlush := now;
      Settle(payload.days, payload.gauges);
    }

    /** `_settle` */
    method Settle(sentDays: Days, sentGauges: Gauges)
      modifies this`days, this`gauges
      ensures days == SettleDays(old(days), sentDays)
      ensures gauges == SettleGauges(old(gauges), sentGauges)
    {
      days := SettleAllDays(days, sentDays);
      gauges := SettleAllGauges(gauges, sentGauges);
    }
  }

  /** The day loop of `_settle`. */
  method SettleAllDays(before: Days, sent: Days) returns (days: Days)
    ensures days == SettleDays(before, sent)
  {
    hide SettleBucket;
    days := before;
    var todo := sent.Keys;
    ghost var settled := SettleDays(before, sent);
    while todo != {}
      invariant todo <= sent.Keys
      invariant forall d :: d in todo ==> (d in days <==> d in before) && (d in days ==> days[d] == before[d])
      invariant forall d :: d !in todo ==> (d in days <==> d in settled)
      invariant forall d :: d in days && d !in todo ==> days[d] == settled[d]
    {
      ghost var some := Pick(todo);
      var day: int :| day in todo;
      var bucket := SettleCounters(Bucket(days, day), sent[day]);
      todo := todo - {day};
      if bucket != map[] {
        days := days[day := bucket];
      } else {
        days := days - {day};
      }
    }
    assert forall d: int :: d in days ==> d in settled;
    assert forall d: int :: d in settled ==> d in days;
    assert forall d: int :: d in days ==> days[d] == settled[d];
    SameMap(days, settled);
  }

  /** The gauge loop of `_settle`: a gauge set to something else since stays buffered. */
  method SettleAllGauges(before: Gauges, sent: Gauges) returns (gauges: Gauges)
    ensures gauges == SettleGauges(before, sent)
  {
    gauges := before;
    var todo := sent.Keys;
    while todo != {}
      invariant todo <= sent.Keys
      invariant forall g :: g in gauges <==> g in before && (g in sent && g !in todo ==> before[g] != sent[g])
      invariant forall g :: g in gauges ==> gauges[g] == before[g]
    {
      var g :| g in todo;
      todo := todo - {g};
      if g in gauges && gauges[g] == sent[g] {
        gauges := gauges - {g};
      }
    }
    SameMap(gauges, SettleGauges(before, sent));
  }

  /** The inner loop of `_settle`: one day's bucket less what was sent. */
  method SettleCounters(start: map<string, int>, sent: map<string, int>) returns (bucket: map<string, int>)
    ensures bucket == SettleBucket(start, sent)
  {
    bucket := start;
    var todo := sent.Keys;
    while todo != {}
      invariant todo <= sent.Keys
      invariant forall k :: k in bucket <==> if k in sent && k !in todo then Get(start, k) - sent[k] > 0 else k in start
      invariant forall k :: k in bucket ==> bucket[k] == Get(start, k) - (if k in todo then 0 else Get(sent, k))
    {
      var key :| key in todo;
      var remaining := Get(bucket, key) - sent[key];
      todo := todo - {key};
      if remaining > 0 {
        bucket := bucket[key := remaining];
      } else {
        bucket := bucket - {key};
      }
    }
    SameMap(bucket, SettleBucket(start, sent));
  }
}
