/** The telemetry buffer as a step system: increments, gauges and pruning race with one flush in flight. */
module TelemetryRuns {
  import opened Common
  import opened NewestDays
  import opened TelemetryBuffer

  /** One counter and one gauge to keep totals for, and which keys are valid; the results hold for every choice. */
  datatype Watch = Watch(day: int, key: string, gauge: string, valid: string -> bool)

  /**
   * The buffer, the flush in flight, and running totals for the watched counter (recorded, accepted by the
   * bridge, discarded) and gauge (latest recorded, last accepted).
   */
  datatype State = State(
    days: Days, gauges: Gauges, flight: Option<Payload>,
    recorded: int, accepted: int, discarded: int,
    latest: Option<real>, delivered: Option<real>)

  datatype Event =
    | Incr(day: int, metrics: map<string, int>)
    | SetGauge(name: string, value: real)
    | Begin(payload: Payload)
    | Finish(ok: bool)

  ghost predicate Positive(days: Days) {
    forall d, k :: d in days && k in days[d] ==> days[d][k] > 0
  }

  /** Valid amounts are not negative, and a flush starts only when none is in flight and something is buffered. */
  ghost predicate Enabled(w: Watch, s: State, e: Event) {
    match e
    case Incr(_, metrics) => forall k :: k in metrics && w.valid(k) ==> metrics[k] >= 0
    case SetGauge(_, _) => true
    case Begin(p) =>
      && s.flight.None? && (NonEmpty(s.days) != map[] || s.gauges != map[])
      && IsCap(NonEmpty(s.days), p.days, MAX_METRICS_PER_FLUSH) && p.gauges == s.gauges
    case Finish(_) => s.flight.Some?
  }

  /** The watched amount the flush in flight carries. */
  function InFlight(w: Watch, s: State): int {
    if s.flight.Some? then Buffered(s.flight.value.days, w.day, w.key) else 0
  }

  /** The part of it that only the flush holds, its day having been pruned meanwhile. */
  function Limbo(w: Watch, s: State): int {
    if w.day in s.days then 0 else InFlight(w, s)
  }

  /** What pruning drops for the watched counter, less what the flush in flight still carries. */
  function Dropped(w: Watch, s: State, added: Days): int {
    if w.day in added && w.day !in PruneDays(added)
    then Buffered(added, w.day, w.key) - (if w.day in s.days then InFlight(w, s) else 0)
    else 0
  }

  ghost function Step(w: Watch, s: State, e: Event): State
    requires Enabled(w, s, e)
  {
    match e
    case Incr(day, metrics) =>
      var amounts := Clean(metrics, w.valid);
      s.(days := IncrDays(s.days, day, amounts),
         recorded := s.recorded + (if day == w.day then Recorded(metrics, w.valid, w.key) else 0),
         discarded := s.discarded +
           if amounts == map[] then 0 else Dropped(w, s, s.days[day := AddBucket(Bucket(s.days, day), amounts)]))
    case SetGauge(name, value) =>
      if !w.valid(name) then s
      else s.(gauges := s.gauges[name := value], latest := if name == w.gauge then Some(value) else s.latest)
    case Begin(p) => s.(flight := Some(p))
    case Finish(ok) =>
      var p := s.flight.value;
      if ok then
        s.(days := SettleDays(s.days, p.days), gauges := SettleGauges(s.gauges, p.gauges), flight := None,
           accepted := s.accepted + InFlight(w, s),
           delivered := if w.gauge in p.gauges then Some(p.gauges[w.gauge]) else s.delivered)
      else s.(flight := None, discarded := s.discarded + Limbo(w, s))
  }

  // ---------------------------------------------------------------- the invariant

  /** What a flush carries is still buffered, or its day is too old to come back before the flush ends. */
  ghost predicate Backed(p: Payload, days: Days) {
    forall d :: d in p.days ==>
      if d in days then forall k :: k in p.days[d] ==> 0 < p.days[d][k] <= Get(days[d], k)
      else |Newer(days.Keys, d)| >= RETAIN_DAYS && forall k :: k in p.days[d] ==> 0 < p.days[d][k]
  }

  ghost predicate Inv(w: Watch, s: State) {
    && Positive(s.days)
    && (s.flight.Some? ==> Backed(s.flight.value, s.days) && forall g :: g in s.flight.value.gauges ==> g in s.gauges)
    && s.discarded >= 0 && s.accepted >= 0
    && s.recorded == s.accepted + Buffered(s.days, w.day, w.key) + s.discarded + Limbo(w, s)
    && (match s.latest
        case None => w.gauge !in s.gauges
        case Some(v) => if w.gauge in s.gauges then s.gauges[w.gauge] == v else s.delivered == Some(v))
  }

  /** A buffer as loaded from disk, nothing in flight. */
  ghost predicate Initial(w: Watch, s: State) {
    && Positive(s.days) && s.flight.None?
    && s.accepted == 0 && s.discarded == 0 && s.recorded == Buffered(s.days, w.day, w.key)
    && s.latest == (if w.gauge in s.gauges then Some(s.gauges[w.gauge]) else None)
  }

  lemma AddPositive(days: Days, day: int, amounts: map<string, int>)
    requires Positive(days) && forall k :: k in amounts ==> amounts[k] > 0
    ensures Positive(days[day := AddBucket(Bucket(days, day), amounts)])
  {
  }

  /** Adding and pruning keep a flush backed. */
  lemma IncrBacked(p: Payload, days: Days, day: int, amounts: map<string, int>)
    requires Backed(p, days) && Positive(days) && forall k :: k in amounts ==> amounts[k] > 0
    ensures Backed(p, PruneDays(days[day := AddBucket(Bucket(days, day), amounts)]))
  {
    var added := days[day := AddBucket(Bucket(days, day), amounts)];
    var after := PruneDays(added);
    assert added.Keys == days.Keys + {day};
    assert after.Keys == Retained(added.Keys);
    hide Retained, Newer;
    forall d | d in p.days
      ensures if d in after then forall k :: k in p.days[d] ==> 0 < p.days[d][k] <= Get(after[d], k)
              else |Newer(after.Keys, d)| >= RETAIN_DAYS && forall k :: k in p.days[d] ==> 0 < p.days[d][k]
    {
      if d !in days {
        NewerGrows(days.Keys, day, d);
        OldNotRetained(added.Keys, d);
        StaleStays(added.Keys, d);
      } else if d !in after {
        OldNotRetained(added.Keys, d);
        StaleStays(added.Keys, d);
      }
    }
  }

  lemma OldNotRetained(days: set<int>, d: int)
    ensures d in days ==> (d !in Retained(days) <==> |Newer(days, d)| >= RETAIN_DAYS)
    ensures |Newer(days, d)| >= RETAIN_DAYS ==> d !in Retained(days)
  {
  }

  /** What is added is buffered, or dropped and counted as discarded once. */
  lemma IncrBalances(w: Watch, s: State, e: Event)
    requires Inv(w, s) && Enabled(w, s, e) && e.Incr? && Clean(e.metrics, w.valid) != map[]
    ensures var end := Step(w, s, e);
            end.discarded >= 0 && end.recorded == end.accepted + Buffered(end.days, w.day, w.key) + end.discarded +
                Limbo(w, end)
  {
    var amounts := Clean(e.metrics, w.valid);
    var added := s.days[e.day := AddBucket(Bucket(s.days, e.day), amounts)];
    var after := PruneDays(added);
    CleanRecords(e.metrics, w.valid, w.key);
    AddBuffered(s.days, e.day, amounts, w.day, w.key);
    PruneBuffered(added, w.day, w.key);
    OldNotRetained(added.Keys, w.day);
    NewerGrows(s.days.Keys, e.day, w.day);
    hide Retained, Newer, PruneDays, AddBucket, Buffered, Get, Positive, Recorded, Clean;
  }

  lemma CleanRecords(metrics: map<string, int>, valid: string -> bool, k: string)
    ensures Get(Clean(metrics, valid), k) == Recorded(metrics, valid, k)
  {
  }

  lemma AddBuffered(days: Days, day: int, amounts: map<string, int>, d: int, k: string)
    ensures var added := days[day := AddBucket(Bucket(days, day), amounts)];
            && added.Keys == days.Keys + {day}
            && Buffered(added, d, k) == Buffered(days, d, k) + if day == d then Get(amounts, k) else 0
  {
  }

  lemma PruneBuffered(days: Days, d: int, k: string)
    ensures PruneDays(days).Keys == Retained(days.Keys)
    ensures Buffered(PruneDays(days), d, k) == if d in Retained(days.Keys) then Buffered(days, d, k) else 0
    ensures d !in days ==> Buffered(days, d, k) == 0
  {
  }

  lemma IncrKeepsInv(w: Watch, s: State, e: Event)
    requires Inv(w, s) && Enabled(w, s, e) && e.Incr?
    ensures Inv(w, Step(w, s, e))
  {
    var amounts := Clean(e.metrics, w.valid);
    if amounts != map[] {
      IncrBalances(w, s, e);
      AddPositive(s.days, e.day, amounts);
      if s.flight.Some? {
        IncrBacked(s.flight.value, s.days, e.day, amounts);
      }
      hide Retained, Newer, Backed, AddBucket, Limbo, Dropped, Buffered, Clean, Recorded;
    } else {
      CleanRecords(e.metrics, w.valid, w.key);
    }
  }

  /** Settling takes from the watched counter exactly what the flush carried and the buffer still had. */
  lemma SettleBalances(w: Watch, s: State)
    requires Inv(w, s) && s.flight.Some?
    ensures Buffered(SettleDays(s.days, s.flight.value.days), w.day, w.key) + InFlight(w, s)
      == Buffered(s.days, w.day, w.key) + Limbo(w, s)
  {
    var p := s.flight.value;
    if w.day in p.days && w.day !in s.days {
      assert SettleBucket(map[], p.days[w.day]) == map[];
    }
    assert w.day in p.days && w.key in p.days[w.day] ==> p.days[w.day][w.key] > 0;
  }

  lemma SettlePositive(days: Days, sent: Days)
    requires Positive(days)
    requires forall d, k :: d in sent && k in sent[d] ==> sent[d][k] > 0
    ensures Positive(SettleDays(days, sent))
  {
  }

  lemma FinishKeepsInv(w: Watch, s: State, ok: bool)
    requires Inv(w, s) && s.flight.Some?
    ensures Inv(w, Step(w, s, Finish(ok)))
  {
    var p := s.flight.value;
    assert forall d, k :: d in p.days && k in p.days[d] ==> p.days[d][k] > 0;
    if ok {
      SettleBalances(w, s);
      SettlePositive(s.days, p.days);
      assert InFlight(w, s) >= 0;
    }
    hide SettleDays, Positive, Newer;
  }

  lemma BeginKeepsInv(w: Watch, s: State, p: Payload)
    requires Inv(w, s) && Enabled(w, s, Begin(p))
    ensures Inv(w, Step(w, s, Begin(p)))
  {
    assert forall d :: d in p.days ==> d in s.days;
  }

  /** Every step keeps the invariant. */
  lemma StepKeepsInv(w: Watch, s: State, e: Event)
    requires Inv(w, s) && Enabled(w, s, e)
    ensures Inv(w, Step(w, s, e))
  {
    match e
    case Incr(_, _) => IncrKeepsInv(w, s, e);
    case SetGauge(_, _) =>
    case Begin(p) => BeginKeepsInv(w, s, p);
    case Finish(ok) => FinishKeepsInv(w, s, ok);
  }

  // ---------------------------------------------------------------- runs

  /** Every event of the run is possible when it happens. */
  ghost predicate Possible(w: Watch, s: State, run: seq<Event>)
    decreases |run|
  {
    run == [] || (Enabled(w, s, run[0]) && Possible(w, Step(w, s, run[0]), run[1..]))
  }

  ghost function After(w: Watch, s: State, run: seq<Event>): State
    requires Possible(w, s, run)
    decreases |run|
  {
    if run == [] then s else After(w, Step(w, s, run[0]), run[1..])
  }

  lemma {:induction false} RunKeepsInv(w: Watch, s: State, run: seq<Event>)
    requires Inv(w, s) && Possible(w, s, run)
    ensures Inv(w, After(w, s, run))
    decreases |run|
  {
    if run != [] {
      StepKeepsInv(w, s, run[0]);
      RunKeepsInv(w, Step(w, s, run[0]), run[1..]);
    }
  }

  /**
   * Main result: in every run, for every day and counter, what was recorded was accepted once, is still
   * buffered, was discarded once, or is held by a flush in flight whose day was pruned; for every gauge the
   * latest value is buffered or was the last one accepted.
   */
  lemma Conservation(w: Watch, s: State, run: seq<Event>)
    requires Initial(w, s) && Possible(w, s, run)
    ensures var end := After(w, s, run);
            && end.recorded == end.accepted + Buffered(end.days, w.day, w.key) + end.discarded + Limbo(w, end)
            && end.accepted >= 0 && end.discarded >= 0 && Limbo(w, end) >= 0 && Buffered(end.days, w.day, w.key) >= 0
            && (end.flight.None? ==> Limbo(w, end) == 0)
            && (end.latest.Some? ==>
                  if w.gauge in end.gauges then end.gauges[w.gauge] == end.latest.value
                      else end.delivered == end.latest)
  {
    RunKeepsInv(w, s, run);
  }

  // ---------------------------------------------------------------- draining

  lemma NonEmptyPairs(days: Days)
    ensures Pairs(NonEmpty(days)) == Pairs(days)
  {
    forall p | p in Pairs(days) ensures p in Pairs(NonEmpty(days)) {
      var (d, k) := p;
      assert d in NonEmpty(days) && k in NonEmpty(days)[d];
    }
  }

  lemma InPairs(days: Days, d: int, k: string)
    ensures (d, k) in Pairs(days) <==> d in days && k in days[d]
  {
  }

  /** With nothing recorded meanwhile, settling removes exactly the counters that were sent. */
  lemma SettleRemoves(days: Days, sent: Days)
    requires Positive(days) && SubDays(sent, days)
    ensures Pairs(SettleDays(days, sent)) == Pairs(days) - Pairs(sent)
    ensures Positive(SettleDays(days, sent))
  {
    var after := SettleDays(days, sent);
    forall d, k ensures (d, k) in Pairs(after) <==> (d, k) in Pairs(days) && (d, k) !in Pairs(sent) {
      InPairs(after, d, k);
      InPairs(days, d, k);
      InPairs(sent, d, k);
      if d in sent && d in after && k in SettleBucket(days[d], sent[d]) {
        assert after[d] == SettleBucket(days[d], sent[d]);
      }
      if d in sent && k in days[d] && k !in sent[d] {
        assert k in SettleBucket(days[d], sent[d]);
      }
    }
    forall p: (int, string) ensures p in Pairs(after) <==> p in Pairs(days) - Pairs(sent) {
      var (d, k) := p;
    }
  }

  /**
   * A payload has at most 400 counters, all buffered, newest days first; settling it alone removes min(400, n) of n.
   */
  lemma FlushDrains(days: Days, payload: Days)
    requires Positive(days) && IsCap(NonEmpty(days), payload, MAX_METRICS_PER_FLUSH)
    ensures |Pairs(payload)| <= 400 && Pairs(payload) <= Pairs(days)
    ensures |Pairs(SettleDays(days, payload))| ==
              if |Pairs(days)| <= 400 then 0 else |Pairs(days)| - 400
    ensures Positive(SettleDays(days, payload))
  {
    NonEmptyPairs(days);
    SubDaysPairs(payload, NonEmpty(days));
    assert SubDays(payload, days);
    SettleRemoves(days, payload);
    hide Pairs, SettleDays, IsCap;
    assert |Pairs(days) - Pairs(payload)| == |Pairs(days)| - |Pairs(payload)|;
  }

  /** Consecutive buffers of accepted flushes with no increment in between. */
  ghost predicate Flushes(states: seq<Days>, payloads: seq<Days>) {
    && |states| == |payloads| + 1
    && forall i :: 0 <= i < |payloads| ==>
         IsCap(NonEmpty(states[i]), payloads[i], MAX_METRICS_PER_FLUSH) &&
             states[i + 1] == SettleDays(states[i], payloads[i])
  }

  /** `m` accepted flushes remove 400 counters each until none is left, so ceil(n / 400) of them empty the buffer. */
  lemma {:induction false} FlushesDrain(states: seq<Days>, payloads: seq<Days>)
    requires Flushes(states, payloads) && Positive(states[0])
    ensures var n, m := |Pairs(states[0])|, |payloads|;
            |Pairs(states[m])| == if n <= m * 400 then 0 else n - m * 400
    decreases |payloads|
  {
    hide Pairs, SettleDays, IsCap;
    if payloads != [] {
      FlushDrains(states[0], payloads[0]);
      FlushesDrain(states[1..], payloads[1..]);
    }
  }
}
