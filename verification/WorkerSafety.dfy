/** What every run of the promo worker keeps: budgets, cooldowns, the circuit breaker and once-only acknowledgements. */
module WorkerSafety {
  import opened Common
  import opened Refs
  import opened PromoQueue
  import opened SafetyGuard
  import opened PromoWorker
  import opened WorkerRuns
  import Queue = PromoQueueRuns
  import Markers = MarkerRuns

  // ---------------------------------------------------------------- what the guard remembers

  function AsSends(history: seq<Success>): seq<Send> {
    seq(|history|, i requires 0 <= i < |history| => Send(history[i].at, history[i].group))
  }

  ghost predicate Ordered(history: seq<Success>, clock: int) {
    && (forall i, j :: 0 <= i < j < |history| ==> history[i].at <= history[j].at)
    && forall i :: 0 <= i < |history| ==> history[i].at <= clock
  }

  /** The guard remembers the end of the history; what it forgot is three days old or 2000 successes back. */
  ghost predicate Remembered(history: seq<Success>, sends: seq<Send>, clock: int) {
    var n := |history| - |sends|;
    && n >= 0 && sends == AsSends(history)[n..]
    && (n == 0 || history[n - 1].at < clock - RETAIN || |sends| >= MAX_SENDS)
  }

  /** The last noted moment of a group is no earlier than any success on it. */
  ghost predicate LastNoted(history: seq<Success>, groupLast: map<string, int>) {
    forall i :: 0 <= i < |history| ==> history[i].group in groupLast && groupLast[history[i].group] >= history[i].at
  }

  /** The `count`-th success before `now` is more than `span` old. */
  predicate Room(history: seq<Success>, now: int, count: int, span: int)
    requires count >= 1
  {
    |history| >= count ==> history[|history| - count].at < now - span
  }

  /** Both budgets allow a send at all. */
  ghost predicate Sane(limits: Limits) {
    1 <= limits.hourly && 1 <= limits.daily
  }

  /** The guard remembers enough sends to enforce the daily budget itself. */
  predicate DayCounted(limits: Limits) {
    limits.daily <= MAX_SENDS
  }

  /** It remembers enough for the hourly budget, or the daily one stops the worker first. */
  predicate HourCounted(limits: Limits) {
    limits.hourly <= MAX_SENDS || DayCounted(limits)
  }

  /** Forgetting the first `m` sends is sound when the last of them is old or 2000 are left. */
  lemma ForgetRemembered(history: seq<Success>, sends: seq<Send>, clock: int, m: nat)
    requires Remembered(history, sends, clock) && m <= |sends|
    requires m == 0 || sends[m - 1].at < clock - RETAIN || |sends| - m >= MAX_SENDS
    ensures Remembered(history, sends[m..], clock)
  {
    var n := |history| - |sends|;
    assert sends[m..] == AsSends(history)[n + m..];
    if m > 0 {
      assert sends[m - 1] == AsSends(history)[n + m - 1];
    }
  }

  lemma AppendRemembered(history: seq<Success>, sends: seq<Send>, clock: int, s: Success)
    requires Ordered(history, clock) && Remembered(history, sends, clock) && clock <= s.at
    ensures Ordered(history + [s], s.at) && Remembered(history + [s], sends + [Send(s.at, s.group)], s.at)
  {
    var more, n := history + [s], |history| - |sends|;
    assert sends + [Send(s.at, s.group)] == AsSends(more)[n..];
  }

  lemma SendsInOrder(history: seq<Success>, sends: seq<Send>, clock: int)
    requires Ordered(history, clock) && Remembered(history, sends, clock)
    ensures InOrder(sends)
  {
    var n := |history| - |sends|;
    assert forall i :: 0 <= i < |sends| ==> sends[i].at == history[n + i].at;
  }

  /** Noting a success forgets `m` old sends and then the first `cut` of more than 2000. */
  lemma NotedSends(h: Health, group: string, at: int, now: int) returns (m: nat, cut: nat)
    requires InOrder(h.sends + [Send(at, group)])
    ensures var all := h.sends + [Send(at, group)];
            && m <= |all| && cut <= |all[m..]|
            && NotedSuccess(h, group, at, now).sends == all[m..][cut..]
            && (m == 0 || all[m - 1].at < now - RETAIN) && (cut == 0 || |all[m..]| - cut == MAX_SENDS)
  {
    var all := h.sends + [Send(at, group)];
    m := FirstSince(all, now - RETAIN);
    cut := LastSendsCut(all[m..]);
  }

  /** Noting a success forgets exactly what is three days old or more than 2000 successes back. */
  lemma Forgets(h: Health, group: string, at: int, now: int) returns (n: nat)
    requires InOrder(h.sends + [Send(at, group)])
    ensures var all := h.sends + [Send(at, group)];
            && n <= |all| && NotedSuccess(h, group, at, now).sends == all[n..]
            && forall i :: 0 <= i < |all| ==>
                 (i >= n <==> all[i].at >= now - 3 * 86_400_000_000 && |all| - i <= 2000)
  {
    var all := h.sends + [Send(at, group)];
    var m := FirstSince(all, now - RETAIN);
    var cut := LastSendsCut(all[m..]);
    n := m + cut;
    assert all[m..][cut..] == all[n..];
  }

  lemma NoteRemembered(history: seq<Success>, h: Health, clock: int, s: Success, now: int)
    requires Ordered(history, clock) && Remembered(history, h.sends, clock) && clock <= s.at <= now
    ensures Ordered(history + [s], now)
    ensures Remembered(history + [s], NotedSuccess(h, s.group, s.at, now).sends, now)
  {
    var more, all := history + [s], h.sends + [Send(s.at, s.group)];
    AppendRemembered(history, h.sends, clock, s);
    LookRemembered(more, all, s.at, now);
    SendsInOrder(more, all, now);
    hide Remembered, Ordered, InOrder, NotedSuccess;
    var m, cut := NotedSends(h, s.group, s.at, now);
    ForgetRemembered(more, all, now, m);
    ForgetRemembered(more, all[m..], now, cut);
  }

  lemma LastSendsCut(sends: seq<Send>) returns (cut: nat)
    ensures cut <= |sends| && LastSends(sends) == sends[cut..] && (cut == 0 || |sends| - cut == MAX_SENDS)
  {
    cut := if |sends| <= MAX_SENDS then 0 else |sends| - MAX_SENDS;
  }

  lemma LookRemembered(history: seq<Success>, sends: seq<Send>, clock: int, now: int)
    requires Ordered(history, clock) && Remembered(history, sends, clock) && clock <= now
    ensures Ordered(history, now) && Remembered(history, sends, now)
  {
  }

  /** Fewer sends since a moment than there are from the `i`-th on: the `i`-th is older. */
  lemma OlderThanCounted(sends: seq<Send>, since: int, i: nat)
    requires InOrder(sends) && i < |sends| && |Since(sends, since)| < |sends| - i
    ensures sends[i].at < since
  {
    var m := FirstSince(sends, since);
  }

  /** Fewer than `count` remembered sends since `span` ago leave room for one more. */
  lemma CheckLeavesRoom(history: seq<Success>, sends: seq<Send>, now: int, count: int, span: int)
    requires Ordered(history, now) && Remembered(history, sends, now)
    requires 1 <= count <= MAX_SENDS && 0 <= span <= RETAIN && |Since(sends, now - span)| < count
    ensures Room(history, now, count, span)
  {
    var n := |history| - |sends|;
    assert n >= 0;
    SendsInOrder(history, sends, now);
    hide Since, InOrder, Remembered, Ordered;
    if |history| >= count {
      var k := |history| - count;
      if n <= k {
        OlderThanCounted(sends, now - span, k - n);
        RememberedAt(history, sends, now, k - n);
      } else if |Since(sends, now - span)| < |sends| {
        OlderThanCounted(sends, now - span, 0);
        RememberedAt(history, sends, now, 0);
        Earlier(history, now, k, n);
      } else {
        ForgottenIsOld(history, sends, now);
        Earlier(history, now, k, n - 1);
      }
    }
  }

  lemma ForgottenIsOld(history: seq<Success>, sends: seq<Send>, clock: int)
    requires Remembered(history, sends, clock) && |sends| < |history| && |sends| < MAX_SENDS
    ensures history[|history| - |sends| - 1].at < clock - RETAIN
  {
  }

  lemma RememberedAt(history: seq<Success>, sends: seq<Send>, clock: int, i: nat)
    requires Remembered(history, sends, clock) && i < |sends|
    ensures sends[i].at == history[|history| - |sends| + i].at
  {
  }

  lemma Earlier(history: seq<Success>, clock: int, i: nat, j: nat)
    requires Ordered(history, clock) && i <= j < |history|
    ensures history[i].at <= history[j].at
  {
  }

  lemma BudgetLeavesRoom(history: seq<Success>, h: Health, limits: Limits, now: int)
    requires Sane(limits) && Ordered(history, now) && Remembered(history, h.sends, now) && WithinBudget(h, limits, now)
    ensures HourCounted(limits) ==> Room(history, now, limits.hourly, HOUR)
    ensures DayCounted(limits) ==> Room(history, now, limits.daily, DAY)
  {
    if DayCounted(limits) {
      CheckLeavesRoom(history, h.sends, now, limits.daily, DAY);
    }
    if limits.hourly <= MAX_SENDS {
      CheckLeavesRoom(history, h.sends, now, limits.hourly, HOUR);
    } else if DayCounted(limits) && |history| >= limits.hourly {
      assert history[|history| - limits.hourly].at <= history[|history| - limits.daily].at;
    }
  }

  // ---------------------------------------------------------------- what the history satisfies

  /** Any `count` + 1 successes in a row span more than `span`. */
  ghost predicate Sparse(history: seq<Success>, count: int, span: int)
    requires count >= 1
  {
    forall i, j :: 0 <= i && i + count == j < |history| ==> history[j].at - history[i].at > span
  }

  /** Two successes on one group are a cooldown apart when the later one was checked under that group. */
  ghost predicate Spaced(history: seq<Success>, limits: Limits) {
    forall i, j ::
      0 <= i < j < |history| && history[i].group == history[j].group && history[j].key == history[j].group ==>
        history[j].at - history[i].at >= Minutes(limits.cooldownMinutes)
  }

  /** No success falls inside a period of an open circuit. */
  ghost predicate Respected(history: seq<Success>, openings: seq<Opening>) {
    forall i, j :: 0 <= i < |openings| && 0 <= j < |history| ==>
      !(openings[i].from < history[j].at < openings[i].until)
  }

  /** Rounds rest in between, so successes are at least four seconds apart. */
  ghost predicate Rested(history: seq<Success>) {
    forall i, j :: 0 <= i && i + 1 == j < |history| ==> history[j].at - history[i].at >= REST
  }

  /** What follows the last success does so after a rest: the next round, or the one under way. */
  predicate RestedSince(w: World) {
    w.history != [] ==>
      w.history[|w.history| - 1].at + REST <= (if w.phase.Idle? then w.nextRound else w.phase.cooledAt)
  }

  ghost predicate OverBy(openings: seq<Opening>, moment: int) {
    forall i :: 0 <= i < |openings| ==> openings[i].until <= moment
  }

  /** What the worker's checks established for the job in flight. */
  ghost predicate PhaseOk(c: Setup, w: World)
    requires Sane(c.limits)
  {
    match w.phase
    case Idle => true
    case Pacing(job, cooledAt) =>
      Ordered(w.history, cooledAt) && cooledAt <= w.clock && Cooled(w.health, c.limits, CheckedKey(job), cooledAt)
    case Sending(job, cooledAt, checkedAt) =>
      && Ordered(w.history, cooledAt) && cooledAt <= checkedAt <= w.clock
      && Cooled(w.health, c.limits, CheckedKey(job), cooledAt)
      && w.health.pausedUntil.None? && OverBy(w.openings, checkedAt)
      && (HourCounted(c.limits) ==> Room(w.history, checkedAt, c.limits.hourly, HOUR))
      && (DayCounted(c.limits) ==> Room(w.history, checkedAt, c.limits.daily, DAY))
  }

  ghost predicate Safe(c: Setup, w: World)
    requires Sane(c.limits)
  {
    && Ordered(w.history, w.clock)
    && Remembered(w.history, w.health.sends, w.clock)
    && LastNoted(w.history, w.health.groupLast)
    && (HourCounted(c.limits) ==> Sparse(w.history, c.limits.hourly, HOUR))
    && (DayCounted(c.limits) ==> Sparse(w.history, c.limits.daily, DAY))
    && Spaced(w.history, c.limits) && Rested(w.history) && RestedSince(w)
    && Respected(w.history, w.openings)
    && OverBy(w.openings, if w.health.pausedUntil.Some? then w.health.pausedUntil.value else w.clock)
    && PhaseOk(c, w)
  }

  lemma LaterOrdered(history: seq<Success>, sends: seq<Send>, openings: seq<Opening>, before: int, now: int)
    requires Ordered(history, before) && before <= now
    ensures Ordered(history, now)
    ensures Remembered(history, sends, before) ==> Remembered(history, sends, now)
    ensures OverBy(openings, before) ==> OverBy(openings, now)
  {
  }

  /** No step but a delivery changes when the last success was; each keeps a rest behind it. */
  lemma StepKeepsRest(c: Setup, w: World, e: Event)
    requires Ordered(w.history, w.clock) && RestedSince(w) && Enabled(w, e)
    ensures RestedSince(Step(c, w, e))
  {
    hide Taken, StartItems, StartHealth, GoesOn, Looked, EnqueueItems, SettledOf, FinishHealth, FinishMarkers,
      ReachesAck, CheckedKey, NotedKey, VerdictOf, Ordered;
    if w.history != [] {
      LastOrdered(w.history, w.clock);
    }
  }

  lemma LastOrdered(history: seq<Success>, clock: int)
    requires Ordered(history, clock) && history != []
    ensures history[|history| - 1].at <= clock
  {
  }

  /** The health after a look at the circuit: nothing but an expired opening and its strikes goes. */
  ghost predicate LookedOnly(before: Health, after: Health, now: int) {
    && after.sends == before.sends && after.groupLast == before.groupLast
    && (after.pausedUntil == before.pausedUntil
        || (after.pausedUntil.None? && before.pausedUntil.Some? && before.pausedUntil.value <= now))
  }

  lemma StartShape(c: Setup, w: World, e: Event)
    requires Enabled(w, e) && e.Start?
    ensures var after := Step(c, w, e);
            && after.history == w.history && after.openings == w.openings && after.clock == e.starts.ruled
            && LookedOnly(w.health, after.health, e.starts.active)
            && (after.phase.Idle? || (after.phase.Pacing? && after.phase.cooledAt == e.starts.cool
                                      && Cooled(after.health, c.limits, CheckedKey(after.phase.job), e.starts.cool)))
  {
    hide StartItems, CheckedKey, WithinBudget, Head, Minutes;
  }

  lemma OpeningsOver(w: World, after: World, now: int)
    requires OverBy(w.openings, if w.health.pausedUntil.Some? then w.health.pausedUntil.value else w.clock)
    requires after.openings == w.openings && LookedOnly(w.health, after.health, now) && w.clock <= now <= after.clock
    ensures OverBy(after.openings, if after.health.pausedUntil.Some? then after.health.pausedUntil.value
        else after.clock)
  {
  }

  lemma StartKeepsSafe(c: Setup, w: World, e: Event)
    requires Sane(c.limits) && Safe(c, w) && Enabled(w, e) && e.Start?
    ensures Safe(c, Step(c, w, e))
  {
    StepKeepsRest(c, w, e);
    StartShape(c, w, e);
    OpeningsOver(w, Step(c, w, e), e.starts.active);
    hide Ordered, Remembered, LastNoted, Sparse, Spaced, Rested, RestedSince, Respected, OverBy, Cooled, CheckedKey,
      Step, HourCounted, DayCounted;
    LaterOrdered(w.history, w.health.sends, w.openings, w.clock, e.starts.cool);
    LaterOrdered(w.history, w.health.sends, w.openings, w.clock, e.starts.ruled);
  }

  lemma ResumeShape(c: Setup, w: World, e: Event)
    requires Enabled(w, e) && e.Resume?
    ensures var after := Step(c, w, e);
            && after.history == w.history && after.openings == w.openings && after.clock == e.budget
            && LookedOnly(w.health, after.health, e.active)
            && (after.phase.Idle? || (after.phase == Sending(w.phase.job, w.phase.cooledAt, e.budget)
                                      && after.health.pausedUntil.None? &&
                                          WithinBudget(after.health, c.limits, e.budget)))
  {
    hide WithinBudget;
  }

  lemma ResumeKeepsSafe(c: Setup, w: World, e: Event)
    requires Sane(c.limits) && Safe(c, w) && Enabled(w, e) && e.Resume?
    ensures Safe(c, Step(c, w, e))
  {
    StepKeepsRest(c, w, e);
    ResumeShape(c, w, e);
    var after := Step(c, w, e);
    OpeningsOver(w, after, e.active);
    if after.phase.Sending? {
      SendingSafe(c, w, after, e.budget);
    } else {
      DroppedSafe(c, w, after);
    }
  }

  /** The checks after the pacing wait passed at `budget`. */
  lemma SendingSafe(c: Setup, w: World, after: World, budget: int)
    requires Sane(c.limits) && Safe(c, w) && w.phase.Pacing? && RestedSince(after)
    requires after.history == w.history && after.clock == budget >= w.clock
    requires after.health.sends == w.health.sends && after.health.groupLast == w.health.groupLast
    requires after.phase == Sending(w.phase.job, w.phase.cooledAt, budget)
    requires after.openings == w.openings && after.health.pausedUntil.None? && OverBy(after.openings, budget)
    requires WithinBudget(after.health, c.limits, budget)
    ensures Safe(c, after)
  {
    hide Ordered, Remembered, LastNoted, Sparse, Spaced, Rested, RestedSince, Respected, OverBy, Room, CheckedKey,
      WithinBudget, HourCounted, DayCounted, Cooled;
    LaterOrdered(w.history, w.health.sends, w.openings, w.clock, budget);
    BudgetLeavesRoom(w.history, after.health, c.limits, budget);
    CooledStays(w.health, after.health, c.limits, CheckedKey(w.phase.job), w.phase.cooledAt);
  }

  /** The round ends without a delivery. */
  lemma DroppedSafe(c: Setup, w: World, after: World)
    requires Sane(c.limits) && Safe(c, w) && after.phase.Idle? && RestedSince(after)
    requires after.history == w.history && after.openings == w.openings && w.clock <= after.clock
    requires after.health.sends == w.health.sends && after.health.groupLast == w.health.groupLast
    requires OverBy(after.openings, if after.health.pausedUntil.Some? then after.health.pausedUntil.value
        else after.clock)
    ensures Safe(c, after)
  {
    hide Ordered, Remembered, LastNoted, Sparse, Spaced, Rested, RestedSince, Respected, OverBy, HourCounted,
      DayCounted;
    LaterOrdered(w.history, w.health.sends, w.openings, w.clock, after.clock);
  }

  lemma CooledStays(before: Health, after: Health, limits: Limits, key: string, now: int)
    requires Cooled(before, limits, key, now) && after.groupLast == before.groupLast
    ensures Cooled(after, limits, key, now)
  {
  }

  lemma SparseGrows(history: seq<Success>, s: Success, now: int, count: int, span: int)
    requires count >= 1 && Sparse(history, count, span) && Room(history, now, count, span) && now <= s.at
    ensures Sparse(history + [s], count, span)
  {
    var more := history + [s];
    forall i, j | 0 <= i && i + count == j < |more| ensures more[j].at - more[i].at > span {
      if j < |history| {
        assert history[j].at - history[i].at > span;
      }
    }
  }

  lemma SpacedGrows(history: seq<Success>, s: Success, h: Health, limits: Limits)
    requires Spaced(history, limits) && LastNoted(history, h.groupLast)
    requires Cooled(h, limits, s.key, s.cooledAt) && s.cooledAt <= s.at
    ensures Spaced(history + [s], limits)
  {
  }

  lemma RestedGrows(history: seq<Success>, s: Success)
    requires Rested(history) && (history != [] ==> history[|history| - 1].at + REST <= s.at)
    ensures Rested(history + [s])
  {
  }

  lemma LastNotedGrows(history: seq<Success>, s: Success, groupLast: map<string, int>)
    requires LastNoted(history, groupLast) && Ordered(history, s.at)
    ensures LastNoted(history + [s], groupLast[s.group := s.at])
  {
  }

  lemma SuccessRespected(history: seq<Success>, s: Success, openings: seq<Opening>)
    requires Respected(history, openings) && OverBy(openings, s.at)
    ensures Respected(history + [s], openings)
  {
  }

  /** A delivered job adds one success to the history. */
  lemma DeliverKeepsSafe(c: Setup, w: World, e: Event)
    requires Sane(c.limits) && Safe(c, w) && Enabled(w, e) && e.Finish? && e.ending.Delivered?
    ensures Safe(c, Step(c, w, e))
  {
    hide Ordered, Remembered, LastNoted, Sparse, Spaced, Rested, Respected, OverBy, Room, CheckedKey, FinishMarkers,
      ReachesAck, NotedKey, Cooled;
    var Sending(job, cooledAt, checkedAt) := w.phase;
    var s := Success(e.ends.noted, NotedKey(job, e.ending), CheckedKey(job), cooledAt, checkedAt);
    LaterOrdered(w.history, w.health.sends, w.openings, w.clock, s.at);
    NoteRemembered(w.history, w.health, w.clock, s, e.ends.cutoff);
    LaterOrdered(w.history + [s], NotedSuccess(w.health, s.group, s.at, e.ends.cutoff).sends, w.openings,
        e.ends.cutoff, e.ends.acked);
    LaterOrdered([], [], w.openings, checkedAt, s.at);
    LaterOrdered([], [], w.openings, checkedAt, e.ends.acked);
    if HourCounted(c.limits) {
      SparseGrows(w.history, s, checkedAt, c.limits.hourly, HOUR);
    }
    if DayCounted(c.limits) {
      SparseGrows(w.history, s, checkedAt, c.limits.daily, DAY);
    }
    SpacedGrows(w.history, s, w.health, c.limits);
    RestedGrows(w.history, s);
    LastNotedGrows(w.history, s, w.health.groupLast);
    SuccessRespected(w.history, s, w.openings);
    assert Step(c, w, e).history == w.history + [s];
  }

  /** What an ending without a success changes, for a circuit that was closed. */
  lemma MissHealth(h: Health, limits: Limits, job: Job, ending: Ending, t: FinishTimes)
    requires !ending.Delivered? && h.pausedUntil.None?
    ensures var after := FinishHealth(h, limits, job, ending, t);
            && after.sends == h.sends && after.groupLast == h.groupLast
            && (after.pausedUntil.Some? ==> after.pausedUntil.value >= t.noted)
  {
    hide Minutes;
  }

  /** What an ending without a success leaves of the world. */
  lemma MissStep(c: Setup, w: World, e: Event)
    requires Enabled(w, e) && e.Finish? && !e.ending.Delivered? && w.health.pausedUntil.None?
    ensures var after := Step(c, w, e);
            && after.phase.Idle? && after.history == w.history && after.clock == e.ends.acked
            && after.nextRound == e.ends.acked + REST
            && after.health.sends == w.health.sends && after.health.groupLast == w.health.groupLast
            && after.openings == (if after.health.pausedUntil.None? then w.openings
                                  else w.openings + [Opening(e.ends.noted, after.health.pausedUntil.value)])
            && (after.health.pausedUntil.Some? ==> after.health.pausedUntil.value >= e.ends.noted)
  {
    MissHealth(w.health, c.limits, w.phase.job, e.ending, e.ends);
    hide FinishMarkers, ReachesAck, FinishHealth;
  }

  /** Any other ending adds no success, and may open the circuit. */
  lemma MissKeepsSafe(c: Setup, w: World, e: Event)
    requires Sane(c.limits) && Safe(c, w) && Enabled(w, e) && e.Finish? && !e.ending.Delivered?
    ensures Safe(c, Step(c, w, e))
  {
    MissStep(c, w, e);
    StepKeepsRest(c, w, e);
    hide Ordered, Remembered, LastNoted, Sparse, Spaced, Rested, RestedSince, Respected, Room, Cooled, OverBy,
      HourCounted, DayCounted, CheckedKey, Step;
    LaterOrdered(w.history, w.health.sends, w.openings, w.clock, e.ends.noted);
    LaterOrdered(w.history, w.health.sends, w.openings, w.clock, e.ends.acked);
    var health := Step(c, w, e).health;
    if health.pausedUntil.Some? {
      OpeningRespected(w.history, w.openings, e.ends.noted, health.pausedUntil.value);
      OpeningLast(w.openings, w.clock, e.ends.noted, health.pausedUntil.value);
    }
  }

  lemma OpeningRespected(history: seq<Success>, openings: seq<Opening>, from: int, until: int)
    requires Respected(history, openings) && Ordered(history, from)
    ensures Respected(history, openings + [Opening(from, until)])
  {
  }

  lemma OpeningLast(openings: seq<Opening>, before: int, from: int, until: int)
    requires OverBy(openings, before) && before <= until
    ensures OverBy(openings + [Opening(from, until)], until)
  {
  }

  /** Arrivals, clears and dropped rounds touch neither the history nor the guard. */
  lemma OtherKeepsSafe(c: Setup, w: World, e: Event)
    requires Sane(c.limits) && Safe(c, w) && Enabled(w, e) && (e.Arrive? || e.ClearAll? || e.Abandon?)
    ensures Safe(c, Step(c, w, e))
  {
    StepKeepsRest(c, w, e);
    OtherShape(c, w, e);
    StaysSafe(c, w, Step(c, w, e));
  }

  /** Time goes on, and a round may be dropped. */
  lemma StaysSafe(c: Setup, w: World, after: World)
    requires Sane(c.limits) && Safe(c, w) && RestedSince(after)
    requires after.history == w.history && after.openings == w.openings && after.health == w.health
    requires w.clock <= after.clock && (after.phase == w.phase || after.phase.Idle?)
    ensures Safe(c, after)
  {
    hide Ordered, Remembered, LastNoted, Sparse, Spaced, Rested, RestedSince, Respected, Room, Cooled, CheckedKey,
      OverBy, HourCounted, DayCounted;
    LaterOrdered(w.history, w.health.sends, w.openings, w.clock, after.clock);
  }

  lemma OtherShape(c: Setup, w: World, e: Event)
    requires Enabled(w, e) && (e.Arrive? || e.ClearAll? || e.Abandon?)
    ensures var after := Step(c, w, e);
            && after.history == w.history && after.openings == w.openings && after.health == w.health
            && w.clock <= after.clock && (after.phase == w.phase || after.phase.Idle?)
  {
    hide EnqueueItems, SettledOf;
  }

  lemma StepKeepsSafe(c: Setup, w: World, e: Event)
    requires Sane(c.limits) && Safe(c, w) && Enabled(w, e)
    ensures Safe(c, Step(c, w, e))
  {
    hide Safe, Enabled, Step, Sane;
    match e
    case Start(_, _, _) => StartKeepsSafe(c, w, e);
    case Resume(_, _, _, _) => ResumeKeepsSafe(c, w, e);
    case Finish(ending, _) =>
      if ending.Delivered? {
        DeliverKeepsSafe(c, w, e);
      } else {
        MissKeepsSafe(c, w, e);
      }
    case _ => OtherKeepsSafe(c, w, e);
  }

  lemma {:induction false} RunKeepsSafe(c: Setup, w: World, run: seq<Event>)
    requires Sane(c.limits) && Safe(c, w) && Possible(c, w, run)
    ensures Safe(c, WorkerRuns.After(c, w, run))
    decreases |run|
  {
    if run != [] {
      StepKeepsSafe(c, w, run[0]);
      hide Safe, Enabled, Step;
      RunKeepsSafe(c, Step(c, w, run[0]), run[1..]);
    }
  }

  // ---------------------------------------------------------------- main results

  /** A world before any success, opening or claim; queue and markers may hold anything. */
  ghost predicate Initial(w: World) {
    && w.phase.Idle? && w.health == Health([], map[], 0, None)
    && w.history == [] && w.openings == [] && w.claims == []
  }

  lemma InitialSafe(c: Setup, w: World)
    requires Sane(c.limits) && Initial(w)
    ensures Safe(c, w)
  {
  }

  /** The successes in a closed window of time. */
  function Between(history: seq<Success>, from: int, to: int): set<int> {
    set i | 0 <= i < |history| && from <= history[i].at <= to
  }

  lemma {:induction false} RangeSize(s: set<int>, lo: int, hi: int)
    requires lo <= hi && forall i :: i in s ==> lo <= i < hi
    ensures |s| <= hi - lo
    decreases hi - lo
  {
    if lo == hi {
      assert s == {};
    } else {
      RangeSize(s - {hi - 1}, lo, hi - 1);
      assert |s - {hi - 1}| >= |s| - 1;
    }
  }

  lemma SparseWindow(history: seq<Success>, count: int, span: int, from: int)
    requires count >= 1 && Sparse(history, count, span) &&
        Ordered(history, if history == [] then 0 else history[|history| - 1].at)
    ensures |Between(history, from, from + span)| <= count
  {
    var hits := Between(history, from, from + span);
    if hits != {} {
      var first := 0;
      while first !in hits
        invariant 0 <= first && forall i :: i in hits ==> i >= first
        decreases |history| - first
      {
        var some :| some in hits;
        first := first + 1;
      }
      Beyond(history, count, span, first);
      RangeSize(hits, first, first + count);
    }
  }

  lemma EndOrdered(history: seq<Success>, clock: int)
    requires Ordered(history, clock)
    ensures Ordered(history, if history == [] then 0 else history[|history| - 1].at)
  {
  }

  lemma Beyond(history: seq<Success>, count: int, span: int, i: nat)
    requires count >= 1 && Sparse(history, count, span) && i < |history|
    requires Ordered(history, history[|history| - 1].at)
    ensures forall j :: i + count <= j < |history| ==> history[j].at > history[i].at + span
  {
    if i + count < |history| {
      assert history[i + count].at - history[i].at > span;
    }
  }

  /** `m` times `count` successes in a row span more than `m` times `span`. */
  lemma {:induction false} SparseTimes(history: seq<Success>, count: int, span: int, m: nat, i: nat)
    requires count >= 1 && m >= 1 && Sparse(history, count, span) && i + m * count < |history|
    ensures m * count >= 0 && history[i + m * count].at - history[i].at > m * span
  {
    hide Sparse;
    Product(m - 1, count);
    var before := i + (m - 1) * count;
    assert before + count == i + m * count;
    SparseAt(history, count, span, before);
    if m > 1 {
      SparseTimes(history, count, span, m - 1, i);
    }
  }

  lemma Product(m: nat, count: int)
    requires count >= 1
    ensures m * count >= 0
  {
  }

  lemma SparseAt(history: seq<Success>, count: int, span: int, i: nat)
    requires count >= 1 && Sparse(history, count, span) && i + count < |history|
    ensures history[i + count].at - history[i].at > span
  {
  }

  /** An hourly budget bounds the day at 24 times its size. */
  lemma SparseDay(history: seq<Success>, hourly: int)
    requires hourly >= 1 && Sparse(history, hourly, HOUR)
    ensures Sparse(history, 24 * hourly, DAY)
  {
    forall i, j | 0 <= i && i + 24 * hourly == j < |history| ensures history[j].at - history[i].at > DAY {
      SparseTimes(history, hourly, HOUR, 24, i);
    }
  }

  lemma {:induction false} RestedTimes(history: seq<Success>, m: nat, i: nat)
    requires Rested(history) && i + m < |history|
    ensures history[i + m].at - history[i].at >= 4_000_000 * m
  {
    if m > 0 {
      RestedTimes(history, m - 1, i);
      assert i + (m - 1) + 1 == i + m;
      assert history[i + m].at - history[i + (m - 1)].at >= REST;
    }
  }

  /** The most rounds that start in a closed hour, and in a closed day. */
  const HOUR_ROUNDS := 901
  const DAY_ROUNDS := 21_601

  /** The rests alone bound every hour and every day. */
  lemma RestsBound(history: seq<Success>)
    requires Rested(history)
    ensures Sparse(history, HOUR_ROUNDS, HOUR) && Sparse(history, DAY_ROUNDS, DAY)
  {
    forall i, j | 0 <= i && i + HOUR_ROUNDS == j < |history| ensures history[j].at - history[i].at > HOUR {
      RestedTimes(history, HOUR_ROUNDS, i);
    }
    forall i, j | 0 <= i && i + DAY_ROUNDS == j < |history| ensures history[j].at - history[i].at > DAY {
      RestedTimes(history, DAY_ROUNDS, i);
    }
  }

  /** The daily budget is kept: the guard counts it, or the hourly budget or the rests are strict enough. */
  predicate DayKept(limits: Limits) {
    DayCounted(limits) || 24 * limits.hourly <= limits.daily || DAY_ROUNDS <= limits.daily
  }

  /**
   * Main result: over every run of the single worker, every closed hour holds at most the hourly budget of successes,
   * and every closed day at most the daily budget when the guard counts it or something stricter stands in for it.
   */
  lemma WindowBudgets(c: Setup, w: World, run: seq<Event>, from: int)
    requires Sane(c.limits) && Initial(w) && Possible(c, w, run)
    ensures var end := WorkerRuns.After(c, w, run);
            var hour := 3_600_000_000;
            && |Between(end.history, from, from + hour)| <= c.limits.hourly
            && |Between(end.history, from, from + hour)| <= 901
            && |Between(end.history, from, from + 24 * hour)| <= 21_601
            && (DayKept(c.limits) ==> |Between(end.history, from, from + 24 * hour)| <= c.limits.daily)
  {
    hide WorkerRuns.After, Remembered, LastNoted, Sparse, Spaced, Rested, Respected, OverBy, PhaseOk, Between,
      Ordered, Possible;
    InitialSafe(c, w);
    RunKeepsSafe(c, w, run);
    var end := WorkerRuns.After(c, w, run);
    EndOrdered(end.history, end.clock);
    hide Safe, Initial;
    RestsBound(end.history);
    SparseWindow(end.history, HOUR_ROUNDS, HOUR, from);
    SparseWindow(end.history, DAY_ROUNDS, DAY, from);
    if HourCounted(c.limits) {
      SparseWindow(end.history, c.limits.hourly, HOUR, from);
    }
    if DayCounted(c.limits) {
      SparseWindow(end.history, c.limits.daily, DAY, from);
    } else if HourCounted(c.limits) {
      SparseDay(end.history, c.limits.hourly);
      SparseWindow(end.history, 24 * c.limits.hourly, DAY, from);
    }
  }

  /**
   * Two successes on one group are a cooldown apart when the later job was checked under the group it was noted
   * under.
   */
  lemma CooldownsApart(c: Setup, w: World, run: seq<Event>, i: nat, j: nat)
    requires Sane(c.limits) && Initial(w) && Possible(c, w, run)
    requires var history := WorkerRuns.After(c, w, run).history;
      i < j < |history| && history[i].group == history[j].group && history[j].key == history[j].group
    ensures var history := WorkerRuns.After(c, w, run).history;
            history[j].at - history[i].at >= 60_000_000 * c.limits.cooldownMinutes
  {
    RunKeepsSafe(c, w, run);
  }

  /** No success falls while the circuit is open, however it was opened during the run. */
  lemma CircuitRespected(c: Setup, w: World, run: seq<Event>)
    requires Sane(c.limits) && Initial(w) && Possible(c, w, run)
    ensures var end := WorkerRuns.After(c, w, run); Respected(end.history, end.openings)
  {
    RunKeepsSafe(c, w, run);
  }

  /**
   * A job with a reference is noted under another key than it was checked under exactly when its group was looked up
   * and came back under another label.
   */
  lemma KeyMovesIff(c: Setup, w: World, e: Event)
    requires Enabled(w, e) && e.Finish? && e.ending.Delivered? && w.phase.job.groupRef != ""
    ensures var history := Step(c, w, e).history;
            && |history| == |w.history| + 1
            && (history[|w.history|].key != history[|w.history|].group <==>
                  e.ending.resolved.Some? && e.ending.resolved.value != w.phase.job.groupRef)
  {
    hide FinishHealth, FinishMarkers, ReachesAck;
  }

  /**
   * A post is claimed for acknowledgement exactly when a delivery of it ended for good, acknowledging is on, and of
   * its jobs still in the queue there is one and none is pending.
   */
  lemma ClaimsWhenSettled(c: Setup, w: World, e: Event)
    requires Enabled(w, e)
    ensures var after := Step(c, w, e);
            after.claims != w.claims <==>
              && e.Finish? && c.ackReaction
              && !e.ending.FloodWait? && !e.ending.PeerFlood? && !e.ending.SlowMode?
              && var key := Strip(w.phase.job.postKey);
                 && key != "" && (exists job :: job in after.items && job.postKey == key)
                 && forall job :: job in after.items && job.postKey == key ==> !job.status.Pending?
    ensures var after := Step(c, w, e);
            after.claims != w.claims ==>
              after.claims == w.claims + [Markers.Claim(Strip(w.phase.job.postKey), e.ends.acked)]
  {
    hide Strip, FinishHealth, FinishMarkers, StartItems, StartHealth, Taken, GoesOn, Looked, EnqueueItems, SettledOf,
      CheckedKey, NotedKey, AckReady;
    if e.Finish? {
      hide Queue.Ruled;
      AckReadyIs(Step(c, w, e).items, Strip(w.phase.job.postKey));
    }
  }

  lemma AckReadyIs(items: seq<Job>, key: string)
    ensures AckReady(items, key) <==>
              && key != "" && (exists job :: job in items && job.postKey == key)
              && forall job :: job in items && job.postKey == key ==> !job.status.Pending?
  {
    if HasJob(items, key) {
      var i :| 0 <= i < |items| && items[i].postKey == key;
      assert items[i] in items;
    }
    if job :| job in items && job.postKey == key {
      var i :| 0 <= i < |items| && items[i] == job;
    }
    if job :| job in items && job.postKey == key && job.status.Pending? {
      var i :| 0 <= i < |items| && items[i] == job;
    }
    if HasPendingJob(items, key) {
      var i :| 0 <= i < |items| && items[i].postKey == key && items[i].status.Pending?;
      assert items[i] in items;
    }
  }

  /** The claims of a run are a run of claims on the acknowledgement bucket. */
  ghost predicate ClaimsOk(w: World, acked: seq<Marker>, clock: int) {
    && w.acked == Markers.After(acked, w.claims) && Markers.Timed(clock, w.claims)
    && Markers.Clock(clock, w.claims) <= w.clock
  }

  lemma OneMoreClaim(acked: seq<Marker>, clock: int, claims: seq<Markers.Claim>, claim: Markers.Claim)
    requires Markers.Timed(clock, claims) && Markers.Clock(clock, claims) <= claim.at
    ensures Markers.Timed(clock, claims + [claim]) && Markers.Clock(clock, claims + [claim]) == claim.at
    ensures Markers.After(acked, claims + [claim]) == ClaimMarkers(Markers.After(acked, claims), claim.key, claim.at)
  {
    hide ClaimMarkers;
    var more := claims + [claim];
    assert more[..|more| - 1] == claims;
  }

  lemma StepKeepsClaims(c: Setup, w: World, e: Event, acked: seq<Marker>, clock: int)
    requires ClaimsOk(w, acked, clock) && Enabled(w, e)
    ensures ClaimsOk(Step(c, w, e), acked, clock)
  {
    hide ClaimMarkers, Strip, FinishHealth, StartItems, StartHealth, Taken, GoesOn, Looked, EnqueueItems, SettledOf,
      ReachesAck, Markers.After, Markers.Timed, Markers.Clock, CheckedKey, NotedKey;
    if e.Finish? {
      OneMoreClaim(acked, clock, w.claims, Markers.Claim(Strip(w.phase.job.postKey), e.ends.acked));
    }
  }

  lemma {:induction false} RunKeepsClaims(c: Setup, w: World, run: seq<Event>, acked: seq<Marker>, clock: int)
    requires ClaimsOk(w, acked, clock) && Possible(c, w, run)
    ensures ClaimsOk(WorkerRuns.After(c, w, run), acked, clock)
    decreases |run|
  {
    if run != [] {
      StepKeepsClaims(c, w, run[0], acked, clock);
      hide ClaimsOk, Enabled, Step;
      RunKeepsClaims(c, Step(c, w, run[0]), run[1..], acked, clock);
    }
  }

  /**
   * Main result: over every run, between two acknowledgements of one post at least 200 other posts were
   * acknowledged, and at most 300 markers are kept.
   */
  lemma AckedOnce(c: Setup, w: World, run: seq<Event>, i: nat, j: nat)
    requires Initial(w) && Markers.Bucket(w.acked, w.clock) && Possible(c, w, run)
    requires var claims := WorkerRuns.After(c, w, run).claims;
      i < j < |claims| && claims[i].key == claims[j].key
      && Markers.Won(w.acked, claims, i) && Markers.Won(w.acked, claims, j)
    ensures var end := WorkerRuns.After(c, w, run);
            && |Markers.WonKeys(w.acked, end.claims, i + 1, j) - {end.claims[i].key}| >= 200
            && |end.acked| <= 300
  {
    RunKeepsClaims(c, w, run, w.acked, w.clock);
    Markers.OnceOnly(w.acked, w.clock, WorkerRuns.After(c, w, run).claims, i, j);
  }
}
