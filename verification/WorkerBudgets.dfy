/**
 * Exactly which budgets and cooldowns every run of the promo worker keeps, with a run that breaks each of the others.
 */
module WorkerBudgets {
  import opened Common
  import opened PromoQueue
  import opened SafetyGuard
  import opened PromoWorker
  import opened WorkerRuns
  import opened WorkerSafety
  import Queue = PromoQueueRuns

  // ---------------------------------------------------------------- one delivered job

  /** Nothing is waiting, in flight or paused. */
  ghost predicate AtRest(c: Setup, w: World)
    requires Sane(c.limits)
  {
    && Safe(c, w) && w.phase.Idle? && w.health.pausedUntil.None?
    && forall a :: a in w.items ==> !a.status.Pending?
  }

  /** A job that can be enqueued at `t` and started right away. */
  predicate Ready(c: Setup, w: World, job: Job, t: int) {
    && job.status.Pending? && job.attempts == 0 && job.createdAt == t
    && w.clock <= t && w.nextRound <= t && Queue.Absent(w.items, job.id)
    && WithinBudget(w.health, c.limits, t) && Cooled(w.health, c.limits, CheckedKey(job), t)
  }

  /** The job arrives, is taken, waits no time and is delivered. */
  function Delivery(job: Job, ending: Ending, t: int): seq<Event> {
    [ Arrive(job), Start(false, true, StartTimes(t, t, t, t)), Resume(false, true, t, t),
      Finish(ending, FinishTimes(t, t, t, t)) ]
  }

  /** A job that arrives at a queue without pending jobs is its head. */
  lemma ArrivesFirst(items: seq<Job>, job: Job) returns (rest: seq<Job>)
    requires job.status.Pending? && forall a :: a in items ==> !a.status.Pending?
    ensures EnqueueItems(items, job) == [job] + rest
    ensures Head(EnqueueItems(items, job)) == Some(job)
    ensures forall a :: a in rest ==> a in items
  {
    var all := items + [job];
    Queue.Members(items);
    Queue.Members(all);
    assert all[..|items|] == items;
    NothingPending(items);
    assert PendingOf(all) == [job];
    rest := Last(SettledOf(all), MAX_SETTLED);
    Queue.CappedPending(all);
    OnlyOldest(job);
    NotDuplicate(items, job);
    hide PendingOf, SettledOf, Oldest, Duplicate;
    assert Capped(all) == [job] + rest;
    forall a | a in rest ensures a in items {
      assert a in SettledOf(all);
    }
  }

  lemma {:induction false} NothingPending(items: seq<Job>)
    requires forall a :: a in items ==> !a.status.Pending?
    ensures PendingOf(items) == []
  {
    if items != [] {
      assert items[|items| - 1] in items;
      NothingPending(items[..|items| - 1]);
    }
  }

  lemma NotDuplicate(items: seq<Job>, job: Job)
    requires forall a :: a in items ==> !a.status.Pending?
    ensures !Duplicate(items, job)
  {
  }

  lemma OnlyOldest(job: Job)
    ensures Oldest([job]) == Some(job)
  {
    assert [job][..0] == [];
  }

  lemma StartStep(c: Setup, w: World, job: Job, t: int)
    requires w.phase.Idle? && Head(w.items) == Some(job) && w.clock == t && w.nextRound <= t
    requires w.health.pausedUntil.None?
    requires WithinBudget(w.health, c.limits, t) && Cooled(w.health, c.limits, CheckedKey(job), t)
    ensures Enabled(w, Start(false, true, StartTimes(t, t, t, t)))
    ensures Step(c, w, Start(false, true, StartTimes(t, t, t, t))) == w.(phase := Pacing(job, t), nextRound := t + REST)
  {
    hide Head, WithinBudget, CheckedKey, Cooled, DeferredItems;
  }

  lemma ResumeStep(c: Setup, w: World, job: Job, t: int)
    requires w.phase == Pacing(job, t) && w.clock == t && w.health.pausedUntil.None?
    requires WithinBudget(w.health, c.limits, t)
    ensures Enabled(w, Resume(false, true, t, t))
    ensures Step(c, w, Resume(false, true, t, t)) == w.(phase := Sending(job, t, t), nextRound := t + REST)
  {
    hide WithinBudget;
  }

  lemma FinishStep(c: Setup, w: World, job: Job, rest: seq<Job>, ending: Ending, t: int)
    requires w.phase == Sending(job, t, t) && w.clock == t && w.items == [job] + rest
    requires ending.Delivered? && w.health.pausedUntil.None?
    ensures Enabled(w, Finish(ending, FinishTimes(t, t, t, t)))
    ensures var after := Step(c, w, Finish(ending, FinishTimes(t, t, t, t)));
            && after.items == [AsDone(job)] + rest && after.phase.Idle? && after.clock == t
            && after.nextRound == t + REST
            && after.history == w.history + [Success(t, NotedKey(job, ending), CheckedKey(job), t, t)]
            && after.health == NotedSuccess(w.health, NotedKey(job, ending), t, t)
  {
    FirstIsDone(job, rest);
    hide Replace, NotedSuccess, CheckedKey, NotedKey, FinishMarkers, ReachesAck;
  }

  /** The three states between arrival and the end of a delivery. */
  lemma Delivers(c: Setup, w: World, job: Job, ending: Ending, t: int) returns (after: World)
    requires Sane(c.limits) && AtRest(c, w) && Ready(c, w, job, t) && ending.Delivered?
    ensures Possible(c, w, Delivery(job, ending, t)) && after == WorkerRuns.After(c, w, Delivery(job, ending, t))
    ensures AtRest(c, after) && after.clock == t && after.nextRound == t + REST
    ensures after.history == w.history + [Success(t, NotedKey(job, ending), CheckedKey(job), t, t)]
    ensures after.health == NotedSuccess(w.health, NotedKey(job, ending), t, t)
    ensures forall a :: a in after.items ==> a.id == job.id || a in w.items
  {
    var run := Delivery(job, ending, t);
    RestFacts(c, w, job, t);
    ArriveStep(c, w, job, t);
    var arrived := w.(items := EnqueueItems(w.items, job), clock := t);
    NotedOpen(w.health, NotedKey(job, ending), t);
    assert run[0] == Arrive(job) && run[1] == Start(false, true, StartTimes(t, t, t, t))
      && run[2] == Resume(false, true, t, t) && run[3] == Finish(ending, FinishTimes(t, t, t, t)) && |run| == 4;
    hide *;
    var rest := ArrivesFirst(w.items, job);
    StartStep(c, arrived, job, t);
    var taken := arrived.(phase := Pacing(job, t), nextRound := t + REST);
    ResumeStep(c, taken, job, t);
    var sending := taken.(phase := Sending(job, t, t), nextRound := t + REST);
    FinishStep(c, sending, job, rest, ending, t);
    after := Step(c, sending, run[3]);
    Four(c, w, run, arrived, taken, sending, after);
    DoneAtRest(job, rest, w.items);
    AtRestAfter(c, w, run, after);
  }

  lemma RestFacts(c: Setup, w: World, job: Job, t: int)
    requires Sane(c.limits) && AtRest(c, w) && Ready(c, w, job, t)
    ensures w.phase.Idle? && w.health.pausedUntil.None? && (forall a :: a in w.items ==> !a.status.Pending?)
    ensures job.status.Pending? && w.nextRound <= t
    ensures WithinBudget(w.health, c.limits, t) && Cooled(w.health, c.limits, CheckedKey(job), t)
  {
    hide Safe, WithinBudget, CheckedKey, Cooled;
  }

  lemma ArriveStep(c: Setup, w: World, job: Job, t: int)
    requires Sane(c.limits) && AtRest(c, w) && Ready(c, w, job, t)
    ensures Enabled(w, Arrive(job)) && Step(c, w, Arrive(job)) == w.(items := EnqueueItems(w.items, job), clock := t)
  {
    hide Safe, EnqueueItems, WithinBudget, CheckedKey, Cooled;
  }

  lemma AtRestAfter(c: Setup, w: World, run: seq<Event>, after: World)
    requires Sane(c.limits) && AtRest(c, w) && Possible(c, w, run) && after == WorkerRuns.After(c, w, run)
    requires after.phase.Idle? && after.health.pausedUntil.None? && forall a :: a in after.items ==> !a.status.Pending?
    ensures AtRest(c, after)
  {
    hide Safe, Possible, WorkerRuns.After;
    RunKeepsSafe(c, w, run);
  }

  lemma DoneAtRest(job: Job, rest: seq<Job>, items: seq<Job>)
    requires (forall a :: a in rest ==> a in items) && forall a :: a in items ==> !a.status.Pending?
    ensures forall a :: a in [AsDone(job)] + rest ==> !a.status.Pending? && (a.id == job.id || a in items)
  {
  }

  lemma NotedOpen(h: Health, group: string, t: int)
    requires h.pausedUntil.None?
    ensures NotedSuccess(h, group, t, t).pausedUntil.None?
  {
  }

  lemma FirstIsDone(job: Job, rest: seq<Job>)
    ensures DoneItems([job] + rest, job.id) == [AsDone(job)] + rest
  {
    assert IndexOf([job] + rest, job.id) == 0;
  }

  /** A run of four steps, step by step. */
  lemma Four(c: Setup, w: World, run: seq<Event>, w1: World, w2: World, w3: World, w4: World)
    requires |run| == 4
    requires Enabled(w, run[0]) && w1 == Step(c, w, run[0]) && Enabled(w1, run[1]) && w2 == Step(c, w1, run[1])
    requires Enabled(w2, run[2]) && w3 == Step(c, w2, run[2]) && Enabled(w3, run[3]) && w4 == Step(c, w3, run[3])
    ensures Possible(c, w, run) && WorkerRuns.After(c, w, run) == w4
  {
    hide Enabled, Step;
    var run1, run2, run3 := run[1..], run[2..], run[3..];
    assert run1[1..] == run2 && run2[1..] == run3 && run3[1..] == [];
    assert Possible(c, w4, []) && WorkerRuns.After(c, w4, []) == w4;
    assert Possible(c, w3, run3) && WorkerRuns.After(c, w3, run3) == w4;
    assert Possible(c, w2, run2) && WorkerRuns.After(c, w2, run2) == w4;
    assert Possible(c, w1, run1) && WorkerRuns.After(c, w1, run1) == w4;
  }

  lemma {:induction false} RunsFollow(c: Setup, w: World, a: seq<Event>, b: seq<Event>)
    requires Possible(c, w, a) && Possible(c, WorkerRuns.After(c, w, a), b)
    ensures Possible(c, w, a + b)
    ensures WorkerRuns.After(c, w, a + b) == WorkerRuns.After(c, WorkerRuns.After(c, w, a), b)
    decreases |a|
  {
    hide Enabled, Step;
    if a == [] {
      assert a + b == b;
    } else {
      RunsFollow(c, Step(c, w, a[0]), a[1..], b);
      assert (a + b)[1..] == a[1..] + b;
    }
  }

  // ---------------------------------------------------------------- many delivered jobs

  /** Names of different lengths. */
  function Name(n: nat): string {
    seq(n + 1, _ => 'x')
  }

  /** A job of its own, for a group of its own. */
  function FreshJob(n: nat, t: int): Job {
    Job(Name(n), Pending, 1, Name(n), n, [1], "forward", "1:1-1", t, 0)
  }

  /** A world at rest after deliveries to the first `n` names. */
  ghost predicate Fresh(c: Setup, w: World, n: nat)
    requires Sane(c.limits)
  {
    && AtRest(c, w) && |w.health.sends| <= MAX_SENDS
    && (forall a :: a in w.items ==> |a.id| <= n)
    && forall g :: g in w.health.groupLast ==> |g| <= n
  }

  /** With `count` recent sends remembered the `count`-th success back is recent. */
  lemma RecentAt(history: seq<Success>, sends: seq<Send>, clock: int, t: int, count: nat)
    requires Remembered(history, sends, clock) && 1 <= count <= |sends| && sends[|sends| - count].at >= t - HOUR
    ensures !Room(history, t, count, HOUR)
  {
    assert |sends| <= |history|;
    RememberedAt(history, sends, clock, |sends| - count);
    hide Remembered;
  }

  /** Fewer than `count` remembered sends are recent when the `count`-th success back is old. */
  lemma RecentSends(history: seq<Success>, sends: seq<Send>, clock: int, t: int, count: int)
    requires Ordered(history, clock) && Remembered(history, sends, clock)
    requires count >= 1 && Room(history, t, count, HOUR)
    ensures |Since(sends, t - HOUR)| < count
  {
    SendsInOrder(history, sends, clock);
    hide Ordered, Remembered, InOrder, Since, Room;
    var x := FirstSince(sends, t - HOUR);
    if |sends| - x >= count {
      RecentAt(history, sends, clock, t, count);
    }
  }

  lemma BudgetOpen(c: Setup, w: World, n: nat, t: int)
    requires Sane(c.limits) && Fresh(c, w, n) && c.limits.daily > MAX_SENDS && Room(w.history, t, c.limits.hourly, HOUR)
    ensures WithinBudget(w.health, c.limits, t)
  {
    SinceShrinks(w.health.sends, t - DAY);
    hide Since, Ordered, Remembered, Sparse, Spaced, Rested, Respected, OverBy, LastNoted, Room;
    RecentSends(w.history, w.health.sends, w.clock, t, c.limits.hourly);
  }

  lemma FreshIsReady(c: Setup, w: World, n: nat, t: int)
    requires Sane(c.limits) && Fresh(c, w, n) && w.clock <= t && w.nextRound <= t && WithinBudget(w.health, c.limits, t)
    ensures Ready(c, w, FreshJob(n, t), t)
    ensures CheckedKey(FreshJob(n, t)) == Name(n) == NotedKey(FreshJob(n, t), Delivered(None))
  {
    hide Since, Ordered, Remembered, Sparse, Spaced, Rested, Respected, OverBy, LastNoted;
    forall i | 0 <= i < |w.items| ensures w.items[i].id != Name(n) {
      assert w.items[i] in w.items;
    }
  }

  lemma NotedBounds(h: Health, group: string, t: int)
    ensures var after := NotedSuccess(h, group, t, t);
            |after.sends| <= MAX_SENDS && forall g :: g in after.groupLast ==> g == group || g in h.groupLast
  {
  }

  /** One more success at `t`. */
  lemma Again(c: Setup, w: World, n: nat, t: int) returns (after: World)
    requires Sane(c.limits) && Fresh(c, w, n) && w.clock <= t && w.nextRound <= t
    requires c.limits.daily > MAX_SENDS && Room(w.history, t, c.limits.hourly, HOUR)
    ensures var run := Delivery(FreshJob(n, t), Delivered(None), t);
            Possible(c, w, run) && after == WorkerRuns.After(c, w, run)
    ensures Fresh(c, after, n + 1) && after.clock == t && after.nextRound == t + REST
    ensures |after.history| == |w.history| + 1 && w.history <= after.history && after.history[|w.history|].at == t
  {
    BudgetOpen(c, w, n, t);
    FreshIsReady(c, w, n, t);
    after := Delivers(c, w, FreshJob(n, t), Delivered(None), t);
    NotedBounds(w.health, Name(n), t);
    hide AtRest, NotedSuccess, Ready, Delivery, Possible, WorkerRuns.After, Room;
  }

  /** Before anything happened. */
  function Zero(): World {
    World([], Health([], map[], 0, None), [], Idle, 0, 0, [], [], [])
  }

  lemma ZeroIsFresh(c: Setup)
    requires Sane(c.limits)
    ensures Initial(Zero()) && Fresh(c, Zero(), 0)
  {
    InitialSafe(c, Zero());
  }

  // ---------------------------------------------------------------- a full timetable

  /** Whole hours and place within the hour of the `i`-th send, at `size` sends an hour. */
  function Slot(size: nat, i: nat): (s: (nat, nat))
    requires size > 0
    ensures s.1 < size
  {
    if i == 0 then (0, 0)
    else
      var (q, r) := Slot(size, i - 1);
      if r + 1 == size then (q + 1, 0) else (q, r + 1)
  }

  /**
   * The moment of the `i`-th send: every four seconds when the hourly budget allows that, else the whole budget four
   * seconds apart at the start of each hour, and the next hour a moment later.
   */
  function Moment(hourly: nat, i: nat): int
    requires hourly > 0
  {
    if hourly >= HOUR_ROUNDS then 4_000_000 * i
    else 3_600_000_001 * Slot(hourly, i).0 + 4_000_000 * Slot(hourly, i).1
  }

  lemma {:induction false} SlotIs(size: nat, i: nat)
    requires size > 0
    ensures i == Slot(size, i).0 * size + Slot(size, i).1
  {
    if i > 0 {
      SlotIs(size, i - 1);
      var (q, r) := Slot(size, i - 1);
      assert (q + 1) * size == q * size + size;
    }
  }

  lemma {:induction false} FirstHour(size: nat, i: nat)
    requires i < size
    ensures Slot(size, i) == (0, i)
  {
    if i > 0 {
      FirstHour(size, i - 1);
    }
  }

  /** The same place one hour later. */
  lemma {:induction false} HourLater(size: nat, i: nat)
    requires size > 0
    ensures Slot(size, i + size) == (Slot(size, i).0 + 1, Slot(size, i).1)
  {
    if i == 0 {
      FirstHour(size, size - 1);
    } else {
      HourLater(size, i - 1);
    }
  }

  /** The timetable rests between sends and stays within the hourly budget. */
  lemma MomentAllowed(hourly: nat, i: nat)
    requires hourly > 0
    ensures Moment(hourly, i + 1) >= Moment(hourly, i) + REST
    ensures Moment(hourly, i + hourly) > Moment(hourly, i) + HOUR
  {
    if hourly < HOUR_ROUNDS {
      HourLater(hourly, i);
    }
  }

  /** One day holds 24 hourly budgets, or as many sends as the rests allow. */
  lemma MomentInDay(hourly: nat, i: nat)
    requires hourly > 0 && i < DAY_ROUNDS && i < 24 * hourly
    ensures 0 <= Moment(hourly, i) <= DAY
  {
    if hourly < HOUR_ROUNDS {
      SlotIs(hourly, i);
      MulOrder(24, Slot(hourly, i).0, hourly);
    }
  }

  lemma MulOrder(m: nat, n: nat, size: nat)
    ensures m <= n ==> m * size <= n * size
  {
  }

  /** A run that sends at the moments of the timetable. */
  lemma {:induction false} Timetable(c: Setup, n: nat) returns (run: seq<Event>, after: World)
    requires Sane(c.limits) && c.limits.daily > MAX_SENDS
    ensures Possible(c, Zero(), run) && after == WorkerRuns.After(c, Zero(), run)
    ensures Fresh(c, after, n) && |after.history| == n
    ensures forall i :: 0 <= i < n ==> after.history[i].at == Moment(c.limits.hourly, i)
    ensures after.clock <= Moment(c.limits.hourly, n) && after.nextRound <= Moment(c.limits.hourly, n)
    decreases n
  {
    if n == 0 {
      ZeroIsFresh(c);
      run, after := [], Zero();
    } else {
      hide Fresh, Possible, WorkerRuns.After;
      var before, mid := Timetable(c, n - 1);
      run, after := NextMoment(c, n - 1, before, mid);
    }
  }

  /** One more send of the timetable. */
  lemma NextMoment(c: Setup, n: nat, before: seq<Event>, mid: World) returns (run: seq<Event>, after: World)
    requires Sane(c.limits) && c.limits.daily > MAX_SENDS
    requires Possible(c, Zero(), before) && mid == WorkerRuns.After(c, Zero(), before)
    requires Fresh(c, mid, n) && |mid.history| == n
    requires forall i :: 0 <= i < n ==> mid.history[i].at == Moment(c.limits.hourly, i)
    requires mid.clock <= Moment(c.limits.hourly, n) && mid.nextRound <= Moment(c.limits.hourly, n)
    ensures Possible(c, Zero(), run) && after == WorkerRuns.After(c, Zero(), run)
    ensures Fresh(c, after, n + 1) && |after.history| == n + 1
    ensures forall i :: 0 <= i < n + 1 ==> after.history[i].at == Moment(c.limits.hourly, i)
    ensures after.clock <= Moment(c.limits.hourly, n + 1) && after.nextRound <= Moment(c.limits.hourly, n + 1)
  {
    hide Fresh, Delivery, Possible, WorkerRuns.After, Moment, FreshJob, Room;
    MomentsRoom(mid.history, c.limits.hourly, n);
    MomentAllowed(c.limits.hourly, n);
    var t := Moment(c.limits.hourly, n);
    after := Again(c, mid, n, t);
    var last := Delivery(FreshJob(n, t), Delivered(None), t);
    run := before + last;
    RunsFollow(c, Zero(), before, last);
    assert forall i :: 0 <= i < n ==> after.history[i] == mid.history[i];
  }

  lemma MomentsRoom(history: seq<Success>, hourly: nat, n: nat)
    requires hourly > 0 && |history| == n && forall i :: 0 <= i < n ==> history[i].at == Moment(hourly, i)
    ensures Room(history, Moment(hourly, n), hourly, HOUR)
  {
    if n >= hourly {
      MomentAllowed(hourly, n - hourly);
    }
  }

  // ---------------------------------------------------------------- which budgets every run keeps

  lemma {:induction false} FullSet(s: set<int>, n: nat)
    requires forall i :: i in s <==> 0 <= i < n
    ensures |s| == n
  {
    if s == {} {
      assert 0 !in s;
    } else {
      var i := Pick(s);
      assert n - 1 in s;
      FullSet(s - {n - 1}, n - 1);
      assert |s - {n - 1}| == |s| - 1;
    }
  }

  lemma AllBetween(history: seq<Success>, from: int, to: int)
    requires forall i :: 0 <= i < |history| ==> from <= history[i].at <= to
    ensures |Between(history, from, to)| == |history|
  {
    FullSet(Between(history, from, to), |history|);
  }

  function InWindow(history: seq<Success>, from: int, span: int): nat {
    |Between(history, from, from + span)|
  }

  /** Every run keeps at most `count` successes in every closed window of this length. */
  ghost predicate Bounded(c: Setup, span: int, count: int) {
    forall w, run, from :: Initial(w) && Possible(c, w, run) ==>
      InWindow(WorkerRuns.After(c, w, run).history, from, span) <= count
  }

  lemma Broken(c: Setup, run: seq<Event>, span: int, count: int)
    requires Possible(c, Zero(), run) && Initial(Zero())
    requires var history := WorkerRuns.After(c, Zero(), run).history;
             |history| > count && forall i :: 0 <= i < |history| ==> 0 <= history[i].at <= span
    ensures !Bounded(c, span, count)
  {
    hide Possible, WorkerRuns.After;
    var history := WorkerRuns.After(c, Zero(), run).history;
    AllBetween(history, 0, span);
    assert InWindow(history, 0, span) > count;
  }

  /** Every run keeps the hourly budget: the guard counts it, or the rests between rounds are stricter. */
  lemma HourlyBudgetKept(c: Setup)
    requires Sane(c.limits)
    ensures Bounded(c, HOUR, c.limits.hourly)
  {
    hide WorkerRuns.After, Possible, Initial, Between;
    forall w, run, from | Initial(w) && Possible(c, w, run)
      ensures InWindow(WorkerRuns.After(c, w, run).history, from, HOUR) <= c.limits.hourly
    {
      WindowBudgets(c, w, run, from);
    }
  }

  /**
   * Every run keeps the daily budget exactly when it is at most 2000, no less than 24 hourly budgets, or more than
   * the 21600 rests of a day leave room for. Otherwise the guard, which remembers 2000 sends, lets more through.
   */
  lemma DailyBudgetIff(c: Setup)
    requires Sane(c.limits)
    ensures Bounded(c, DAY, c.limits.daily) <==> DayKept(c.limits)
  {
    hide WorkerRuns.After, Possible, Initial, Between;
    if DayKept(c.limits) {
      forall w, run, from | Initial(w) && Possible(c, w, run)
        ensures InWindow(WorkerRuns.After(c, w, run).history, from, DAY) <= c.limits.daily
      {
        WindowBudgets(c, w, run, from);
      }
    } else {
      DayBroken(c);
    }
  }

  /** A run with one success more than the daily budget within a day. */
  lemma DayBroken(c: Setup)
    requires Sane(c.limits) && !DayKept(c.limits)
    ensures !Bounded(c, DAY, c.limits.daily)
  {
    ZeroIsFresh(c);
    hide Fresh, WorkerRuns.After, Possible, Initial, Between, Bounded, Moment;
    var run, after := Timetable(c, c.limits.daily + 1);
    forall i | 0 <= i < |after.history| ensures 0 <= after.history[i].at <= DAY {
      MomentInDay(c.limits.hourly, i);
    }
    Broken(c, run, DAY, c.limits.daily);
  }

  // ---------------------------------------------------------------- which cooldowns every run keeps

  /** Every run keeps any two successes on one group a cooldown apart. */
  ghost predicate AlwaysApart(c: Setup) {
    forall w, run, i, j ::
      Initial(w) && Possible(c, w, run) && GroupAgain(WorkerRuns.After(c, w, run).history, i, j) ==>
        var history := WorkerRuns.After(c, w, run).history;
        history[j].at - history[i].at >= Minutes(c.limits.cooldownMinutes)
  }

  predicate GroupAgain(history: seq<Success>, i: int, j: int) {
    0 <= i < j < |history| && history[i].group == history[j].group
  }

  /** The cooldown is no longer than what a budget of one send enforces anyway. */
  predicate CooldownIdle(limits: Limits) {
    || limits.cooldownMinutes <= 0
    || (limits.hourly == 1 && limits.cooldownMinutes <= 60)
    || (limits.daily == 1 && limits.cooldownMinutes <= 1440)
  }

  /** With a budget of one, successes are more than its window apart. */
  lemma OneAtATime(c: Setup, w: World, run: seq<Event>, i: int, j: int)
    requires Sane(c.limits) && Initial(w) && Possible(c, w, run) &&
        GroupAgain(WorkerRuns.After(c, w, run).history, i, j)
    ensures var history := WorkerRuns.After(c, w, run).history;
            && history[i].at <= history[j].at
            && (c.limits.hourly == 1 ==> history[j].at - history[i].at > HOUR)
            && (c.limits.daily == 1 ==> history[j].at - history[i].at > DAY)
  {
    hide WorkerRuns.After, Remembered, LastNoted, Sparse, Spaced, Rested, Respected, OverBy, PhaseOk, Possible;
    InitialSafe(c, w);
    RunKeepsSafe(c, w, run);
    var history := WorkerRuns.After(c, w, run).history;
    if c.limits.hourly == 1 {
      SparseAt(history, 1, HOUR, i);
    }
    if c.limits.daily == 1 {
      SparseAt(history, 1, DAY, i);
    }
  }

  lemma IdleMinutes(limits: Limits)
    ensures Minutes(limits.cooldownMinutes) <= 0 <==> limits.cooldownMinutes <= 0
    ensures Minutes(limits.cooldownMinutes) <= REST <==> limits.cooldownMinutes <= 0
    ensures Minutes(limits.cooldownMinutes) <= HOUR + 1 <==> limits.cooldownMinutes <= 60
    ensures Minutes(limits.cooldownMinutes) <= DAY + 1 <==> limits.cooldownMinutes <= 1440
  {
  }

  /** A job queued under the group's username. */
  function NamedJob(): Job {
    Job("1", Pending, 1, "@x", 7, [1], "forward", "1:1-1", 0, 0)
  }

  /** A job queued under the title `x` the same group was known by before it had a username, and another id. */
  function TitledJob(t: int): Job {
    Job("2", Pending, 1, "x", 8, [1], "forward", "1:1-1", t, 0)
  }

  /** The smallest time between the two that the budgets and the rest allow. */
  function Gap(limits: Limits): (t: int)
    ensures t >= REST
  {
    if limits.daily == 1 then DAY + 1 else if limits.hourly == 1 then HOUR + 1 else REST
  }

  /** One remembered send is no obstacle after the gap. */
  lemma GapOpens(c: Setup, h: Health)
    requires Sane(c.limits) && |h.sends| == 1 && h.sends[0].at == 0
    ensures WithinBudget(h, c.limits, Gap(c.limits))
  {
    var t := Gap(c.limits);
    assert h.sends[..0] == [];
    assert Since(h.sends[..0], t - HOUR) == [] && Since(h.sends[..0], t - DAY) == [];
  }

  lemma FirstNoted(h: Health, group: string)
    requires h == Health([], map[], 0, None)
    ensures NotedSuccess(h, group, 0, 0).sends == [Send(0, group)]
    ensures NotedSuccess(h, group, 0, 0).groupLast.Keys == {group}
  {
    var sends := [Send(0, group)];
    assert h.sends + sends == sends && sends[..0] == [];
    assert Since(sends, 0 - RETAIN) == Since([], 0 - RETAIN) + sends;
  }

  lemma NamedIsReady(c: Setup)
    requires Sane(c.limits)
    ensures Ready(c, Zero(), NamedJob(), 0)
    ensures CheckedKey(NamedJob()) == "@x" && NotedKey(NamedJob(), Delivered(None)) == "@x" && NamedJob().id == "1"
  {
    assert Since([], 0 - HOUR) == [] && Since([], 0 - DAY) == [];
  }

  /** After the first job the second one, checked under the title, is not held back. */
  lemma TitledIsReady(c: Setup, mid: World, t: int)
    requires Sane(c.limits) && t == Gap(c.limits) && mid.clock == 0 && mid.nextRound == REST
    requires mid.health == NotedSuccess(Zero().health, "@x", 0, 0)
    requires forall a :: a in mid.items ==> a.id == "1"
    ensures Ready(c, mid, TitledJob(t), t)
    ensures CheckedKey(TitledJob(t)) == "x" && NotedKey(TitledJob(t), Delivered(Some("@x"))) == "@x"
  {
    assert |"x"| != |"@x"|;
    hide WithinBudget, NotedSuccess, Gap;
    FirstNoted(Zero().health, "@x");
    GapOpens(c, mid.health);
    forall i | 0 <= i < |mid.items| ensures mid.items[i].id != "2" {
      assert mid.items[i] in mid.items;
    }
  }

  lemma ZeroIsEmpty()
    ensures Zero().items == [] && Zero().history == []
  {
  }

  /** A run with two successes on group `@x` only the gap apart: the second job was checked under the older label. */
  lemma SoonAgain(c: Setup) returns (run: seq<Event>)
    requires Sane(c.limits)
    ensures Possible(c, Zero(), run)
    ensures var history := WorkerRuns.After(c, Zero(), run).history;
            && |history| == 2 && history[0].group == "@x" == history[1].group
            && history[0].at == 0 && history[1].at == Gap(c.limits)
  {
    var t := Gap(c.limits);
    ZeroIsFresh(c);
    assert AtRest(c, Zero());
    NamedIsReady(c);
    ZeroIsEmpty();
    hide *;
    var first := Delivery(NamedJob(), Delivered(None), 0);
    var second := Delivery(TitledJob(t), Delivered(Some("@x")), t);
    var mid := Delivers(c, Zero(), NamedJob(), Delivered(None), 0);
    TitledIsReady(c, mid, t);
    var after := Delivers(c, mid, TitledJob(t), Delivered(Some("@x")), t);
    run := first + second;
    RunsFollow(c, Zero(), first, second);
  }

  /**
   * Every run keeps two successes on one group a cooldown apart, whatever key they were checked under, exactly when
   * the cooldown never has to act. Otherwise some run sends to a group again too soon, through a job queued under an
   * older label whose group had to be looked up.
   */
  lemma CooldownKeptIff(c: Setup)
    requires Sane(c.limits)
    ensures AlwaysApart(c) <==> CooldownIdle(c.limits)
  {
    hide WorkerRuns.After, Possible, Initial, Minutes;
    IdleMinutes(c.limits);
    if CooldownIdle(c.limits) {
      forall w, run, i, j | Initial(w) && Possible(c, w, run) && GroupAgain(WorkerRuns.After(c, w, run).history, i, j)
        ensures var history := WorkerRuns.After(c, w, run).history;
                history[j].at - history[i].at >= Minutes(c.limits.cooldownMinutes)
      {
        OneAtATime(c, w, run, i, j);
      }
    } else {
      ZeroIsFresh(c);
      var run := SoonAgain(c);
      assert GroupAgain(WorkerRuns.After(c, Zero(), run).history, 0, 1);
    }
  }
}
