/** Runs of the single promo worker against arriving posts, admin clears and dropped rounds. */
module WorkerRuns {
  import opened Common
  import opened Refs
  import opened PromoQueue
  import opened SafetyGuard
  import opened PromoWorker
  import Queue = PromoQueueRuns
  import Markers = MarkerRuns

  datatype Setup = Setup(limits: Limits, ackReaction: bool)

  /** Where the worker is, with the job it took and when it passed its checks. */
  datatype Phase = Idle | Pacing(job: Job, cooledAt: int) | Sending(job: Job, cooledAt: int, checkedAt: int)

  /** A success, the key its cooldown was checked under, and the moments of its cooldown and last budget check. */
  datatype Success = Success(at: int, group: string, key: string, cooledAt: int, checkedAt: int)

  /** The circuit opened at `from` until `until`. */
  datatype Opening = Opening(from: int, until: int)

  /** The shortest rest between two rounds: four seconds. */
  const REST := 4_000_000

  /**
   * Queue, safety state and markers, the worker's phase, and the history of the run. The next round starts no earlier
   * than `nextRound`.
   */
  datatype World = World(
    items: seq<Job>, health: Health, acked: seq<Marker>, phase: Phase, clock: int, nextRound: int,
    history: seq<Success>, openings: seq<Opening>, claims: seq<Markers.Claim>)

  datatype Event =
    | Start(paused: bool, open: bool, starts: StartTimes)
    | Resume(paused: bool, open: bool, active: int, budget: int)
    | Finish(ending: Ending, ends: FinishTimes)
    | Abandon
    | Arrive(job: Job)
    | ClearAll

  predicate InFlight(phase: Phase, id: string) {
    !phase.Idle? && phase.job.id == id
  }

  /** The clock never runs backwards, a round starts after a rest, and a new job has a new id. */
  predicate Enabled(w: World, e: Event) {
    match e
    case Start(_, _, t) =>
      w.phase.Idle? && w.clock <= t.active <= t.budget <= t.cool <= t.ruled && w.nextRound <= t.active
    case Resume(_, _, active, budget) => w.phase.Pacing? && w.clock <= active <= budget
    case Finish(_, t) => w.phase.Sending? && w.clock <= t.noted <= t.cutoff <= t.ruled <= t.acked
    case Abandon => true
    case Arrive(job) =>
      && job.status.Pending? && job.attempts == 0 && w.clock <= job.createdAt
      && Queue.Absent(w.items, job.id) && !InFlight(w.phase, job.id)
    case ClearAll => true
  }

  function Started(c: Setup, w: World, e: Event): World
    requires e.Start?
  {
    var job := Taken(w.items, w.health, c.limits, e.paused, e.open, e.starts);
    w.(items := StartItems(w.items, w.health, c.limits, e.paused, e.open, e.starts),
       health := StartHealth(w.health, e.paused, e.starts),
       phase := if job.Some? then Pacing(job.value, e.starts.cool) else Idle,
       clock := e.starts.ruled, nextRound := e.starts.ruled + REST)
  }

  function Resumed(c: Setup, w: World, e: Event): World
    requires e.Resume? && w.phase.Pacing?
  {
    var go := GoesOn(w.health, c.limits, e.paused, e.open, e.active, e.budget);
    w.(health := Looked(w.health, e.active),
       phase := if go then Sending(w.phase.job, w.phase.cooledAt, e.budget) else Idle,
       clock := e.budget, nextRound := e.budget + REST)
  }

  function Finished(c: Setup, w: World, e: Event): World
    requires e.Finish? && w.phase.Sending?
  {
    var Sending(job, cooledAt, checkedAt) := w.phase;
    var items := Queue.Ruled(w.items, job.id, VerdictOf(e.ending), e.ends.ruled);
    var health := FinishHealth(w.health, c.limits, job, e.ending, e.ends);
    World(
      items, health, FinishMarkers(w.acked, items, c.ackReaction, job, e.ending, e.ends.acked), Idle, e.ends.acked,
      e.ends.acked + REST,
      if e.ending.Delivered?
      then w.history + [Success(e.ends.noted, NotedKey(job, e.ending), CheckedKey(job), cooledAt, checkedAt)]
      else w.history,
      if health.pausedUntil.Some? && health.pausedUntil != w.health.pausedUntil
      then w.openings + [Opening(e.ends.noted, health.pausedUntil.value)] else w.openings,
      if ReachesAck(items, c.ackReaction, job, e.ending)
      then w.claims + [Markers.Claim(Strip(job.postKey), e.ends.acked)] else w.claims)
  }

  function Step(c: Setup, w: World, e: Event): World
    requires Enabled(w, e)
  {
    match e
    case Start(_, _, _) => Started(c, w, e)
    case Resume(_, _, _, _) => Resumed(c, w, e)
    case Finish(_, _) => Finished(c, w, e)
    case Abandon => w.(phase := Idle, nextRound := w.clock + REST)
    case Arrive(job) => w.(items := EnqueueItems(w.items, job), clock := job.createdAt)
    case ClearAll => w.(items := SettledOf(w.items))
  }

  predicate Possible(c: Setup, w: World, run: seq<Event>)
    decreases |run|
  {
    run == [] || (Enabled(w, run[0]) && Possible(c, Step(c, w, run[0]), run[1..]))
  }

  function After(c: Setup, w: World, run: seq<Event>): World
    requires Possible(c, w, run)
    decreases |run|
  {
    if run == [] then w else After(c, Step(c, w, run[0]), run[1..])
  }

  // ---------------------------------------------------------------- what an ending does to its job

  /** A sent job is done, a hopeless one failed, an unlucky one tried at most three times, a slowed one put off. */
  ghost predicate Fate(before: Job, after: Job, ending: Ending, at: int) {
    && after == before.(status := after.status, attempts := after.attempts, createdAt := after.createdAt)
    && match ending
       case Delivered(_) =>
         after.status.Done? && after.attempts == before.attempts && after.createdAt == before.createdAt
       case Unresolved | SourceGone | MessagesMissing | Forbidden =>
         after.status.Failed? && after.attempts == before.attempts + 1 && after.createdAt == before.createdAt
       case RpcError | Unexpected =>
         && after.attempts == before.attempts + 1 && after.createdAt == before.createdAt
         && after.status == if before.attempts < 2 then Pending else Failed
       case FloodWait | PeerFlood | SlowMode =>
         after.status == before.status && after.attempts == before.attempts && after.createdAt == at
  }

  /** The end of a delivery decides the fate of its own job and of no other. */
  lemma FinishFate(c: Setup, w: World, e: Event, n: nat)
    requires Enabled(w, e) && e.Finish? && Queue.UniqueIds(w.items)
    requires n < |w.items| && w.items[n].id == w.phase.job.id
    ensures var after := Step(c, w, e).items;
            && |after| == |w.items| && Fate(w.items[n], after[n], e.ending, e.ends.ruled)
            && forall i :: 0 <= i < |after| && i != n ==> after[i] == w.items[i]
  {
    assert IndexOf(w.items, w.phase.job.id) == n;
    hide FinishHealth, FinishMarkers, ReachesAck, NotedKey, CheckedKey, IndexOf;
  }

  // ---------------------------------------------------------------- when the worker goes ahead

  /** Nobody paused the worker, its hours are open, no circuit is open, and both budgets have room. */
  ghost predicate Clear(c: Setup, h: Health, paused: bool, open: bool, active: int, budget: int) {
    !paused && open && (h.pausedUntil == None || h.pausedUntil.value <= active) && WithinBudget(h, c.limits, budget)
  }

  /** A round takes the head exactly when the way is clear and its group has cooled; while it cools it is put off. */
  lemma StartIff(c: Setup, w: World, e: Event)
    requires Enabled(w, e) && e.Start? && Queue.UniqueIds(w.items)
    ensures var after, head, t := Step(c, w, e), Head(w.items), e.starts;
            var due := Clear(c, w.health, e.paused, e.open, t.active, t.budget) && head.Some?;
            var cooled := due && Cooled(w.health, c.limits, CheckedKey(head.value), t.cool);
            && after.phase == (if cooled then Pacing(head.value, t.cool) else Idle)
            && |after.items| == |w.items|
            && forall i :: 0 <= i < |w.items| ==>
                 after.items[i] ==
                   if due && !cooled && w.items[i].id == head.value.id then w.items[i].(createdAt := t.ruled)
                   else w.items[i]
  {
    hide Head, Cooled, CheckedKey, Since;
  }

  /** After the pacing wait the delivery goes ahead exactly when the way is still clear. */
  lemma ResumeIff(c: Setup, w: World, e: Event)
    requires Enabled(w, e) && e.Resume?
    ensures Step(c, w, e).phase ==
              if Clear(c, w.health, e.paused, e.open, e.active, e.budget)
              then Sending(w.phase.job, w.phase.cooledAt, e.budget) else Idle
    ensures Step(c, w, e).items == w.items
  {
    hide Since;
  }

  // ---------------------------------------------------------------- every worker run is a queue run

  /** The job in flight is the head of the queue, or was trimmed or cleared away. */
  ghost predicate FlightOk(w: World) {
    !w.phase.Idle? ==> Head(w.items) == Some(w.phase.job) || Queue.Absent(w.items, w.phase.job.id)
  }

  function QueueEvents(c: Setup, w: World, e: Event): seq<Queue.Event> {
    match e
    case Start(paused, open, t) =>
      if PutOff(w.items, w.health, c.limits, paused, open, t)
      then [Queue.Outcome(Head(w.items).value.id, Queue.Deferred, t.ruled)] else []
    case Finish(ending, t) =>
      if w.phase.Idle? then [] else [Queue.Outcome(w.phase.job.id, VerdictOf(ending), t.ruled)]
    case Arrive(job) => [Queue.Enqueue(job)]
    case ClearAll => [Queue.Clear]
    case _ => []
  }

  function QueueRun(c: Setup, w: World, run: seq<Event>): seq<Queue.Event>
    requires Possible(c, w, run)
    decreases |run|
  {
    if run == [] then [] else QueueEvents(c, w, run[0]) + QueueRun(c, Step(c, w, run[0]), run[1..])
  }

  /** The first job nobody is older than, and nobody before it is as old as. */
  ghost predicate First(pending: seq<Job>, i: nat) {
    && i < |pending|
    && (forall j :: 0 <= j < i ==> pending[j].createdAt > pending[i].createdAt)
    && (forall j :: i < j < |pending| ==> pending[j].createdAt >= pending[i].createdAt)
  }

  lemma {:induction false} OldestIsFirst(pending: seq<Job>, i: nat)
    requires First(pending, i)
    ensures Oldest(pending) == Some(pending[i])
  {
    var last := |pending| - 1;
    var front := pending[..last];
    if i < last {
      OldestIsFirst(front, i);
    } else if front != [] {
      var j := FirstIndex(front);
      OldestIsFirst(front, j);
    }
  }

  lemma {:induction false} FirstIndex(pending: seq<Job>) returns (i: nat)
    requires pending != []
    ensures First(pending, i)
  {
    i := 0;
    for n := 1 to |pending|
      invariant First(pending[..n], i)
    {
      assert pending[..n + 1][..n] == pending[..n];
      if pending[n].createdAt < pending[i].createdAt {
        i := n;
      }
    }
    assert pending[..|pending|] == pending;
  }

  lemma FirstOfSuffix(pending: seq<Job>, i: nat, cut: nat)
    requires First(pending, i) && cut <= i
    ensures First(pending[cut..], i - cut) && pending[cut..][i - cut] == pending[i]
  {
  }

  /** Dropping jobs from the front, and adding newer ones behind, keeps the head unless it was dropped. */
  lemma HeadStays(pending: seq<Job>, job: Job, cut: nat) returns (i: nat)
    requires pending != [] && cut <= |pending| + 1
    requires forall i :: 0 <= i < |pending| ==> pending[i].createdAt <= job.createdAt
    ensures i < |pending| && Oldest(pending) == Some(pending[i])
    ensures cut <= i ==> Oldest((pending + [job])[cut..]) == Oldest(pending)
  {
    i := FirstIndex(pending);
    OldestIsFirst(pending, i);
    hide Oldest;
    if cut <= i {
      var all := pending + [job];
      assert First(all, i) && all[i] == pending[i];
      FirstOfSuffix(all, i, cut);
      OldestIsFirst(all[cut..], i - cut);
    }
  }

  lemma SameIdSameJob(items: seq<Job>, a: Job, b: Job)
    requires Queue.UniqueIds(items) && a in items && b in items
    ensures a.id == b.id ==> a == b
  {
    var m, n :| 0 <= m < |items| && 0 <= n < |items| && items[m] == a && items[n] == b;
  }

  /** A job dropped from the front of the pending jobs is nowhere else in the queue. */
  lemma DroppedIsAbsent(items: seq<Job>, i: nat, cut: nat)
    requires Queue.UniqueIds(items) && i < cut <= |PendingOf(items)|
    requires PendingOf(Capped(items)) == PendingOf(items)[cut..]
    ensures Queue.Absent(Capped(items), PendingOf(items)[i].id)
  {
    var pending, job, after := PendingOf(items), PendingOf(items)[i], Capped(items);
    Queue.Members(items);
    Queue.Members(after);
    Queue.CappedMembers(items);
    Queue.PartsKeepIds(items);
    hide PendingOf, SettledOf, Capped;
    assert job in pending && job !in pending[cut..];
    hide Queue.UniqueIds;
    forall k | 0 <= k < |after| ensures after[k].id != job.id {
      assert after[k] in after;
      SameIdSameJob(items, after[k], job);
    }
  }

  /** One more job at the end leaves the head in place, or trims it away. */
  lemma ArriveKeepsHead(items: seq<Job>, job: Job)
    requires Queue.UniqueIds(items + [job]) && job.status.Pending? && Head(items).Some?
    requires forall a :: a in items && a.status.Pending? ==> a.createdAt <= job.createdAt
    ensures Head(Capped(items + [job])) == Head(items) || Queue.Absent(Capped(items + [job]), Head(items).value.id)
  {
    var all, pending := items + [job], PendingOf(items);
    assert all[..|items|] == items;
    assert PendingOf(all) == pending + [job];
    Queue.CappedPending(all);
    Queue.Members(items);
    Queue.OldestIsFirst(pending);
    hide PendingOf, SettledOf, Capped, Oldest, Queue.Absent, Queue.UniqueIds;
    var cut := if |pending| < MAX_PENDING then 0 else |pending| + 1 - MAX_PENDING;
    assert PendingOf(Capped(all)) == (pending + [job])[cut..];
    forall i | 0 <= i < |pending| ensures pending[i].createdAt <= job.createdAt {
      assert pending[i] in pending;
    }
    var i := HeadStays(pending, job, cut);
    if i < cut {
      DroppedIsAbsent(all, i, cut);
    }
  }

  lemma ArriveKeepsAbsent(items: seq<Job>, job: Job, id: string)
    requires Queue.Absent(items, id) && job.id != id
    ensures Queue.Absent(EnqueueItems(items, job), id)
  {
    var all := items + [job];
    Queue.CappedMembers(all);
    hide Capped, Duplicate;
    forall i | 0 <= i < |Capped(all)| ensures Capped(all)[i].id != id {
      assert Capped(all)[i] in all;
    }
  }

  lemma ArriveKeepsFlight(c: Setup, w: World, job: Job)
    requires FlightOk(w) && Enabled(w, Arrive(job)) && Queue.Inv(Queue.State(w.items, w.clock))
    ensures FlightOk(Step(c, w, Arrive(job)))
  {
    hide Capped, PendingOf, Duplicate, Head;
    if !w.phase.Idle? {
      if Head(w.items) == Some(w.phase.job) {
        if !Duplicate(w.items, job) {
          ArriveKeepsHead(w.items, job);
        }
      } else {
        ArriveKeepsAbsent(w.items, job, w.phase.job.id);
      }
    }
  }

  lemma ClearKeepsFlight(c: Setup, w: World)
    requires FlightOk(w) && Queue.Inv(Queue.State(w.items, w.clock))
    ensures FlightOk(Step(c, w, ClearAll))
  {
    Queue.Members(w.items);
    Queue.HeadIsOldest(w.items);
    hide PendingOf, SettledOf, Oldest, Head;
    if !w.phase.Idle? {
      forall i | 0 <= i < |SettledOf(w.items)| ensures SettledOf(w.items)[i].id != w.phase.job.id {
        var a := SettledOf(w.items)[i];
        assert a in w.items && !a.status.Pending?;
        var m :| 0 <= m < |w.items| && w.items[m] == a;
      }
    }
  }

  /** Each worker step is at most one queue step, and keeps the job in flight at the head or gone. */
  lemma StepRefines(c: Setup, w: World, e: Event, clock: int)
    requires FlightOk(w) && Enabled(w, e) && clock <= w.clock && Queue.Inv(Queue.State(w.items, clock))
    ensures var q := Queue.State(w.items, clock);
            var run := QueueEvents(c, w, e);
            Queue.Possible(q, run)
            && Queue.After(q, run).items == Step(c, w, e).items
            && Queue.After(q, run).clock <= Step(c, w, e).clock
            && Queue.Inv(Queue.After(q, run))
            && FlightOk(Step(c, w, e))
  {
    var q, run := Queue.State(w.items, clock), QueueEvents(c, w, e);
    OneStep(q, run);
    assert Queue.Inv(Queue.State(w.items, w.clock));
    if run != [] && Queue.Enabled(q, run[0]) {
      Queue.StepKeepsInv(q, run[0]);
    }
    match e
    case Arrive(job) => ArriveKeepsFlight(c, w, job);
    case ClearAll => ClearKeepsFlight(c, w);
    case _ =>
      hide Head, Queue.Inv, Queue.Ruled, CheckedKey, FinishHealth, FinishMarkers, ReachesAck, Looked, WithinBudget;
  }

  /** A run of at most one step. */
  lemma OneStep(q: Queue.State, run: seq<Queue.Event>)
    requires |run| <= 1
    ensures Queue.Possible(q, run) <==> run == [] || Queue.Enabled(q, run[0])
    ensures Queue.After(q, run) == if run == [] then q else Queue.Step(q, run[0])
  {
    hide Queue.Enabled, Queue.Step;
    if run != [] {
      assert run[1..] == [];
    }
  }

  lemma {:induction false} RunsJoin(q: Queue.State, a: seq<Queue.Event>, b: seq<Queue.Event>)
    requires Queue.Possible(q, a) && Queue.Possible(Queue.After(q, a), b)
    ensures Queue.Possible(q, a + b) && Queue.After(q, a + b) == Queue.After(Queue.After(q, a), b)
    decreases |a|
  {
    hide Queue.Enabled, Queue.Step;
    if a == [] {
      assert a + b == b;
    } else {
      RunsJoin(Queue.Step(q, a[0]), a[1..], b);
      assert (a + b)[1..] == a[1..] + b;
    }
  }

  /** Main result: a run of the worker is a run of the queue, so what holds of every queue run holds of it. */
  lemma {:induction false} RunRefines(c: Setup, w: World, run: seq<Event>, clock: int)
    requires FlightOk(w) && Possible(c, w, run) && clock <= w.clock && Queue.Inv(Queue.State(w.items, clock))
    ensures var q, events := Queue.State(w.items, clock), QueueRun(c, w, run);
            Queue.Possible(q, events)
            && Queue.After(q, events).items == After(c, w, run).items
            && Queue.Inv(Queue.After(q, events))
            && FlightOk(After(c, w, run))
    decreases |run|
  {
    if run != [] {
      var q, here, next := Queue.State(w.items, clock), QueueEvents(c, w, run[0]), Step(c, w, run[0]);
      StepRefines(c, w, run[0], clock);
      var after := Queue.After(q, here);
      hide Queue.Inv, Enabled, FlightOk, Step, QueueEvents, Queue.After, Queue.Possible;
      RunRefines(c, next, run[1..], after.clock);
      RunsJoin(q, here, QueueRun(c, next, run[1..]));
    }
  }

  lemma {:induction false} CutRun(c: Setup, w: World, run: seq<Event>, n: nat) returns (m: nat)
    requires Possible(c, w, run) && n <= |QueueRun(c, w, run)|
    ensures m <= |run| && Possible(c, w, run[..m]) && QueueRun(c, w, run[..m]) == QueueRun(c, w, run)[..n]
    decreases |run|
  {
    m := 0;
    if n > 0 {
      var here, next := QueueEvents(c, w, run[0]), Step(c, w, run[0]);
      assert |here| <= 1;
      hide Enabled, Step, QueueEvents;
      var k := CutRun(c, next, run[1..], n - |here|);
      m := k + 1;
      assert run[..m][1..] == run[1..][..k];
    }
  }

  /** A pending job with r older ones is the head after at most 3r of the worker's rulings. */
  lemma WorkerBoundedWait(c: Setup, w: World, run: seq<Event>, job: Job) returns (m: nat)
    requires FlightOk(w) && Possible(c, w, run)
    requires var q := Queue.State(w.items, w.clock);
      Queue.Inv(q) && Queue.DistinctStamps(w.items) && Queue.Calm(q, QueueRun(c, w, run)) &&
          Queue.Ticking(q, QueueRun(c, w, run))
    requires job in w.items && job.status.Pending?
    requires Queue.Outcomes(QueueRun(c, w, run)) >= 3 * Queue.OlderCount(w.items, job.createdAt)
    ensures m <= |run| && Possible(c, w, run[..m]) && Head(After(c, w, run[..m]).items) == Some(job)
    ensures Queue.Outcomes(QueueRun(c, w, run[..m])) <= 3 * Queue.OlderCount(w.items, job.createdAt)
  {
    RunRefines(c, w, run, w.clock);
    var n := Queue.BoundedWait(Queue.State(w.items, w.clock), QueueRun(c, w, run), job);
    hide Queue.Inv, FlightOk, Head, Queue.After, Queue.Possible, After;
    m := CutRun(c, w, run, n);
    RunRefines(c, w, run[..m], w.clock);
  }
}
