/** Runs of the delivery queue: what every run keeps, how long a job waits, and how the queue drains. */
module PromoQueueRuns {
  import opened Common
  import opened PromoQueue

  /** What the worker does with the job it took. */
  datatype Verdict = Settled | Refused(retry: bool) | Deferred

  /** Stamps come from one clock; an outcome names the job the worker took earlier. */
  datatype Event =
    | Enqueue(job: Job)
    | Outcome(id: string, verdict: Verdict, at: int)
    | Clear

  datatype State = State(items: seq<Job>, clock: int)

  function Ruled(items: seq<Job>, id: string, verdict: Verdict, at: int): seq<Job> {
    match verdict
    case Settled => DoneItems(items, id)
    case Refused(retry) => FailedItems(items, id, retry)
    case Deferred => DeferredItems(items, id, at)
  }

  function Step(s: State, e: Event): State {
    match e
    case Enqueue(job) => State(EnqueueItems(s.items, job), job.createdAt)
    case Outcome(id, verdict, at) => State(Ruled(s.items, id, verdict, at), at)
    case Clear => s.(items := SettledOf(s.items))
  }

  predicate Absent(items: seq<Job>, id: string) {
    forall i :: 0 <= i < |items| ==> items[i].id != id
  }

  /** New jobs carry a new id; an outcome is for the head, or for a job trimmed or cleared meanwhile. */
  predicate Enabled(s: State, e: Event) {
    match e
    case Enqueue(job) => job.status.Pending? && job.attempts == 0 && job.createdAt >= s.clock && Absent(s.items, job.id)
    case Outcome(id, _, at) =>
      at >= s.clock && ((Head(s.items).Some? && Head(s.items).value.id == id) || Absent(s.items, id))
    case Clear => true
  }

  // ---------------------------------------------------------------- what every run keeps

  ghost predicate UniqueIds(items: seq<Job>) {
    forall i, j :: 0 <= i < j < |items| ==> items[i].id != items[j].id
  }

  /** Two different pending jobs are for different shares. */
  ghost predicate Apart(items: seq<Job>) {
    forall a, b :: a in items && b in items && a.status.Pending? && b.status.Pending? && a != b ==> !SameShare(a, b)
  }

  ghost predicate Inv(s: State) {
    && UniqueIds(s.items) && Apart(s.items)
    && |PendingOf(s.items)| <= MAX_PENDING
    && forall a :: a in s.items && a.status.Pending? ==> a.attempts < MAX_ATTEMPTS && a.createdAt <= s.clock
  }

  lemma {:induction false} Members(items: seq<Job>)
    ensures forall a :: a in PendingOf(items) <==> a in items && a.status.Pending?
    ensures forall a :: a in SettledOf(items) <==> a in items && !a.status.Pending?
    ensures |PendingOf(items)| + |SettledOf(items)| == |items|
  {
    if items != [] {
      var front, last := items[..|items| - 1], items[|items| - 1];
      assert items == front + [last];
      Members(front);
    }
  }

  lemma {:induction false} PartsKeepIds(items: seq<Job>)
    requires UniqueIds(items)
    ensures UniqueIds(PendingOf(items)) && UniqueIds(SettledOf(items))
  {
    if items != [] {
      var front := items[..|items| - 1];
      PartsKeepIds(front);
      Members(front);
    }
  }

  lemma CappedMembers(items: seq<Job>)
    ensures forall a :: a in Capped(items) ==> a in items
    ensures |PendingOf(items)| <= MAX_PENDING ==> forall a :: a in items && a.status.Pending? ==> a in Capped(items)
  {
    Members(items);
    hide PendingOf, SettledOf;
  }

  lemma CappedKeepsIds(items: seq<Job>)
    requires UniqueIds(items)
    ensures UniqueIds(Capped(items))
  {
    Members(items);
    PartsKeepIds(items);
    hide PendingOf, SettledOf;
    var p, q := Last(PendingOf(items), MAX_PENDING), Last(SettledOf(items), MAX_SETTLED);
    forall i, j | 0 <= i < |p| && 0 <= j < |q| ensures p[i].id != q[j].id {
      var a, b := p[i], q[j];
      assert a in PendingOf(items) && b in SettledOf(items);
      var m, n :| 0 <= m < |items| && 0 <= n < |items| && items[m] == a && items[n] == b;
    }
  }

  lemma {:induction false} PendingOfParts(a: seq<Job>, b: seq<Job>)
    ensures PendingOf(a + b) == PendingOf(a) + PendingOf(b)
  {
    if b == [] {
      assert a + b == a;
    } else {
      assert (a + b)[..|a + b| - 1] == a + b[..|b| - 1];
      PendingOfParts(a, b[..|b| - 1]);
    }
  }

  lemma {:induction false} PendingOfUniform(items: seq<Job>)
    ensures (forall a :: a in items ==> a.status.Pending?) ==> PendingOf(items) == items
    ensures (forall a :: a in items ==> !a.status.Pending?) ==> PendingOf(items) == []
  {
    if items != [] {
      PendingOfUniform(items[..|items| - 1]);
    }
  }

  lemma CappedPending(items: seq<Job>)
    ensures PendingOf(Capped(items)) == Last(PendingOf(items), MAX_PENDING)
  {
    Members(items);
    var p, q := Last(PendingOf(items), MAX_PENDING), Last(SettledOf(items), MAX_SETTLED);
    PendingOfParts(p, q);
    PendingOfUniform(p);
    PendingOfUniform(q);
    hide PendingOf, SettledOf;
  }

  /** Rewriting one item changes at most that item's place among the pending. */
  lemma {:induction false} SettledOfParts(a: seq<Job>, b: seq<Job>)
    ensures SettledOf(a + b) == SettledOf(a) + SettledOf(b)
  {
    if b == [] {
      assert a + b == a;
    } else {
      assert (a + b)[..|a + b| - 1] == a + b[..|b| - 1];
      SettledOfParts(a, b[..|b| - 1]);
    }
  }

  lemma {:induction false} SettledOfUniform(items: seq<Job>)
    ensures (forall a :: a in items ==> !a.status.Pending?) ==> SettledOf(items) == items
    ensures (forall a :: a in items ==> a.status.Pending?) ==> SettledOf(items) == []
  {
    if items != [] {
      assert items == items[..|items| - 1] + [items[|items| - 1]];
      SettledOfUniform(items[..|items| - 1]);
    }
  }

  /** Trimming keeps the last 150 settled jobs behind the last 400 pending ones. */
  lemma CappedIs(items: seq<Job>)
    ensures PendingOf(Capped(items)) == Last(PendingOf(items), 400)
    ensures SettledOf(Capped(items)) == Last(SettledOf(items), 150)
  {
    CappedPending(items);
    Members(items);
    var pending, settled := Last(PendingOf(items), MAX_PENDING), Last(SettledOf(items), MAX_SETTLED);
    SettledOfParts(pending, settled);
    SettledOfUniform(pending);
    SettledOfUniform(settled);
  }

  /** A job is refused exactly when one of the same post for the same group is pending, and is kept otherwise. */
  lemma EnqueueIs(items: seq<Job>, job: Job)
    requires job.status.Pending?
    ensures (exists a :: a in items && a.status.Pending? && a.groupId == job.groupId && a.postKey == job.postKey) ==>
              EnqueueItems(items, job) == items
    ensures !(exists a :: a in items && a.status.Pending? && a.groupId == job.groupId && a.postKey == job.postKey) ==>
              PendingOf(EnqueueItems(items, job)) == Last(PendingOf(items) + [job], 400)
  {
    if a :| a in items && a.status.Pending? && a.groupId == job.groupId && a.postKey == job.postKey {
      var i :| 0 <= i < |items| && items[i] == a;
      assert Duplicate(items, job);
    } else {
      assert !Duplicate(items, job);
      PendingOfParts(items, [job]);
      PendingOfUniform([job]);
      CappedIs(items + [job]);
    }
    hide Capped, PendingOf;
  }

  lemma {:induction false} PendingCountUpdate(items: seq<Job>, n: nat, job: Job)
    requires n < |items|
    ensures |PendingOf(items[n := job])| ==
      |PendingOf(items)| + (if job.status.Pending? then 1 else 0) - (if items[n].status.Pending? then 1 else 0)
  {
    var last := |items| - 1;
    if n == last {
      assert items[n := job][..last] == items[..last];
    } else {
      assert items[n := job][..last] == items[..last][n := job];
      PendingCountUpdate(items[..last], n, job);
    }
  }

  /** The head is the only pending job with its stamp or an older one. */
  lemma {:induction false} OldestIsFirst(pending: seq<Job>)
    ensures Oldest(pending).None? <==> pending == []
    ensures Oldest(pending).Some? ==> Oldest(pending).value in pending
    ensures Oldest(pending).Some? ==> forall a :: a in pending ==> Oldest(pending).value.createdAt <= a.createdAt
  {
    if pending != [] {
      OldestIsFirst(pending[..|pending| - 1]);
    }
  }

  lemma HeadIsOldest(items: seq<Job>)
    ensures Head(items).None? <==> forall a :: a in items ==> !a.status.Pending?
    ensures Head(items).Some? ==> Head(items).value in items && Head(items).value.status.Pending?
    ensures Head(items).Some? ==>
      forall a :: a in items && a.status.Pending? ==> Head(items).value.createdAt <= a.createdAt
  {
    OldestIsFirst(PendingOf(items));
    Members(items);
    hide Oldest;
    if Head(items).None? {
      assert forall a :: a in items && a.status.Pending? ==> a in PendingOf(items);
    } else {
      assert Head(items).value in PendingOf(items);
    }
  }

  lemma EnqueueKeepsInv(s: State, e: Event)
    requires Inv(s) && Enabled(s, e) && e.Enqueue?
    ensures Inv(Step(s, e))
  {
    var all := s.items + [e.job];
    if !Duplicate(s.items, e.job) {
      hide PendingOf, SettledOf;
      CappedMembers(all);
      CappedKeepsIds(all);
      CappedPending(all);
      hide Capped;
      forall a | a in s.items && a.status.Pending?
        ensures !SameShare(a, e.job) && !SameShare(e.job, a)
      {
        var i :| 0 <= i < |s.items| && s.items[i] == a;
      }
    }
  }

  lemma ClearKeepsInv(s: State)
    requires Inv(s)
    ensures Inv(Step(s, Clear))
  {
    Members(s.items);
    PartsKeepIds(s.items);
    PendingOfUniform(SettledOf(s.items));
    hide PendingOf, SettledOf;
  }

  /** An outcome rewrites exactly the head, or nothing when its job is gone. */
  lemma RuledEffect(s: State, e: Event)
    requires Inv(s) && Enabled(s, e) && e.Outcome?
    ensures Absent(s.items, e.id) ==> Step(s, e).items == s.items
    ensures !Absent(s.items, e.id) ==>
      var n := IndexOf(s.items, e.id);
      var head := Head(s.items);
      n < |s.items| && head.Some? && s.items[n] == head.value && head.value.status.Pending?
      && Step(s, e).items == s.items[n := RuledJob(head.value, e.verdict, e.at)]
  {
    HeadIsOldest(s.items);
    hide PendingOf, Oldest;
    if !Absent(s.items, e.id) {
      var n := IndexOf(s.items, e.id);
      var i :| 0 <= i < |s.items| && s.items[i] == Head(s.items).value;
    }
  }

  function RuledJob(job: Job, verdict: Verdict, at: int): Job {
    match verdict
    case Settled => AsDone(job)
    case Refused(retry) => AsTried(job, retry)
    case Deferred => job.(createdAt := at)
  }

  lemma UpdateMembers(items: seq<Job>, n: nat, job: Job)
    requires UniqueIds(items) && n < |items| && job.id == items[n].id
    ensures UniqueIds(items[n := job])
    ensures forall a :: a in items[n := job] ==> a == job || (a in items && a != items[n])
  {
    var after := items[n := job];
    forall a | a in after && a != job ensures a in items && a != items[n] {
      var i :| 0 <= i < |after| && after[i] == a;
    }
  }

  lemma RuledApart(s: State, n: nat, job: Job)
    requires Inv(s) && n < |s.items| && s.items[n].status.Pending?
    requires job.id == s.items[n].id && SameShare(job, s.items[n])
    ensures Apart(s.items[n := job])
  {
    UpdateMembers(s.items, n, job);
    var after := s.items[n := job];
    assert s.items[n] in s.items;
    hide UniqueIds, PendingOf;
    forall a | a in after && a != job && a.status.Pending?
      ensures !SameShare(a, job) && !SameShare(job, a)
    {
      assert a in s.items && a != s.items[n];
    }
  }

  lemma RuledKeepsInv(s: State, n: nat, verdict: Verdict, at: int)
    requires Inv(s) && n < |s.items| && at >= s.clock && s.items[n].status.Pending?
    ensures Inv(State(s.items[n := RuledJob(s.items[n], verdict, at)], at))
  {
    var job := RuledJob(s.items[n], verdict, at);
    PendingCountUpdate(s.items, n, job);
    UpdateMembers(s.items, n, job);
    RuledApart(s, n, job);
    assert s.items[n] in s.items;
    hide PendingOf, UniqueIds, Apart;
  }

  lemma OutcomeKeepsInv(s: State, e: Event)
    requires Inv(s) && Enabled(s, e) && e.Outcome?
    ensures Inv(Step(s, e))
  {
    RuledEffect(s, e);
    hide RuledJob, Head, Ruled, IndexOf, PendingOf, UniqueIds, Apart;
    if !Absent(s.items, e.id) {
      RuledKeepsInv(s, IndexOf(s.items, e.id), e.verdict, e.at);
    }
  }

  /** Every step keeps unique ids, one pending job a share, at most 400 pending, and pending jobs with tries left. */
  lemma StepKeepsInv(s: State, e: Event)
    requires Inv(s) && Enabled(s, e)
    ensures Inv(Step(s, e))
  {
    hide Inv, Enabled, Step;
    match e
    case Enqueue(_) => EnqueueKeepsInv(s, e);
    case Outcome(_, _, _) => OutcomeKeepsInv(s, e);
    case Clear => ClearKeepsInv(s);
  }

  // ---------------------------------------------------------------- runs

  predicate Possible(s: State, run: seq<Event>)
    decreases |run|
  {
    run == [] || (Enabled(s, run[0]) && Possible(Step(s, run[0]), run[1..]))
  }

  function After(s: State, run: seq<Event>): State
    decreases |run|
  {
    if run == [] then s else After(Step(s, run[0]), run[1..])
  }

  /** How many jobs the worker ruled on. */
  function Outcomes(run: seq<Event>): nat {
    if run == [] then 0 else (if run[0].Outcome? then 1 else 0) + Outcomes(run[1..])
  }

  /**
   * Main result: over every run ids stay unique, at most one pending job exists a group and post, at most 400
   * are pending, and each pending job has an attempt left.
   */
  lemma {:induction false} RunKeepsInv(s: State, run: seq<Event>)
    requires Inv(s) && Possible(s, run)
    ensures Inv(After(s, run))
    decreases |run|
  {
    if run != [] {
      StepKeepsInv(s, run[0]);
      hide Inv, Enabled, Step;
      RunKeepsInv(Step(s, run[0]), run[1..]);
    }
  }

  // ---------------------------------------------------------------- remaining work

  function TriesLeft(job: Job): nat {
    if job.status.Pending? && job.attempts < MAX_ATTEMPTS then MAX_ATTEMPTS - job.attempts else 0
  }

  /** The attempts left to the pending jobs stamped before `bound`. */
  function Work(items: seq<Job>, bound: int): nat {
    if items == [] then 0
    else
      var last := items[|items| - 1];
      Work(items[..|items| - 1], bound) + if last.createdAt < bound then TriesLeft(last) else 0
  }

  /** How many pending jobs were stamped before `bound`. */
  function OlderCount(items: seq<Job>, bound: int): nat {
    if items == [] then 0
    else
      var last := items[|items| - 1];
      OlderCount(items[..|items| - 1], bound) + if last.status.Pending? && last.createdAt < bound then 1 else 0
  }

  lemma {:induction false} WorkBound(items: seq<Job>, bound: int)
    ensures Work(items, bound) <= MAX_ATTEMPTS * OlderCount(items, bound)
    ensures OlderCount(items, bound) <= |PendingOf(items)|
  {
    if items != [] {
      WorkBound(items[..|items| - 1], bound);
    }
  }

  lemma {:induction false} WorkUpdate(items: seq<Job>, n: nat, job: Job, bound: int)
    requires n < |items|
    ensures Work(items[n := job], bound) == Work(items, bound)
      + (if job.createdAt < bound then TriesLeft(job) else 0)
      - (if items[n].createdAt < bound then TriesLeft(items[n]) else 0)
  {
    hide TriesLeft;
    var last := |items| - 1;
    if n == last {
      assert items[n := job][..last] == items[..last];
    } else {
      assert items[n := job][..last] == items[..last][n := job];
      WorkUpdate(items[..last], n, job, bound);
    }
  }

  lemma {:induction false} WorkParts(a: seq<Job>, b: seq<Job>, bound: int)
    ensures Work(a + b, bound) == Work(a, bound) + Work(b, bound)
  {
    if b == [] {
      assert a + b == a;
    } else {
      assert (a + b)[..|a + b| - 1] == a + b[..|b| - 1];
      WorkParts(a, b[..|b| - 1], bound);
    }
  }

  lemma {:induction false} WorkOfPending(items: seq<Job>, bound: int)
    ensures Work(PendingOf(items), bound) == Work(items, bound)
  {
    if items != [] {
      WorkOfPending(items[..|items| - 1], bound);
    }
  }

  lemma WorkCapped(items: seq<Job>, bound: int)
    requires |PendingOf(items)| <= MAX_PENDING
    ensures Work(Capped(items), bound) == Work(items, bound)
  {
    WorkOfPending(Capped(items), bound);
    CappedPending(items);
    WorkOfPending(items, bound);
    hide Work, Capped, PendingOf;
  }

  /** Nothing is cleared or trimmed away, and every outcome finds its job. */
  predicate Calm(s: State, run: seq<Event>)
    decreases |run|
  {
    run == [] || (CalmStep(s, run[0]) && Calm(Step(s, run[0]), run[1..]))
  }

  predicate CalmStep(s: State, e: Event) {
    match e
    case Enqueue(job) => Duplicate(s.items, job) || |PendingOf(s.items)| < MAX_PENDING
    case Outcome(id, _, _) => !Absent(s.items, id)
    case Clear => false
  }

  /** Different pending jobs were stamped at different times. */
  ghost predicate DistinctStamps(items: seq<Job>) {
    forall a, b :: a in items && b in items && a.status.Pending? && b.status.Pending? && a != b ==>
        a.createdAt != b.createdAt
  }

  /** The clock moves between two stamps. */
  predicate Ticking(s: State, run: seq<Event>)
    decreases |run|
  {
    run == [] || (TickStep(s, run[0]) && Ticking(Step(s, run[0]), run[1..]))
  }

  predicate TickStep(s: State, e: Event) {
    match e
    case Enqueue(job) => job.createdAt > s.clock
    case Outcome(_, _, at) => at > s.clock
    case Clear => true
  }

  lemma RuledKeepsDistinct(s: State, n: nat, verdict: Verdict, at: int)
    requires Inv(s) && DistinctStamps(s.items) && n < |s.items| && at > s.clock && s.items[n].status.Pending?
    ensures DistinctStamps(s.items[n := RuledJob(s.items[n], verdict, at)])
  {
    var job := RuledJob(s.items[n], verdict, at);
    UpdateMembers(s.items, n, job);
    var after := s.items[n := job];
    assert s.items[n] in s.items;
    hide UniqueIds, PendingOf, Apart;
    forall a | a in after && a != job && a.status.Pending? ensures a.createdAt != job.createdAt {
      assert a in s.items && a != s.items[n];
    }
  }

  lemma TickKeepsDistinct(s: State, e: Event)
    requires Inv(s) && DistinctStamps(s.items) && Enabled(s, e) && TickStep(s, e)
    ensures DistinctStamps(Step(s, e).items)
  {
    match e
    case Enqueue(job) =>
      CappedMembers(s.items + [job]);
      hide Capped, Duplicate, UniqueIds, Apart, PendingOf;
    case Outcome(id, verdict, at) =>
      RuledEffect(s, e);
      hide Ruled, RuledJob, Head, UniqueIds, Apart, PendingOf;
      if !Absent(s.items, id) {
        RuledKeepsDistinct(s, IndexOf(s.items, id), verdict, at);
      }
    case Clear =>
      Members(s.items);
  }

  /** New arrivals neither remove a waiting job nor get ahead of it. */
  lemma EnqueueWaits(s: State, e: Event, job: Job)
    requires Inv(s) && Enabled(s, e) && CalmStep(s, e) && TickStep(s, e) && e.Enqueue?
    requires job in s.items && job.status.Pending?
    ensures job in Step(s, e).items && Work(Step(s, e).items, job.createdAt) == Work(s.items, job.createdAt)
  {
    if !Duplicate(s.items, e.job) {
      var all := s.items + [e.job];
      assert all[..|s.items|] == s.items;
      assert |PendingOf(all)| == |PendingOf(s.items)| + 1;
      assert job in all;
      assert Work(all, job.createdAt) == Work(s.items, job.createdAt);
      hide PendingOf, Work, Duplicate;
      CappedMembers(all);
      WorkCapped(all, job.createdAt);
    }
  }

  /** Ruling on an older job costs it an attempt, settles it, or sends it behind. */
  lemma RuledWaits(s: State, n: nat, verdict: Verdict, at: int, job: Job)
    requires Inv(s) && n < |s.items| && s.items[n].status.Pending? && at > s.clock
    requires job in s.items && job.status.Pending? && s.items[n].createdAt < job.createdAt
    ensures var after := s.items[n := RuledJob(s.items[n], verdict, at)];
            job in after && Work(after, job.createdAt) < Work(s.items, job.createdAt)
  {
    var ruled := RuledJob(s.items[n], verdict, at);
    WorkUpdate(s.items, n, ruled, job.createdAt);
    hide Work, PendingOf, Absent, UniqueIds, Apart;
    assert s.items[n] in s.items;
    var i :| 0 <= i < |s.items| && s.items[i] == job;
    assert s.items[n := ruled][i] == job;
  }

  /** A head other than `job` is older than it. */
  lemma HeadIsOlder(s: State, job: Job)
    requires Inv(s) && DistinctStamps(s.items) && job in s.items && job.status.Pending? && Head(s.items) != Some(job)
    ensures Head(s.items).Some? && Head(s.items).value.createdAt < job.createdAt
  {
    HeadIsOldest(s.items);
    hide Head, PendingOf, UniqueIds;
  }

  lemma OutcomeWaits(s: State, e: Event, job: Job)
    requires Inv(s) && DistinctStamps(s.items) && Enabled(s, e) && CalmStep(s, e) && TickStep(s, e) && e.Outcome?
    requires job in s.items && job.status.Pending? && Head(s.items) != Some(job)
    ensures job in Step(s, e).items && Work(Step(s, e).items, job.createdAt) < Work(s.items, job.createdAt)
  {
    RuledEffect(s, e);
    HeadIsOlder(s, job);
    hide Inv, Head, Ruled, RuledJob, IndexOf, Work, Absent;
    RuledWaits(s, IndexOf(s.items, e.id), e.verdict, e.at, job);
  }

  /** A step keeps a waiting job waiting, with less work before it after an outcome. */
  lemma WaitStep(s: State, e: Event, job: Job)
    requires Inv(s) && DistinctStamps(s.items) && Enabled(s, e) && CalmStep(s, e) && TickStep(s, e)
    requires job in s.items && job.status.Pending? && Head(s.items) != Some(job)
    ensures Inv(Step(s, e)) && DistinctStamps(Step(s, e).items) && job in Step(s, e).items
    ensures Work(Step(s, e).items, job.createdAt) + (if e.Outcome? then 1 else 0) <= Work(s.items, job.createdAt)
  {
    hide Inv, Enabled, TickStep, DistinctStamps, Step, Head, Work;
    StepKeepsInv(s, e);
    TickKeepsDistinct(s, e);
    match e
    case Enqueue(_) => EnqueueWaits(s, e, job);
    case Outcome(_, _, _) => OutcomeWaits(s, e, job);
  }

  lemma {:induction false} WaitIsBounded(s: State, run: seq<Event>, job: Job) returns (n: nat)
    requires Inv(s) && DistinctStamps(s.items) && Possible(s, run) && Calm(s, run) && Ticking(s, run)
    requires job in s.items && job.status.Pending?
    requires Outcomes(run) >= Work(s.items, job.createdAt)
    ensures n <= |run| && Head(After(s, run[..n]).items) == Some(job)
    ensures Outcomes(run[..n]) <= Work(s.items, job.createdAt)
    decreases |run|
  {
    n := 0;
    if Head(s.items) != Some(job) {
      if run == [] {
        NoWork(s, job);
      } else {
        var e := run[0];
        WaitStep(s, e, job);
        hide Inv, Enabled, CalmStep, TickStep, DistinctStamps, Step, Head, Work;
        var m := WaitIsBounded(Step(s, e), run[1..], job);
        n := m + 1;
        assert run[..n][1..] == run[1..][..m];
      }
    }
  }

  /** A job with no work before it is the head. */
  lemma NoWork(s: State, job: Job)
    requires Inv(s) && DistinctStamps(s.items) && job in s.items && job.status.Pending? &&
        Work(s.items, job.createdAt) == 0
    ensures Head(s.items) == Some(job)
  {
    HeadIsOldest(s.items);
    hide Head, PendingOf;
    var head := Head(s.items).value;
    if head != job {
      var i :| 0 <= i < |s.items| && s.items[i] == head;
      WorkUpdate(s.items, i, AsDone(head), job.createdAt);
    }
  }

  /**
   * Main result: a pending job with r older pending jobs is the head after at most 3r outcomes, whatever is
   * enqueued meanwhile; `n` says when.
   */
  lemma BoundedWait(s: State, run: seq<Event>, job: Job) returns (n: nat)
    requires Inv(s) && DistinctStamps(s.items) && Possible(s, run) && Calm(s, run) && Ticking(s, run)
    requires job in s.items && job.status.Pending?
    requires Outcomes(run) >= 3 * OlderCount(s.items, job.createdAt)
    ensures n <= |run| && Head(After(s, run[..n]).items) == Some(job)
    ensures Outcomes(run[..n]) <= 3 * OlderCount(s.items, job.createdAt)
  {
    WorkBound(s.items, job.createdAt);
    n := WaitIsBounded(s, run, job);
  }

  // ---------------------------------------------------------------- draining

  /** Only outcomes that use up an attempt. */
  predicate Draining(run: seq<Event>) {
    forall i :: 0 <= i < |run| ==> run[i].Outcome? && !run[i].verdict.Deferred?
  }

  ghost predicate Within(items: seq<Job>, bound: int) {
    forall a :: a in items && a.status.Pending? ==> a.createdAt < bound
  }

  /** A drain step uses up an attempt and keeps which posts have jobs. */
  lemma DrainStep(s: State, e: Event, bound: int)
    requires Inv(s) && Enabled(s, e) && e.Outcome? && !e.verdict.Deferred? && !Absent(s.items, e.id)
    requires Within(s.items, bound)
    ensures Work(Step(s, e).items, bound) < Work(s.items, bound)
    ensures forall key :: HasJob(Step(s, e).items, key) <==> HasJob(s.items, key)
    ensures Within(Step(s, e).items, bound)
  {
    RuledEffect(s, e);
    var n := IndexOf(s.items, e.id);
    var ruled := RuledJob(s.items[n], e.verdict, e.at);
    WorkUpdate(s.items, n, ruled, bound);
    UpdateMembers(s.items, n, ruled);
    assert s.items[n] in s.items;
    hide Head, Ruled, IndexOf, Work, PendingOf, Absent, UniqueIds;
    var after := s.items[n := ruled];
    forall key ensures HasJob(after, key) <==> HasJob(s.items, key) {
      if i :| 0 <= i < |after| && after[i].postKey == key {
        assert s.items[i].postKey == key;
      }
      if i :| 0 <= i < |s.items| && s.items[i].postKey == key {
        assert after[i].postKey == key;
      }
    }
  }

  lemma {:induction false} DrainRun(s: State, run: seq<Event>, bound: int)
    requires Inv(s) && Possible(s, run) && Calm(s, run) && Draining(run) && Within(s.items, bound)
    ensures |run| + Work(After(s, run).items, bound) <= Work(s.items, bound)
    ensures forall key :: HasJob(After(s, run).items, key) <==> HasJob(s.items, key)
    ensures Within(After(s, run).items, bound)
    decreases |run|
  {
    if run != [] {
      StepKeepsInv(s, run[0]);
      DrainStep(s, run[0], bound);
      hide Inv, Enabled, Step, Work, HasJob, Within;
      DrainRun(Step(s, run[0]), run[1..], bound);
    }
  }

  lemma WorkLeft(items: seq<Job>, job: Job, bound: int)
    requires job in items && job.createdAt < bound && TriesLeft(job) > 0
    ensures Work(items, bound) > 0
  {
    var i :| 0 <= i < |items| && items[i] == job;
    WorkUpdate(items, i, AsDone(job), bound);
  }

  /**
   * Main result: with nothing enqueued or deferred, n pending jobs are all settled after at most 3n outcomes, and
   * then exactly the posts that still have a job are ready to be acknowledged.
   */
  lemma Drain(s: State, run: seq<Event>)
    requires Inv(s) && Possible(s, run) && Calm(s, run) && Draining(run)
    ensures |run| <= 3 * |PendingOf(s.items)|
    ensures Head(After(s, run).items).Some? ==> |run| < 3 * |PendingOf(s.items)|
    ensures Head(After(s, run).items).None? ==>
      forall key :: AckReady(After(s, run).items, key) <==> key != "" && HasJob(s.items, key)
  {
    var bound, end := s.clock + 1, After(s, run);
    DrainRun(s, run, bound);
    RunKeepsInv(s, run);
    WorkBound(s.items, bound);
    HeadIsOldest(end.items);
    hide Work, PendingOf, After, Head, OlderCount;
    if Head(end.items).Some? {
      WorkLeft(end.items, Head(end.items).value, bound);
    }
  }

  /** While a job is pending, every outcome for the head is possible and finds its job. */
  lemma OutcomePossible(s: State, verdict: Verdict)
    requires Inv(s) && Head(s.items).Some?
    ensures var e := Outcome(Head(s.items).value.id, verdict, s.clock + 1);
            Enabled(s, e) && CalmStep(s, e) && TickStep(s, e)
  {
    HeadIsOldest(s.items);
    hide PendingOf, Oldest;
    var i :| 0 <= i < |s.items| && s.items[i] == Head(s.items).value;
  }
}
