/** How long the worker stays silent after it was told to slow down, in the times of the events alone. */
module FloodPauses {
  import opened Common
  import opened PromoQueue
  import opened SafetyGuard
  import opened PromoWorker
  import opened WorkerRuns

  /** The event is a delivery that ended this way. */
  predicate Ends(e: Event, ending: Ending) {
    e.Finish? && e.ending == ending
  }

  predicate Succeeds(e: Event) {
    e.Finish? && e.ending.Delivered?
  }

  // ---------------------------------------------------------------- a pause lasts

  /** Nothing can be noted before `until`: it is over, or the worker is idle and the circuit open at least that long. */
  ghost predicate Quiet(w: World, until: int) {
    || w.clock >= until
    || (w.phase.Idle? && w.health.pausedUntil.Some? && w.health.pausedUntil.value >= until)
  }

  lemma QuietStep(c: Setup, w: World, e: Event, until: int)
    requires Quiet(w, until) && Enabled(w, e)
    ensures Quiet(Step(c, w, e), until)
    ensures Succeeds(e) ==> e.ends.noted >= until
  {
    hide FinishHealth, FinishMarkers, ReachesAck, StartItems, EnqueueItems, SettledOf, WithinBudget, Cooled, Head,
      CheckedKey, NotedKey;
  }

  lemma {:induction false} QuietRun(c: Setup, w: World, run: seq<Event>, until: int, j: nat)
    requires Quiet(w, until) && Possible(c, w, run) && j < |run| && Succeeds(run[j])
    ensures run[j].ends.noted >= until
    decreases |run|
  {
    hide Enabled, Step, Quiet;
    QuietStep(c, w, run[0], until);
    if j > 0 {
      QuietRun(c, Step(c, w, run[0]), run[1..], until, j - 1);
    }
  }

  /** A quarter of an hour, in microseconds. */
  const QUARTER := 900_000_000

  lemma PeerFloodQuiet(c: Setup, w: World, e: Event)
    requires Enabled(w, e) && Ends(e, PeerFlood)
    ensures Quiet(Step(c, w, e), e.ends.noted + QUARTER)
    ensures Quiet(Step(c, w, e), e.ends.noted + 3_600_000_000 * c.limits.peerFloodHours)
  {
    hide FinishMarkers, ReachesAck, NotedKey;
  }

  /**
   * Main result: over every run, after a delivery that met a peer flood nothing succeeds before a quarter of an hour
   * and the configured hours have passed.
   */
  lemma {:induction false} PeerFloodPauses(c: Setup, w: World, run: seq<Event>, i: nat, j: nat)
    requires Possible(c, w, run) && i < j < |run| && Ends(run[i], PeerFlood) && Succeeds(run[j])
    ensures run[j].ends.noted >= run[i].ends.noted + QUARTER
    ensures run[j].ends.noted >= run[i].ends.noted + 3_600_000_000 * c.limits.peerFloodHours
    decreases |run|
  {
    hide Enabled, Step, Quiet;
    var next := Step(c, w, run[0]);
    if i > 0 {
      PeerFloodPauses(c, next, run[1..], i - 1, j - 1);
    } else {
      PeerFloodQuiet(c, w, run[0]);
      QuietRun(c, next, run[1..], run[0].ends.noted + QUARTER, j - 1);
      QuietRun(c, next, run[1..], run[0].ends.noted + 3_600_000_000 * c.limits.peerFloodHours, j - 1);
    }
  }

  // ---------------------------------------------------------------- flood waits add up

  /** Flood waits less successes, never below zero, counted on from `strikes`. */
  function Strikes(strikes: int, run: seq<Event>): int
    decreases |run|
  {
    if run == [] then strikes
    else
      Strikes(if Ends(run[0], FloodWait) then strikes + 1
              else if Succeeds(run[0]) && strikes > 0 then strikes - 1 else strikes, run[1..])
  }

  /** No peer flood, and no flood wait at which the count reached the limit. */
  ghost predicate BelowLimit(c: Setup, strikes: int, run: seq<Event>) {
    forall m :: 0 <= m < |run| ==>
      && !Ends(run[m], PeerFlood)
      && (Ends(run[m], FloodWait) ==> Strikes(strikes, run[..m + 1]) < c.limits.strikesToPause)
  }

  lemma BelowNext(c: Setup, strikes: int, run: seq<Event>)
    requires run != [] && BelowLimit(c, strikes, run)
    ensures BelowLimit(c, Strikes(strikes, run[..1]), run[1..])
  {
    var rest := run[1..];
    forall m | 0 <= m < |rest| && Ends(rest[m], FloodWait)
      ensures Strikes(Strikes(strikes, run[..1]), rest[..m + 1]) < c.limits.strikesToPause
    {
      StrikesNext(strikes, run[..m + 2]);
      assert run[..m + 2][1..] == rest[..m + 1] && run[..m + 2][..1] == run[..1];
      assert Ends(run[m + 1], FloodWait);
    }
  }

  lemma StrikesNext(strikes: int, run: seq<Event>)
    requires run != []
    ensures Strikes(strikes, run) == Strikes(Strikes(strikes, run[..1]), run[1..])
  {
    assert run[..1][1..] == [];
  }

  /** One step below the limit opens nothing and counts as the event says. */
  lemma StepCounts(c: Setup, w: World, e: Event)
    requires Enabled(w, e) && w.health.pausedUntil.None? && BelowLimit(c, w.health.strikes, [e])
    ensures Step(c, w, e).health.pausedUntil.None?
    ensures Step(c, w, e).health.strikes == Strikes(w.health.strikes, [e])
  {
    assert [e][..0 + 1] == [e] && [e][0] == e && [e][1..] == [];
    assert Ends([e][0], FloodWait) ==> Strikes(w.health.strikes, [e]) < c.limits.strikesToPause;
    hide FinishMarkers, ReachesAck, StartItems, EnqueueItems, SettledOf, WithinBudget, Cooled, Head, CheckedKey,
      NotedKey, Since, LastSends;
  }

  /** Below the limit the circuit never opens: the guard's count is the one the events give. */
  lemma {:induction false} BelowStaysClosed(c: Setup, w: World, run: seq<Event>)
    requires Possible(c, w, run) && w.health.pausedUntil.None? && BelowLimit(c, w.health.strikes, run)
    ensures var end := WorkerRuns.After(c, w, run);
            end.health.pausedUntil.None? && end.health.strikes == Strikes(w.health.strikes, run)
    decreases |run|
  {
    hide Enabled, Step;
    if run != [] {
      FirstBelow(c, w.health.strikes, run);
      StepCounts(c, w, run[0]);
      BelowNext(c, w.health.strikes, run);
      StrikesNext(w.health.strikes, run);
      BelowStaysClosed(c, Step(c, w, run[0]), run[1..]);
    }
  }

  lemma FirstBelow(c: Setup, strikes: int, run: seq<Event>)
    requires run != [] && BelowLimit(c, strikes, run)
    ensures run[..1] == [run[0]] && BelowLimit(c, strikes, [run[0]])
  {
    assert run[..1] == [run[0]] && [run[0]][..1] == run[..1];
  }

  lemma FloodQuiet(c: Setup, w: World, e: Event)
    requires Enabled(w, e) && Ends(e, FloodWait) && w.health.strikes + 1 >= c.limits.strikesToPause
    ensures Quiet(Step(c, w, e), e.ends.noted + QUARTER)
    ensures Quiet(Step(c, w, e), e.ends.noted + c.limits.breaker)
  {
    hide FinishMarkers, ReachesAck, NotedKey;
  }

  /**
   * Main result: over every run, after the flood wait at which flood waits less successes first reach the limit,
   * nothing succeeds before a quarter of an hour and the configured pause have passed.
   */
  lemma {:induction false} FloodWaitPauses(c: Setup, w: World, run: seq<Event>, i: nat, j: nat)
    requires Possible(c, w, run) && w.health.pausedUntil.None? && i < j < |run|
    requires BelowLimit(c, w.health.strikes, run[..i]) && Ends(run[i], FloodWait)
    requires Strikes(w.health.strikes, run[..i + 1]) >= c.limits.strikesToPause && Succeeds(run[j])
    ensures run[j].ends.noted >= run[i].ends.noted + QUARTER
    ensures run[j].ends.noted >= run[i].ends.noted + c.limits.breaker
    decreases |run|
  {
    hide Enabled, Step, Quiet;
    var next, strikes := Step(c, w, run[0]), w.health.strikes;
    if i > 0 {
      var before := run[..i];
      FirstBelow(c, strikes, before);
      StepCounts(c, w, run[0]);
      BelowNext(c, strikes, before);
      StrikesNext(strikes, run[..i + 1]);
      assert before[..1] == run[..1] == run[..i + 1][..1] == [run[0]];
      assert before[1..] == run[1..][..i - 1] && run[..i + 1][1..] == run[1..][..i];
      FloodWaitPauses(c, next, run[1..], i - 1, j - 1);
    } else {
      assert run[..1] == [run[0]] && [run[0]][1..] == [];
      FloodQuiet(c, w, run[0]);
      QuietRun(c, next, run[1..], run[0].ends.noted + QUARTER, j - 1);
      QuietRun(c, next, run[1..], run[0].ends.noted + c.limits.breaker, j - 1);
    }
  }

  /** The first look at the circuit after a pause closes it and forgets the flood waits. */
  lemma LookCloses(c: Setup, w: World, e: Event)
    requires Enabled(w, e) && e.Start? && !e.paused
    requires w.health.pausedUntil.Some? && w.health.pausedUntil.value <= e.starts.active
    ensures Step(c, w, e).health.pausedUntil.None? && Step(c, w, e).health.strikes == 0
  {
    hide StartItems, WithinBudget, Cooled, Head, CheckedKey;
  }
}
