/** One round of the promo worker, split at its two waits: take a job, decide to go on, settle what happened. */
module PromoWorker {
  import opened Common
  import opened Refs
  import opened PromoQueue
  import opened PromoQueueRuns
  import opened SafetyGuard

  /** How one delivery ended. `resolved` is the new reference when the group first had to be looked up. */
  datatype Ending =
    | Unresolved | SourceGone | MessagesMissing | Forbidden
    | Delivered(resolved: Option<string>)
    | FloodWait | PeerFlood | SlowMode
    | RpcError | Unexpected

  /** The key the cooldown is checked under. */
  function CheckedKey(job: Job): string {
    if job.groupRef != "" then job.groupRef else IntText(job.groupId)
  }

  /** The key a success is noted under. */
  function NotedKey(job: Job, ending: Ending): string
    requires ending.Delivered?
  {
    if ending.resolved.Some? then ending.resolved.value else job.groupRef
  }

  function VerdictOf(ending: Ending): Verdict {
    match ending
    case Unresolved | SourceGone | MessagesMissing | Forbidden => Refused(false)
    case Delivered(_) => Settled
    case FloodWait | PeerFlood | SlowMode => Deferred
    case RpcError | Unexpected => Refused(true)
  }

  /** Clock reads of a start: activity, budget, cooldown, and the stamp of a deferred job. */
  datatype StartTimes = StartTimes(active: int, budget: int, cool: int, ruled: int)

  /** Clock reads of a finish: the noted moment, the retention cutoff, the stamp of the verdict, the marker. */
  datatype FinishTimes = FinishTimes(noted: int, cutoff: int, ruled: int, acked: int)

  function StartHealth(h: Health, paused: bool, t: StartTimes): Health {
    if paused then h else Looked(h, t.active)
  }

  /** The round reaches the queue. */
  predicate MayStart(h: Health, limits: Limits, paused: bool, open: bool, t: StartTimes) {
    !paused && !Paused(h, t.active) && open && WithinBudget(Looked(h, t.active), limits, t.budget)
  }

  /** The job taken at the start, with its key cooled down. */
  function Taken(items: seq<Job>, h: Health, limits: Limits, paused: bool, open: bool, t: StartTimes): Option<Job> {
    var head := Head(items);
    if MayStart(h, limits, paused, open, t) && head.Some? && Cooled(h, limits, CheckedKey(head.value), t.cool)
    then head else None
  }

  /** The job put off at the start because its group is still cooling down. */
  predicate PutOff(items: seq<Job>, h: Health, limits: Limits, paused: bool, open: bool, t: StartTimes) {
    var head := Head(items);
    MayStart(h, limits, paused, open, t) && head.Some? && !Cooled(h, limits, CheckedKey(head.value), t.cool)
  }

  function StartItems(items: seq<Job>, h: Health, limits: Limits, paused: bool, open: bool, t: StartTimes): seq<Job> {
    if PutOff(items, h, limits, paused, open, t) then DeferredItems(items, Head(items).value.id, t.ruled) else items
  }

  predicate GoesOn(h: Health, limits: Limits, paused: bool, open: bool, active: int, budget: int) {
    !Paused(h, active) && open && !paused && WithinBudget(Looked(h, active), limits, budget)
  }

  function FinishHealth(h: Health, limits: Limits, job: Job, ending: Ending, t: FinishTimes): Health {
    match ending
    case Delivered(_) => NotedSuccess(h, NotedKey(job, ending), t.noted, t.cutoff)
    case FloodWait => NotedFloodWait(h, limits, t.noted)
    case PeerFlood => NotedPeerFlood(h, limits, t.noted)
    case _ => h
  }

  /** After a settling or refusing verdict the post is acknowledged when it is ready. */
  predicate ReachesAck(items: seq<Job>, ackReaction: bool, job: Job, ending: Ending) {
    ackReaction && !VerdictOf(ending).Deferred? && AckReady(items, Strip(job.postKey))
  }

  function FinishMarkers(acked: seq<Marker>, items: seq<Job>, ackReaction: bool, job: Job, ending: Ending,
      at: int): seq<Marker> {
    if ReachesAck(items, ackReaction, job, ending) then ClaimMarkers(acked, Strip(job.postKey), at) else acked
  }

  class PromoWorker {
    const queue: PromoQueue
    const guard: SafetyGuard
    const ackReaction: bool
    var globalPaused: bool

    constructor (queue: PromoQueue, guard: SafetyGuard, ackReaction: bool)
      ensures this.queue == queue && this.guard == guard && this.ackReaction == ackReaction && !globalPaused
    {
      this.queue, this.guard, this.ackReaction, globalPaused := queue, guard, ackReaction, false;
    }

    /** Up to the pacing wait. `open` says whether the active days and windows include the moment. */
    method Start(open: bool, t: StartTimes) returns (job: Option<Job>)
      modifies queue`items, guard
      ensures job == old(Taken(queue.items, guard.View(), guard.limits, globalPaused, open, t))
      ensures queue.items == old(StartItems(queue.items, guard.View(), guard.limits, globalPaused, open, t))
      ensures guard.View() == old(StartHealth(guard.View(), globalPaused, t))
    {
      hide Head, Replace, Since, CheckedKey;
      if globalPaused {
        return None;
      }
      var paused := guard.CircuitStatus(t.active);
      if paused || !open {
        return None;
      }
      var ok := guard.BudgetOk(t.budget);
      if !ok {
        return None;
      }
      job := queue.PopNext();
      if job.Some? {
        var cooled := guard.GroupCooldownOk(CheckedKey(job.value), t.cool);
        if !cooled {
          queue.Defer(job.value.id, t.ruled);
          job := None;
        }
      }
    }

    /** After the pacing wait: the checks that may have changed meanwhile. */
    method Resume(open: bool, active: int, budget: int) returns (go: bool)
      modifies guard
      ensures go == old(GoesOn(guard.View(), guard.limits, globalPaused, open, active, budget))
      ensures guard.View() == old(Looked(guard.View(), active))
    {
      hide Since;
      var paused := guard.CircuitStatus(active);
      if paused || !open || globalPaused {
        return false;
      }
      go := guard.BudgetOk(budget);
    }

    /** What the delivery of `job` leaves behind. */
    method Finish(job: Job, ending: Ending, t: FinishTimes) returns (acked: bool)
      modifies queue`items, queue`acked, guard
      ensures queue.items == old(Ruled(queue.items, job.id, VerdictOf(ending), t.ruled))
      ensures guard.View() == old(FinishHealth(guard.View(), guard.limits, job, ending, t))
      ensures queue.acked == FinishMarkers(old(queue.acked), queue.items, ackReaction, job, ending, t.acked)
      ensures acked == (ReachesAck(queue.items, ackReaction, job, ending) &&
          !Marked(old(queue.acked), Strip(job.postKey)))
    {
      hide Strip, Replace, Since, ClaimMarkers;
      match ending {
        case Unresolved | SourceGone | MessagesMissing | Forbidden =>
          queue.MarkFailed(job.id, false);
        case Delivered(_) =>
          guard.NoteSuccess(NotedKey(job, ending), t.noted, t.cutoff);
          queue.MarkDone(job.id);
        case FloodWait =>
          guard.NoteFloodWait(t.noted);
          queue.Defer(job.id, t.ruled);
          return false;
        case PeerFlood =>
          guard.NotePeerFlood(t.noted);
          queue.Defer(job.id, t.ruled);
          return false;
        case SlowMode =>
          queue.Defer(job.id, t.ruled);
          return false;
        case RpcError | Unexpected =>
          queue.MarkFailed(job.id, true);
      }
      acked := false;
      if ackReaction {
        acked := queue.TryClaimPostAck(job.postKey, t.acked);
      }
    }
  }
}
