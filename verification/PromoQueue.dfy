/** The promo delivery queue: one job per group share, settled in order of age, with once-only markers. */
module PromoQueue {
  import opened Common
  import opened Refs
  import opened Sorting

  const MAX_PENDING := 400
  const MAX_SETTLED := 150
  const MAX_ATTEMPTS := 3
  const MAX_MARKERS := 300
  const KEPT_MARKERS := 200

  datatype Status = Pending | Done | Failed

  datatype Job = Job(
    id: string, status: Status, sourceId: int, groupRef: string, groupId: int,
    messageIds: seq<int>, mode: string, postKey: string, createdAt: int, attempts: nat)

  // ---------------------------------------------------------------- lists of jobs

  function PendingOf(items: seq<Job>): seq<Job> {
    if items == [] then []
    else
      var front := PendingOf(items[..|items| - 1]);
      var job := items[|items| - 1];
      if job.status.Pending? then front + [job] else front
  }

  function SettledOf(items: seq<Job>): seq<Job> {
    if items == [] then []
    else
      var front := SettledOf(items[..|items| - 1]);
      var job := items[|items| - 1];
      if job.status.Pending? then front else front + [job]
  }

  function Capped(items: seq<Job>): seq<Job> {
    Last(PendingOf(items), MAX_PENDING) + Last(SettledOf(items), MAX_SETTLED)
  }

  predicate SameShare(a: Job, b: Job) {
    a.groupId == b.groupId && a.postKey == b.postKey
  }

  predicate Duplicate(items: seq<Job>, job: Job) {
    exists i :: 0 <= i < |items| && items[i].status.Pending? && SameShare(items[i], job)
  }

  function EnqueueItems(items: seq<Job>, job: Job): seq<Job> {
    if Duplicate(items, job) then items else Capped(items + [job])
  }

  /** Index of the first job with this id, or the length. */
  function IndexOf(items: seq<Job>, id: string): (n: nat)
    ensures n <= |items|
    ensures n < |items| ==> items[n].id == id
    ensures forall i :: 0 <= i < n ==> items[i].id != id
  {
    if items == [] || items[0].id == id then 0 else 1 + IndexOf(items[1..], id)
  }

  function Replace(items: seq<Job>, id: string, f: Job -> Job): seq<Job> {
    var n := IndexOf(items, id);
    if n < |items| then items[n := f(items[n])] else items
  }

  function AsDone(job: Job): Job {
    job.(status := Done)
  }

  function AsTried(job: Job, retry: bool): Job {
    var attempts := job.attempts + 1;
    job.(attempts := attempts, status := if retry && attempts < MAX_ATTEMPTS then Pending else Failed)
  }

  function DoneItems(items: seq<Job>, id: string): seq<Job> {
    Replace(items, id, AsDone)
  }

  function FailedItems(items: seq<Job>, id: string, retry: bool): seq<Job> {
    Replace(items, id, (job: Job) => AsTried(job, retry))
  }

  function DeferredItems(items: seq<Job>, id: string, now: int): seq<Job> {
    Replace(items, id, (job: Job) => job.(createdAt := now))
  }

  /** The oldest pending job, the first of them on a tie. */
  function Oldest(pending: seq<Job>): Option<Job> {
    if pending == [] then None
    else
      var front := Oldest(pending[..|pending| - 1]);
      var job := pending[|pending| - 1];
      if front.Some? && front.value.createdAt <= job.createdAt then front else Some(job)
  }

  function Head(items: seq<Job>): Option<Job> {
    Oldest(PendingOf(items))
  }

  // ---------------------------------------------------------------- markers

  /** One entry of a marker dict, in insertion order. */
  datatype Marker = Marker(key: string, at: int)

  predicate Marked(markers: seq<Marker>, key: string) {
    exists i :: 0 <= i < |markers| && markers[i].key == key
  }

  function TimeOf(m: Marker): int {
    m.at
  }

  /** The markers after a claim: unchanged when the key is known, else extended and evicted when too many. */
  function ClaimMarkers(markers: seq<Marker>, key: string, now: int): seq<Marker> {
    if Marked(markers, key) then markers
    else
      var all := markers + [Marker(key, now)];
      if |all| > MAX_MARKERS then Last(SortBy(all, TimeOf), KEPT_MARKERS) else all
  }

  // ---------------------------------------------------------------- acknowledging a post

  predicate HasJob(items: seq<Job>, postKey: string) {
    exists i :: 0 <= i < |items| && items[i].postKey == postKey
  }

  predicate HasPendingJob(items: seq<Job>, postKey: string) {
    exists i :: 0 <= i < |items| && items[i].postKey == postKey && items[i].status.Pending?
  }

  /** A post is ready to be acknowledged: it has retained jobs and none is pending. */
  predicate AckReady(items: seq<Job>, postKey: string) {
    postKey != "" && HasJob(items, postKey) && !HasPendingJob(items, postKey)
  }

  // ---------------------------------------------------------------- the queue object

  class PromoQueue {
    var items: seq<Job>
    var seen: seq<Marker>
    var acked: seq<Marker>

    constructor (items: seq<Job>, seen: seq<Marker>, acked: seq<Marker>)
      ensures this.items == items && this.seen == seen && this.acked == acked
    {
      this.items, this.seen, this.acked := items, seen, acked;
    }

    /** Adds the job unless the same post is already waiting for the same group. */
    method Enqueue(job: Job) returns (added: bool)
      requires job.status.Pending?
      modifies this`items
      ensures added == !Duplicate(old(items), job)
      ensures items == EnqueueItems(old(items), job)
    {
      for i := 0 to |items|
        invariant items == old(items)
        invariant forall j :: 0 <= j < i ==> !(items[j].status.Pending? && SameShare(items[j], job))
      {
        if items[i].status.Pending? && SameShare(items[i], job) {
          return false;
        }
      }
      var all := items + [job];
      var pending, settled := [], [];
      for i := 0 to |all|
        invariant items == old(items)
        invariant pending == PendingOf(all[..i]) && settled == SettledOf(all[..i])
      {
        assert all[..i + 1][..i] == all[..i];
        if all[i].status.Pending? {
          pending := pending + [all[i]];
        } else {
          settled := settled + [all[i]];
        }
      }
      assert all[..|all|] == all;
      if |pending| > MAX_PENDING {
        pending := pending[|pending| - MAX_PENDING..];
      }
      items := pending + Last(settled, MAX_SETTLED);
      added := true;
    }

    method ListPending() returns (pending: seq<Job>)
      ensures pending == PendingOf(items)
    {
      pending := [];
      for i := 0 to |items|
        invariant pending == PendingOf(items[..i])
      {
        assert items[..i + 1][..i] == items[..i];
        if items[i].status.Pending? {
          pending := pending + [items[i]];
        }
      }
      assert items[..|items|] == items;
    }

    /** Peeks at the oldest pending job. */
    method PopNext() returns (job: Option<Job>)
      ensures job == Head(items)
    {
      var pending := ListPending();
      job := None;
      for i := 0 to |pending|
        invariant job == Oldest(pending[..i])
      {
        assert pending[..i + 1][..i] == pending[..i];
        if job.None? || job.value.createdAt > pending[i].createdAt {
          job := Some(pending[i]);
        }
      }
      assert pending[..|pending|] == pending;
    }

    method Locate(id: string) returns (n: nat)
      ensures n == IndexOf(items, id)
    {
      n := 0;
      while n < |items| && items[n].id != id
        invariant n <= |items|
        invariant IndexOf(items, id) == n + IndexOf(items[n..], id)
      {
        assert items[n..][1..] == items[n + 1..];
        n := n + 1;
      }
    }

    method MarkDone(id: string)
      modifies this`items
      ensures items == DoneItems(old(items), id)
    {
      var n := Locate(id);
      if n < |items| {
        items := items[n := AsDone(items[n])];
      }
    }

    method MarkFailed(id: string, retry: bool)
      modifies this`items
      ensures items == FailedItems(old(items), id, retry)
    {
      var n := Locate(id);
      if n < |items| {
        var attempts := items[n].attempts + 1;
        if retry && attempts < MAX_ATTEMPTS {
          items := items[n := items[n].(attempts := attempts, status := Pending)];
        } else {
          items := items[n := items[n].(attempts := attempts, status := Failed)];
        }
      }
    }

    /** Keeps the job pending but behind every job created so far. */
    method Defer(id: string, now: int)
      modifies this`items
      ensures items == DeferredItems(old(items), id, now)
    {
      var n := Locate(id);
      if n < |items| {
        items := items[n := items[n].(createdAt := now)];
      }
    }

    method ClearPending() returns (cleared: nat)
      modifies this`items
      ensures items == SettledOf(old(items))
      ensures cleared == |PendingOf(old(items))|
    {
      var pending := ListPending();
      cleared := |pending|;
      var settled := [];
      for i := 0 to |items|
        invariant items == old(items)
        invariant settled == SettledOf(items[..i])
      {
        assert items[..i + 1][..i] == items[..i];
        if !items[i].status.Pending? {
          settled := settled + [items[i]];
        }
      }
      assert items[..|items|] == items;
      items := settled;
    }

    /** True the first time a post is noticed. */
    method TryClaimPostSeen(postKey: string, now: int) returns (claimed: bool)
      modifies this`seen
      ensures claimed == (Strip(postKey) != "" && !Marked(old(seen), Strip(postKey)))
      ensures seen == if Strip(postKey) == "" then old(seen) else ClaimMarkers(old(seen), Strip(postKey), now)
    {
      hide Strip, SortBy;
      var key := Strip(postKey);
      if key == "" {
        return false;
      }
      claimed := !Marked(seen, key);
      seen := ClaimMarkers(seen, key, now);
    }

    /** True the first time a post has retained jobs and none of them is pending. */
    method TryClaimPostAck(postKey: string, now: int) returns (claimed: bool)
      modifies this`acked
      ensures claimed == (AckReady(items, Strip(postKey)) && !Marked(old(acked), Strip(postKey)))
      ensures acked == if AckReady(items, Strip(postKey)) then ClaimMarkers(old(acked), Strip(postKey), now)
          else old(acked)
    {
      hide Strip, SortBy;
      var key := Strip(postKey);
      if key == "" {
        return false;
      }
      var related, waiting := false, false;
      for i := 0 to |items|
        invariant acked == old(acked)
        invariant related <==> exists j :: 0 <= j < i && items[j].postKey == key
        invariant waiting <==> exists j :: 0 <= j < i && items[j].postKey == key && items[j].status.Pending?
      {
        if items[i].postKey == key {
          related := true;
          waiting := waiting || items[i].status.Pending?;
        }
      }
      if !related || waiting {
        return false;
      }
      claimed := !Marked(acked, key);
      acked := ClaimMarkers(acked, key, now);
    }
  }
}
