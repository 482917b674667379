/** Send budgets, per-group cooldowns and the circuit breaker of the promo worker. Times are microseconds. */
module SafetyGuard {
  import opened Common

  const HOUR := 3_600_000_000
  const DAY := 86_400_000_000
  const RETAIN := 259_200_000_000 // three days
  const SHORTEST_PAUSE := 900_000_000 // a quarter of an hour
  const MAX_SENDS := 2000

  function Minutes(n: int): int {
    n * 60_000_000
  }

  /** The part of the safety configuration the worker's decisions read. */
  datatype Limits = Limits(
    hourly: int, daily: int, cooldownMinutes: int, strikesToPause: int, breaker: int, peerFloodHours: int)

  datatype Send = Send(at: int, group: string)

  datatype Health = Health(sends: seq<Send>, groupLast: map<string, int>, strikes: int, pausedUntil: Option<int>)

  function Since(sends: seq<Send>, since: int): seq<Send> {
    if sends == [] then []
    else
      var front := Since(sends[..|sends| - 1], since);
      if sends[|sends| - 1].at >= since then front + [sends[|sends| - 1]] else front
  }

  function LastSends(sends: seq<Send>): seq<Send> {
    if |sends| <= MAX_SENDS then sends else sends[|sends| - MAX_SENDS..]
  }

  /** A success noted at `at`; the retention cutoff reads the clock again at `now`. */
  function NotedSuccess(h: Health, group: string, at: int, now: int): Health {
    Health(LastSends(Since(h.sends + [Send(at, group)], now - RETAIN)), h.groupLast[group := at],
           if h.strikes > 0 then h.strikes - 1 else h.strikes, h.pausedUntil)
  }

  predicate WithinBudget(h: Health, limits: Limits, now: int) {
    |Since(h.sends, now - HOUR)| < limits.hourly && |Since(h.sends, now - DAY)| < limits.daily
  }

  predicate Cooled(h: Health, limits: Limits, key: string, now: int) {
    key in h.groupLast ==> now - h.groupLast[key] >= Minutes(limits.cooldownMinutes)
  }

  predicate Paused(h: Health, now: int) {
    h.pausedUntil.Some? && now < h.pausedUntil.value
  }

  /** Looking at the circuit closes it once its time is over. */
  function Looked(h: Health, now: int): Health {
    if h.pausedUntil.Some? && !Paused(h, now) then h.(pausedUntil := None, strikes := 0) else h
  }

  function Opened(h: Health, now: int, pause: int): Health {
    h.(pausedUntil := Some(now + if pause < SHORTEST_PAUSE then SHORTEST_PAUSE else pause))
  }

  function NotedFloodWait(h: Health, limits: Limits, now: int): Health {
    var struck := h.(strikes := h.strikes + 1);
    if struck.strikes >= limits.strikesToPause then Opened(struck, now, limits.breaker) else struck
  }

  function NotedPeerFlood(h: Health, limits: Limits, now: int): Health {
    Opened(h, now, Minutes(60 * limits.peerFloodHours))
  }

  // ---------------------------------------------------------------- laws

  lemma {:induction false} SinceOfSuffix(sends: seq<Send>, n: nat, since: int)
    requires n <= |sends| && forall i :: n <= i < |sends| ==> sends[i].at >= since
    requires forall i :: 0 <= i < n ==> sends[i].at < since
    ensures Since(sends, since) == sends[n..]
  {
    if sends != [] {
      var front := sends[..|sends| - 1];
      assert sends == front + [sends[|sends| - 1]];
      if n == |sends| {
        SinceOfSuffix(front, n - 1, since);
      } else {
        SinceOfSuffix(front, n, since);
        assert front[n..] + [sends[|sends| - 1]] == sends[n..];
      }
    }
  }

  ghost predicate InOrder(sends: seq<Send>) {
    forall i, j :: 0 <= i < j < |sends| ==> sends[i].at <= sends[j].at
  }

  /** In sends ordered by time, those since a moment are a suffix. */
  lemma {:induction false} FirstSince(sends: seq<Send>, since: int) returns (n: nat)
    requires InOrder(sends)
    ensures n <= |sends| && Since(sends, since) == sends[n..]
    ensures forall i :: 0 <= i < |sends| ==> (i >= n <==> sends[i].at >= since)
  {
    n := 0;
    while n < |sends| && sends[n].at < since
      invariant n <= |sends| && forall i :: 0 <= i < n ==> sends[i].at < since
    {
      n := n + 1;
    }
    SinceOfSuffix(sends, n, since);
  }

  lemma {:induction false} SinceShrinks(sends: seq<Send>, since: int)
    ensures |Since(sends, since)| <= |sends|
  {
    if sends != [] {
      SinceShrinks(sends[..|sends| - 1], since);
    }
  }

  /** Sends since a moment, counted one by one. */
  lemma {:induction false} SinceCounts(sends: seq<Send>, since: int)
    ensures |Since(sends, since)| == |set i | 0 <= i < |sends| && sends[i].at >= since|
  {
    var counted := set i | 0 <= i < |sends| && sends[i].at >= since;
    if sends == [] {
      assert counted == {};
    } else {
      var n := |sends| - 1;
      var front := sends[..n];
      SinceCounts(front, since);
      var before := set i | 0 <= i < |front| && front[i].at >= since;
      assert counted == before + if sends[n].at >= since then {n} else {};
    }
  }

  /** The budgets leave room exactly when fewer sends than they allow are less than an hour, and a day, old. */
  lemma BudgetIff(h: Health, limits: Limits, now: int)
    ensures WithinBudget(h, limits, now) <==>
              && |set i | 0 <= i < |h.sends| && h.sends[i].at >= now - 3_600_000_000| < limits.hourly
              && |set i | 0 <= i < |h.sends| && h.sends[i].at >= now - 24 * 3_600_000_000| < limits.daily
  {
    SinceCounts(h.sends, now - 3_600_000_000);
    SinceCounts(h.sends, now - 24 * 3_600_000_000);
  }

  /** A group is ready again from the minute its cooldown is over, to the microsecond. */
  lemma CooledFrom(h: Health, limits: Limits, key: string, now: int)
    ensures key !in h.groupLast ==> Cooled(h, limits, key, now)
    ensures key in h.groupLast ==>
              (Cooled(h, limits, key, now) <==> h.groupLast[key] + 60_000_000 * limits.cooldownMinutes <= now)
  {
  }

  // ---------------------------------------------------------------- the guard object

  class SafetyGuard {
    const limits: Limits
    var sends: seq<Send>
    var groupLast: map<string, int>
    var strikes: int
    var pausedUntil: Option<int>

    function View(): Health
      reads this
    {
      Health(sends, groupLast, strikes, pausedUntil)
    }

    constructor (limits: Limits)
      ensures this.limits == limits && View() == Health([], map[], 0, None)
    {
      this.limits := limits;
      sends, groupLast, strikes, pausedUntil := [], map[], 0, None;
    }

    method CircuitStatus(now: int) returns (paused: bool)
      modifies this
      ensures paused == Paused(old(View()), now)
      ensures View() == Looked(old(View()), now)
      ensures !paused ==> pausedUntil.None?
    {
      if pausedUntil.None? {
        return false;
      }
      if now < pausedUntil.value {
        return true;
      }
      pausedUntil, strikes := None, 0;
      paused := false;
    }

    method OpenCircuit(now: int, pause: int)
      modifies this`pausedUntil
      ensures View() == Opened(old(View()), now, pause)
    {
      var length := if pause < SHORTEST_PAUSE then SHORTEST_PAUSE else pause;
      pausedUntil := Some(now + length);
    }

    method NoteFloodWait(now: int)
      modifies this
      ensures View() == NotedFloodWait(old(View()), limits, now)
    {
      strikes := strikes + 1;
      if strikes >= limits.strikesToPause {
        OpenCircuit(now, limits.breaker);
      }
    }

    method NotePeerFlood(now: int)
      modifies this
      ensures View() == NotedPeerFlood(old(View()), limits, now)
    {
      OpenCircuit(now, Minutes(60 * limits.peerFloodHours));
    }

    method NoteSuccess(group: string, at: int, now: int)
      modifies this
      ensures View() == NotedSuccess(old(View()), group, at, now)
    {
      var all := sends + [Send(at, group)];
      var kept := [];
      for i := 0 to |all|
        invariant View() == old(View())
        invariant kept == Since(all[..i], now - RETAIN)
      {
        assert all[..i + 1][..i] == all[..i];
        if all[i].at >= now - RETAIN {
          kept := kept + [all[i]];
        }
      }
      assert all[..|all|] == all;
      sends := if |kept| > MAX_SENDS then kept[|kept| - MAX_SENDS..] else kept;
      groupLast := groupLast[group := at];
      if strikes > 0 {
        strikes := strikes - 1;
      }
    }

    method CountSince(since: int) returns (n: nat)
      ensures n == |Since(sends, since)|
    {
      n := 0;
      for i := 0 to |sends|
        invariant n == |Since(sends[..i], since)|
      {
        assert sends[..i + 1][..i] == sends[..i];
        if sends[i].at >= since {
          n := n + 1;
        }
      }
      assert sends[..|sends|] == sends;
    }

    method BudgetOk(now: int) returns (ok: bool)
      ensures ok == WithinBudget(View(), limits, now)
    {
      var hourly := CountSince(now - HOUR);
      var daily := CountSince(now - DAY);
      ok := hourly < limits.hourly && daily < limits.daily;
    }

    method GroupCooldownOk(key: string, now: int) returns (ok: bool)
      ensures ok == Cooled(View(), limits, key, now)
    {
      if key !in groupLast {
        return true;
      }
      ok := now - groupLast[key] >= Minutes(limits.cooldownMinutes);
    }
  }
}
