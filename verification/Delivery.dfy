/** The delivery pipeline around the daily cap: admit, reserve, deliver, refund on failure; and its runs. */
module Delivery {
  import opened Common
  import opened DailyQuota

  /** The part of a resolved route the cap depends on. */
  datatype Route = Route(key: string, quotaKey: string, maxPerDay: int, paused: bool)

  /** The verdicts of the filters that run before the cap. */
  datatype Screens = Screens(blocked: bool, allowed: bool, mediaOk: bool, duplicate: bool, open: bool)

  datatype Admission = Skipped | Queued | CapSkipped | DryRun | Admitted(consumed: bool)

  /** How the delivery itself ended. */
  datatype Ending = Sent | NotSent | Raised

  function DailyLimit(route: Route): int {
    if route.maxPerDay > 0 then route.maxPerDay else 0
  }

  /** The decision, with the clock read once to look at the cap and once to reserve. */
  function AdmissionOf(slots: Slots, dryRun: bool, ids: seq<int>, route: Route, fromQueue: bool, screens: Screens,
                       checkDay: int, day: int): Admission {
    var limit := DailyLimit(route);
    if ids == [] || route.paused || screens.blocked || !screens.allowed || !screens.mediaOk ||
        screens.duplicate then Skipped
    else if !screens.open && !fromQueue then Queued
    else if !Admits(slots, route.quotaKey, limit, checkDay) then CapSkipped
    else if dryRun then DryRun
    else if !Admits(slots, route.quotaKey, limit, day) then CapSkipped
    else Admitted(limit > 0)
  }

  function Max(ids: seq<int>): int
    requires ids != []
  {
    if |ids| == 1 then ids[0]
    else
      var rest := Max(ids[1..]);
      if ids[0] > rest then ids[0] else rest
  }

  function NonZero(ids: seq<int>): seq<int> {
    if ids == [] then [] else (if ids[0] != 0 then [ids[0]] else []) + NonZero(ids[1..])
  }

  /** A post skipped by the cap counts as seen, so it is not offered again. */
  function SeenAfterSkip(lastSeen: map<string, int>, key: string, ids: seq<int>): map<string, int> {
    var shown := NonZero(ids);
    if shown == [] || (key in lastSeen && Max(shown) <= lastSeen[key]) then lastSeen else lastSeen[key := Max(shown)]
  }

  function Concluded(slots: Slots, route: Route, consumed: bool, ending: Ending, day: int): Slots {
    if consumed && !ending.Sent? then Refunded(slots, route.quotaKey, day) else slots
  }

  /** The slots after one whole delivery. */
  function Processed(slots: Slots, route: Route, admission: Admission, ending: Ending, day: int, endDay: int): Slots {
    if !admission.Admitted? then slots
    else Concluded(Consumed(slots, route.quotaKey, DailyLimit(route), day), route, admission.consumed, ending, endDay)
  }

  /**
   * A delivery that ends on its day changes the count of that day by one when it was sent on a capped route, and
   * otherwise by nothing; no other destination's count of that day changes.
   */
  lemma ProcessCounts(slots: Slots, dryRun: bool, ids: seq<int>, route: Route, fromQueue: bool, screens: Screens,
      checkDay: int, day: int, ending: Ending, other: string)
    requires Sound(slots, day)
    ensures var a := AdmissionOf(slots, dryRun, ids, route, fromQueue, screens, checkDay, day);
            Count(Processed(slots, route, a, ending, day, day), other, day) ==
              Count(slots, other, day)
              + if a == Admitted(true) && ending.Sent? && other == route.quotaKey then 1 else 0
  {
    var key, limit := route.quotaKey, DailyLimit(route);
    if AdmissionOf(slots, dryRun, ids, route, fromQueue, screens, checkDay, day) == Admitted(true) {
      ConsumeEffect(slots, key, limit, day, other);
      ConsumeEffect(slots, key, limit, day, key);
      RefundEffect(Consumed(slots, key, limit, day), key, day, day, other, day);
      CountsPositive(slots, key, day);
      hide Consumed, Refunded, Count, Sound;
    }
  }

  lemma CountsPositive(slots: Slots, key: string, day: int)
    requires Sound(slots, day)
    ensures Count(slots, key, day) >= 0
  {
  }

  // ---------------------------------------------------------------- what is admitted, and what counts as seen

  /** The route has a cap and it is used up on this day. */
  ghost predicate Full(slots: Slots, route: Route, day: int) {
    0 < route.maxPerDay <= Count(slots, route.quotaKey, day)
  }

  /** Nothing but the schedule and the cap can hold the post back. */
  ghost predicate Screened(ids: seq<int>, route: Route, screens: Screens) {
    ids != [] && !route.paused && !screens.blocked && screens.allowed && screens.mediaOk && !screens.duplicate
  }

  /** What becomes of a post, by its screens, the schedule and the cap of its route on the two days the clock gave. */
  lemma AdmissionIs(slots: Slots, dryRun: bool, ids: seq<int>, route: Route, fromQueue: bool, screens: Screens,
      checkDay: int, day: int)
    ensures var a := AdmissionOf(slots, dryRun, ids, route, fromQueue, screens, checkDay, day);
            var due := Screened(ids, route, screens) && (screens.open || fromQueue);
            && (a.Skipped? <==> !Screened(ids, route, screens))
            && (a.Queued? <==> Screened(ids, route, screens) && !screens.open && !fromQueue)
            && (a.CapSkipped? <==> due && (Full(slots, route, checkDay) || (!dryRun && Full(slots, route, day))))
            && (a.DryRun? <==> due && dryRun && !Full(slots, route, checkDay))
            && (a.Admitted? <==> due && !dryRun && !Full(slots, route, checkDay) && !Full(slots, route, day))
            && (a.Admitted? ==> (a.consumed <==> route.maxPerDay > 0))
  {
    hide Count;
  }

  lemma {:induction false} MaxIs(ids: seq<int>)
    requires ids != []
    ensures Max(ids) in ids && forall id :: id in ids ==> id <= Max(ids)
  {
    if |ids| > 1 {
      MaxIs(ids[1..]);
      assert ids == [ids[0]] + ids[1..];
    }
  }

  lemma {:induction false} NonZeroMembers(ids: seq<int>)
    ensures forall id :: id in NonZero(ids) <==> id in ids && id != 0
    ensures NonZero(ids) == [] ==> forall id :: id in ids ==> id == 0
  {
    if ids != [] {
      NonZeroMembers(ids[1..]);
      assert ids == [ids[0]] + ids[1..];
    }
  }

  /** The seen mark of a capped route rises to the largest id of the post and never falls; other marks stay. */
  lemma SeenIs(lastSeen: map<string, int>, key: string, ids: seq<int>)
    ensures var after := SeenAfterSkip(lastSeen, key, ids);
            && (forall k :: k != key ==> (k in after <==> k in lastSeen) && (k in after ==> after[k] == lastSeen[k]))
            && (key in after <==> key in lastSeen || exists id :: id in ids && id != 0)
            && (key in after ==>
                  && (forall id :: id in ids && id != 0 ==> id <= after[key])
                  && (key in lastSeen ==> lastSeen[key] <= after[key])
                  && ((key in lastSeen && after[key] == lastSeen[key]) || (after[key] in ids && after[key] != 0)))
  {
    hide Max, NonZero;
    NonZeroMembers(ids);
    if NonZero(ids) != [] {
      MaxIs(NonZero(ids));
    }
  }

  class DeliveryEngine {
    const quota: DailyQuotaStore
    const dryRun: bool
    var lastSeen: map<string, int>

    constructor (quota: DailyQuotaStore, dryRun: bool)
      ensures this.quota == quota && this.dryRun == dryRun && lastSeen == map[]
    {
      this.quota, this.dryRun, lastSeen := quota, dryRun, map[];
    }

    /** Up to the delivery: filters, schedule, cap, reservation. */
    method Admit(ids: seq<int>, route: Route, fromQueue: bool, screens: Screens, checkDay: int, day: int)
      returns (admission: Admission)
      modifies this, quota
      ensures admission == AdmissionOf(old(quota.slots), dryRun, ids, route, fromQueue, screens, checkDay, day)
      ensures quota.slots ==
        if admission.Admitted? then Consumed(old(quota.slots), route.quotaKey, DailyLimit(route), day)
            else old(quota.slots)
      ensures lastSeen == if admission.CapSkipped? then SeenAfterSkip(old(lastSeen), route.key, ids) else old(lastSeen)
    {
      if ids == [] || route.paused {
        return Skipped;
      }
      if screens.blocked || !screens.allowed || !screens.mediaOk || screens.duplicate {
        return Skipped;
      }
      if !screens.open && !fromQueue {
        return Queued;
      }
      var full := quota.AtLimit(route.quotaKey, DailyLimit(route), checkDay);
      if full {
        SkipDailyCap(ids, route);
        return CapSkipped;
      }
      if dryRun {
        return DryRun;
      }
      var consumed := false;
      if DailyLimit(route) > 0 {
        var granted := quota.TryConsume(route.quotaKey, DailyLimit(route), day);
        if !granted {
          SkipDailyCap(ids, route);
          return CapSkipped;
        }
        consumed := true;
      }
      admission := Admitted(consumed);
    }

    method SkipDailyCap(ids: seq<int>, route: Route)
      modifies this
      ensures lastSeen == SeenAfterSkip(old(lastSeen), route.key, ids)
    {
      var shown := NonZero(ids);
      if shown != [] {
        var last := Max(shown);
        if route.key !in lastSeen || last > lastSeen[route.key] {
          lastSeen := lastSeen[route.key := last];
        }
      }
    }

    /** The `finally` of a delivery that was admitted. */
    method Conclude(route: Route, consumed: bool, ending: Ending, day: int) returns (ok: bool)
      modifies quota
      ensures ok == ending.Sent?
      ensures quota.slots == Concluded(old(quota.slots), route, consumed, ending, day)
    {
      ok := ending.Sent?;
      if consumed && !ok {
        quota.Refund(route.quotaKey, day);
      }
    }

    /** `process_messages`: a raised delivery raises again after its refund. */
    method Process(ids: seq<int>, route: Route, fromQueue: bool, screens: Screens, checkDay: int, day: int,
        ending: Ending, endDay: int) returns (ok: bool)
      modifies this, quota
      ensures var a := AdmissionOf(old(quota.slots), dryRun, ids, route, fromQueue, screens, checkDay, day);
              && (ok <==> a.DryRun? || (a.Admitted? && ending.Sent?))
              && quota.slots == Processed(old(quota.slots), route, a, ending, day, endDay)
              && lastSeen == if a.CapSkipped? then SeenAfterSkip(old(lastSeen), route.key, ids) else old(lastSeen)
    {
      var admission := Admit(ids, route, fromQueue, screens, checkDay, day);
      if !admission.Admitted? {
        return admission.DryRun?;
      }
      ok := Conclude(route, admission.consumed, ending, endDay);
    }
  }

  // ---------------------------------------------------------------- runs

  /** A destination and the calendar day a slot was reserved on. */
  type Slot = (string, int)

  /** The stored slots, the current day of each destination, and the reservations in flight and successes so far. */
  datatype State = State(slots: Slots, today: map<string, int>, flying: multiset<Slot>, done: multiset<Slot>)

  /** Deliveries start and end in any order; an end names the day its slot was reserved on, if it needed one. */
  datatype Event =
    | Begin(ids: seq<int>, route: Route, fromQueue: bool, screens: Screens, dryRun: bool, checkDay: int, day: int)
    | End(route: Route, reserved: Option<int>, ending: Ending, day: int)

  /** All routes of a destination share one limit, zero for none, and one calendar. */
  type Policy = map<string, int>

  /** Days never run backwards, and a refund is booked on the day of its reservation. */
  ghost predicate Enabled(policy: Policy, s: State, e: Event) {
    var key := e.route.quotaKey;
    key in policy && DailyLimit(e.route) == policy[key] && key in s.today &&
    match e
    case Begin(_, route, _, _, _, checkDay, day) => s.today[key] <= checkDay <= day
    case End(route, Some(reserved), ending, day) =>
      s.today[key] <= day && s.flying[(key, reserved)] > 0 && (!ending.Sent? ==> day == reserved)
    case End(route, None, _, day) => s.today[key] <= day && policy[key] == 0
  }

  /** The destination's calendar has reached this day. */
  ghost function On(s: State, key: string, day: int): State {
    s.(today := s.today[key := day])
  }

  ghost function Step(s: State, e: Event): State {
    var now := On(s, e.route.quotaKey, e.day);
    match e
    case Begin(ids, route, fromQueue, screens, dryRun, checkDay, day) =>
      if AdmissionOf(s.slots, dryRun, ids, route, fromQueue, screens, checkDay, day) == Admitted(true)
      then now.(slots := Consumed(s.slots, route.quotaKey, DailyLimit(route), day),
                flying := s.flying + multiset{(route.quotaKey, day)})
      else now
    case End(route, Some(reserved), ending, day) =>
      now.(slots := Concluded(s.slots, route, true, ending, day),
           flying := s.flying - multiset{(route.quotaKey, reserved)},
           done := if ending.Sent? then s.done + multiset{(route.quotaKey, reserved)} else s.done)
    case End(route, None, ending, day) => now.(slots := Concluded(s.slots, route, false, ending, day))
  }

  ghost predicate NoneAfter(slots: multiset<Slot>, today: map<string, int>) {
    forall slot: Slot :: slots[slot] > 0 ==> slot.0 in today && slot.1 <= today[slot.0]
  }

  /** The books of one destination balance: what is stored today is what succeeded plus what is in flight. */
  ghost predicate Balanced(policy: Policy, s: State, key: string)
    requires key in policy
  {
    && key in s.today
    && Count(s.slots, key, s.today[key]) == s.done[(key, s.today[key])] + s.flying[(key, s.today[key])] <= policy[key]
  }

  ghost predicate Inv(policy: Policy, s: State) {
    && SoundBy(s.slots, s.today) && NoneAfter(s.flying, s.today) && NoneAfter(s.done, s.today)
    && forall key :: key in policy && policy[key] > 0 ==> Balanced(policy, s, key)
  }

  /** At midnight every count of a destination starts from nothing. */
  lemma NewDayKeepsInv(policy: Policy, s: State, key: string, day: int)
    requires Inv(policy, s) && key in s.today && s.today[key] <= day
    ensures Inv(policy, On(s, key, day))
  {
    var now := On(s, key, day);
    forall other | other in policy && policy[other] > 0 ensures Balanced(policy, now, other) {
      assert Balanced(policy, s, other);
      if other == key && s.today[key] < day {
        assert s.done[(key, day)] == 0 && s.flying[(key, day)] == 0;
        assert Count(s.slots, key, day) == 0;
      }
    }
  }

  lemma BeginKeepsInv(policy: Policy, s: State, e: Event)
    requires Inv(policy, s) && Enabled(policy, s, e) && e.Begin?
    ensures Inv(policy, Step(s, e))
  {
    var key := e.route.quotaKey;
    NewDayKeepsInv(policy, s, key, e.day);
    if AdmissionOf(s.slots, e.dryRun, e.ids, e.route, e.fromQueue, e.screens, e.checkDay, e.day) == Admitted(true) {
      ReserveKeepsInv(policy, On(s, key, e.day), key);
    }
  }

  /** One slot reserved on the destination's current day. */
  lemma ReserveKeepsInv(policy: Policy, s: State, key: string)
    requires Inv(policy, s) && key in s.today && key in policy && policy[key] > 0
    requires Admits(s.slots, key, policy[key], s.today[key])
    ensures Inv(policy, s.(slots := Consumed(s.slots, key, policy[key], s.today[key]),
                           flying := s.flying + multiset{(key, s.today[key])}))
  {
    var day := s.today[key];
    var after := s.(slots := Consumed(s.slots, key, policy[key], day), flying := s.flying + multiset{(key, day)});
    ConsumeBy(s.slots, s.today, key, policy[key], key);
    MoveSlot(s.flying, (key, day), s.today);
    hide Consumed, Count, SoundBy, Refunded, NoneAfter;
    forall other | other in policy && policy[other] > 0 ensures Balanced(policy, after, other) {
      assert Balanced(policy, s, other);
      ConsumeBy(s.slots, s.today, key, policy[key], other);
      assert (other, s.today[other]) == (key, day) <==> other == key;
    }
  }

  lemma MoveSlot(slots: multiset<Slot>, slot: Slot, today: map<string, int>)
    requires NoneAfter(slots, today)
    ensures NoneAfter(slots - multiset{slot}, today)
    ensures slot.0 in today && slot.1 <= today[slot.0] ==> NoneAfter(slots + multiset{slot}, today)
  {
  }

  /** The end of a delivery moves its slot from in flight to done, or off the books. */
  lemma EndBalances(policy: Policy, s: State, e: Event, key: string)
    requires e.End? && e.reserved.Some? && e.route.quotaKey in s.today && e.day == s.today[e.route.quotaKey]
    requires SoundBy(s.slots, s.today) && key in policy && Balanced(policy, s, key)
    requires s.flying[(e.route.quotaKey, e.reserved.value)] > 0 && (!e.ending.Sent? ==> e.day == e.reserved.value)
    ensures Balanced(policy, Step(s, e), key)
  {
    RefundBy(s.slots, s.today, e.route.quotaKey, e.day, key, s.today[key]);
    hide Count, SoundBy, Refunded;
    var at, here := (e.route.quotaKey, e.reserved.value), (key, s.today[key]);
    var after := Step(s, e);
    assert after.today == s.today;
    assert after.flying[here] == s.flying[here] - if at == here then 1 else 0;
    assert after.done[here] == s.done[here] + if at == here && e.ending.Sent? then 1 else 0;
  }

  lemma EndKeepsInv(policy: Policy, s: State, e: Event)
    requires Inv(policy, s) && Enabled(policy, s, e) && e.End?
    ensures Inv(policy, Step(s, e))
  {
    var key, day := e.route.quotaKey, e.day;
    NewDayKeepsInv(policy, s, key, day);
    var now := On(s, key, day);
    if e.reserved.Some? {
      var at := (key, e.reserved.value);
      RefundBy(s.slots, now.today, key, day, key, day);
      MoveSlot(now.flying, at, now.today);
      MoveSlot(now.done, at, now.today);
      SameStep(s, now, e);
      forall other | other in policy && policy[other] > 0 ensures Balanced(policy, Step(now, e), other) {
        EndBalances(policy, now, e, other);
      }
      hide Count, SoundBy, Refunded, NoneAfter, Balanced;
    }
  }

  /** A step taken on its own day. */
  lemma SameStep(s: State, now: State, e: Event)
    requires e.End? && now == On(s, e.route.quotaKey, e.day)
    ensures Step(s, e) == Step(now, e)
  {
    assert now.today[e.route.quotaKey := e.day] == now.today;
  }

  lemma StepKeepsInv(policy: Policy, s: State, e: Event)
    requires Inv(policy, s) && Enabled(policy, s, e)
    ensures Inv(policy, Step(s, e))
  {
    hide Inv, Enabled, Step;
    match e
    case Begin(_, _, _, _, _, _, _) => BeginKeepsInv(policy, s, e);
    case End(_, _, _, _) => EndKeepsInv(policy, s, e);
  }

  ghost predicate Possible(policy: Policy, s: State, run: seq<Event>)
    decreases |run|
  {
    run == [] || (Enabled(policy, s, run[0]) && Possible(policy, Step(s, run[0]), run[1..]))
  }

  ghost function After(s: State, run: seq<Event>): State
    decreases |run|
  {
    if run == [] then s else After(Step(s, run[0]), run[1..])
  }

  lemma {:induction false} RunKeepsInv(policy: Policy, s: State, run: seq<Event>)
    requires Inv(policy, s) && Possible(policy, s, run)
    ensures Inv(policy, After(s, run))
    decreases |run|
  {
    if run != [] {
      StepKeepsInv(policy, s, run[0]);
      hide Inv, Enabled, Step;
      RunKeepsInv(policy, Step(s, run[0]), run[1..]);
    }
  }

  /** A store loaded at the start of a process, its counts taken as successes of the past. */
  ghost predicate Initial(policy: Policy, s: State) {
    && s.flying == multiset{} && SoundBy(s.slots, s.today) && NoneAfter(s.done, s.today)
    && forall key :: key in policy ==>
         && key in s.today
         && (policy[key] > 0 ==> Count(s.slots, key, s.today[key]) == s.done[(key, s.today[key])] <= policy[key])
  }

  /** Calendars of all destinations go on. */
  lemma {:induction false} RunKeepsToday(policy: Policy, s: State, run: seq<Event>)
    requires Possible(policy, s, run)
    ensures forall key :: key in s.today ==> key in After(s, run).today && s.today[key] <= After(s, run).today[key]
    decreases |run|
  {
    if run != [] {
      assert forall key :: key in s.today ==>
          key in Step(s, run[0]).today && s.today[key] <= Step(s, run[0]).today[key];
      hide Enabled, Step;
      RunKeepsToday(policy, Step(s, run[0]), run[1..]);
    }
  }

  /**
   * Main result: in every interleaving of deliveries to capped and uncapped destinations, each on its own calendar,
   * the stored count of a capped destination for its current day is its successes plus its reservations in flight
   * and never above the limit, so a failed or raising delivery burns no slot.
   */
  lemma SlotsBalance(policy: Policy, s: State, run: seq<Event>, key: string)
    requires Initial(policy, s) && Possible(policy, s, run) && key in policy && policy[key] > 0
    ensures key in s.today && key in After(s, run).today && s.today[key] <= After(s, run).today[key]
    ensures var end := After(s, run);
            var today := end.today[key];
            && Count(end.slots, key, today) == end.done[(key, today)] + end.flying[(key, today)]
            && end.done[(key, today)] + end.flying[(key, today)] <= policy[key]
            && (end.flying == multiset{} ==> Count(end.slots, key, today) == end.done[(key, today)])
  {
    assert Inv(policy, s) by {
      forall other | other in policy && policy[other] > 0 ensures Balanced(policy, s, other) {
        assert s.flying[(other, s.today[other])] == 0;
      }
    }
    RunKeepsInv(policy, s, run);
    RunKeepsToday(policy, s, run);
    assert Balanced(policy, After(s, run), key);
  }
}
