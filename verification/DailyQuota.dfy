/** Publish slots per destination and calendar day, reserved before a delivery and given back when it fails. */
module DailyQuota {
  import opened Common
  import opened NewestDays

  /** Slots taken, by destination key and day; ISO dates order as day numbers do. */
  type Slots = map<string, map<int, int>>

  function Days(slots: Slots, key: string): map<int, int> {
    if key in slots then slots[key] else map[]
  }

  function Count(slots: Slots, key: string, day: int): int {
    if day in Days(slots, key) then Days(slots, key)[day] else 0
  }

  /** Only the newest days of each destination, and no destination without days. */
  function Pruned(slots: Slots): Slots {
    map key | key in slots && Newest(slots[key]) != map[] :: Newest(slots[key])
  }

  predicate Admits(slots: Slots, key: string, limit: int, day: int) {
    limit <= 0 || Count(slots, key, day) < limit
  }

  function Consumed(slots: Slots, key: string, limit: int, day: int): Slots {
    if limit <= 0 || !Admits(slots, key, limit, day) then slots
    else Pruned(slots[key := Days(slots, key)[day := Count(slots, key, day) + 1]])
  }

  function Refunded(slots: Slots, key: string, day: int): Slots {
    if key !in slots then slots
    else
      var count := Count(slots, key, day);
      var days := if count <= 1 then slots[key] - {day} else slots[key][day := count - 1];
      if days == map[] then slots - {key} else slots[key := days]
  }

  // ---------------------------------------------------------------- laws

  /** Pruning leaves alone every day that fewer than 14 recorded days of its destination are newer than. */
  lemma PruneKeepsRecent(slots: Slots, key: string, day: int)
    requires |Newer(Days(slots, key).Keys, day)| < RETAIN_DAYS
    ensures Count(Pruned(slots), key, day) == Count(slots, key, day)
  {
    if key in slots && day in slots[key] {
      assert day in Newest(slots[key]);
    }
  }

  /** A destination without a limit takes no slots. */
  lemma NoLimit(slots: Slots, key: string, limit: int, day: int)
    requires limit <= 0
    ensures Admits(slots, key, limit, day) && Consumed(slots, key, limit, day) == slots
  {
  }

  /** A granted slot leaves each destination with one to fourteen days, the newest it had. */
  lemma ConsumeTidies(slots: Slots, key: string, limit: int, day: int)
    requires limit > 0 && Admits(slots, key, limit, day)
    ensures forall k :: k in Consumed(slots, key, limit, day) ==> 1 <= |Consumed(slots, key, limit, day)[k]| <= 14
  {
    var more := slots[key := Days(slots, key)[day := Count(slots, key, day) + 1]];
    var after := Consumed(slots, key, limit, day);
    forall k | k in after ensures 1 <= |after[k]| <= 14 {
      RetainedSize(more[k].Keys);
      assert after[k].Keys == Retained(more[k].Keys);
      NotEmpty(after[k]);
    }
  }

  lemma NotEmpty(days: map<int, int>)
    requires days != map[]
    ensures |days| >= 1
  {
  }

  /** A refund leaves no destination without days. */
  lemma RefundTidies(slots: Slots, key: string, day: int)
    requires forall k :: k in slots ==> slots[k] != map[]
    ensures forall k :: k in Refunded(slots, key, day) ==> Refunded(slots, key, day)[k] != map[]
  {
  }

  /** Every recorded count is positive and of a day no later than `today`. */
  ghost predicate Sound(slots: Slots, today: int) {
    forall key, day :: key in slots && day in slots[key] ==> slots[key][day] > 0 && day <= today
  }

  lemma NothingNewer(slots: Slots, key: string, today: int)
    requires Sound(slots, today)
    ensures Newer(Days(slots, key).Keys, today) == {}
  {
    forall day | day in Days(slots, key) ensures day <= today {
      assert key in slots && day in slots[key];
    }
  }

  /** A granted slot counts once today, and nothing else today changes. */
  lemma ConsumeEffect(slots: Slots, key: string, limit: int, today: int, other: string)
    requires Sound(slots, today) && limit > 0 && Admits(slots, key, limit, today)
    ensures Sound(Consumed(slots, key, limit, today), today)
    ensures Count(Consumed(slots, key, limit, today), other, today) ==
              Count(slots, other, today) + if other == key then 1 else 0
  {
    var more := slots[key := Days(slots, key)[today := Count(slots, key, today) + 1]];
    assert Count(slots, key, today) >= 0;
    assert Sound(more, today);
    NothingNewer(more, other, today);
    PruneKeepsRecent(more, other, today);
    PrunedSound(more, today);
  }

  lemma PrunedSound(slots: Slots, today: int)
    requires Sound(slots, today)
    ensures Sound(Pruned(slots), today)
  {
  }

  /** A refund takes back one slot of its day when there is one, and changes nothing else. */
  lemma RefundEffect(slots: Slots, key: string, day: int, today: int, other: string, when: int)
    requires Sound(slots, today)
    ensures Sound(Refunded(slots, key, day), today)
    ensures Count(Refunded(slots, key, day), other, when) ==
      if other == key && when == day && Count(slots, key, day) > 0 then Count(slots, key, day) - 1
          else Count(slots, other, when)
  {
  }

  /**
   * A refund gives the reserved slot back exactly when it is booked on the calendar day of the reservation:
   * across midnight the slot of the first day stays burnt.
   */
  lemma RefundRestoresIff(slots: Slots, key: string, limit: int, day: int, later: int)
    requires Sound(slots, day) && limit > 0 && Admits(slots, key, limit, day)
    ensures Count(Refunded(Consumed(slots, key, limit, day), key, later), key, day) == Count(slots, key, day) <==>
        later == day
  {
    ConsumeEffect(slots, key, limit, day, key);
    RefundEffect(Consumed(slots, key, limit, day), key, later, day, key, day);
    hide Consumed, Refunded, Count;
  }

  /** `n` deliveries in a row reserve a slot of the day. */
  function Filled(slots: Slots, key: string, limit: int, day: int, n: nat): Slots {
    if n == 0 then slots else Consumed(Filled(slots, key, limit, day, n - 1), key, limit, day)
  }

  /** An empty day grants every reservation up to its limit. */
  lemma {:induction false} FillDay(slots: Slots, key: string, limit: int, day: int, n: nat)
    requires Sound(slots, day) && limit > 0 && Count(slots, key, day) == 0 && n <= limit
    ensures Sound(Filled(slots, key, limit, day, n), day)
    ensures Count(Filled(slots, key, limit, day, n), key, day) == n
  {
    hide Sound, Consumed, Count;
    if n > 0 {
      FillDay(slots, key, limit, day, n - 1);
      ConsumeEffect(Filled(slots, key, limit, day, n - 1), key, limit, day, key);
    }
  }

  /** A refund reopens a full day exactly when it is booked on that day. */
  lemma RefundReopensIff(slots: Slots, key: string, limit: int, day: int, now: int)
    requires Sound(slots, if day > now then day else now) && limit > 0 && Count(slots, key, day) == limit
    ensures Admits(Refunded(slots, key, now), key, limit, day) <==> now == day
  {
    RefundEffect(slots, key, now, if day > now then day else now, key, day);
    hide Refunded, Count, Sound;
  }

  /**
   * The refund of an earlier day's reservation reopens a later day that granted its whole limit, so that day grants
   * one delivery more than its limit.
   */
  lemma LateRefundOverfills(slots: Slots, key: string, limit: int, day: int, later: int)
    requires Sound(slots, day) && limit > 0 && Admits(slots, key, limit, day) && day < later
    ensures var full := Filled(Consumed(slots, key, limit, day), key, limit, later, limit);
            && (forall n: nat :: n < limit ==>
                  Admits(Filled(Consumed(slots, key, limit, day), key, limit, later, n), key, limit, later))
            && !Admits(full, key, limit, later)
            && Admits(Refunded(full, key, later), key, limit, later)
  {
    ConsumeEffect(slots, key, limit, day, key);
    var reserved := Consumed(slots, key, limit, day);
    LaterIsEmpty(reserved, key, day, later);
    hide Sound, Consumed, Count, Refunded, Filled;
    forall n: nat | n <= limit ensures Count(Filled(reserved, key, limit, later, n), key, later) == n {
      FillDay(reserved, key, limit, later, n);
    }
    FillDay(reserved, key, limit, later, limit);
    RefundReopensIff(Filled(reserved, key, limit, later, limit), key, limit, later, later);
  }

  lemma LaterIsEmpty(slots: Slots, key: string, day: int, later: int)
    requires Sound(slots, day) && day < later
    ensures Sound(slots, later) && Count(slots, key, later) == 0
  {
  }

  // ---------------------------------------------------------------- destinations with their own calendars

  /** Every recorded count is positive and of a day its destination has reached. */
  ghost predicate SoundBy(slots: Slots, today: map<string, int>) {
    forall key, day :: key in slots && day in slots[key] ==> slots[key][day] > 0 && key in today && day <= today[key]
  }

  lemma NothingNewerBy(slots: Slots, today: map<string, int>, key: string)
    requires SoundBy(slots, today) && key in today
    ensures Newer(Days(slots, key).Keys, today[key]) == {}
  {
    forall day | day in Days(slots, key) ensures day <= today[key] {
      assert key in slots && day in slots[key];
    }
  }

  /** A granted slot counts once on the day of its destination, and nothing else changes on the day of any other. */
  lemma ConsumeBy(slots: Slots, today: map<string, int>, key: string, limit: int, other: string)
    requires SoundBy(slots, today) && key in today && other in today && limit > 0 &&
        Admits(slots, key, limit, today[key])
    ensures SoundBy(Consumed(slots, key, limit, today[key]), today)
    ensures Count(Consumed(slots, key, limit, today[key]), other, today[other]) ==
              Count(slots, other, today[other]) + if other == key then 1 else 0
  {
    var day := today[key];
    var more := slots[key := Days(slots, key)[day := Count(slots, key, day) + 1]];
    assert Count(slots, key, day) >= 0;
    assert SoundBy(more, today);
    NothingNewerBy(more, today, other);
    PruneKeepsRecent(more, other, today[other]);
    PrunedSoundBy(more, today);
  }

  lemma PrunedSoundBy(slots: Slots, today: map<string, int>)
    requires SoundBy(slots, today)
    ensures SoundBy(Pruned(slots), today)
  {
  }

  /** A refund takes back one slot of its destination and day when there is one, and changes nothing else. */
  lemma RefundBy(slots: Slots, today: map<string, int>, key: string, day: int, other: string, when: int)
    requires SoundBy(slots, today)
    ensures SoundBy(Refunded(slots, key, day), today)
    ensures Count(Refunded(slots, key, day), other, when) ==
              if other == key && when == day && Count(slots, key, day) > 0 then Count(slots, key, day) - 1
              else Count(slots, other, when)
  {
  }

  // ---------------------------------------------------------------- the store

  /** The destinations in `todo` are as before; the others are pruned. */
  ghost predicate PrunedSoFar(before: Slots, slots: Slots, todo: set<string>) {
    && (forall key :: key in todo ==> key in slots && key in before && slots[key] == before[key])
    && (forall key :: key in before && key !in todo ==> (key in slots <==> Newest(before[key]) != map[]))
    && (forall key :: key in slots && key !in todo ==> key in before && slots[key] == Newest(before[key]))
  }

  class DailyQuotaStore {
    var slots: Slots

    constructor ()
      ensures slots == map[]
    {
      slots := map[];
    }

    method AtLimit(key: string, limit: int, day: int) returns (full: bool)
      ensures full == !Admits(slots, key, limit, day)
    {
      if limit <= 0 {
        return false;
      }
      full := Count(slots, key, day) >= limit;
    }

    method TryConsume(key: string, limit: int, day: int) returns (granted: bool)
      modifies this
      ensures granted == Admits(old(slots), key, limit, day)
      ensures slots == Consumed(old(slots), key, limit, day)
    {
      if limit <= 0 {
        return true;
      }
      var bucket := Days(slots, key);
      var current := if day in bucket then bucket[day] else 0;
      if current >= limit {
        return false;
      }
      slots := slots[key := bucket[day := current + 1]];
      Prune();
      granted := true;
    }

    method Prune()
      modifies this
      ensures slots == Pruned(old(slots))
    {
      hide Newest;
      var todo := slots.Keys;
      while todo != {}
        invariant todo <= old(slots).Keys && PrunedSoFar(old(slots), slots, todo)
        decreases |todo|
      {
        var key :| key in todo;
        todo := todo - {key};
        var kept := DropOldDays(slots[key]);
        if kept == map[] {
          slots := slots - {key};
        } else {
          slots := slots[key := kept];
        }
      }
      SameMap(slots, Pruned(old(slots)));
    }

    method Refund(key: string, day: int)
      modifies this
      ensures slots == Refunded(old(slots), key, day)
    {
      if key !in slots {
        return;
      }
      var bucket := slots[key];
      var current := if day in bucket then bucket[day] else 0;
      if current <= 1 {
        bucket := bucket - {day};
      } else {
        bucket := bucket[day := current - 1];
      }
      if bucket == map[] {
        slots := slots - {key};
      } else {
        slots := slots[key := bucket];
      }
    }
  }
}
