/** Keeping the newest days of a per-day record: what survives, and that repeated pruning never revives a day. */
module NewestDays {
  import opened Common

  const RETAIN_DAYS := 14

  /** Days later than `day`. */
  function Newer(days: set<int>, day: int): set<int> {
    set e | e in days && e > day
  }

  /** The days that survive pruning: those with fewer than `RETAIN_DAYS` newer ones. */
  function Retained(days: set<int>): set<int> {
    set d | d in days && |Newer(days, d)| < RETAIN_DAYS
  }

  /** What is left of a per-day record after dropping all but the newest days. */
  function Newest<V>(days: map<int, V>): map<int, V> {
    map d | d in Retained(days.Keys) :: days[d]
  }

  lemma NewerLess(days: set<int>, d: int, e: int)
    requires e in days && d < e
    ensures |Newer(days, e)| < |Newer(days, d)|
  {
    SubsetSize(Newer(days, e) + {e}, Newer(days, d));
  }

  lemma {:induction false} MinDay(days: set<int>) returns (m: int)
    requires |days| > 0
    ensures m in days && forall e :: e in days ==> m <= e
    decreases |days|
  {
    var x := Pick(days);
    m := x;
    if |days - {x}| > 0 {
      var n := MinDay(days - {x});
      if n < x { m := n; }
    }
    assert forall e :: e in days ==> e == x || e in days - {x};
  }

  lemma DropOldest(days: set<int>, m: int)
    requires m in days && (forall e :: e in days ==> m <= e) && |days| > RETAIN_DAYS
    ensures Retained(days) == Retained(days - {m})
  {
    assert Newer(days, m) == days - {m};
    forall d | d in days && d != m ensures Newer(days, d) == Newer(days - {m}, d) {}
  }

  /** Pruning keeps the newest days, `RETAIN_DAYS` of them unless there are fewer. */
  lemma {:induction false} RetainedSize(days: set<int>)
    ensures |Retained(days)| == if |days| <= 14 then |days| else 14
    ensures forall d, e :: d in Retained(days) && e in days && d < e ==> e in Retained(days)
    decreases days
  {
    if |days| <= RETAIN_DAYS {
      forall d | d in days ensures d in Retained(days) {
        SubsetSize(Newer(days, d), days - {d});
      }
      assert Retained(days) == days;
    } else {
      var m := MinDay(days);
      DropOldest(days, m);
      RetainedSize(days - {m});
      forall d, e | d in Retained(days) && e in days && d < e ensures e in Retained(days) {
        NewerLess(days, d, e);
      }
    }
  }

  /** A day old enough to be pruned stays that old: pruning keeps `RETAIN_DAYS` days newer than it. */
  lemma StaleStays(days: set<int>, d: int)
    requires |Newer(days, d)| >= RETAIN_DAYS
    ensures |Newer(Retained(days), d)| >= RETAIN_DAYS
  {
    RetainedSize(days);
    SubsetSize(Newer(days, d), days);
    if Newer(days, d) <= Retained(days) {
      SubsetSize(Newer(days, d), Newer(Retained(days), d));
    } else {
      var e :| e in Newer(days, d) && e !in Retained(days);
      assert Newer(Retained(days), d) == Retained(days);
    }
  }

  lemma NewerGrows(days: set<int>, day: int, d: int)
    ensures |Newer(days + {day}, d)| >= |Newer(days, d)|
  {
    SubsetSize(Newer(days, d), Newer(days + {day}, d));
  }

  lemma {:induction false} MaxDay(days: set<int>) returns (m: int)
    requires |days| > 0
    ensures m in days && forall e :: e in days ==> e <= m
    decreases |days|
  {
    var x := Pick(days);
    m := x;
    if |days - {x}| > 0 {
      var n := MaxDay(days - {x});
      if n > x { m := n; }
    }
    assert forall e :: e in days ==> e == x || e in days - {x};
  }

  /** Pops the oldest day while more than `RETAIN_DAYS` are left. */
  method DropOldDays<V>(days: map<int, V>) returns (kept: map<int, V>)
    ensures kept == Newest(days)
  {
    kept := days;
    while |kept| > RETAIN_DAYS
      invariant kept.Keys <= days.Keys && forall d :: d in kept ==> kept[d] == days[d]
      invariant Retained(kept.Keys) == Retained(days.Keys)
      decreases |kept|
    {
      ghost var oldest := MinDay(kept.Keys);
      var stale: int :| stale in kept.Keys && forall e :: e in kept.Keys ==> stale <= e;
      DropOldest(kept.Keys, stale);
      kept := kept - {stale};
      assert kept.Keys == days.Keys * kept.Keys;
    }
    RetainedSize(kept.Keys);
    SubsetSize(Retained(kept.Keys), kept.Keys);
  }
}
