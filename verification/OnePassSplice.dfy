/**
 * What splicing from the back does to any spans, overlapping ones included: one pass from the front that owes
 * deletions.
 */
module OnePassSplice {
  import opened Sorting
  import opened TextSplice

  /** The spans that act: each must fit what the earlier ones left. Only lengths matter. */
  function Effective(n: nat, ordered: seq<Entity>): seq<Entity>
    decreases |ordered|
  {
    if ordered == [] then []
    else if InRange(n, ordered[0]) then [ordered[0]] + Effective(n - ordered[0].length + 1, ordered[1..])
    else Effective(n, ordered[1..])
  }

  /** The deletions owed by the spans that start at `p`: all their units but the first. */
  function Demand(spans: seq<Entity>, p: int): nat {
    if spans == [] then 0
    else
      var last := spans[|spans| - 1];
      Demand(spans[..|spans| - 1], p) + if last.offset == p && last.length > 0 then last.length - 1 else 0
  }

  predicate Starts(spans: seq<Entity>, p: int) {
    exists e :: e in spans && e.offset == p
  }

  /** Reading from `i` with `debt` deletions owed: a unit pays one, else it is kept, a space where a span starts. */
  function OnePass<T>(text: seq<T>, space: T, spans: seq<Entity>, i: nat, debt: nat): seq<T>
    requires i <= |text|
    decreases |text| - i
  {
    if i == |text| then []
    else if debt > 0 then OnePass(text, space, spans, i + 1, debt - 1 + Demand(spans, i))
    else [if Starts(spans, i) then space else text[i]] + OnePass(text, space, spans, i + 1, Demand(spans, i))
  }

  lemma {:induction false} OnePassSize<T>(text: seq<T>, space: T, spans: seq<Entity>, i: nat, debt: nat)
    requires i <= |text|
    ensures |OnePass(text, space, spans, i, debt)| <= |text| - i
    decreases |text| - i
  {
    if i < |text| {
      OnePassSize(text, space, spans, i + 1, if debt > 0 then debt - 1 + Demand(spans, i) else Demand(spans, i));
    }
  }

  /** Owing `more` deletions drops the first `more` units of the result. */
  lemma {:induction false} OwingDrops<T>(text: seq<T>, space: T, spans: seq<Entity>, i: nat, debt: nat, more: nat)
    requires i <= |text| && more <= |OnePass(text, space, spans, i, debt)|
    ensures OnePass(text, space, spans, i, debt + more) == OnePass(text, space, spans, i, debt)[more..]
    decreases |text| - i
  {
    hide Demand, Starts;
    if i < |text| && more > 0 {
      var d := Demand(spans, i);
      if debt > 0 {
        OwingDrops(text, space, spans, i + 1, debt - 1 + d, more);
      } else {
        OwingDrops(text, space, spans, i + 1, d, more - 1);
      }
    }
  }

  lemma NoDemand(spans: seq<Entity>, p: int)
    requires forall e :: e in spans ==> e.offset != p
    ensures Demand(spans, p) == 0 && !Starts(spans, p)
  {
    if spans != [] {
      NoDemand(spans[..|spans| - 1], p);
    }
  }

  /** Before the first span starts everything is copied. */
  lemma {:induction false} CopyBefore<T>(text: seq<T>, space: T, spans: seq<Entity>, i: nat, o: nat)
    requires i <= o <= |text| && forall e :: e in spans ==> e.offset >= o
    ensures OnePass(text, space, spans, i, 0) == text[i..o] + OnePass(text, space, spans, o, 0)
    decreases o - i
  {
    if i < o {
      NoDemand(spans, i);
      CopyBefore(text, space, spans, i + 1, o);
    }
  }

  lemma OneMore(spans: seq<Entity>, f: Entity, p: int)
    ensures Demand(spans + [f], p) == Demand(spans, p) + if f.offset == p && f.length > 0 then f.length - 1 else 0
    ensures Starts(spans + [f], p) <==> Starts(spans, p) || f.offset == p
  {
    assert (spans + [f])[..|spans|] == spans;
    assert f in spans + [f];
  }

  /** A span does not matter once its start is passed. */
  lemma {:induction false} PassedSpan<T>(text: seq<T>, space: T, spans: seq<Entity>, f: Entity, i: nat, debt: nat)
    requires f.offset < i <= |text|
    ensures OnePass(text, space, spans + [f], i, debt) == OnePass(text, space, spans, i, debt)
    decreases |text| - i
  {
    if i < |text| {
      OneMore(spans, f, i);
      hide Demand, Starts;
      PassedSpan(text, space, spans, f, i + 1, if debt > 0 then debt - 1 + Demand(spans, i) else Demand(spans, i));
    }
  }

  /** Splicing one more span, starting no later than the others, adds its start and its debt. */
  lemma SpliceIsOneMore<T>(text: seq<T>, space: T, spans: seq<Entity>, f: Entity)
    requires forall e :: e in spans ==> e.offset >= f.offset
    requires InRange(|OnePass(text, space, spans, 0, 0)|, f)
    ensures Splice(OnePass(text, space, spans, 0, 0), space, f) == OnePass(text, space, spans + [f], 0, 0)
  {
    var o := f.offset;
    OnePassSize(text, space, spans, 0, 0);
    CopyBefore(text, space, spans, 0, o);
    CopyBefore(text, space, spans + [f], 0, o);
    OneMore(spans, f, o);
    PassedSpan(text, space, spans, f, o + 1, Demand(spans, o) + f.length - 1);
    hide Demand, Starts;
    var tail := OnePass(text, space, spans, o, 0);
    assert tail != [] && o < |text|;
    assert tail[1..] == OnePass(text, space, spans, o + 1, Demand(spans, o));
    OwingDrops(text, space, spans, o + 1, Demand(spans, o), f.length - 1);
    assert OnePass(text, space, spans + [f], o, 0) == [space] + tail[1..][f.length - 1..];
    assert tail[1..][f.length - 1..] == tail[f.length..];
  }

  lemma {:induction false} SpliceSnoc<T>(text: seq<T>, space: T, ordered: seq<Entity>, f: Entity)
    ensures SpliceAll(text, space, ordered + [f]) == Splice(SpliceAll(text, space, ordered), space, f)
    ensures Effective(|text|, ordered + [f]) ==
      Effective(|text|, ordered) + if InRange(|SpliceAll(text, space, ordered)|, f) then [f] else []
    decreases |ordered|
  {
    if ordered == [] {
      assert ([] + [f])[1..] == [];
    } else {
      assert (ordered + [f])[1..] == ordered[1..] + [f];
      SpliceSnoc(Splice(text, space, ordered[0]), space, ordered[1..], f);
    }
  }

  lemma {:induction false} EffectiveMembers(n: nat, ordered: seq<Entity>)
    ensures forall e :: e in Effective(n, ordered) ==> e in ordered && InRange(n, e)
    decreases |ordered|
  {
    if ordered != [] {
      EffectiveMembers(if InRange(n, ordered[0]) then n - ordered[0].length + 1 else n, ordered[1..]);
    }
  }

  /**
   * Main result: for spans in descending order, overlapping or not, splicing from the back is one pass from the
   * front.
   */
  lemma {:induction false} SplicingIsOnePass<T>(text: seq<T>, space: T, ordered: seq<Entity>)
    requires Ascending(ordered, Backwards)
    ensures SpliceAll(text, space, ordered) == OnePass(text, space, Effective(|text|, ordered), 0, 0)
    decreases |ordered|
  {
    if ordered == [] {
      CopyBefore(text, space, [], 0, |text|);
    } else {
      var front, f := ordered[..|ordered| - 1], ordered[|ordered| - 1];
      assert ordered == front + [f];
      SplicingIsOnePass(text, space, front);
      SpliceSnoc(text, space, front, f);
      EffectiveMembers(|text|, front);
      forall e | e in front ensures e.offset >= f.offset {
        var i :| 0 <= i < |front| && front[i] == e;
        assert ordered[i] == e;
        assert Backwards(ordered[i]) <= Backwards(ordered[|front|]);
      }
      hide OnePass, Effective;
      if InRange(|SpliceAll(text, space, front)|, f) {
        SpliceIsOneMore(text, space, Effective(|text|, front), f);
      } else {
        assert Effective(|text|, front) + [] == Effective(|text|, front);
      }
    }
  }

  // ---------------------------------------------------------------- which units survive

  /** The places of a text; spaces put in by the splice show as -1. */
  function Places(n: nat): seq<int> {
    seq(n, i => i)
  }

  /** Which unit of the original text each unit of the result is. */
  function Trace(n: nat, targets: seq<Entity>): seq<int> {
    SpliceAll(Places(n), -1, SortDown(targets))
  }

  ghost predicate Shadows(text: Text, now: Text, places: seq<int>) {
    |now| == |places| && forall i :: 0 <= i < |now| ==>
      if places[i] == -1 then now[i] == SPACE else 0 <= places[i] < |text| && now[i] == text[places[i]]
  }

  lemma {:induction false} SplicesShadow(text: Text, now: Text, places: seq<int>, ordered: seq<Entity>)
    requires Shadows(text, now, places)
    ensures Shadows(text, SpliceAll(now, SPACE, ordered), SpliceAll(places, -1, ordered))
    decreases |ordered|
  {
    if ordered != [] {
      SplicesShadow(text, Splice(now, SPACE, ordered[0]), Splice(places, -1, ordered[0]), ordered[1..]);
    }
  }

  /** Every text is spliced as its places are. */
  lemma TextFollowsTrace(text: Text, targets: seq<Entity>)
    ensures Shadows(text, SpliceAll(text, SPACE, SortDown(targets)), Trace(|text|, targets))
  {
    SplicesShadow(text, text, Places(|text|), SortDown(targets));
  }

  /** A unit of the text is in some span that lies in the text. */
  predicate Covered(n: nat, targets: seq<Entity>, p: int) {
    exists e :: e in targets && InRange(n, e) && e.offset <= p < e.offset + e.length
  }

  /** What removing entities should do: every unit in some span goes, every other stays. */
  ghost predicate Right(n: nat, targets: seq<Entity>) {
    forall p :: 0 <= p < n ==> (p in Trace(n, targets) <==> !Covered(n, targets, p))
  }

  /** The deletions owed on reaching `p`, reading from `i`. */
  function DebtFrom(spans: seq<Entity>, i: nat, debt: nat, p: nat): nat
    decreases if i < p then p - i else 0
  {
    if i >= p then debt else DebtFrom(spans, i + 1, (if debt > 0 then debt - 1 else 0) + Demand(spans, i), p)
  }

  lemma {:induction false} KeptPlaces(n: nat, spans: seq<Entity>, i: nat, debt: nat, p: nat)
    requires i <= n
    ensures p in OnePass(Places(n), -1, spans, i, debt) <==>
        i <= p < n && !Starts(spans, p) && DebtFrom(spans, i, debt, p) == 0
    decreases n - i
  {
    hide Demand, Starts;
    if i < n {
      KeptPlaces(n, spans, i + 1, (if debt > 0 then debt - 1 else 0) + Demand(spans, i), p);
    }
  }

  // ---------------------------------------------------------------- what is owed, in closed form

  /** The deletions owed by the spans that start from `o` to before `p`. */
  function DemandIn(spans: seq<Entity>, o: nat, p: nat): nat
    decreases if o < p then p - o else 0
  {
    if o >= p then 0 else DemandIn(spans, o, p - 1) + Demand(spans, p - 1)
  }

  ghost predicate Overdrawn(spans: seq<Entity>, p: nat) {
    exists o: nat :: o < p && DemandIn(spans, o, p) >= p - o
  }

  lemma {:induction false} DebtSnoc(spans: seq<Entity>, i: nat, debt: nat, p: nat)
    requires i <= p
    ensures var d := DebtFrom(spans, i, debt, p);
            DebtFrom(spans, i, debt, p + 1) == (if d > 0 then d - 1 else 0) + Demand(spans, p)
    decreases p - i
  {
    hide Demand;
    if i < p {
      DebtSnoc(spans, i + 1, (if debt > 0 then debt - 1 else 0) + Demand(spans, i), p);
    }
  }

  /** The debt is the largest excess of what a stretch before `p` owes over what it can pay. */
  lemma {:induction false} DebtIsExcess(spans: seq<Entity>, p: nat)
    ensures var d := DebtFrom(spans, 0, 0, p);
            && (forall o: nat :: o < p ==> DemandIn(spans, o, p) <= d + (p - o) - 1)
            && (d > 0 ==> exists o: nat :: o < p && DemandIn(spans, o, p) == d + (p - o) - 1)
  {
    hide Demand;
    if p > 0 {
      DebtIsExcess(spans, p - 1);
      DebtSnoc(spans, 0, 0, p - 1);
      var before, d := DebtFrom(spans, 0, 0, p - 1), DebtFrom(spans, 0, 0, p);
      hide DebtFrom;
      assert DemandIn(spans, p - 1, p) == Demand(spans, p - 1);
      if d > 0 {
        if before > 0 {
          var o: nat :| o < p - 1 && DemandIn(spans, o, p - 1) == before + (p - 1 - o) - 1;
          assert DemandIn(spans, o, p) == d + (p - o) - 1;
        } else {
          assert DemandIn(spans, p - 1, p) == d + (p - (p - 1)) - 1;
        }
      }
    }
  }

  /**
   * A unit is deleted exactly when the spans of some stretch before it owe as many deletions as the stretch is long.
   */
  lemma DebtIff(spans: seq<Entity>, p: nat)
    ensures DebtFrom(spans, 0, 0, p) > 0 <==> Overdrawn(spans, p)
  {
    hide Demand, DemandIn, DebtFrom;
    DebtIsExcess(spans, p);
  }

  /** A span starts at `p`, or the spans of some stretch before `p` owe as many deletions as it is long. */
  ghost predicate Removed(spans: seq<Entity>, p: nat) {
    Starts(spans, p) || Overdrawn(spans, p)
  }

  /**
   * Main result: for any targets, the splice is right exactly when the units the acting spans remove, by offsets and
   * lengths alone, are the units some span covers.
   */
  lemma RightIff(n: nat, targets: seq<Entity>)
    ensures var spans := Effective(n, SortDown(targets));
            Right(n, targets) <==> forall p: nat :: p < n ==> (Covered(n, targets, p) <==> Removed(spans, p))
  {
    var spans := Effective(n, SortDown(targets));
    SortSorts(targets, Backwards);
    SplicingIsOnePass(Places(n), -1, SortDown(targets));
    hide SpliceAll, OnePass, Effective, Covered, SortBy, Starts, DebtFrom, Overdrawn;
    forall p: nat | p < n ensures p in Trace(n, targets) <==> !Removed(spans, p) {
      KeptPlaces(n, spans, 0, 0, p);
      DebtIff(spans, p);
    }
  }

  // ---------------------------------------------------------------- disjoint spans

  /** Nothing before `o` is touched, and what is left are the uncovered units. */
  ghost predicate Clean(n: nat, ordered: seq<Entity>, now: seq<int>, o: nat) {
    && o <= |now| && o <= n
    && (forall i :: 0 <= i < |now| ==> if i < o then now[i] == i else now[i] == -1 || now[i] >= o)
    && (forall p :: 0 <= p < n ==> (p in now <==> !Covered(n, ordered, p)))
    && forall e :: e in ordered && InRange(n, e) ==> o <= e.offset
  }

  lemma CoveredSnoc(n: nat, ordered: seq<Entity>, f: Entity, p: int)
    ensures Covered(n, ordered + [f], p) <==>
        Covered(n, ordered, p) || (InRange(n, f) && f.offset <= p < f.offset + f.length)
  {
    hide InRange;
    assert f in ordered + [f];
    assert forall e :: e in ordered + [f] <==> e in ordered || e == f;
  }

  lemma CleanSplice(n: nat, ordered: seq<Entity>, now: seq<int>, o: nat, f: Entity)
    requires Clean(n, ordered, now, o) && InRange(n, f) && f.offset + f.length <= o
    ensures Clean(n, ordered + [f], Splice(now, -1, f), f.offset)
  {
    var after := Splice(now, -1, f);
    assert forall i :: 0 <= i < f.offset ==> after[i] == now[i];
    assert forall i :: f.offset < i < |after| ==> after[i] == now[i + f.length - 1];
    forall p | 0 <= p < n ensures p in after <==> !Covered(n, ordered + [f], p) {
      InSplicedPlaces(now, f, p);
      CoveredSnoc(n, ordered, f, p);
      if p < o {
        assert now[p] == p;
      }
    }
  }

  lemma {:induction false} SpliceShrinks<T>(text: seq<T>, space: T, ordered: seq<Entity>)
    ensures |SpliceAll(text, space, ordered)| <= |text|
    decreases |ordered|
  {
    if ordered != [] {
      SpliceShrinks(Splice(text, space, ordered[0]), space, ordered[1..]);
    }
  }

  lemma {:induction false} DisjointIsClean(text: Text, ordered: seq<Entity>) returns (o: nat)
    requires Ascending(ordered, Backwards) && Disjoint(text, ordered)
    ensures Clean(|text|, ordered, SpliceAll(Places(|text|), -1, ordered), o)
    ensures o == |text| || exists e :: e in ordered && InRange(|text|, e) && e.offset == o
  {
    var n := |text|;
    if ordered == [] {
      o := n;
      CleanStart(n);
    } else {
      var front, f := ordered[..|ordered| - 1], ordered[|ordered| - 1];
      assert ordered == front + [f];
      assert f in ordered;
      DisjointParts(text, front, f);
      LastIsMost(ordered, Backwards);
      var before := DisjointIsClean(text, front);
      var now := SpliceAll(Places(n), -1, front);
      SpliceSnoc(Places(n), -1, front, f);
      SpliceShrinks(Places(n), -1, front);
      hide SpliceAll, Disjoint, Clean, Places;
      if InRange(n, f) {
        if e :| e in front && InRange(n, e) && e.offset == before {
          assert Backwards(e) <= Backwards(f) && Apart(e, f);
        }
        assert f.offset + f.length <= before;
        CleanSplice(n, front, now, before, f);
        o := f.offset;
      } else {
        CleanSkip(n, front, now, before, f);
        o := before;
      }
    }
  }

  lemma CleanStart(n: nat)
    ensures Clean(n, [], Places(n), n)
  {
    forall p | 0 <= p < n ensures p in Places(n) {
      assert Places(n)[p] == p;
    }
  }

  lemma CleanSkip(n: nat, ordered: seq<Entity>, now: seq<int>, o: nat, f: Entity)
    requires Clean(n, ordered, now, o) && !InRange(n, f)
    ensures Clean(n, ordered + [f], now, o)
  {
    hide InRange;
    forall p ensures Covered(n, ordered + [f], p) <==> Covered(n, ordered, p) {
      CoveredSnoc(n, ordered, f, p);
    }
  }

  /** Disjoint spans are removed rightly. */
  lemma DisjointIsRight(text: Text, targets: seq<Entity>)
    requires Disjoint(text, targets)
    ensures Right(|text|, targets)
  {
    var sorted := SortDown(targets);
    SortSorts(targets, Backwards);
    SortDownKeeps(text, targets);
    SameMembers(sorted, targets);
    var o := DisjointIsClean(text, sorted);
    hide SpliceAll, Disjoint, SortBy, SortDown;
    forall p ensures Covered(|text|, targets, p) <==> Covered(|text|, sorted, p) {}
  }

  // ---------------------------------------------------------------- two spans

  /** Two spans, `e` processed first, are removed rightly. */
  predicate Compatible(n: nat, e: Entity, f: Entity) {
    || Apart(e, f)
    || e.length == 1
    || f.offset + f.length == e.offset + 1
    || (f.offset == e.offset && f.length <= e.length && f.offset + f.length > n - e.length + 1)
  }

  lemma SortTwo(e: Entity, f: Entity)
    requires e.offset >= f.offset
    ensures SortDown([e, f]) == [e, f]
  {
    SortedIsFixed([e, f], Backwards);
  }

  lemma SpliceTwo<T>(text: seq<T>, space: T, e: Entity, f: Entity)
    ensures SpliceAll(text, space, [e, f]) == Splice(Splice(text, space, e), space, f)
  {
    hide Splice;
    assert [e, f][1..] == [f] && [f][1..] == [];
    assert SpliceAll(Splice(text, space, e), space, [f]) == Splice(Splice(text, space, e), space, f);
  }

  /** Splicing keeps what lies before the span and what lies behind it. */
  lemma InSplicedPlaces(places: seq<int>, f: Entity, p: nat)
    requires InRange(|places|, f)
    ensures p in Splice(places, -1, f) <==>
      exists i :: 0 <= i < |places| && places[i] == p && !(f.offset <= i < f.offset + f.length)
  {
    var c, d := f.offset, f.offset + f.length;
    var after := Splice(places, -1, f);
    assert forall i :: 0 <= i < c ==> after[i] == places[i];
    assert forall i :: c < i < |after| ==> after[i] == places[i + f.length - 1];
    if i :| 0 <= i < |places| && places[i] == p && !(c <= i < d) {
      assert after[if i < c then i else i - f.length + 1] == p;
    }
  }

  lemma TraceOfTwo(n: nat, e: Entity, f: Entity, p: nat)
    requires InRange(n, e) && InRange(n, f) && e.offset >= f.offset && p < n
    ensures var (a, b, c, d) := (e.offset, e.offset + e.length, f.offset, f.offset + f.length);
            p in Trace(n, [e, f]) <==>
            if d > n - e.length + 1 then p < a || p >= b
            else p < c || (d <= p < a) || (p >= b && p - e.length + 1 >= d)
  {
    SortTwo(e, f);
    SpliceTwo(Places(n), -1, e, f);
    var first := Splice(Places(n), -1, e);
    InSplice(n, e, p);
    hide SpliceAll, SortDown, Places;
    if InRange(|first|, f) {
      InSplicedPlaces(first, f, p);
      hide Splice;
      if p < e.offset {
        assert first[p] == p;
      } else if p >= e.offset + e.length {
        assert first[p - e.length + 1] == p;
      }
    }
  }

  /** After one splice the units before the span keep their index, those behind it moved up. */
  lemma InSplice(n: nat, e: Entity, p: nat)
    requires InRange(n, e) && p < n
    ensures var first := Splice(Places(n), -1, e);
            && |first| == n - e.length + 1
            && (forall i :: 0 <= i < |first| ==>
                 first[i] == if i < e.offset then i else if i == e.offset then -1 else i + e.length - 1)
            && (p in first <==> p < e.offset || p >= e.offset + e.length)
  {
    var first := Splice(Places(n), -1, e);
    if p < e.offset {
      assert first[p] == p;
    }
    if p >= e.offset + e.length {
      assert first[p - e.length + 1] == p;
    }
  }

  lemma CoveredByTwo(n: nat, e: Entity, f: Entity, p: int)
    requires InRange(n, e) && InRange(n, f)
    ensures Covered(n, [e, f], p) <==> e.offset <= p < e.offset + e.length || f.offset <= p < f.offset + f.length
  {
    assert e in [e, f] && f in [e, f];
  }

  /** Main result for two spans: removing both is right exactly when they are compatible. */
  lemma TwoSpansRightIff(n: nat, e: Entity, f: Entity)
    requires InRange(n, e) && InRange(n, f) && e.offset >= f.offset
    ensures Right(n, [e, f]) <==> Compatible(n, e, f)
  {
    hide Trace, Covered;
    var (a, b, c, d) := (e.offset, e.offset + e.length, f.offset, f.offset + f.length);
    forall p: nat | p < n
      ensures Covered(n, [e, f], p) <==> a <= p < b || c <= p < d
      ensures p in Trace(n, [e, f]) <==>
        if d > n - e.length + 1 then p < a || p >= b else p < c || (d <= p < a) || (p >= b && p - e.length + 1 >= d)
    {
      CoveredByTwo(n, e, f, p);
      TraceOfTwo(n, e, f, p);
    }
    if !Compatible(n, e, f) {
      var p: nat := if d > n - e.length + 1 then (if c < a then c else b) else if b > d then b else d;
      assert p < n;
      assert p in Trace(n, [e, f]) <==> Covered(n, [e, f], p);
    }
  }

  /** The outer of two nested spans is skipped when the inner one shrank the text too much, and its first unit leaks. */
  lemma OverlapLeaks()
    ensures var outer, inner := Entity(Url, 0, 4), Entity(Mention, 1, 3);
            !Right(4, [inner, outer]) && Trace(4, [inner, outer]) == [0, -1] && Covered(4, [inner, outer], 0)
  {
    var outer, inner := Entity(Url, 0, 4), Entity(Mention, 1, 3);
    SortTwo(inner, outer);
    SpliceTwo(Places(4), -1, inner, outer);
    TwoSpansRightIff(4, inner, outer);
    CoveredByTwo(4, inner, outer, 0);
  }

  /** With more text behind them the same spans delete two units outside both. */
  lemma OverlapDeletes()
    ensures var outer, inner := Entity(Url, 0, 4), Entity(Mention, 1, 3);
            && !Right(7, [inner, outer]) && Trace(7, [inner, outer]) == [-1, 6]
            && forall p :: 4 <= p < 6 ==> !Covered(7, [inner, outer], p)
  {
    var outer, inner := Entity(Url, 0, 4), Entity(Mention, 1, 3);
    SortTwo(inner, outer);
    SpliceTwo(Places(7), -1, inner, outer);
    TwoSpansRightIff(7, inner, outer);
    forall p: int | 4 <= p < 6 ensures !Covered(7, [inner, outer], p) {
      CoveredByTwo(7, inner, outer, p);
    }
  }
}
