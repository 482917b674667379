/** Folding the pool snapshots of concurrent collectors into one cache: the newest entry under each key wins. */
module PoolMerge {
  import opened Common

  /** A raw timestamp field: absent or empty, not a date, or a moment. */
  datatype Stamp = Missing | Malformed | At(moment: int)

  datatype Item = Item(lastRanked: Stamp, lastSeen: Stamp, created: Stamp, updated: Stamp, body: string)

  /** What a JSON file may hold under a key. */
  datatype Value = Dict(item: Item) | Other(text: string)

  type Items = map<string, Value>
  type Clock = Item -> int

  /** Anything that is not a date counts as the epoch. */
  function Moment(stamp: Stamp): int {
    if stamp.At? then stamp.moment else 0
  }

  function MaxOf(a: int, b: int): int {
    if a >= b then a else b
  }

  function CatalogTime(item: Item): int {
    MaxOf(MaxOf(Moment(item.lastRanked), Moment(item.lastSeen)), Moment(item.created))
  }

  /** The update time, or the creation time when there is none; a malformed update time still counts as one. */
  function GroupTime(item: Item): int {
    Moment(if item.updated.Missing? then item.created else item.updated)
  }

  /** The moment a raw field stands for: its own, or the epoch when it is no date. */
  ghost predicate StandsFor(stamp: Stamp, moment: int) {
    stamp == At(moment) || (!stamp.At? && moment == 0)
  }

  /** A catalog entry is as new as the latest of its three times. */
  lemma CatalogTimeIs(item: Item)
    ensures var t := CatalogTime(item);
            && (StandsFor(item.lastRanked, t) || StandsFor(item.lastSeen, t) || StandsFor(item.created, t))
            && forall m ::
                 StandsFor(item.lastRanked, m) || StandsFor(item.lastSeen, m) || StandsFor(item.created, m) ==> m <= t
  {
  }

  /** A group entry is as new as its update, or as its creation when no update is recorded. */
  lemma GroupTimeIs(item: Item)
    ensures item.updated != Missing ==> StandsFor(item.updated, GroupTime(item))
    ensures item.updated == Missing ==> StandsFor(item.created, GroupTime(item))
  {
  }

  predicate HasDict(items: Items, key: string) {
    key in items && items[key].Dict?
  }

  /** The snapshot's entry replaces what is stored. */
  predicate Wins(dst: Items, src: Items, ts: Clock, key: string) {
    HasDict(src, key) && (HasDict(dst, key) ==> ts(src[key].item) > ts(dst[key].item))
  }

  function Union(dst: Items, src: Items, ts: Clock): Items {
    map key | key in dst.Keys + src.Keys && (key in dst || HasDict(src, key)) ::
      if Wins(dst, src, ts, key) then src[key] else dst[key]
  }

  function Fold(dst: Items, snapshots: seq<Items>, ts: Clock): Items {
    if snapshots == [] then dst
    else Union(Fold(dst, snapshots[..|snapshots| - 1], ts), snapshots[|snapshots| - 1], ts)
  }

  // ---------------------------------------------------------------- what the fold is

  /** The entries that compete for a key. */
  ghost predicate Candidate(dst: Items, snapshots: seq<Items>, key: string, item: Item) {
    (HasDict(dst, key) && dst[key].item == item)
    || exists s: Items :: s in snapshots && HasDict(s, key) && s[key].item == item
  }

  lemma FoldStep(dst: Items, snapshots: seq<Items>, key: string, item: Item)
    requires snapshots != []
    ensures var front, last := snapshots[..|snapshots| - 1], snapshots[|snapshots| - 1];
            Candidate(dst, snapshots, key, item) <==>
              Candidate(dst, front, key, item) || (HasDict(last, key) && last[key].item == item)
  {
    var front, last := snapshots[..|snapshots| - 1], snapshots[|snapshots| - 1];
    assert snapshots == front + [last];
  }

  /** The folded entry is a candidate, and no candidate is newer; without candidates the key keeps what it had. */
  lemma {:induction false} FoldIsNewest(dst: Items, snapshots: seq<Items>, ts: Clock, key: string)
    ensures var end := Fold(dst, snapshots, ts);
            && (HasDict(end, key) ==> Candidate(dst, snapshots, key, end[key].item))
            && (forall item :: Candidate(dst, snapshots, key, item) ==>
                HasDict(end, key) && ts(item) <= ts(end[key].item))
            && (!HasDict(end, key) ==> (key in end <==> key in dst) && (key in dst ==> end[key] == dst[key]))
  {
    if snapshots != [] {
      var front, last := snapshots[..|snapshots| - 1], snapshots[|snapshots| - 1];
      FoldIsNewest(dst, front, ts, key);
      var before, end := Fold(dst, front, ts), Fold(dst, snapshots, ts);
      hide Candidate, Fold;
      forall item ensures Candidate(dst, snapshots, key, item) <==>
          Candidate(dst, front, key, item) || (HasDict(last, key) && last[key].item == item)
      {
        FoldStep(dst, snapshots, key, item);
      }
    }
  }

  /** The keys of the fold are those of the cache and of every snapshot entry that is a dict. */
  lemma FoldKeys(dst: Items, snapshots: seq<Items>, ts: Clock, key: string)
    ensures key in Fold(dst, snapshots, ts) <==> key in dst || exists s: Items :: s in snapshots && HasDict(s, key)
  {
    FoldIsNewest(dst, snapshots, ts, key);
    hide Fold;
    if s: Items :| s in snapshots && HasDict(s, key) {
      assert Candidate(dst, snapshots, key, s[key].item);
    }
  }

  /** Different entries under one key never share a time. */
  ghost predicate NoTies(dst: Items, snapshots: seq<Items>, ts: Clock) {
    forall key, a, b :: Candidate(dst, snapshots, key, a) && Candidate(dst, snapshots, key, b) && ts(a) == ts(b) ==>
        a == b
  }

  lemma SameCandidates(dst: Items, a: seq<Items>, b: seq<Items>, key: string, item: Item)
    requires multiset(a) == multiset(b)
    ensures Candidate(dst, a, key, item) <==> Candidate(dst, b, key, item)
  {
    assert forall s :: s in a <==> s in multiset(a);
    assert forall s :: s in b <==> s in multiset(b);
  }

  /** Some snapshot has this entry. */
  ghost predicate Brings(snapshots: seq<Items>, key: string, item: Item) {
    exists s: Items :: s in snapshots && HasDict(s, key) && s[key].item == item
  }

  /** An entry newer than the cache's that no snapshot's is newer than. */
  ghost predicate Leads(dst: Items, snapshots: seq<Items>, ts: Clock, key: string, item: Item) {
    && Brings(snapshots, key, item)
    && (HasDict(dst, key) ==> ts(dst[key].item) < ts(item))
    && forall other :: Brings(snapshots, key, other) ==> ts(other) <= ts(item)
  }

  /** Two different entries lead under one key. */
  ghost predicate LeadersTie(dst: Items, snapshots: seq<Items>, ts: Clock) {
    exists key, x, y :: Leads(dst, snapshots, ts, key, x) && Leads(dst, snapshots, ts, key, y) && x != y
  }

  /** The cache keeps its entry against entries that are no newer. */
  lemma {:induction false} CacheKeeps(dst: Items, snapshots: seq<Items>, ts: Clock, key: string)
    requires HasDict(dst, key) && forall other :: Brings(snapshots, key, other) ==> ts(other) <= ts(dst[key].item)
    ensures HasDict(Fold(dst, snapshots, ts), key) && Fold(dst, snapshots, ts)[key] == dst[key]
  {
    if snapshots != [] {
      var front, last := snapshots[..|snapshots| - 1], snapshots[|snapshots| - 1];
      assert snapshots == front + [last];
      forall other | Brings(front, key, other) ensures Brings(snapshots, key, other) {}
      CacheKeeps(dst, front, ts, key);
      if HasDict(last, key) {
        assert Brings(snapshots, key, last[key].item);
      }
    }
  }

  lemma {:induction false} FoldFront(dst: Items, s: Items, rest: seq<Items>, ts: Clock)
    ensures Fold(dst, [s] + rest, ts) == Fold(Union(dst, s, ts), rest, ts)
  {
    hide Union;
    if rest == [] {
      assert [s] + rest == [s] && [s][..0] == [];
      assert Fold(dst, [s], ts) == Union(Fold(dst, [], ts), s, ts);
    } else {
      var all := [s] + rest;
      assert all[..|all| - 1] == [s] + rest[..|rest| - 1];
      FoldFront(dst, s, rest[..|rest| - 1], ts);
    }
  }

  /** The snapshots with one of them moved to the front. */
  lemma MovedFirst(snapshots: seq<Items>, s: Items) returns (rest: seq<Items>)
    requires s in snapshots
    ensures multiset([s] + rest) == multiset(snapshots)
  {
    var i :| 0 <= i < |snapshots| && snapshots[i] == s;
    rest := snapshots[..i] + snapshots[i + 1..];
    assert snapshots == snapshots[..i] + [s] + snapshots[i + 1..];
  }

  /** In some order of the snapshots the leader wins. */
  lemma LeaderCanWin(dst: Items, snapshots: seq<Items>, ts: Clock, key: string, item: Item) returns (order: seq<Items>)
    requires Leads(dst, snapshots, ts, key, item)
    ensures multiset(order) == multiset(snapshots)
    ensures HasDict(Fold(dst, order, ts), key) && Fold(dst, order, ts)[key] == Dict(item)
  {
    var s: Items :| s in snapshots && HasDict(s, key) && s[key].item == item;
    var rest := MovedFirst(snapshots, s);
    order := [s] + rest;
    var first := Union(dst, s, ts);
    assert HasDict(first, key) && first[key] == Dict(item);
    hide Union, Fold;
    forall other | Brings(rest, key, other) ensures ts(other) <= ts(item) {
      var t: Items :| t in rest && HasDict(t, key) && t[key].item == other;
      assert t in order && t in multiset(order) && t in multiset(snapshots);
      assert Brings(snapshots, key, other);
    }
    FoldFront(dst, s, rest, ts);
    CacheKeeps(first, rest, ts, key);
  }

  /** Without tied leaders two orders of the snapshots agree under every key. */
  lemma UntiedEntry(dst: Items, a: seq<Items>, b: seq<Items>, ts: Clock, key: string)
    requires multiset(a) == multiset(b) && !LeadersTie(dst, a, ts)
    ensures key in Fold(dst, a, ts) <==> key in Fold(dst, b, ts)
    ensures key in Fold(dst, a, ts) ==> Fold(dst, a, ts)[key] == Fold(dst, b, ts)[key]
  {
    var x, y := Fold(dst, a, ts), Fold(dst, b, ts);
    FoldIsNewest(dst, a, ts, key);
    FoldIsNewest(dst, b, ts, key);
    forall item
      ensures Candidate(dst, a, key, item) <==> Candidate(dst, b, key, item)
      ensures Candidate(dst, a, key, item) <==> (HasDict(dst, key) && dst[key].item == item) || Brings(a, key, item)
      ensures Candidate(dst, b, key, item) <==> (HasDict(dst, key) && dst[key].item == item) || Brings(b, key, item)
    {
      SameCandidates(dst, a, b, key, item);
    }
    hide Candidate, Fold, Brings;
    if HasDict(x, key) {
      assert Candidate(dst, b, key, x[key].item) && Candidate(dst, a, key, y[key].item);
      if HasDict(dst, key) && ts(dst[key].item) == ts(x[key].item) {
        CacheKeeps(dst, a, ts, key);
        CacheKeeps(dst, b, ts, key);
      } else {
        assert HasDict(dst, key) ==> Candidate(dst, a, key, dst[key].item);
        assert Leads(dst, a, ts, key, x[key].item) && Leads(dst, a, ts, key, y[key].item);
      }
    }
  }

  /**
   * Main result: the fold is the same for every order of the snapshots exactly when under no key two different
   * entries lead; ties among older entries, or with the cache, do not matter.
   */
  lemma FoldAnyOrderIff(dst: Items, a: seq<Items>, ts: Clock)
    ensures (forall b: seq<Items> :: multiset(b) == multiset(a) ==> Fold(dst, b, ts) == Fold(dst, a, ts)) <==>
              !LeadersTie(dst, a, ts)
  {
    hide Fold, Leads;
    if LeadersTie(dst, a, ts) {
      var key, x, y :| Leads(dst, a, ts, key, x) && Leads(dst, a, ts, key, y) && x != y;
      var b := LeaderCanWin(dst, a, ts, key, x);
      var c := LeaderCanWin(dst, a, ts, key, y);
      assert Fold(dst, b, ts) != Fold(dst, c, ts);
    } else {
      hide LeadersTie;
      forall b: seq<Items> | multiset(b) == multiset(a) ensures Fold(dst, b, ts) == Fold(dst, a, ts) {
        forall key
          ensures key in Fold(dst, a, ts) <==> key in Fold(dst, b, ts)
          ensures key in Fold(dst, a, ts) ==> Fold(dst, a, ts)[key] == Fold(dst, b, ts)[key]
        {
          UntiedEntry(dst, a, b, ts, key);
        }
        SameMap(Fold(dst, a, ts), Fold(dst, b, ts));
      }
    }
  }

  /** In particular the fold does not depend on the order of the snapshots when no two entries tie. */
  lemma FoldAnyOrder(dst: Items, a: seq<Items>, b: seq<Items>, ts: Clock)
    requires multiset(a) == multiset(b) && NoTies(dst, a, ts)
    ensures Fold(dst, a, ts) == Fold(dst, b, ts)
  {
    FoldAnyOrderIff(dst, a, ts);
    if key, x, y :| Leads(dst, a, ts, key, x) && Leads(dst, a, ts, key, y) && x != y {
      assert Candidate(dst, a, key, x) && Candidate(dst, a, key, y);
    }
  }

  /** Merging any snapshot once more changes nothing, ties or not. */
  lemma FoldAgain(dst: Items, snapshots: seq<Items>, ts: Clock, s: Items)
    requires s in snapshots
    ensures Union(Fold(dst, snapshots, ts), s, ts) == Fold(dst, snapshots, ts)
    ensures Touched(Fold(dst, snapshots, ts), s, ts) == {}
  {
    var end := Fold(dst, snapshots, ts);
    forall key | HasDict(s, key) ensures HasDict(end, key) && !Wins(end, s, ts, key) {
      FoldIsNewest(dst, snapshots, ts, key);
      hide Fold;
      assert Candidate(dst, snapshots, key, s[key].item);
    }
    hide Fold;
    SameMap(Union(end, s, ts), end);
  }

  /** Both snapshots bring an entry newer than the cache's, of one time but different. */
  predicate TieAt(dst: Items, a: Items, b: Items, ts: Clock, key: string) {
    && HasDict(a, key) && HasDict(b, key) && a[key] != b[key] && ts(a[key].item) == ts(b[key].item)
    && Wins(dst, a, ts, key)
  }

  lemma EntryCommutesIff(dst: Items, a: Items, b: Items, ts: Clock, key: string)
    ensures var x, y := Union(Union(dst, a, ts), b, ts), Union(Union(dst, b, ts), a, ts);
            && (key in x <==> key in y)
            && (TieAt(dst, a, b, ts, key) ==> key in x)
            && (key in x ==> (x[key] == y[key] <==> !TieAt(dst, a, b, ts, key)))
  {
  }

  /** Two snapshots commute exactly when they tie nowhere; the documentation promises it always. */
  lemma UnionCommutesIff(dst: Items, a: Items, b: Items, ts: Clock)
    ensures Union(Union(dst, a, ts), b, ts) == Union(Union(dst, b, ts), a, ts) <==>
        forall key :: !TieAt(dst, a, b, ts, key)
  {
    hide Union, TieAt;
    var x, y := Union(Union(dst, a, ts), b, ts), Union(Union(dst, b, ts), a, ts);
    forall key ensures (key in x <==> key in y) && (TieAt(dst, a, b, ts, key) ==> key in x)
      && (key in x ==> (x[key] == y[key] <==> !TieAt(dst, a, b, ts, key)))
    {
      EntryCommutesIff(dst, a, b, ts, key);
    }
    if forall key :: !TieAt(dst, a, b, ts, key) {
      SameMap(x, y);
    }
  }

  /** The keys a merge adds or replaces. */
  function Touched(dst: Items, src: Items, ts: Clock): set<string> {
    set key | key in src && Wins(dst, src, ts, key)
  }

  // ---------------------------------------------------------------- the cache

  lemma UnionOfNone(dst: Items, src: Items, ts: Clock)
    ensures Union(dst, src - src.Keys, ts) == dst && Touched(dst, src - src.Keys, ts) == {}
  {
    SameMap(Union(dst, src - src.Keys, ts), dst);
  }

  /** One more entry of the snapshot. */
  lemma UnionNext(dst: Items, src: Items, ts: Clock, todo: set<string>, key: string)
    requires todo <= src.Keys && key in todo
    ensures var now := Union(dst, src - todo, ts);
            && (key in now <==> key in dst) && (key in dst ==> now[key] == dst[key])
            && Union(dst, src - (todo - {key}), ts) == (if Wins(dst, src, ts, key) then now[key := src[key]] else now)
    ensures key !in Touched(dst, src - todo, ts)
    ensures Touched(dst, src - (todo - {key}), ts) ==
              Touched(dst, src - todo, ts) + if Wins(dst, src, ts, key) then {key} else {}
  {
    var now, next := Union(dst, src - todo, ts), Union(dst, src - (todo - {key}), ts);
    SameMap(next, if Wins(dst, src, ts, key) then now[key := src[key]] else now);
  }

  class Pool {
    var items: Items

    constructor (items: Items)
      ensures this.items == items
    {
      this.items := items;
    }

    method UnionItems(src: Items, ts: Clock) returns (added: nat)
      modifies this
      ensures items == Union(old(items), src, ts)
      ensures added == |Touched(old(items), src, ts)|
    {
      hide Union, Touched;
      added := 0;
      var todo := src.Keys;
      UnionOfNone(items, src, ts);
      while todo != {}
        invariant todo <= src.Keys
        invariant items == Union(old(items), src - todo, ts) && added == |Touched(old(items), src - todo, ts)|
        decreases |todo|
      {
        var key :| key in todo;
        UnionNext(old(items), src, ts, todo, key);
        todo := todo - {key};
        if src[key].Dict? {
          if !(key in items && items[key].Dict?) || ts(src[key].item) > ts(items[key].item) {
            items := items[key := src[key]];
            added := added + 1;
          }
        }
      }
      assert src - {} == src;
    }

    method MergeCatalog(src: Items) returns (added: nat)
      modifies this
      ensures items == Union(old(items), src, CatalogTime)
      ensures added == |Touched(old(items), src, CatalogTime)|
    {
      added := UnionItems(src, CatalogTime);
    }

    method MergeGroupPool(src: Items) returns (added: nat)
      modifies this
      ensures items == Union(old(items), src, GroupTime)
      ensures added == |Touched(old(items), src, GroupTime)|
    {
      added := UnionItems(src, GroupTime);
    }
  }
}
