/** Exclusive ownership of promo groups over many accounts: who keeps a contested group, and the runtime guard. */
module Exclusivity {
  import opened Common
  import opened Refs
  import opened Routes
  import opened TextOrder
  import opened Ownership

  /** An account id with its profile. */
  datatype Entry = Entry(id: string, config: Config)

  /** One listed group with a key: on which account, under which source, in which spelling. */
  datatype Placement = Placement(key: string, id: string, source: string, group: string)

  ghost predicate DistinctIds(es: seq<Entry>) {
    forall i, j :: 0 <= i < j < |es| ==> es[i].id != es[j].id
  }

  ghost predicate AllWellFormed(es: seq<Entry>) {
    forall i :: 0 <= i < |es| ==> WellFormed(es[i].config)
  }

  // ---------------------------------------------------------------- _iter_route_groups over all profiles

  function ListPlacements(id: string, source: string, gs: seq<string>): seq<Placement> {
    if gs == [] then []
    else
      var front := ListPlacements(id, source, gs[..|gs| - 1]);
      var g := gs[|gs| - 1];
      if Key(g).Some? then front + [Placement(Key(g).value, id, source, g)] else front
  }

  function RoutePlacements(id: string, rs: seq<Route>): seq<Placement> {
    if rs == [] then []
    else
      var front := RoutePlacements(id, rs[..|rs| - 1]);
      var r := rs[|rs| - 1];
      if r.source == "" then front else front + ListPlacements(id, r.source, r.groups)
  }

  function Placements(es: seq<Entry>): seq<Placement> {
    if es == [] then []
    else Placements(es[..|es| - 1]) + RoutePlacements(es[|es| - 1].id, Migrate(es[|es| - 1].config))
  }

  lemma {:induction false} ListPlacementsMembers(id: string, source: string, gs: seq<string>)
    ensures forall p :: p in ListPlacements(id, source, gs) <==>
              p.id == id && p.source == source && p.group in gs && Key(p.group) == Some(p.key)
  {
    hide Key;
    if gs != [] {
      ListPlacementsMembers(id, source, gs[..|gs| - 1]);
      assert gs == gs[..|gs| - 1] + [gs[|gs| - 1]];
    }
  }

  lemma {:induction false} RoutePlacementsMembers(id: string, rs: seq<Route>, p: Placement)
    ensures p in RoutePlacements(id, rs) <==>
              p.id == id && RoutesHoldAt(rs, p.source, p.group) && Key(p.group) == Some(p.key)
  {
    hide Key;
    if rs != [] {
      var front, r := rs[..|rs| - 1], rs[|rs| - 1];
      RoutePlacementsMembers(id, front, p);
      ListPlacementsMembers(id, r.source, r.groups);
      assert RoutesHoldAt(rs, p.source, p.group) <==>
          RoutesHoldAt(front, p.source, p.group) || (r.source == p.source != "" && p.group in r.groups) by {
        if RoutesHoldAt(front, p.source, p.group) {
          var i :| 0 <= i < |front| && front[i].source == p.source != "" && p.group in front[i].groups;
          assert rs[i] == front[i];
        }
      }
    }
  }

  ghost predicate IsPlacement(es: seq<Entry>, i: int, p: Placement) {
    0 <= i < |es| && es[i].id == p.id && HoldsAt(es[i].config, p.source, p.group) && Key(p.group) == Some(p.key)
  }

  lemma {:induction false} PlacementsMembers(es: seq<Entry>, p: Placement)
    ensures p in Placements(es) <==> exists i :: IsPlacement(es, i, p)
  {
    hide Key, Migrate, RoutesHoldAt;
    if es != [] {
      var front, e := es[..|es| - 1], es[|es| - 1];
      PlacementsMembers(front, p);
      RoutePlacementsMembers(e.id, Migrate(e.config), p);
      if p in Placements(front) {
        var i :| IsPlacement(front, i, p);
        assert IsPlacement(es, i, p);
      } else if p in Placements(es) {
        assert IsPlacement(es, |es| - 1, p);
      }
      if i :| IsPlacement(es, i, p) {
        assert i < |front| ==> IsPlacement(front, i, p);
      }
    }
  }

  /** A profile holds a key exactly when some placement says so. */
  lemma PlacementsHold(es: seq<Entry>, i: int, key: string)
    requires DistinctIds(es) && 0 <= i < |es|
    ensures Holds(es[i].config, key) <==> exists p :: p in Placements(es) && p.id == es[i].id && p.key == key
  {
    hide Key, Migrate, RoutesHoldAt, RoutesHold, Placements;
    HoldsThrough(Migrate(es[i].config), key);
    if Holds(es[i].config, key) {
      var s, g :| RoutesHoldAt(Migrate(es[i].config), s, g) && Key(g) == Some(key);
      var p := Placement(key, es[i].id, s, g);
      assert IsPlacement(es, i, p);
      PlacementsMembers(es, p);
    }
    if p :| p in Placements(es) && p.id == es[i].id && p.key == key {
      PlacementsMembers(es, p);
      var j :| IsPlacement(es, j, p);
      assert j == i;
    }
  }

  // ---------------------------------------------------------------- owners

  ghost predicate Contested(es: seq<Entry>, key: string) {
    exists i, j :: 0 <= i < j < |es| && Holds(es[i].config, key) && Holds(es[j].config, key)
  }

  ghost predicate Held(es: seq<Entry>, key: string) {
    exists i :: 0 <= i < |es| && Holds(es[i].config, key)
  }

  function StripIds(ids: seq<string>): seq<string> {
    if ids == [] then []
    else StripIds(ids[..|ids| - 1]) + (if Strip(ids[|ids| - 1]) == "" then [] else [Strip(ids[|ids| - 1])])
  }

  lemma {:induction false} StripIdsMembers(ids: seq<string>)
    ensures forall a :: a in StripIds(ids) <==> a != "" && exists b :: b in ids && Strip(b) == a
  {
    hide Strip;
    if ids != [] {
      StripIdsMembers(ids[..|ids| - 1]);
      assert ids == ids[..|ids| - 1] + [ids[|ids| - 1]];
    }
  }

  /**
   * The deterministic owner of a group among account ids; `None` where the source raises: no ids, or a
   * reference without a key. SHA-1 is the function `hash`.
   */
  function RightfulOwner(group: string, ids: seq<string>, hash: string -> nat): Option<string> {
    var sorted := SortedSet(StripIds(ids));
    if sorted == [] || Key(group).None? then None
    else Some(sorted[hash(Key(group).value) % |sorted|])
  }

  /** The owner is one of the ids, and depends on them only as a set. */
  lemma RightfulOwnerIsMember(group: string, ids: seq<string>, hash: string -> nat)
    requires RightfulOwner(group, ids, hash).Some?
    ensures exists a :: a in ids && RightfulOwner(group, ids, hash).value == Strip(a)
  {
    hide Strip, Key;
    StripIdsMembers(ids);
    var sorted := SortedSet(StripIds(ids));
    assert sorted[hash(Key(group).value) % |sorted|] in sorted;
  }

  lemma RightfulOwnerOfSet(group: string, ids: seq<string>, ids': seq<string>, hash: string -> nat)
    requires forall a :: a in ids <==> a in ids'
    ensures RightfulOwner(group, ids, hash) == RightfulOwner(group, ids', hash)
  {
    hide Strip, Key;
    StripIdsMembers(ids);
    StripIdsMembers(ids');
    AscendingUnique(SortedSet(StripIds(ids)), SortedSet(StripIds(ids')));
  }

  /** The different account ids among `ids`, stripped and not blank. */
  ghost function Clean(ids: seq<string>): set<string> {
    set b | b in ids && Strip(b) != "" :: Strip(b)
  }

  /** Where the owner stands: of the n different ids exactly hash(key) % n come before it. */
  ghost predicate Stands(ids: set<string>, a: string, key: string, hash: string -> nat) {
    a in ids && |Below(ids, a)| == hash(key) % |ids|
  }

  lemma CleanIsSorted(ids: seq<string>)
    ensures Members(SortedSet(StripIds(ids))) == Clean(ids)
    ensures |SortedSet(StripIds(ids))| == |Clean(ids)|
  {
    hide Strip;
    StripIdsMembers(ids);
    AscendingSize(SortedSet(StripIds(ids)));
    assert forall x :: x in Members(SortedSet(StripIds(ids))) <==> x in Clean(ids);
  }

  /** The hash picks the owner's place: the source raises without an id or a key, else exactly one id stands there. */
  lemma OwnerStands(group: string, ids: seq<string>, hash: string -> nat, a: string)
    ensures RightfulOwner(group, ids, hash).None? <==> Clean(ids) == {} || Key(group).None?
    ensures RightfulOwner(group, ids, hash) == Some(a) <==>
              Clean(ids) != {} && Key(group).Some? && Stands(Clean(ids), a, Key(group).value, hash)
  {
    hide Strip, Key, Below, Ascending, Members, Clean, StripIds, SortedSet;
    CleanIsSorted(ids);
    EmptyMembers(SortedSet(StripIds(ids)));
    if Clean(ids) != {} && Key(group).Some? {
      var sorted := SortedSet(StripIds(ids));
      var n := hash(Key(group).value) % |sorted|;
      PlaceIsRank(sorted, n);
      InMembers(sorted, n);
      if a in Clean(ids) && |Below(Clean(ids), a)| == n {
        RankIsUnique(Clean(ids), a, sorted[n]);
      }
    }
  }

  lemma EmptyMembers(s: seq<string>)
    ensures s == [] <==> Members(s) == {}
  {
    if s != [] {
      assert s[0] in Members(s);
    }
  }

  lemma InMembers(s: seq<string>, n: nat)
    requires n < |s|
    ensures s[n] in Members(s)
  {
  }

  /** Each account owns the group under some hash. */
  lemma AnyoneOwns(group: string, ids: seq<string>, a: string)
    requires Key(group).Some? && a in Clean(ids)
    ensures RightfulOwner(group, ids, (key: string) => |Below(Clean(ids), a)|) == Some(a)
  {
    hide Strip, Key, Clean, RightfulOwner;
    var rank := |Below(Clean(ids), a)|;
    RankBelow(Clean(ids), a);
    hide Below;
    OwnerStands(group, ids, (key: string) => rank, a);
    assert rank % |Clean(ids)| == rank;
  }

  lemma RankBelow(ids: set<string>, a: string)
    requires a in ids
    ensures |Below(ids, a)| < |ids|
  {
    SubsetSize(Below(ids, a) + {a}, ids);
  }

  predicate HasSourceId(es: seq<Entry>, id: string) {
    exists i :: 0 <= i < |es| && es[i].id == id && HasSource(es[i].config)
  }

  function WithSource(es: seq<Entry>, ids: seq<string>): seq<string> {
    if ids == [] then []
    else
      var a := ids[|ids| - 1];
      WithSource(es, ids[..|ids| - 1]) + (if HasSourceId(es, a) then [a] else [])
  }

  lemma {:induction false} WithSourceMembers(es: seq<Entry>, ids: seq<string>)
    ensures forall a :: a in WithSource(es, ids) <==> a in ids && HasSourceId(es, a)
  {
    hide HasSourceId;
    if ids != [] {
      WithSourceMembers(es, ids[..|ids| - 1]);
      assert ids == ids[..|ids| - 1] + [ids[|ids| - 1]];
    }
  }

  function Ids(es: seq<Entry>): seq<string> {
    seq(|es|, i requires 0 <= i < |es| => es[i].id)
  }

  /** Accounts that may receive contested groups: requested (all, by default) and with an enabled source. */
  function EligibleIds(es: seq<Entry>, accountIds: seq<string>): seq<string> {
    SortedSet(WithSource(es, StripIds(if accountIds == [] then Ids(es) else accountIds)))
  }

  /** A requested account, or any when none was requested, with an enabled source. */
  ghost predicate Candidate(es: seq<Entry>, accountIds: seq<string>, i: nat)
    requires i < |es|
  {
    && HasSource(es[i].config)
    && (accountIds == [] || exists b :: b in accountIds && Strip(b) == es[i].id)
  }

  ghost function Candidates(es: seq<Entry>, accountIds: seq<string>): set<string> {
    set i: nat | i < |es| && Candidate(es, accountIds, i) :: es[i].id
  }

  /** For clean ids the eligible ids are the candidates'. */
  lemma EligibleAreCandidates(es: seq<Entry>, accountIds: seq<string>)
    requires CleanIds(es)
    ensures Clean(EligibleIds(es, accountIds)) == Candidates(es, accountIds)
  {
    hide Strip, HasSource;
    var requested := if accountIds == [] then Ids(es) else accountIds;
    StripIdsMembers(requested);
    WithSourceMembers(es, StripIds(requested));
    EligibleIdsFacts(es, accountIds);
    hide StripIds, WithSource;
    assert forall a :: a in EligibleIds(es, accountIds) <==>
        a != "" && HasSourceId(es, a) && exists b :: b in requested && Strip(b) == a;
    hide EligibleIds;
    forall a ensures a in EligibleIds(es, accountIds) <==> a in Candidates(es, accountIds) {
      if a in Candidates(es, accountIds) {
        var i: nat :| i < |es| && Candidate(es, accountIds, i) && es[i].id == a;
        assert HasSourceId(es, a) && Strip(a) == a != "";
        assert accountIds == [] ==> Ids(es)[i] == a;
      }
      if a in EligibleIds(es, accountIds) {
        var i: nat :| i < |es| && es[i].id == a && HasSource(es[i].config);
        assert Candidate(es, accountIds, i);
      }
    }
    forall a ensures a in Clean(EligibleIds(es, accountIds)) <==> a in EligibleIds(es, accountIds) {
      if a in EligibleIds(es, accountIds) {
        assert Strip(a) == a != "";
      }
    }
  }

  lemma EligibleIdsFacts(es: seq<Entry>, accountIds: seq<string>)
    ensures forall a :: a in EligibleIds(es, accountIds) ==> Strip(a) == a != "" && HasSourceId(es, a)
  {
    hide Strip, HasSourceId;
    var requested := if accountIds == [] then Ids(es) else accountIds;
    StripIdsMembers(requested);
    WithSourceMembers(es, StripIds(requested));
    forall a | a in EligibleIds(es, accountIds) ensures Strip(a) == a {
      var b :| b in requested && Strip(b) == a;
      StripIdempotent(b);
    }
  }

  // ---------------------------------------------------------------- reconcile_exclusive_profiles

  function RowsOf(ps: seq<Placement>, key: string): seq<Placement> {
    if ps == [] then []
    else
      var front := RowsOf(ps[..|ps| - 1], key);
      if ps[|ps| - 1].key == key then front + [ps[|ps| - 1]] else front
  }

  lemma {:induction false} RowsOfMembers(ps: seq<Placement>, key: string)
    ensures forall p :: p in RowsOf(ps, key) <==> p in ps && p.key == key
  {
    if ps != [] {
      RowsOfMembers(ps[..|ps| - 1], key);
      assert ps == ps[..|ps| - 1] + [ps[|ps| - 1]];
    }
  }

  /** Keys in order of first appearance: the insertion order of the `placements` dict. */
  function KeyOrder(ps: seq<Placement>): seq<string> {
    if ps == [] then []
    else
      var front := KeyOrder(ps[..|ps| - 1]);
      var key := ps[|ps| - 1].key;
      if key in front then front else front + [key]
  }

  ghost predicate DistinctKeys(keys: seq<string>) {
    forall i, j :: 0 <= i < j < |keys| ==> keys[i] != keys[j]
  }

  lemma {:induction false} KeyOrderMembers(ps: seq<Placement>)
    ensures forall k :: k in KeyOrder(ps) <==> exists p :: p in ps && p.key == k
    ensures DistinctKeys(KeyOrder(ps))
  {
    if ps != [] {
      KeyOrderMembers(ps[..|ps| - 1]);
      assert ps == ps[..|ps| - 1] + [ps[|ps| - 1]];
    }
  }

  predicate OnTwoAccounts(rows: seq<Placement>) {
    exists i, j :: 0 <= i < |rows| && 0 <= j < |rows| && rows[i].id != rows[j].id
  }

  function ContestedKeys(ps: seq<Placement>, keys: seq<string>): seq<string> {
    if keys == [] then []
    else
      var front := ContestedKeys(ps, keys[..|keys| - 1]);
      var key := keys[|keys| - 1];
      if OnTwoAccounts(RowsOf(ps, key)) then front + [key] else front
  }

  /** The contested keys, in the order reconcile visits them. */
  function Overlaps(es: seq<Entry>): seq<string> {
    var ps := Placements(es);
    ContestedKeys(ps, KeyOrder(ps))
  }

  lemma {:induction false} ContestedKeysMembers(ps: seq<Placement>, keys: seq<string>)
    requires DistinctKeys(keys)
    ensures forall k :: k in ContestedKeys(ps, keys) <==> k in keys && OnTwoAccounts(RowsOf(ps, k))
    ensures DistinctKeys(ContestedKeys(ps, keys))
  {
    hide RowsOf, OnTwoAccounts;
    if keys != [] {
      ContestedKeysMembers(ps, keys[..|keys| - 1]);
      assert keys == keys[..|keys| - 1] + [keys[|keys| - 1]];
    }
  }

  lemma HoldersOfRows(es: seq<Entry>, key: string, p: Placement) returns (i: nat)
    requires p in RowsOf(Placements(es), key)
    ensures i < |es| && es[i].id == p.id && Holds(es[i].config, key)
    ensures p.key == key && Key(p.group) == Some(key) && HoldsAt(es[i].config, p.source, p.group)
  {
    hide Key, Migrate, RoutesHoldAt, RoutesHold, Placements;
    RowsOfMembers(Placements(es), key);
    PlacementsMembers(es, p);
    i :| IsPlacement(es, i, p);
    HoldsThrough(Migrate(es[i].config), key);
  }

  /** Reconcile visits exactly the groups held by two accounts, each once. */
  lemma OverlapsAreContested(es: seq<Entry>)
    requires DistinctIds(es)
    ensures forall k :: k in Overlaps(es) <==> Contested(es, k)
    ensures DistinctKeys(Overlaps(es))
  {
    hide Holds, Placements;
    var ps := Placements(es);
    KeyOrderMembers(ps);
    ContestedKeysMembers(ps, KeyOrder(ps));
    forall k ensures k in Overlaps(es) <==> Contested(es, k) {
      OverlapIsContested(es, k);
    }
  }

  lemma OverlapIsContested(es: seq<Entry>, k: string)
    requires DistinctIds(es)
    ensures k in Overlaps(es) <==> Contested(es, k)
  {
    hide Holds, Placements, RowsOf, OnTwoAccounts;
    var ps := Placements(es);
    KeyOrderMembers(ps);
    ContestedKeysMembers(ps, KeyOrder(ps));
    hide KeyOrder, ContestedKeys, Contested;
    RowsOnTwoAccounts(es, k);
    if OnTwoAccounts(RowsOf(ps, k)) {
      KeyWithRows(ps, k);
    }
  }

  lemma KeyWithRows(ps: seq<Placement>, k: string)
    requires OnTwoAccounts(RowsOf(ps, k))
    ensures exists p :: p in ps && p.key == k
  {
    RowsOfMembers(ps, k);
    assert RowsOf(ps, k)[0] in RowsOf(ps, k);
  }

  /** The rows of a key name two accounts exactly when two accounts hold it. */
  lemma RowsOnTwoAccounts(es: seq<Entry>, k: string)
    requires DistinctIds(es)
    ensures OnTwoAccounts(RowsOf(Placements(es), k)) <==> Contested(es, k)
  {
    hide Holds, Placements, RowsOf;
    var rows := RowsOf(Placements(es), k);
    if OnTwoAccounts(rows) {
      var a, b :| 0 <= a < |rows| && 0 <= b < |rows| && rows[a].id != rows[b].id;
      var i := HoldersOfRows(es, k, rows[a]);
      var j := HoldersOfRows(es, k, rows[b]);
      assert i < j || j < i;
    }
    if Contested(es, k) {
      var i, j :| 0 <= i < j < |es| && Holds(es[i].config, k) && Holds(es[j].config, k);
      var a := RowOfHolder(es, k, i);
      var b := RowOfHolder(es, k, j);
      assert rows[a].id != rows[b].id;
    }
  }

  lemma RowOfHolder(es: seq<Entry>, k: string, i: nat) returns (a: nat)
    requires DistinctIds(es) && i < |es| && Holds(es[i].config, k)
    ensures a < |RowsOf(Placements(es), k)| && RowsOf(Placements(es), k)[a].id == es[i].id
  {
    hide Holds, Placements, RowsOf;
    var ps := Placements(es);
    PlacementsHold(es, i, k);
    var p :| p in ps && p.id == es[i].id && p.key == k;
    RowsOfMembers(ps, k);
    assert p in RowsOf(ps, k);
    a :| 0 <= a < |RowsOf(ps, k)| && RowsOf(ps, k)[a] == p;
  }

  predicate Lists(rows: seq<Placement>, id: string) {
    exists i :: 0 <= i < |rows| && rows[i].id == id
  }

  /** One profile after one contested key is settled in favour of `winner`. */
  function SettleEntry(e: Entry, rows: seq<Placement>, key: string, winner: string): Entry
    requires rows != [] && Key(rows[0].group).Some?
  {
    if e.id != winner then e.(config := StripConfig(e.config, key))
    else if Lists(rows, winner) then e
    else e.(config := EnsureConfig(e.config, rows[0].group, rows[0].source))
  }

  predicate Settleable(ps: seq<Placement>, key: string) {
    RowsOf(ps, key) != [] && Key(RowsOf(ps, key)[0].group).Some?
  }

  function SettleKey(es: seq<Entry>, ps: seq<Placement>, key: string, winner: string): seq<Entry>
    requires Settleable(ps, key)
  {
    seq(|es|, i requires 0 <= i < |es| => SettleEntry(es[i], RowsOf(ps, key), key, winner))
  }

  /** All of `keys` settled in turn, each for its rightful owner among `ids`. */
  function SettleKeys(es: seq<Entry>, ps: seq<Placement>, keys: seq<string>, ids: seq<string>, hash: string -> nat)
    : seq<Entry>
    requires forall k :: k in keys ==> Settleable(ps, k) && RightfulOwner(k, ids, hash).Some?
  {
    if keys == [] then es
    else
      var key := keys[|keys| - 1];
      SettleKey(SettleKeys(es, ps, keys[..|keys| - 1], ids, hash), ps, key, RightfulOwner(key, ids, hash).value)
  }

  /** What settling does to one profile: it touches this key alone, and the winner alone ends up with it. */
  ghost predicate Settled(before: Entry, after: Entry, key: string, winner: string) {
    && after.id == before.id
    && WellFormed(after.config)
    && HasSource(after.config) == HasSource(before.config)
    && Switches(Migrate(after.config)) == Switches(Migrate(before.config))
    && (forall k :: Holds(after.config, k) <==> if k == key then before.id == winner else Holds(before.config, k))
    && (forall s, g :: Key(g) != Some(key) ==> (HoldsAt(after.config, s, g) <==> HoldsAt(before.config, s, g)))
  }

  lemma SettleEntryEffect(e: Entry, rows: seq<Placement>, key: string, winner: string)
    requires rows != [] && Key(rows[0].group) == Some(key) && Shown(rows[0].group) == rows[0].group
    requires WellFormed(e.config)
    requires Lists(rows, e.id) <==> Holds(e.config, key)
    requires e.id == winner ==> HasSource(e.config)
    ensures Settled(e, SettleEntry(e, rows, key, winner), key, winner)
  {
    hide Key, Shown, Migrate, WellFormed, EnabledSources, RoutesHold, RoutesHoldAt, StripConfig, EnsureConfig,
      TargetIndex, Missing, Switches;
    if e.id != winner {
      StripEffect(e.config, key);
    } else if !Lists(rows, winner) {
      SourcedHasRoutes(e.config);
      EnsureEffect(e.config, rows[0].group, rows[0].source);
      EnsureAddsKey(e.config, rows[0].group, rows[0].source);
      SameMembersEmpty(EnabledSources(Migrate(EnsureConfig(e.config, rows[0].group, rows[0].source))),
          EnabledSources(Migrate(e.config)));
    }
  }

  lemma SourcedHasRoutes(cfg: Config)
    requires HasSource(cfg)
    ensures Migrate(cfg) != []
  {
    hide Migrate;
  }

  lemma SameMembersEmpty(a: seq<string>, b: seq<string>)
    requires forall x :: x in a <==> x in b
    ensures a == [] <==> b == []
  {
    if a != [] { assert a[0] in b; }
    if b != [] { assert b[0] in a; }
  }

  /** The first placement of a held key: the spelling reconcile hands to a winner that lacks the group. */
  lemma FirstPlacement(es: seq<Entry>, key: string)
    requires DistinctIds(es) && Held(es, key)
    ensures var rows := RowsOf(Placements(es), key);
            && rows != [] && Key(rows[0].group) == Some(key) && Shown(rows[0].group) == rows[0].group
            && forall i :: 0 <= i < |es| ==> (Lists(rows, es[i].id) <==> Holds(es[i].config, key))
  {
    hide Key, Shown, Holds, Placements;
    var ps := Placements(es);
    var rows := RowsOf(ps, key);
    RowsOfMembers(ps, key);
    hide RowsOf;
    var h :| 0 <= h < |es| && Holds(es[h].config, key);
    PlacementsHold(es, h, key);
    var p :| p in ps && p.id == es[h].id && p.key == key;
    assert p in rows;
    var i := HoldersOfRows(es, key, rows[0]);
    StoredSpelling(es[i].config, rows[0].source, rows[0].group);
    forall i | 0 <= i < |es| ensures Lists(rows, es[i].id) <==> Holds(es[i].config, key) {
      PlacementsHold(es, i, key);
      if Lists(rows, es[i].id) {
        var a :| 0 <= a < |rows| && rows[a].id == es[i].id;
        assert rows[a] in rows;
      }
    }
  }

  lemma StoredSpelling(cfg: Config, source: string, group: string)
    requires HoldsAt(cfg, source, group)
    ensures Shown(group) == group
  {
    hide Shown, Migrate, DisplayRef;
    MigrateIsStored(cfg);
    var rs := Migrate(cfg);
    var i :| 0 <= i < |rs| && rs[i].source == source != "" && group in rs[i].groups;
    var j :| 0 <= j < |rs[i].groups| && rs[i].groups[j] == group;
  }

  /** Where every group is after `keys` were settled: settled ones at their owner, the rest where they were. */
  ghost predicate SettledState(es: seq<Entry>, out: seq<Entry>, keys: seq<string>, ids: seq<string>,
      hash: string -> nat) {
    && |out| == |es|
    && (forall k :: k in keys ==> RightfulOwner(k, ids, hash).Some?)
    && forall i :: 0 <= i < |es| ==> SettledEntry(es[i], out[i], keys, ids, hash)
  }

  ghost predicate SettledEntry(before: Entry, after: Entry, keys: seq<string>, ids: seq<string>, hash: string -> nat) {
    && after.id == before.id
    && WellFormed(after.config)
    && HasSource(after.config) == HasSource(before.config)
    && Switches(Migrate(after.config)) == Switches(Migrate(before.config))
    && (forall k :: Holds(after.config, k) <==>
          if k in keys then RightfulOwner(k, ids, hash) == Some(before.id) else Holds(before.config, k))
    && (forall s, g :: Key(g).None? || Key(g).value !in keys ==>
          (HoldsAt(after.config, s, g) <==> HoldsAt(before.config, s, g)))
  }

  lemma SettleStep(e: Entry, mid: Entry, after: Entry, keys: seq<string>, key: string, ids: seq<string>,
      hash: string -> nat)
    requires key !in keys && RightfulOwner(key, ids, hash).Some?
    requires SettledEntry(e, mid, keys, ids, hash)
    requires Settled(mid, after, key, RightfulOwner(key, ids, hash).value)
    ensures SettledEntry(e, after, keys + [key], ids, hash)
  {
    hide Key, RightfulOwner, Holds, HoldsAt, WellFormed, HasSource;
  }

  lemma {:induction false} SettleKeysEffect(es: seq<Entry>, keys: seq<string>, ids: seq<string>, hash: string -> nat)
    requires DistinctIds(es) && AllWellFormed(es)
    requires DistinctKeys(keys)
    requires forall k :: k in keys ==> Held(es, k) && RightfulOwner(k, ids, hash).Some?
    requires forall a :: a in ids ==> Strip(a) == a && HasSourceId(es, a)
    ensures forall k :: k in keys ==> Settleable(Placements(es), k)
    ensures SettledState(es, SettleKeys(es, Placements(es), keys, ids, hash), keys, ids, hash)
  {
    hide Key, Shown, Strip, Holds, HoldsAt, WellFormed, HasSource, Placements, RowsOf, RightfulOwner, SettledEntry,
      Settled, SettleEntry, Lists;
    var ps := Placements(es);
    forall k | k in keys ensures Settleable(ps, k) {
      FirstPlacement(es, k);
    }
    if keys == [] {
      forall i | 0 <= i < |es| ensures SettledEntry(es[i], es[i], keys, ids, hash) {
        SettledNothing(es[i], ids, hash);
      }
    } else {
      var front, key := keys[..|keys| - 1], keys[|keys| - 1];
      SettleKeysEffect(es, front, ids, hash);
      assert keys == front + [key];
      var mid := SettleKeys(es, ps, front, ids, hash);
      var winner := RightfulOwner(key, ids, hash).value;
      var rows := RowsOf(ps, key);
      FirstPlacement(es, key);
      forall i | 0 <= i < |es|
        ensures SettledEntry(es[i], SettleEntry(mid[i], rows, key, winner), keys, ids, hash)
      {
        SettleOne(es, i, mid[i], rows, front, key, ids, hash);
      }
    }
  }

  lemma SettledNothing(e: Entry, ids: seq<string>, hash: string -> nat)
    requires WellFormed(e.config)
    ensures SettledEntry(e, e, [], ids, hash)
  {
  }

  lemma SettleOne(es: seq<Entry>, i: nat, mid: Entry, rows: seq<Placement>, front: seq<string>, key: string,
                  ids: seq<string>, hash: string -> nat)
    requires DistinctIds(es) && i < |es|
    requires key !in front && RightfulOwner(key, ids, hash).Some?
    requires forall a :: a in ids ==> Strip(a) == a && HasSourceId(es, a)
    requires SettledEntry(es[i], mid, front, ids, hash)
    requires rows != [] && Key(rows[0].group) == Some(key) && Shown(rows[0].group) == rows[0].group
    requires Lists(rows, es[i].id) <==> Holds(es[i].config, key)
    ensures SettledEntry(es[i], SettleEntry(mid, rows, key, RightfulOwner(key, ids, hash).value), front + [key], ids,
        hash)
  {
    hide Key, Shown, Strip, Holds, HoldsAt, WellFormed, HasSource, RightfulOwner, Settled, SettleEntry, Lists;
    var winner := RightfulOwner(key, ids, hash).value;
    RightfulOwnerIsMember(key, ids, hash);
    assert winner in ids;
    SettleEntryEffect(mid, rows, key, winner);
    SettleStep(es[i], mid, SettleEntry(mid, rows, key, winner), front, key, ids, hash);
  }

  /** No group is on two accounts. */
  ghost predicate Exclusive(es: seq<Entry>) {
    forall k :: !Contested(es, k)
  }

  /** Every contested key can be given an owner; reconcile raises otherwise. */
  ghost predicate Ownable(es: seq<Entry>, ids: seq<string>, hash: string -> nat) {
    forall k :: Contested(es, k) ==> RightfulOwner(k, ids, hash).Some?
  }

  lemma OverlapsAreSettleable(es: seq<Entry>)
    ensures forall k :: k in Overlaps(es) ==> Settleable(Placements(es), k)
  {
    hide Key, Placements, Holds, HoldsAt;
    var ps := Placements(es);
    KeyOrderMembers(ps);
    ContestedKeysMembers(ps, KeyOrder(ps));
    hide RowsOf, ContestedKeys, KeyOrder, OnTwoAccounts;
    forall k | k in Overlaps(es) ensures Settleable(ps, k) {
      RowsOfMembers(ps, k);
      var p :| p in ps && p.key == k;
      assert p in RowsOf(ps, k);
      assert RowsOf(ps, k)[0] in RowsOf(ps, k);
      var i := HoldersOfRows(es, k, RowsOf(ps, k)[0]);
    }
  }

  function OwnedPrefix(keys: seq<string>, ids: seq<string>, hash: string -> nat): (r: seq<string>)
    ensures r <= keys
    ensures forall k :: k in r ==> RightfulOwner(k, ids, hash).Some?
    ensures r == keys <==> forall k :: k in keys ==> RightfulOwner(k, ids, hash).Some?
    ensures |r| < |keys| ==> RightfulOwner(keys[|r|], ids, hash).None?
  {
    if keys == [] then []
    else
      assert keys == [keys[0]] + keys[1..];
      if RightfulOwner(keys[0], ids, hash).None? then [] else [keys[0]] + OwnedPrefix(keys[1..], ids, hash)
  }

  /**
   * The profiles after `reconcile_exclusive_profiles`. Settling stops where the source raises, at the
   * first contested key without an owner; with no eligible account nothing is touched.
   */
  function Reconciled(es: seq<Entry>, accountIds: seq<string>, hash: string -> nat): seq<Entry> {
    var ids := EligibleIds(es, accountIds);
    OverlapsAreSettleable(es);
    if ids == [] then es
    else SettleKeys(es, Placements(es), OwnedPrefix(Overlaps(es), ids, hash), ids, hash)
  }

  lemma ReconciledState(es: seq<Entry>, accountIds: seq<string>, hash: string -> nat)
    requires DistinctIds(es) && AllWellFormed(es)
    requires EligibleIds(es, accountIds) != [] && Ownable(es, EligibleIds(es, accountIds), hash)
    ensures SettledState(es, Reconciled(es, accountIds, hash), Overlaps(es), EligibleIds(es, accountIds), hash)
  {
    hide Strip, Holds, Placements, Overlaps, EligibleIds, RightfulOwner, SettledState, SettleKeys, Settleable;
    EligibleIdsFacts(es, accountIds);
    OverlapsAreContested(es);
    SettleKeysEffect(es, Overlaps(es), EligibleIds(es, accountIds), hash);
    OverlapsAreSettleable(es);
  }

  /** Main result: where each group is after reconcile, for every account and every key. */
  lemma ReconcileOwnership(es: seq<Entry>, accountIds: seq<string>, hash: string -> nat)
    requires DistinctIds(es) && AllWellFormed(es)
    requires EligibleIds(es, accountIds) != [] && Ownable(es, EligibleIds(es, accountIds), hash)
    ensures var ids := EligibleIds(es, accountIds);
            var out := Reconciled(es, accountIds, hash);
            && |out| == |es| && AllWellFormed(out)
            && forall i :: 0 <= i < |es| ==>
                 && out[i].id == es[i].id
                 && HasSource(out[i].config) == HasSource(es[i].config)
                 && (forall k :: Holds(out[i].config, k) <==>
                       if Contested(es, k) then RightfulOwner(k, ids, hash) == Some(es[i].id)
                           else Holds(es[i].config, k))
                 && (forall s, g :: Key(g).None? || !Contested(es, Key(g).value) ==>
                       (HoldsAt(out[i].config, s, g) <==> HoldsAt(es[i].config, s, g)))
  {
    ReconciledState(es, accountIds, hash);
    OverlapsAreContested(es);
    hide Key, Holds, HoldsAt, HasSource, WellFormed, RightfulOwner, Contested, Overlaps, EligibleIds, Reconciled;
  }

  /** Contested groups sit at their rightful owner, the rest where they were. */
  ghost predicate AtOwner(es: seq<Entry>, out: seq<Entry>, ids: seq<string>, hash: string -> nat) {
    && |out| == |es|
    && (forall i, k :: 0 <= i < |es| ==>
          (Holds(out[i].config, k) <==>
             if Contested(es, k) then RightfulOwner(k, ids, hash) == Some(es[i].id) else Holds(es[i].config, k)))
  }

  lemma AtOwnerExclusive(es: seq<Entry>, out: seq<Entry>, ids: seq<string>, hash: string -> nat)
    requires DistinctIds(es) && AtOwner(es, out, ids, hash)
    ensures Exclusive(out)
  {
    hide Holds, RightfulOwner;
    forall k, i, j | 0 <= i < j < |es| ensures !(Holds(out[i].config, k) && Holds(out[j].config, k)) {
      assert es[i].id != es[j].id;
      assert Contested(es, k) || !(Holds(es[i].config, k) && Holds(es[j].config, k));
    }
  }

  lemma AtOwnerConserves(es: seq<Entry>, out: seq<Entry>, ids: seq<string>, hash: string -> nat, k: string)
    requires AtOwner(es, out, ids, hash) && Ownable(es, ids, hash)
    requires forall a :: a in ids ==> Strip(a) == a && HasSourceId(es, a)
    ensures Held(out, k) <==> Held(es, k)
  {
    hide Strip, Holds, HasSource, RightfulOwner;
    if Contested(es, k) {
      RightfulOwnerIsMember(k, ids, hash);
      var i :| 0 <= i < |es| && es[i].id == RightfulOwner(k, ids, hash).value;
      assert Holds(out[i].config, k);
    } else {
      if i :| 0 <= i < |es| && Holds(es[i].config, k) {
        assert Holds(out[i].config, k);
      }
    }
  }

  /** Reconcile makes ownership exclusive, loses and invents no group, and moves no uncontested one. */
  lemma ReconcileExclusive(es: seq<Entry>, accountIds: seq<string>, hash: string -> nat)
    requires DistinctIds(es) && AllWellFormed(es)
    requires EligibleIds(es, accountIds) != [] && Ownable(es, EligibleIds(es, accountIds), hash)
    ensures var out := Reconciled(es, accountIds, hash);
            && |out| == |es|
            && Exclusive(out)
            && (forall k :: Held(out, k) <==> Held(es, k))
            && (forall k, i :: 0 <= i < |es| && !Contested(es, k) ==>
                (Holds(out[i].config, k) <==> Holds(es[i].config, k)))
  {
    ReconcileOwnership(es, accountIds, hash);
    EligibleIdsFacts(es, accountIds);
    hide Key, Strip, Holds, Held, HoldsAt, HasSource, HasSourceId, WellFormed, RightfulOwner, EligibleIds, Reconciled,
      Contested, Ownable, Exclusive;
    var ids := EligibleIds(es, accountIds);
    var out := Reconciled(es, accountIds, hash);
    assert AtOwner(es, out, ids, hash);
    AtOwnerExclusive(es, out, ids, hash);
    hide AtOwner;
    forall k ensures Held(out, k) <==> Held(es, k) {
      AtOwnerConserves(es, out, ids, hash, k);
    }
  }

  /** Without a contested group reconcile changes nothing, so a second run after the first is a no-op. */
  lemma ReconcileIdempotent(es: seq<Entry>, accountIds: seq<string>, hash: string -> nat, again: seq<string>)
    requires DistinctIds(es) && AllWellFormed(es)
    requires EligibleIds(es, accountIds) != [] && Ownable(es, EligibleIds(es, accountIds), hash)
    ensures var out := Reconciled(es, accountIds, hash);
            Overlaps(out) == [] && Reconciled(out, again, hash) == out
  {
    ReconcileExclusive(es, accountIds, hash);
    ReconcileOwnership(es, accountIds, hash);
    hide Key, Holds, HoldsAt, HasSource, WellFormed, RightfulOwner, EligibleIds;
    var out := Reconciled(es, accountIds, hash);
    hide Reconciled;
    OverlapsAreContested(out);
    hide Overlaps;
    HasMember(Overlaps(out));
    ReconcileNothing(out, again, hash);
  }

  lemma ReconcileNothing(es: seq<Entry>, accountIds: seq<string>, hash: string -> nat)
    requires Overlaps(es) == []
    ensures Reconciled(es, accountIds, hash) == es
  {
    hide Overlaps, EligibleIds, Placements;
  }

  /** Two listings of the same accounts, in any order. */
  ghost predicate SameAccounts(a: seq<Entry>, b: seq<Entry>) {
    forall e :: e in a <==> e in b
  }

  lemma SameAccountsContested(a: seq<Entry>, b: seq<Entry>, k: string)
    requires DistinctIds(a) && DistinctIds(b) && SameAccounts(a, b) && Contested(a, k)
    ensures Contested(b, k)
  {
    hide Holds;
    var i, j :| 0 <= i < j < |a| && Holds(a[i].config, k) && Holds(a[j].config, k);
    assert a[i] in b && a[j] in b;
    var i' :| 0 <= i' < |b| && b[i'] == a[i];
    var j' :| 0 <= j' < |b| && b[j'] == a[j];
    assert i' < j' || j' < i';
  }

  lemma SameAccountsEligible(a: seq<Entry>, b: seq<Entry>, idsA: seq<string>, idsB: seq<string>)
    requires SameAccounts(a, b) && (idsA == [] <==> idsB == []) && forall x :: x in idsA <==> x in idsB
    ensures EligibleIds(a, idsA) == EligibleIds(b, idsB)
  {
    hide Strip, HasSource;
    var reqA := if idsA == [] then Ids(a) else idsA;
    var reqB := if idsB == [] then Ids(b) else idsB;
    assert forall x :: x in reqA <==> x in reqB by {
      IdsMembers(a);
      IdsMembers(b);
    }
    StripIdsMembers(reqA);
    StripIdsMembers(reqB);
    WithSourceMembers(a, StripIds(reqA));
    WithSourceMembers(b, StripIds(reqB));
    hide StripIds, WithSource, Ids;
    forall x ensures HasSourceId(a, x) == HasSourceId(b, x) {
      if HasSourceId(a, x) {
        var i :| 0 <= i < |a| && a[i].id == x && HasSource(a[i].config);
        assert a[i] in b;
      }
      if HasSourceId(b, x) {
        var i :| 0 <= i < |b| && b[i].id == x && HasSource(b[i].config);
        assert b[i] in a;
      }
    }
    AscendingUnique(EligibleIds(a, idsA), EligibleIds(b, idsB));
  }

  lemma IdsMembers(es: seq<Entry>)
    ensures forall x :: x in Ids(es) <==> exists e :: e in es && e.id == x
  {
    forall x | x in Ids(es) ensures exists e :: e in es && e.id == x {
      var i :| 0 <= i < |es| && Ids(es)[i] == x;
      assert es[i] in es;
    }
    forall e | e in es ensures e.id in Ids(es) {
      var i :| 0 <= i < |es| && es[i] == e;
      assert Ids(es)[i] == e.id;
    }
  }

  /** The final holder of each group depends on neither the order of profiles nor that of account ids. */
  lemma ReconcileOrderIndependent(a: seq<Entry>, b: seq<Entry>, idsA: seq<string>, idsB: seq<string>,
      hash: string -> nat,
                                  i: nat, j: nat, k: string)
    requires DistinctIds(a) && DistinctIds(b) && AllWellFormed(a) && SameAccounts(a, b)
    requires (idsA == [] <==> idsB == []) && forall x :: x in idsA <==> x in idsB
    requires EligibleIds(a, idsA) != [] && Ownable(a, EligibleIds(a, idsA), hash)
    requires i < |a| && j < |b| && a[i] == b[j]
    ensures |Reconciled(a, idsA, hash)| == |a| && |Reconciled(b, idsB, hash)| == |b|
    ensures Holds(Reconciled(a, idsA, hash)[i].config, k) <==> Holds(Reconciled(b, idsB, hash)[j].config, k)
  {
    SameAccountsEligible(a, b, idsA, idsB);
    hide Key, Holds, WellFormed, RightfulOwner, EligibleIds, Reconciled, Contested, AtOwner;
    forall x ensures Contested(a, x) == Contested(b, x) {
      if Contested(a, x) { SameAccountsContested(a, b, x); }
      if Contested(b, x) { SameAccountsContested(b, a, x); }
    }
    forall n | 0 <= n < |b| ensures WellFormed(b[n].config) {
      assert b[n] in b;
      var m :| 0 <= m < |a| && a[m] == b[n];
    }
    ReconcileAtOwner(a, idsA, hash);
    ReconcileAtOwner(b, idsB, hash);
    AtOwnerOf(a, Reconciled(a, idsA, hash), EligibleIds(a, idsA), hash, i, k);
    AtOwnerOf(b, Reconciled(b, idsB, hash), EligibleIds(b, idsB), hash, j, k);
  }

  lemma ReconcileAtOwner(es: seq<Entry>, accountIds: seq<string>, hash: string -> nat)
    requires DistinctIds(es) && AllWellFormed(es)
    requires EligibleIds(es, accountIds) != [] && Ownable(es, EligibleIds(es, accountIds), hash)
    ensures AtOwner(es, Reconciled(es, accountIds, hash), EligibleIds(es, accountIds), hash)
  {
    ReconcileOwnership(es, accountIds, hash);
    hide Key, Holds, HoldsAt, HasSource, WellFormed, RightfulOwner, EligibleIds, Reconciled, Contested;
  }

  lemma AtOwnerOf(es: seq<Entry>, out: seq<Entry>, ids: seq<string>, hash: string -> nat, i: nat, k: string)
    requires AtOwner(es, out, ids, hash) && i < |es|
    ensures |out| == |es|
    ensures Holds(out[i].config, k) <==>
              if Contested(es, k) then RightfulOwner(k, ids, hash) == Some(es[i].id) else Holds(es[i].config, k)
  {
    hide Holds, RightfulOwner, Contested;
  }

  // ---------------------------------------------------------------- who holds a group, as a list

  /** The distinct keys one profile lists, in order of first appearance. */
  function KeysOf(e: Entry): seq<string> {
    KeyOrder(RoutePlacements(e.id, Migrate(e.config)))
  }

  function OwnersOf(es: seq<Entry>, key: string): seq<string> {
    if es == [] then []
    else
      var front := OwnersOf(es[..|es| - 1], key);
      if key in KeysOf(es[|es| - 1]) then front + [es[|es| - 1].id] else front
  }

  lemma KeysOfHolds(e: Entry)
    ensures forall k :: k in KeysOf(e) <==> Holds(e.config, k)
  {
    hide Key, Migrate, RoutesHold, RoutesHoldAt, RoutePlacements;
    var rs := Migrate(e.config);
    var ps := RoutePlacements(e.id, rs);
    KeyOrderMembers(ps);
    forall k ensures k in KeysOf(e) <==> Holds(e.config, k) {
      HoldsThrough(rs, k);
      if RoutesHold(rs, k) {
        var s, g :| RoutesHoldAt(rs, s, g) && Key(g) == Some(k);
        RoutePlacementsMembers(e.id, rs, Placement(k, e.id, s, g));
      }
      if p :| p in ps && p.key == k {
        RoutePlacementsMembers(e.id, rs, p);
      }
    }
  }

  lemma {:induction false} OwnersOfMembers(es: seq<Entry>, key: string)
    ensures forall a :: a in OwnersOf(es, key) <==>
        exists i :: 0 <= i < |es| && es[i].id == a && Holds(es[i].config, key)
  {
    hide Holds, KeysOf;
    if es != [] {
      OwnersOfMembers(es[..|es| - 1], key);
      KeysOfHolds(es[|es| - 1]);
      forall a ensures a in OwnersOf(es, key) <==>
          exists i :: 0 <= i < |es| && es[i].id == a && Holds(es[i].config, key) {
        if i :| 0 <= i < |es| && es[i].id == a && Holds(es[i].config, key) {
          assert i < |es| - 1 ==> es[..|es| - 1][i] == es[i];
        }
      }
    }
  }

  /** A group is held by nobody, by one account, or is contested. */
  lemma {:induction false} OwnersOfCount(es: seq<Entry>, key: string)
    ensures |OwnersOf(es, key)| == 0 <==> !Held(es, key)
    ensures |OwnersOf(es, key)| > 1 <==> Contested(es, key)
  {
    hide Holds, KeysOf;
    if es != [] {
      var front := es[..|es| - 1];
      OwnersOfCount(front, key);
      KeysOfHolds(es[|es| - 1]);
      assert Held(es, key) <==> Held(front, key) || Holds(es[|es| - 1].config, key) by {
        if i :| 0 <= i < |front| && Holds(front[i].config, key) { assert Holds(es[i].config, key); }
      }
      assert Contested(es, key) <==> Contested(front, key) || (Held(front, key) && Holds(es[|es| - 1].config, key)) by {
        if i, j :| 0 <= i < j < |front| && Holds(front[i].config, key) && Holds(front[j].config, key) {
          assert Holds(es[i].config, key) && Holds(es[j].config, key);
        }
        if i :| 0 <= i < |front| && Holds(front[i].config, key) { assert Holds(es[i].config, key); }
      }
    }
  }

  lemma SoleOwner(es: seq<Entry>, i: nat, key: string)
    requires DistinctIds(es) && i < |es| && Holds(es[i].config, key)
    ensures OwnersOf(es, key) == [es[i].id] <==> !Contested(es, key)
  {
    hide Holds, OwnersOf;
    OwnersOfMembers(es, key);
    OwnersOfCount(es, key);
    if !Contested(es, key) {
      assert es[i].id in OwnersOf(es, key);
    }
  }

  // ---------------------------------------------------------------- foreign_group_norms_for_account

  /** Accounts with an enabled source, sorted. */
  function SourcedIds(es: seq<Entry>): seq<string> {
    SortedSet(WithSource(es, Ids(es)))
  }

  lemma SourcedIdsMembers(es: seq<Entry>)
    requires DistinctIds(es)
    ensures forall i :: 0 <= i < |es| ==> (es[i].id in SourcedIds(es) <==> HasSource(es[i].config))
  {
    hide HasSource;
    WithSourceMembers(es, Ids(es));
    forall i | 0 <= i < |es| ensures es[i].id in SourcedIds(es) <==> HasSource(es[i].config) {
      assert Ids(es)[i] == es[i].id;
    }
  }

  /** The owner of this group has to be looked up: the account is not its only holder. */
  predicate NeedsOwner(es: seq<Entry>, id: string, key: string) {
    OwnersOf(es, key) != [id]
  }

  /** Groups the account must not send to; `None` where the source raises on a key without an owner. */
  function ForeignGroups(es: seq<Entry>, id: string, hash: string -> nat): Option<set<string>> {
    var ids := SourcedIds(es);
    var keys := KeyOrder(Placements(es));
    if id !in ids then Some({})
    else if exists k :: k in keys && NeedsOwner(es, id, k) && RightfulOwner(k, ids, hash).None? then None
    else Some(set k | k in keys && NeedsOwner(es, id, k) && RightfulOwner(k, ids, hash) != Some(id))
  }

  lemma PlacedKeys(es: seq<Entry>)
    requires DistinctIds(es)
    ensures forall k :: k in KeyOrder(Placements(es)) <==> Held(es, k)
  {
    hide Holds, Placements;
    var ps := Placements(es);
    KeyOrderMembers(ps);
    hide KeyOrder;
    forall k ensures k in KeyOrder(ps) <==> Held(es, k) {
      if Held(es, k) {
        var i :| 0 <= i < |es| && Holds(es[i].config, k);
        PlacementsHold(es, i, k);
      }
      if p :| p in ps && p.key == k {
        RowsOfMembers(ps, k);
        var i := HoldersOfRows(es, k, p);
      }
    }
  }

  /** The account is a sourced holder of the group and its computed foreign set lets it send. */
  ghost predicate MaySend(es: seq<Entry>, i: nat, key: string, hash: string -> nat)
    requires i < |es|
  {
    && HasSource(es[i].config) && Holds(es[i].config, key)
    && ForeignGroups(es, es[i].id, hash).Some? && key !in ForeignGroups(es, es[i].id, hash).value
  }

  /** Exactly which sourced holder the guard lets through: the only holder, or the rightful owner. */
  lemma GuardExact(es: seq<Entry>, i: nat, key: string, hash: string -> nat)
    requires DistinctIds(es) && i < |es|
    requires HasSource(es[i].config) && Holds(es[i].config, key) && ForeignGroups(es, es[i].id, hash).Some?
    ensures MaySend(es, i, key, hash) <==>
              !Contested(es, key) || RightfulOwner(key, SourcedIds(es), hash) == Some(es[i].id)
  {
    hide Holds, HasSource, OwnersOf, RightfulOwner, Placements, KeyOrder;
    SourcedIdsMembers(es);
    hide SourcedIds;
    PlacedKeys(es);
    SoleOwner(es, i, key);
  }

  /** Runtime guard: for any profiles, contested or not, no two accounts may both send to one group. */
  lemma GuardMutualExclusion(es: seq<Entry>, i: nat, j: nat, key: string, hash: string -> nat)
    requires DistinctIds(es) && i < |es| && j < |es|
    requires MaySend(es, i, key, hash) && MaySend(es, j, key, hash)
    ensures i == j
  {
    hide Holds, HasSource, RightfulOwner, ForeignGroups;
    assert i < j || j < i ==> Contested(es, key);
    GuardExact(es, i, key, hash);
    GuardExact(es, j, key, hash);
  }

  /** Once ownership is exclusive, no account's foreign set meets its own groups. */
  lemma ExclusiveGuardSilent(es: seq<Entry>, i: nat, key: string, hash: string -> nat)
    requires DistinctIds(es) && Exclusive(es) && i < |es|
    requires HasSource(es[i].config) && Holds(es[i].config, key) && ForeignGroups(es, es[i].id, hash).Some?
    ensures key !in ForeignGroups(es, es[i].id, hash).value
  {
    GuardExact(es, i, key, hash);
  }

  /** Account ids as the profile loaders produce them. */
  ghost predicate CleanIds(es: seq<Entry>) {
    forall i :: 0 <= i < |es| ==> Strip(es[i].id) == es[i].id != ""
  }

  lemma CleanEligible(es: seq<Entry>)
    requires CleanIds(es)
    ensures EligibleIds(es, []) == SourcedIds(es)
  {
    hide Strip, HasSourceId;
    StripIdsMembers(Ids(es));
    WithSourceMembers(es, Ids(es));
    WithSourceMembers(es, StripIds(Ids(es)));
    hide StripIds, WithSource;
    forall x ensures x in Ids(es) <==> x in StripIds(Ids(es)) {
      if x in Ids(es) {
        var i :| 0 <= i < |es| && es[i].id == x;
      }
      if b :| b in Ids(es) && Strip(b) == x {
        var i :| 0 <= i < |es| && es[i].id == b;
      }
    }
    AscendingUnique(EligibleIds(es, []), SourcedIds(es));
  }

  /** The two mechanisms agree: whoever the guard lets send is who reconcile leaves the group with. */
  lemma GuardAgreesWithReconcile(es: seq<Entry>, i: nat, key: string, hash: string -> nat)
    requires DistinctIds(es) && AllWellFormed(es) && CleanIds(es) && i < |es|
    requires EligibleIds(es, []) != [] && Ownable(es, EligibleIds(es, []), hash)
    requires HasSource(es[i].config) && Holds(es[i].config, key) && ForeignGroups(es, es[i].id, hash).Some?
    ensures |Reconciled(es, [], hash)| == |es|
    ensures MaySend(es, i, key, hash) <==> Holds(Reconciled(es, [], hash)[i].config, key)
  {
    GuardExact(es, i, key, hash);
    CleanEligible(es);
    hide Key, Strip, Holds, HoldsAt, HasSource, WellFormed, RightfulOwner, EligibleIds, Reconciled, ForeignGroups,
      SourcedIds;
    ReconcileOwnership(es, [], hash);
  }

  /**
   * The foreign set cannot be computed exactly when some group that is not the account's alone has a key that is not
   * itself a reference.
   */
  lemma GuardFailsIff(es: seq<Entry>, i: nat, hash: string -> nat)
    requires DistinctIds(es) && CleanIds(es) && i < |es| && HasSource(es[i].config)
    ensures ForeignGroups(es, es[i].id, hash).None? <==>
              exists k :: Held(es, k) && OwnersOf(es, k) != [es[i].id] && Key(k).None?
  {
    hide Key, Strip, Holds, HasSource, Placements, KeyOrder, OwnersOf;
    SourcedIdsMembers(es);
    PlacedKeys(es);
    StripIdsMembers(SourcedIds(es));
    var sorted := SortedSet(StripIds(SourcedIds(es)));
    assert es[i].id in SourcedIds(es) && Strip(es[i].id) == es[i].id;
    assert es[i].id in sorted;
  }

  /** Among clean ids every reference with a key has an owner. */
  lemma OwnerAmong(ids: seq<string>, k: string, hash: string -> nat)
    requires ids != [] && Key(k).Some? && forall a :: a in ids ==> Strip(a) == a != ""
    ensures RightfulOwner(k, ids, hash).Some?
  {
    hide Key, Strip;
    StripIdsMembers(ids);
    assert ids[0] in ids && Strip(ids[0]) == ids[0];
    assert ids[0] in SortedSet(StripIds(ids));
  }

  /** Reconcile runs to the end exactly when every contested key is itself a reference with a key. */
  lemma OwnableIff(es: seq<Entry>, accountIds: seq<string>, hash: string -> nat)
    requires EligibleIds(es, accountIds) != []
    ensures Ownable(es, EligibleIds(es, accountIds), hash) <==> forall k :: Contested(es, k) ==> Key(k).Some?
  {
    hide Key, Strip, HasSourceId, Contested;
    EligibleIdsFacts(es, accountIds);
    var ids := EligibleIds(es, accountIds);
    hide EligibleIds;
    StripIdsMembers(ids);
    assert ids[0] in ids && Strip(ids[0]) == ids[0];
    assert ids[0] in SortedSet(StripIds(ids));
  }

  // ---------------------------------------------------------------- groups whose key has no key

  /** Where every group is after reconcile, raising or not: the contested ones before the raise are settled. */
  lemma ReconcilePlaces(es: seq<Entry>, accountIds: seq<string>, hash: string -> nat)
    requires DistinctIds(es) && AllWellFormed(es) && EligibleIds(es, accountIds) != []
    ensures var ids := EligibleIds(es, accountIds);
            SettledState(es, Reconciled(es, accountIds, hash), OwnedPrefix(Overlaps(es), ids, hash), ids, hash)
  {
    hide Key, Strip, Holds, Placements, Overlaps, EligibleIds, RightfulOwner, SettledState, SettleKeys, Settleable,
      HasSourceId;
    EligibleIdsFacts(es, accountIds);
    OverlapsAreContested(es);
    OverlapsAreSettleable(es);
    var ids := EligibleIds(es, accountIds);
    var keys := OwnedPrefix(Overlaps(es), ids, hash);
    assert keys == Overlaps(es)[..|keys|];
    forall k | k in keys ensures Held(es, k) {
      ContestedIsHeld(es, k);
    }
    SettleKeysEffect(es, keys, ids, hash);
  }

  lemma ContestedIsHeld(es: seq<Entry>, k: string)
    requires Contested(es, k)
    ensures Held(es, k)
  {
    hide Holds;
  }

  /** The first contested key without an owner is where reconcile raises, and it stays contested. */
  lemma RaiseStaysContested(es: seq<Entry>, accountIds: seq<string>, hash: string -> nat)
    requires DistinctIds(es) && AllWellFormed(es) && EligibleIds(es, accountIds) != []
    requires !Ownable(es, EligibleIds(es, accountIds), hash)
    ensures !Exclusive(Reconciled(es, accountIds, hash))
  {
    hide Key, Strip, Holds, HoldsAt, HasSource, WellFormed, Placements, Overlaps, EligibleIds, RightfulOwner,
      Reconciled;
    OverlapsAreContested(es);
    ReconcilePlaces(es, accountIds, hash);
    var ids := EligibleIds(es, accountIds);
    var keys, out := OwnedPrefix(Overlaps(es), ids, hash), Reconciled(es, accountIds, hash);
    var bad :| Contested(es, bad) && RightfulOwner(bad, ids, hash).None?;
    assert bad in Overlaps(es);
    var next := Overlaps(es)[|keys|];
    assert next in Overlaps(es) && next !in keys;
    var i, j :| 0 <= i < j < |es| && Holds(es[i].config, next) && Holds(es[j].config, next);
    assert SettledEntry(es[i], out[i], keys, ids, hash) && SettledEntry(es[j], out[j], keys, ids, hash);
    assert Contested(out, next);
  }

  /** Reconcile ends exclusive exactly when every contested key is itself a reference with a key. */
  lemma ReconcileExclusiveIff(es: seq<Entry>, accountIds: seq<string>, hash: string -> nat)
    requires DistinctIds(es) && AllWellFormed(es) && EligibleIds(es, accountIds) != []
    ensures Exclusive(Reconciled(es, accountIds, hash)) <==> forall k :: Contested(es, k) ==> Key(k).Some?
  {
    hide Key, Holds, WellFormed, EligibleIds, Reconciled, Contested, Exclusive, Ownable, Held;
    OwnableIff(es, accountIds, hash);
    if Ownable(es, EligibleIds(es, accountIds), hash) {
      ReconcileExclusive(es, accountIds, hash);
    } else {
      RaiseStaysContested(es, accountIds, hash);
    }
  }

  /** Raising or not, reconcile loses no group and invents none. */
  lemma ReconcileConserves(es: seq<Entry>, accountIds: seq<string>, hash: string -> nat, k: string)
    requires DistinctIds(es) && AllWellFormed(es)
    ensures Held(Reconciled(es, accountIds, hash), k) <==> Held(es, k)
  {
    hide Key, Strip, Holds, HoldsAt, HasSource, WellFormed, Overlaps, RightfulOwner, Contested, HasSourceId,
      EligibleIds, Placements, SettleKeys;
    if EligibleIds(es, accountIds) != [] {
      ReconcilePlaces(es, accountIds, hash);
      EligibleIdsFacts(es, accountIds);
      OverlapsAreContested(es);
      hide Reconciled;
      var ids := EligibleIds(es, accountIds);
      var keys, out := OwnedPrefix(Overlaps(es), ids, hash), Reconciled(es, accountIds, hash);
      assert forall i :: 0 <= i < |es| ==> SettledEntry(es[i], out[i], keys, ids, hash);
      if k in keys {
        assert k in Overlaps(es);
        ContestedIsHeld(es, k);
        RightfulOwnerIsMember(k, ids, hash);
        var i := SourcedEntry(es, RightfulOwner(k, ids, hash).value);
        assert Holds(out[i].config, k);
      } else {
        assert forall i :: 0 <= i < |es| ==> (Holds(out[i].config, k) <==> Holds(es[i].config, k));
      }
    }
  }

  lemma SourcedEntry(es: seq<Entry>, id: string) returns (i: nat)
    requires HasSourceId(es, id)
    ensures i < |es| && es[i].id == id && HasSource(es[i].config)
  {
    hide HasSource;
    i :| 0 <= i < |es| && es[i].id == id && HasSource(es[i].config);
  }

  /** Some group that is not the account's alone has a key that is not itself a reference. */
  ghost predicate Unscannable(es: seq<Entry>, i: nat)
    requires i < |es|
  {
    exists k :: Held(es, k) && OwnersOf(es, k) != [es[i].id] && Key(k).None?
  }

  /** The filter a worker runs with: when the scan raises it carries on without one. */
  function WorkerFilter(es: seq<Entry>, id: string, hash: string -> nat): set<string> {
    var foreign := ForeignGroups(es, id, hash);
    if foreign.Some? then foreign.value else {}
  }

  /** The account's worker queues posts for the group: a running route lists it and the filter lets it through. */
  ghost predicate Sends(es: seq<Entry>, i: nat, key: string, hash: string -> nat)
    requires i < |es|
  {
    Serves(es[i].config, key) && key !in WorkerFilter(es, es[i].id, hash)
  }

  /** An account that serves a contested group sends exactly when it is the rightful owner or its scan raised. */
  lemma SendsIff(es: seq<Entry>, i: nat, key: string, hash: string -> nat)
    requires DistinctIds(es) && CleanIds(es) && i < |es|
    requires Serves(es[i].config, key) && Contested(es, key)
    ensures Sends(es, i, key, hash) <==>
      Unscannable(es, i) || RightfulOwner(key, SourcedIds(es), hash) == Some(es[i].id)
  {
    hide Key, Holds, Held, HasSource, Serves, RightfulOwner, ForeignGroups, OwnersOf, Contested, SourcedIds;
    ServesHolds(es[i].config, key);
    GuardFailsIff(es, i, hash);
    if !Unscannable(es, i) {
      GuardExact(es, i, key, hash);
    }
  }

  /**
   * Two different accounts that serve a group both send exactly when the scan of one of them raised and the other is
   * the rightful owner or its scan raised too.
   */
  lemma BothSendIff(es: seq<Entry>, i: nat, j: nat, key: string, hash: string -> nat)
    requires DistinctIds(es) && CleanIds(es) && i < |es| && j < |es| && i != j
    requires Serves(es[i].config, key) && Serves(es[j].config, key)
    ensures var owner := RightfulOwner(key, SourcedIds(es), hash);
            Sends(es, i, key, hash) && Sends(es, j, key, hash) <==>
            (Unscannable(es, i) && (Unscannable(es, j) || owner == Some(es[j].id)))
            || (Unscannable(es, j) && owner == Some(es[i].id))
  {
    hide Key, Holds, HasSource, Serves, RightfulOwner, Contested, Sends, Unscannable, SourcedIds;
    ServesHolds(es[i].config, key);
    ServesHolds(es[j].config, key);
    BothHold(es, i, j, key);
    SendsIff(es, i, key, hash);
    SendsIff(es, j, key, hash);
    assert es[i].id != es[j].id;
  }

  lemma BothHold(es: seq<Entry>, i: nat, j: nat, key: string)
    requires i < |es| && j < |es| && i != j && Holds(es[i].config, key) && Holds(es[j].config, key)
    ensures Contested(es, key)
  {
    hide Holds;
    var a, b := if i < j then i else j, if i < j then j else i;
    assert 0 <= a < b < |es| && Holds(es[a].config, key) && Holds(es[b].config, key);
  }

  // ---------------------------------------------------------------- where the owner stands

  lemma CandidatesEligible(es: seq<Entry>, accountIds: seq<string>)
    requires CleanIds(es)
    ensures EligibleIds(es, accountIds) == [] <==> Candidates(es, accountIds) == {}
  {
    hide Strip, HasSource, EligibleIds, Candidates;
    EligibleAreCandidates(es, accountIds);
    EligibleIdsFacts(es, accountIds);
    var ids := EligibleIds(es, accountIds);
    if ids != [] {
      assert ids[0] in ids && Strip(ids[0]) == ids[0] != "";
      assert ids[0] in Clean(ids);
    }
  }

  /**
   * Main result on who keeps a contested group: of the n candidates the one with exactly hash(key) % n candidates
   * before it, and nobody else.
   */
  lemma ReconcileStands(es: seq<Entry>, accountIds: seq<string>, hash: string -> nat, i: nat, k: string)
    requires DistinctIds(es) && AllWellFormed(es) && CleanIds(es) && Candidates(es, accountIds) != {}
    requires forall c :: Contested(es, c) ==> Key(c).Some?
    requires i < |es| && Contested(es, k)
    ensures |Reconciled(es, accountIds, hash)| == |es|
    ensures Holds(Reconciled(es, accountIds, hash)[i].config, k) <==>
              Stands(Candidates(es, accountIds), es[i].id, Key(k).value, hash)
  {
    CandidatesEligible(es, accountIds);
    OwnableIff(es, accountIds, hash);
    hide Key, Strip, Holds, HoldsAt, HasSource, WellFormed, RightfulOwner, EligibleIds, Reconciled, Candidates,
      Contested, Clean, Stands, CleanIds, Ownable;
    ReconcileOwnership(es, accountIds, hash);
    EligibleAreCandidates(es, accountIds);
    OwnerStands(k, EligibleIds(es, accountIds), hash, es[i].id);
  }

  /** Which sourced holder of a contested group the guard lets through, by its place among the sourced accounts. */
  lemma GuardStands(es: seq<Entry>, i: nat, key: string, hash: string -> nat)
    requires DistinctIds(es) && CleanIds(es) && i < |es| && Key(key).Some? && Contested(es, key)
    requires HasSource(es[i].config) && Holds(es[i].config, key) && ForeignGroups(es, es[i].id, hash).Some?
    ensures MaySend(es, i, key, hash) <==> Stands(Candidates(es, []), es[i].id, Key(key).value, hash)
  {
    GuardExact(es, i, key, hash);
    hide Key, Strip, Holds, HasSource, RightfulOwner, ForeignGroups, EligibleIds, SourcedIds, Candidates, Contested,
      Clean, Stands, CleanIds, MaySend;
    SomeCandidate(es, i);
    CleanEligible(es);
    EligibleAreCandidates(es, []);
    OwnerStands(key, EligibleIds(es, []), hash, es[i].id);
  }

  /**
   * The foreign set of a sourced account: exactly the groups some other account holds, except those it owns by its
   * place among the sourced accounts. An account without a source has none.
   */
  lemma ForeignIff(es: seq<Entry>, i: nat, key: string, hash: string -> nat)
    requires DistinctIds(es) && CleanIds(es) && i < |es| && ForeignGroups(es, es[i].id, hash).Some?
    ensures key in ForeignGroups(es, es[i].id, hash).value <==>
              && HasSource(es[i].config) && OthersHold(es, i, key)
              && !(Key(key).Some? && Stands(Candidates(es, []), es[i].id, Key(key).value, hash))
  {
    hide Key, Strip, Holds, HasSource, RightfulOwner, EligibleIds, SourcedIds, Candidates, Clean, Stands, CleanIds,
      Placements, KeyOrder, OwnersOf, Held, OthersHold;
    SourcedIdsMembers(es);
    PlacedKeys(es);
    NeedsOwnerIff(es, i, key);
    if HasSource(es[i].config) {
      SomeCandidate(es, i);
      CleanEligible(es);
      EligibleAreCandidates(es, []);
      OwnerStands(key, EligibleIds(es, []), hash, es[i].id);
    }
  }

  ghost predicate OthersHold(es: seq<Entry>, i: nat, key: string) {
    exists j :: 0 <= j < |es| && j != i && Holds(es[j].config, key)
  }

  lemma NeedsOwnerIff(es: seq<Entry>, i: nat, key: string)
    requires DistinctIds(es) && i < |es|
    ensures Held(es, key) && NeedsOwner(es, es[i].id, key) <==> OthersHold(es, i, key)
  {
    hide Holds, OwnersOf;
    OwnersOfMembers(es, key);
    if j :| 0 <= j < |es| && j != i && Holds(es[j].config, key) {
      assert es[j].id in OwnersOf(es, key) && es[j].id != es[i].id;
    } else if Held(es, key) {
      assert !Contested(es, key);
      SoleOwner(es, i, key);
    }
  }

  lemma SomeCandidate(es: seq<Entry>, i: nat)
    requires i < |es| && HasSource(es[i].config)
    ensures es[i].id in Candidates(es, [])
  {
    assert Candidate(es, [], i);
  }

  // ---------------------------------------------------------------- where a moved group goes

  /** The item of the list is a spelling of the group: account, route and place in its list. */
  ghost predicate ListedAt(es: seq<Entry>, key: string, a: nat, r: nat, n: nat) {
    && a < |es| && r < |Migrate(es[a].config)|
    && ListedOn(Migrate(es[a].config)[r], key, n)
  }

  ghost predicate ListedOn(r: Route, key: string, n: nat) {
    r.source != "" && n < |r.groups| && Key(r.groups[n]) == Some(key)
  }

  /** No item before this one, in order of accounts, routes and lists, is a spelling of the group. */
  ghost predicate FirstListed(es: seq<Entry>, key: string, a: nat, r: nat, n: nat) {
    && ListedAt(es, key, a, r, n)
    && (forall b: nat, q: nat, m: nat :: b < a ==> !ListedAt(es, key, b, q, m))
    && FirstOnRoutes(Migrate(es[a].config), key, r, n)
  }

  ghost predicate FirstOnRoutes(rs: seq<Route>, key: string, r: nat, n: nat) {
    && r < |rs| && FirstOnList(rs[r], key, n)
    && forall q: nat, m: nat :: q < r ==> !ListedOn(rs[q], key, m)
  }

  ghost predicate FirstOnList(r: Route, key: string, n: nat) {
    ListedOn(r, key, n) && forall m: nat :: m < n ==> !ListedOn(r, key, m)
  }

  lemma {:induction false} RowsOfSplit(a: seq<Placement>, b: seq<Placement>, key: string)
    ensures RowsOf(a + b, key) == RowsOf(a, key) + RowsOf(b, key)
  {
    if b == [] {
      assert a + b == a;
    } else {
      var front := b[..|b| - 1];
      RowsOfSplit(a, front, key);
      assert (a + b)[..|a + b| - 1] == a + front;
    }
  }

  lemma {:induction false} FirstRowOfList(id: string, source: string, gs: seq<string>, key: string, n: nat)
    requires n < |gs| && Key(gs[n]) == Some(key) && forall m :: 0 <= m < n ==> Key(gs[m]) != Some(key)
    ensures RowsOf(ListPlacements(id, source, gs), key) != []
    ensures RowsOf(ListPlacements(id, source, gs), key)[0] == Placement(key, id, source, gs[n])
  {
    hide Key, RowsOf;
    var last := |gs| - 1;
    var front := ListPlacements(id, source, gs[..last]);
    var tail := ListPlacements(id, source, gs)[|front|..];
    assert ListPlacements(id, source, gs) == front + tail;
    RowsOfSplit(front, tail, key);
    if n < last {
      FirstRowOfList(id, source, gs[..last], key, n);
    } else {
      ListPlacementsMembers(id, source, gs[..last]);
      NoRows(front, key);
      OneRow(tail[0]);
    }
  }

  lemma NoRows(ps: seq<Placement>, key: string)
    requires forall p :: p in ps ==> p.key != key
    ensures RowsOf(ps, key) == []
  {
    RowsOfMembers(ps, key);
    if RowsOf(ps, key) != [] {
      assert RowsOf(ps, key)[0] in RowsOf(ps, key);
    }
  }

  lemma OneRow(p: Placement)
    ensures RowsOf([p], p.key) == [p]
  {
    assert [p][..0] == [];
  }

  lemma {:induction false} FirstRowOfRoutes(id: string, rs: seq<Route>, key: string, r: nat, n: nat)
    requires FirstOnRoutes(rs, key, r, n)
    ensures RowsOf(RoutePlacements(id, rs), key) != []
    ensures RowsOf(RoutePlacements(id, rs), key)[0] == Placement(key, id, rs[r].source, rs[r].groups[n])
  {
    hide Key, RowsOf;
    var last := |rs| - 1;
    var front := RoutePlacements(id, rs[..last]);
    var tail := RoutePlacements(id, rs)[|front|..];
    assert RoutePlacements(id, rs) == front + tail;
    RowsOfSplit(front, tail, key);
    if r < last {
      FirstRowOfRoutes(id, rs[..last], key, r, n);
    } else {
      NotOnRoutes(id, rs[..last], key);
      forall m | 0 <= m < n ensures Key(rs[r].groups[m]) != Some(key) {
        assert !ListedOn(rs[r], key, m);
      }
      FirstRowOfList(id, rs[r].source, rs[r].groups, key, n);
    }
  }

  lemma NotOnRoutes(id: string, rs: seq<Route>, key: string)
    requires forall q: nat, m: nat :: q < |rs| ==> !ListedOn(rs[q], key, m)
    ensures RowsOf(RoutePlacements(id, rs), key) == []
  {
    hide Key, RowsOf, RoutePlacements;
    forall p | p in RoutePlacements(id, rs) ensures p.key != key {
      RoutePlacementsMembers(id, rs, p);
      var q: nat :| q < |rs| && rs[q].source == p.source != "" && p.group in rs[q].groups;
      var m: nat :| m < |rs[q].groups| && rs[q].groups[m] == p.group;
      assert !ListedOn(rs[q], key, m);
    }
    NoRows(RoutePlacements(id, rs), key);
  }

  /** The placement reconcile moves a group by is the first one listed. */
  lemma {:induction false} FirstRow(es: seq<Entry>, key: string, a: nat, r: nat, n: nat)
    requires FirstListed(es, key, a, r, n)
    ensures RowsOf(Placements(es), key) != []
    ensures var route := Migrate(es[a].config)[r];
            RowsOf(Placements(es), key)[0] == Placement(key, es[a].id, route.source, route.groups[n])
  {
    hide Key, Migrate, RowsOf, RoutePlacements;
    var last := |es| - 1;
    var tail := RoutePlacements(es[last].id, Migrate(es[last].config));
    RowsOfSplit(Placements(es[..last]), tail, key);
    var front := es[..last];
    forall b: nat, q: nat, m: nat | b < last ensures ListedAt(front, key, b, q, m) <==> ListedAt(es, key, b, q, m) {
      assert front[b] == es[b];
    }
    if a < last {
      FirstRow(front, key, a, r, n);
    } else {
      NotPlaced(front, key);
      FirstRowOfRoutes(es[last].id, Migrate(es[last].config), key, r, n);
    }
  }

  lemma {:induction false} NotPlaced(es: seq<Entry>, key: string)
    requires forall b: nat, q: nat, m: nat :: b < |es| ==> !ListedAt(es, key, b, q, m)
    ensures RowsOf(Placements(es), key) == []
  {
    hide Key, Migrate, RowsOf, RoutePlacements;
    if es == [] {
      NoRows([], key);
    } else {
      var last := |es| - 1;
      var tail := RoutePlacements(es[last].id, Migrate(es[last].config));
      RowsOfSplit(Placements(es[..last]), tail, key);
      forall b: nat, q: nat, m: nat | b < last ensures !ListedAt(es[..last], key, b, q, m) {
        assert !ListedAt(es, key, b, q, m);
      }
      NotPlaced(es[..last], key);
      forall q: nat, m: nat | q < |Migrate(es[last].config)| ensures !ListedOn(Migrate(es[last].config)[q], key, m) {
        assert !ListedAt(es, key, last, q, m);
      }
      NotOnRoutes(es[last].id, Migrate(es[last].config), key);
    }
  }

  /** The profile lists the group in this spelling under this source, and nowhere else. */
  ghost predicate OnlyAt(cfg: Config, key: string, source: string, group: string) {
    forall s, g :: Key(g) == Some(key) ==> (HoldsAt(cfg, s, g) <==> s == source && g == group)
  }

  /** The route a group given with this source goes to: its own when there is one, else one that is on. */
  ghost predicate GivenRoute(rs: seq<Route>, source: string, s: string) {
    if source != "" && HasRoute(rs, source) then s == source else s in EnabledSources(rs)
  }

  /** A winner that lists the group keeps it where it is; another gets it by the first placement. */
  ghost predicate WinnerPlaces(before: Config, after: Config, key: string, source: string, group: string) {
    if Holds(before, key) then forall s, g :: Key(g) == Some(key) ==> (HoldsAt(after, s, g) <==> HoldsAt(before, s, g))
    else exists s :: GivenRoute(Migrate(before), source, s) && OnlyAt(after, key, s, group)
  }

  lemma GoesSomewhere(rs: seq<Route>, preferred: string) returns (s: string)
    requires Sourced(rs) && EnabledSources(rs) != []
    ensures GoesUnder(rs, preferred, s) && GivenRoute(rs, preferred, s)
  {
    EnabledSourcesMembers(rs);
    assert EnabledSources(rs)[0] in EnabledSources(rs);
    var n := TargetIndex(rs, preferred);
    s := rs[n].source;
    TargetGoes(rs, preferred, s);
    hide EnabledSources;
    if !(preferred != "" && HasRoute(rs, preferred)) {
      var e :| e in rs && e.enabled;
      var i :| 0 <= i < |rs| && rs[i] == e;
      var m := FirstOn(rs, i);
    }
  }

  lemma {:induction false} FirstOn(rs: seq<Route>, i: nat) returns (n: nat)
    requires i < |rs| && rs[i].enabled
    ensures IsFirstOn(rs, n)
  {
    n := i;
    if j :| 0 <= j < i && rs[j].enabled {
      n := FirstOn(rs, j);
    }
  }

  lemma SettleEntryPlaces(e: Entry, rows: seq<Placement>, key: string, winner: string)
    requires rows != [] && Key(rows[0].group) == Some(key) && Shown(rows[0].group) == rows[0].group
    requires WellFormed(e.config) && (Lists(rows, e.id) <==> Holds(e.config, key))
    requires e.id == winner && HasSource(e.config)
    ensures WinnerPlaces(e.config, SettleEntry(e, rows, key, winner).config, key, rows[0].source, rows[0].group)
  {
    hide Key, Shown, Migrate, Holds, RoutesHoldAt, EnsureConfig, EnabledSources, GoesUnder, GivenRoute;
    if !Holds(e.config, key) {
      SourcedHasRoutes(e.config);
      var s := GoesSomewhere(Migrate(e.config), rows[0].source);
      EnsurePlaces(e.config, rows[0].group, rows[0].source, s);
      NotHeldAt(e.config, key);
    }
  }

  lemma NotHeldAt(cfg: Config, key: string)
    requires !Holds(cfg, key)
    ensures forall s, g :: HoldsAt(cfg, s, g) ==> Key(g) != Some(key)
  {
    hide Key, Migrate, RoutesHold, RoutesHoldAt;
    HoldsThrough(Migrate(cfg), key);
  }

  /** Settling several keys puts each at its winner by its own first placement, whatever the others did. */
  lemma {:induction false} SettleKeysPlaces(es: seq<Entry>, keys: seq<string>, ids: seq<string>, hash: string -> nat,
      i: nat, key: string)
    requires DistinctIds(es) && AllWellFormed(es) && DistinctKeys(keys) && key in keys && i < |es|
    requires forall k :: k in keys ==> Held(es, k) && RightfulOwner(k, ids, hash).Some?
    requires forall a :: a in ids ==> Strip(a) == a && HasSourceId(es, a)
    requires RightfulOwner(key, ids, hash) == Some(es[i].id)
    ensures forall k :: k in keys ==> Settleable(Placements(es), k)
    ensures |SettleKeys(es, Placements(es), keys, ids, hash)| == |es|
    ensures var p := RowsOf(Placements(es), key)[0];
            var after := SettleKeys(es, Placements(es), keys, ids, hash)[i].config;
            WinnerPlaces(es[i].config, after, key, p.source, p.group)
  {
    hide Key, Shown, Strip, Holds, HoldsAt, WellFormed, HasSource, Placements, RowsOf, RightfulOwner, SettledEntry,
      SettleEntry, Lists, WinnerPlaces;
    SettleKeysEffect(es, keys, ids, hash);
    var ps := Placements(es);
    var front, last := keys[..|keys| - 1], keys[|keys| - 1];
    assert keys == front + [last];
    SettleKeysEffect(es, front, ids, hash);
    var mid := SettleKeys(es, ps, front, ids, hash)[i];
    var rows := RowsOf(ps, last);
    FirstPlacement(es, last);
    FirstPlacement(es, key);
    if key == last {
      SourcedWinner(es, ids, hash, i, key);
      SettleEntryHere(es[i], mid, rows, front, key, ids, hash);
    } else {
      SettleKeysPlaces(es, front, ids, hash, i, key);
      SettleEntryElsewhere(es, i, mid, rows, front, last, ids, hash, key, RowsOf(ps, key)[0]);
    }
  }

  lemma SourcedWinner(es: seq<Entry>, ids: seq<string>, hash: string -> nat, i: nat, key: string)
    requires DistinctIds(es) && i < |es| && RightfulOwner(key, ids, hash) == Some(es[i].id)
    requires forall a :: a in ids ==> Strip(a) == a && HasSourceId(es, a)
    ensures HasSource(es[i].config)
  {
    hide Strip, HasSource, RightfulOwner;
    RightfulOwnerIsMember(key, ids, hash);
    var j := SourcedEntry(es, es[i].id);
    assert j == i;
  }

  lemma SettleEntryHere(e: Entry, mid: Entry, rows: seq<Placement>, front: seq<string>, key: string, ids: seq<string>,
      hash: string -> nat)
    requires key !in front && SettledEntry(e, mid, front, ids, hash) && HasSource(e.config)
    requires rows != [] && Key(rows[0].group) == Some(key) && Shown(rows[0].group) == rows[0].group
    requires Lists(rows, e.id) <==> Holds(e.config, key)
    ensures WinnerPlaces(e.config, SettleEntry(mid, rows, key, e.id).config, key, rows[0].source, rows[0].group)
  {
    hide Key, Shown, Migrate, Holds, HoldsAt, HasSource, WellFormed, RightfulOwner, SettleEntry, Lists, Switches,
      EnabledSources, HasRoute;
    SettleEntryPlaces(mid, rows, key, e.id);
    SameSwitches(Migrate(e.config), Migrate(mid.config));
  }

  lemma SettleEntryElsewhere(es: seq<Entry>, i: nat, mid: Entry, rows: seq<Placement>, front: seq<string>, last: string,
      ids: seq<string>, hash: string -> nat, key: string, p: Placement)
    requires DistinctIds(es) && i < |es|
    requires last !in front && RightfulOwner(last, ids, hash).Some?
    requires forall a :: a in ids ==> Strip(a) == a && HasSourceId(es, a)
    requires SettledEntry(es[i], mid, front, ids, hash)
    requires rows != [] && Key(rows[0].group) == Some(last) && Shown(rows[0].group) == rows[0].group
    requires Lists(rows, es[i].id) <==> Holds(es[i].config, last)
    requires key != last && WinnerPlaces(es[i].config, mid.config, key, p.source, p.group)
    ensures WinnerPlaces(es[i].config, SettleEntry(mid, rows, last, RightfulOwner(last, ids, hash).value).config, key,
        p.source, p.group)
  {
    hide Key, Shown, Strip, Migrate, Holds, HoldsAt, HasSource, HasSourceId, WellFormed, RightfulOwner, SettleEntry,
      Lists, GivenRoute, Switches;
    var winner := RightfulOwner(last, ids, hash).value;
    RightfulOwnerIsMember(last, ids, hash);
    assert winner in ids;
    if es[i].id == winner {
      SourcedWinner(es, ids, hash, i, last);
    }
    SettleEntryEffect(mid, rows, last, winner);
    hide SettledEntry;
    PlacesKept(es[i].config, mid.config, SettleEntry(mid, rows, last, winner).config, key, p);
  }

  lemma PlacesKept(before: Config, mid: Config, after: Config, key: string, p: Placement)
    requires WinnerPlaces(before, mid, key, p.source, p.group)
    requires forall s, g :: Key(g) == Some(key) ==> (HoldsAt(after, s, g) <==> HoldsAt(mid, s, g))
    ensures WinnerPlaces(before, after, key, p.source, p.group)
  {
    hide Key, Migrate, Holds, HoldsAt, GivenRoute;
    if !Holds(before, key) {
      var s :| GivenRoute(Migrate(before), p.source, s) && OnlyAt(mid, key, s, p.group);
      assert OnlyAt(after, key, s, p.group);
    }
  }

  /**
   * Main result on how a contested group is moved: an owner that lists it keeps it where it is; another gets it once,
   * in the spelling of the first placement of all, under that placement's source when it has a route for it, else
   * under one of its enabled sources.
   */
  lemma ReconcileMovesTo(es: seq<Entry>, accountIds: seq<string>, hash: string -> nat, i: nat, key: string,
      a: nat, r: nat, n: nat)
    requires DistinctIds(es) && AllWellFormed(es) && CleanIds(es) && Candidates(es, accountIds) != {}
    requires forall c :: Contested(es, c) ==> Key(c).Some?
    requires i < |es| && Contested(es, key) && Stands(Candidates(es, accountIds), es[i].id, Key(key).value, hash)
    requires FirstListed(es, key, a, r, n)
    ensures |Reconciled(es, accountIds, hash)| == |es|
    ensures var route := Migrate(es[a].config)[r];
            WinnerPlaces(es[i].config, Reconciled(es, accountIds, hash)[i].config, key, route.source, route.groups[n])
  {
    CandidatesEligible(es, accountIds);
    OwnableIff(es, accountIds, hash);
    hide Key, Strip, Holds, HoldsAt, HasSource, WellFormed, RightfulOwner, EligibleIds, Candidates, Contested, Clean,
      Stands, CleanIds, Placements, WinnerPlaces, Migrate, Reconciled, FirstListed, Ownable, RowsOf;
    EligibleAreCandidates(es, accountIds);
    OwnerStands(key, EligibleIds(es, accountIds), hash, es[i].id);
    FirstRow(es, key, a, r, n);
    ReconcileMoves(es, accountIds, hash, i, key);
  }

  lemma ReconcileMoves(es: seq<Entry>, accountIds: seq<string>, hash: string -> nat, i: nat, key: string)
    requires DistinctIds(es) && AllWellFormed(es)
    requires EligibleIds(es, accountIds) != [] && Ownable(es, EligibleIds(es, accountIds), hash)
    requires i < |es| && Contested(es, key)
    requires RightfulOwner(key, EligibleIds(es, accountIds), hash) == Some(es[i].id)
    ensures RowsOf(Placements(es), key) != [] && |Reconciled(es, accountIds, hash)| == |es|
    ensures var p := RowsOf(Placements(es), key)[0];
            WinnerPlaces(es[i].config, Reconciled(es, accountIds, hash)[i].config, key, p.source, p.group)
  {
    hide Key, Strip, Holds, HoldsAt, WellFormed, RightfulOwner, EligibleIds, Contested, Placements, Overlaps,
      WinnerPlaces, HasSourceId, SettleKeys, RowsOf, Held;
    EligibleIdsFacts(es, accountIds);
    OverlapsAreContested(es);
    OverlapsAreSettleable(es);
    forall k | k in Overlaps(es) ensures Held(es, k) {
      ContestedIsHeld(es, k);
    }
    SettleKeysPlaces(es, Overlaps(es), EligibleIds(es, accountIds), hash, i, key);
  }

  // ---------------------------------------------------------------- what the report counts

  /** Placements of `keys` beyond one account each. */
  function Surplus(es: seq<Entry>, keys: seq<string>): int {
    if keys == [] then 0 else Surplus(es, keys[..|keys| - 1]) + |OwnersOf(es, keys[|keys| - 1])| - 1
  }

  /** The account a contested group goes to holds it already. */
  predicate OwnerHasIt(es: seq<Entry>, key: string, ids: seq<string>, hash: string -> nat) {
    RightfulOwner(key, ids, hash).Some? && RightfulOwner(key, ids, hash).value in OwnersOf(es, key)
  }

  /** How many of `keys` go to an account that does not hold them yet. */
  function Moves(es: seq<Entry>, keys: seq<string>, ids: seq<string>, hash: string -> nat): nat {
    if keys == [] then 0
    else
      Moves(es, keys[..|keys| - 1], ids, hash) + (if OwnerHasIt(es, keys[|keys| - 1], ids, hash) then 0 else 1)
  }

  /** Accounts that hold the key and are not the winner: the profiles stripped for it. */
  function Losers(es: seq<Entry>, key: string, winner: string): nat {
    if es == [] then 0
    else
      var e := es[|es| - 1];
      Losers(es[..|es| - 1], key, winner) + (if e.id != winner && key in KeysOf(e) then 1 else 0)
  }

  /** Every holder but the winner is stripped. */
  lemma {:induction false} LosersCount(es: seq<Entry>, key: string, winner: string)
    requires DistinctIds(es)
    ensures Losers(es, key, winner) == |OwnersOf(es, key)| - (if winner in OwnersOf(es, key) then 1 else 0)
  {
    hide KeysOf;
    if es != [] {
      var front, e := es[..|es| - 1], es[|es| - 1];
      LosersCount(front, key, winner);
      OwnersOfMembers(front, key);
      assert e.id !in OwnersOf(front, key);
    }
  }
}
