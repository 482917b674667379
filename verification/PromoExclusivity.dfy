/** The profile objects, rewritten in place by strip, ensure, claim and reconcile. */
module PromoExclusivity {
  import opened Common
  import opened Refs
  import opened Routes
  import opened Ownership
  import opened Exclusivity

  /** The inner loop of strip: `kept` without the spellings of one key. */
  method DropGroup(groups: seq<string>, key: string) returns (kept: seq<string>, dropped: bool)
    ensures kept == Without(groups, key)
    ensures dropped <==> kept != groups
  {
    hide Key;
    kept, dropped := [], false;
    for j := 0 to |groups|
      invariant kept == Without(groups[..j], key)
      invariant |kept| <= j
      invariant dropped <==> |kept| < j
    {
      assert groups[..j + 1][..j] == groups[..j];
      if Key(groups[j]) == Some(key) {
        dropped := true;
      } else {
        kept := kept + [groups[j]];
      }
    }
    assert groups[..|groups|] == groups;
    WithoutChanges(groups, key);
  }

  /** The `by_src` dict of ensure, with the target route put in last. */
  method RebuildBySource(written: seq<Route>, n: nat) returns (bySource: seq<Route>)
    requires n < |written|
    ensures bySource == if written[n].source == "" then PutAll(written) else Put(PutAll(written), written[n])
  {
    bySource := [];
    for i := 0 to |written|
      invariant bySource == PutAll(written[..i])
    {
      assert written[..i + 1][..i] == written[..i];
      if written[i].source != "" {
        bySource := Put(bySource, written[i]);
      }
    }
    assert written[..|written|] == written;
    if written[n].source != "" {
      bySource := Put(bySource, written[n]);
    }
  }

  class Account {
    const id: string
    var config: Config

    constructor (id: string, config: Config)
      ensures this.id == id && this.config == config
    {
      this.id := id;
      this.config := config;
    }

    /** `strip_group_from_profile` */
    method StripGroup(key: string) returns (changed: bool)
      modifies this
      ensures config == StripConfig(old(config), key)
      ensures changed == Mentions(Migrate(old(config)), key)
    {
      hide Key, Migrate, Without;
      var routes := MigrateRoutes(config);
      changed := false;
      var out := [];
      for i := 0 to |routes|
        invariant config == old(config)
        invariant out == StripRoutes(routes, key)[..i]
        invariant changed <==> exists j :: 0 <= j < i && Without(routes[j].groups, key) != routes[j].groups
      {
        var kept, dropped := DropGroup(routes[i].groups, key);
        changed := changed || dropped;
        out := out + [routes[i].(groups := kept)];
        assert out[i] == StripRoutes(routes, key)[i];
      }
      assert out == StripRoutes(routes, key);
      if changed {
        config := config.(routes := out);
      }
    }

    /** `ensure_group_on_profile`; `preferred` is empty when the source passes none. */
    method EnsureGroup(group: string, preferred: string) returns (added: bool)
      requires Key(group).Some?
      modifies this
      ensures config == EnsureConfig(old(config), group, DisplayRef(preferred))
      ensures var rs := Migrate(old(config));
              added == (rs != [] && Missing(rs, group, DisplayRef(preferred)))
    {
      hide Key, Migrate, DisplayRef, Without, Put, PutAll;
      var routes := MigrateRoutes(config);
      if routes == [] {
        return false;
      }
      var key := Key(group).value;
      var n := TargetIndex(routes, DisplayRef(preferred));
      var _, present := DropGroup(routes[n].groups, key);
      if present {
        return false;
      }
      var bySource := RebuildBySource(Appended(routes, n, group), n);
      config := config.(routes := SortRoutes(bySource));
      added := true;
    }

    /** `_iter_route_groups`, with keys already computed. */
    method IterRouteGroups() returns (out: seq<Placement>)
      ensures out == RoutePlacements(id, Migrate(config))
    {
      hide Key, Migrate;
      var routes := MigrateRoutes(config);
      out := [];
      for i := 0 to |routes|
        invariant out == RoutePlacements(id, routes[..i])
      {
        assert routes[..i + 1][..i] == routes[..i];
        if routes[i].source != "" {
          var before := out;
          var groups := routes[i].groups;
          for j := 0 to |groups|
            invariant out == before + ListPlacements(id, routes[i].source, groups[..j])
          {
            assert groups[..j + 1][..j] == groups[..j];
            if Key(groups[j]).Some? {
              out := out + [Placement(Key(groups[j]).value, id, routes[i].source, groups[j])];
            }
          }
          assert groups[..|groups|] == groups;
        }
      }
      assert routes[..|routes|] == routes;
    }
  }

  /** The accounts' ids and profiles at this moment. */
  function Snapshot(accounts: seq<Account>): (es: seq<Entry>)
    reads accounts
    ensures |es| == |accounts|
    ensures forall i :: 0 <= i < |es| ==> es[i] == Entry(accounts[i].id, accounts[i].config)
  {
    if accounts == [] then []
    else Snapshot(accounts[..|accounts| - 1]) + [Entry(accounts[|accounts| - 1].id, accounts[|accounts| - 1].config)]
  }

  ghost predicate DistinctAccounts(accounts: seq<Account>) {
    forall i, j :: 0 <= i < j < |accounts| ==> accounts[i].id != accounts[j].id
  }

  lemma AppendPlacement(ps: seq<Placement>, p: Placement)
    ensures KeyOrder(ps + [p]) == if p.key in KeyOrder(ps) then KeyOrder(ps) else KeyOrder(ps) + [p.key]
    ensures forall k :: RowsOf(ps + [p], k) == if k == p.key then RowsOf(ps, k) + [p] else RowsOf(ps, k)
    ensures p.key !in KeyOrder(ps) ==> RowsOf(ps, p.key) == []
  {
    assert (ps + [p])[..|ps|] == ps;
    KeyOrderMembers(ps);
    RowsOfMembers(ps, p.key);
    if RowsOf(ps, p.key) != [] {
      assert RowsOf(ps, p.key)[0] in RowsOf(ps, p.key);
    }
  }

  /** The insertion-ordered `placements` dict, for the placements seen so far. */
  ghost predicate Grouped(order: seq<string>, rows: map<string, seq<Placement>>, ps: seq<Placement>) {
    && order == KeyOrder(ps)
    && (forall k :: k in rows <==> k in order)
    && (forall k :: k in rows ==> rows[k] == RowsOf(ps, k))
  }

  /** `placements.setdefault(key, []).append(row)` for each row. */
  method AddPlacements(order0: seq<string>, rows0: map<string, seq<Placement>>, own: seq<Placement>,
      ghost ps: seq<Placement>)
    returns (order: seq<string>, rows: map<string, seq<Placement>>)
    requires Grouped(order0, rows0, ps)
    ensures Grouped(order, rows, ps + own)
  {
    hide KeyOrder, RowsOf;
    order, rows := order0, rows0;
    assert ps + own[..0] == ps;
    for b := 0 to |own|
      invariant Grouped(order, rows, ps + own[..b])
    {
      var p := own[b];
      AppendPlacement(ps + own[..b], p);
      assert ps + own[..b + 1] == ps + own[..b] + [p];
      if p.key in rows {
        rows := rows[p.key := rows[p.key] + [p]];
      } else {
        order := order + [p.key];
        rows := rows[p.key := [p]];
      }
    }
    assert own[..|own|] == own;
  }

  /** The insertion-ordered `placements` dict of reconcile and of the guard. */
  method CollectPlacements(accounts: seq<Account>)
    returns (order: seq<string>, rows: map<string, seq<Placement>>)
    ensures Grouped(order, rows, Placements(Snapshot(accounts)))
  {
    hide Migrate, RoutePlacements;
    order, rows := [], map[];
    ghost var es := Snapshot(accounts);
    for a := 0 to |accounts|
      invariant Grouped(order, rows, Placements(es[..a]))
    {
      assert es[..a + 1][..a] == es[..a];
      var own := accounts[a].IterRouteGroups();
      order, rows := AddPlacements(order, rows, own, Placements(es[..a]));
    }
    assert es[..|accounts|] == es;
  }

  /** A longer prefix of the visited keys visits at most one more contested key. */
  lemma ContestedNext(ps: seq<Placement>, order: seq<string>, n: nat)
    requires n < |order|
    ensures ContestedKeys(ps, order[..n + 1]) ==
              ContestedKeys(ps, order[..n]) + (if OnTwoAccounts(RowsOf(ps, order[n])) then [order[n]] else [])
  {
    assert order[..n + 1][..n] == order[..n];
  }

  // ---------------------------------------------------------------- find_overlaps

  /** The `owners` dict of `find_overlaps` for the profiles seen so far. */
  ghost predicate OwnersKnown(owners: map<string, seq<string>>, es: seq<Entry>) {
    forall k :: if k in owners then owners[k] == OwnersOf(es, k) != [] else OwnersOf(es, k) == []
  }

  /** One profile's keys, each once, added to the `owners` dict. */
  method AddOwner(owners0: map<string, seq<string>>, order0: seq<string>, own: seq<Placement>, ghost es: seq<Entry>,
      ghost e: Entry)
    returns (owners: map<string, seq<string>>, order: seq<string>)
    requires OwnersKnown(owners0, es) && order0 == KeyOrder(Placements(es)) &&
        (forall k :: k in owners0 <==> k in order0)
    requires own == RoutePlacements(e.id, Migrate(e.config)) && forall i :: 0 <= i < |own| ==> own[i].id == e.id
    ensures OwnersKnown(owners, es + [e]) && order == KeyOrder(Placements(es + [e]))
    ensures forall k :: k in owners <==> k in order
  {
    hide Placements, Migrate, RoutePlacements, OwnersOf, KeyOrder;
    owners, order := owners0, order0;
    var seen: set<string> := {};
    ghost var ps := Placements(es);
    assert own[..0] == [] && ps + [] == ps;
    NoKeys();
    for i := 0 to |own|
      invariant forall k :: k in seen <==> k in KeyOrder(own[..i])
      invariant order == KeyOrder(ps + own[..i])
      invariant forall k :: k in owners <==> k in order
      invariant forall k :: k in owners <==> k in owners0 || k in seen
      invariant forall k :: k in owners ==> owners[k] == OwnersOf(es, k) + (if k in seen then [e.id] else [])
    {
      var key := own[i].key;
      assert own[..i + 1] == own[..i] + [own[i]] && ps + own[..i + 1] == ps + own[..i] + [own[i]];
      AppendKey(own[..i], own[i]);
      AppendKey(ps + own[..i], own[i]);
      if key !in seen {
        seen := seen + {key};
        if key in owners {
          owners := owners[key := owners[key] + [own[i].id]];
        } else {
          owners, order := owners[key := [own[i].id]], order + [key];
        }
      }
    }
    assert own[..|own|] == own;
    OwnersNext(es, e);
  }

  lemma NoKeys()
    ensures KeyOrder([]) == []
  {
  }

  lemma AppendKey(ps: seq<Placement>, p: Placement)
    ensures KeyOrder(ps + [p]) == if p.key in KeyOrder(ps) then KeyOrder(ps) else KeyOrder(ps) + [p.key]
  {
    assert (ps + [p])[..|ps|] == ps;
  }

  lemma OwnersNext(es: seq<Entry>, e: Entry)
    ensures Placements(es + [e]) == Placements(es) + RoutePlacements(e.id, Migrate(e.config))
    ensures forall k :: OwnersOf(es + [e], k) == OwnersOf(es, k) + (if k in KeysOf(e) then [e.id] else [])
  {
    hide KeysOf, Migrate, RoutePlacements;
    assert (es + [e])[..|es|] == es;
  }

  /** The `owners` dict of `find_overlaps`, and its insertion order. */
  method CollectOwners(accounts: seq<Account>) returns (owners: map<string, seq<string>>, order: seq<string>)
    ensures OwnersKnown(owners, Snapshot(accounts)) && order == KeyOrder(Placements(Snapshot(accounts)))
    ensures forall k :: k in owners <==> k in order
  {
    hide Placements, Migrate, RoutePlacements, OwnersOf, KeyOrder, OwnersKnown;
    owners, order := map[], [];
    ghost var es := Snapshot(accounts);
    OwnersOfNobody();
    for a := 0 to |accounts|
      invariant OwnersKnown(owners, es[..a]) && order == KeyOrder(Placements(es[..a]))
      invariant forall k :: k in owners <==> k in order
    {
      assert es[..a + 1] == es[..a] + [es[a]];
      var own := accounts[a].IterRouteGroups();
      RoutePlacementsOwn(es[a]);
      owners, order := AddOwner(owners, order, own, es[..a], es[a]);
    }
    assert es[..|accounts|] == es;
  }

  /** `find_overlaps`: the groups on more than one account, in order, with the accounts that list them. */
  method FindOverlaps(accounts: seq<Account>) returns (overlaps: seq<string>, owners: map<string, seq<string>>)
    requires DistinctAccounts(accounts)
    ensures overlaps == Overlaps(Snapshot(accounts))
    ensures forall k :: k in overlaps ==> k in owners && owners[k] == OwnersOf(Snapshot(accounts), k)
  {
    hide Placements, Migrate, RoutePlacements, OwnersOf, KeyOrder, OwnersKnown;
    ghost var es := Snapshot(accounts);
    var order;
    owners, order := CollectOwners(accounts);
    overlaps := [];
    ghost var ps := Placements(es);
    OwnersAgree(es, owners);
    for n := 0 to |order|
      invariant overlaps == ContestedKeys(ps, order[..n])
    {
      ContestedNext(ps, order, n);
      OwnedTwice(es, order[n]);
      if |owners[order[n]]| > 1 {
        overlaps := overlaps + [order[n]];
      }
    }
    assert order[..|order|] == order;
    OverlapsKnown(es, overlaps);
  }

  lemma OwnersOfNobody()
    ensures OwnersKnown(map[], []) && KeyOrder(Placements([])) == []
  {
  }

  lemma RoutePlacementsOwn(e: Entry)
    ensures var own := RoutePlacements(e.id, Migrate(e.config));
            forall i :: 0 <= i < |own| ==> own[i].id == e.id
  {
    hide Migrate, RoutePlacements, RoutesHoldAt, Key;
    var own := RoutePlacements(e.id, Migrate(e.config));
    forall i | 0 <= i < |own| ensures own[i].id == e.id {
      assert own[i] in own;
      RoutePlacementsMembers(e.id, Migrate(e.config), own[i]);
    }
  }

  lemma OwnersAgree(es: seq<Entry>, owners: map<string, seq<string>>)
    requires OwnersKnown(owners, es)
    ensures forall k :: k in owners ==> owners[k] == OwnersOf(es, k)
  {
    hide OwnersOf;
  }

  /** A key has two owners exactly when its rows name two accounts. */
  lemma OwnedTwice(es: seq<Entry>, k: string)
    requires DistinctIds(es)
    ensures k in KeyOrder(Placements(es)) ==> (|OwnersOf(es, k)| > 1 <==> OnTwoAccounts(RowsOf(Placements(es), k)))
  {
    hide Placements, KeyOrder, Holds, OwnersOf, RowsOf, OnTwoAccounts;
    OwnersOfCount(es, k);
    OverlapsAreContested(es);
    var ps := Placements(es);
    KeyOrderMembers(ps);
    ContestedKeysMembers(ps, KeyOrder(ps));
  }

  lemma OverlapsKnown(es: seq<Entry>, overlaps: seq<string>)
    requires overlaps == ContestedKeys(Placements(es), KeyOrder(Placements(es)))
    ensures overlaps == Overlaps(es)
    ensures forall k :: k in overlaps ==> k in KeyOrder(Placements(es))
  {
    hide Placements, KeyOrder, RowsOf, OnTwoAccounts, ContestedKeys;
    KeyOrderMembers(Placements(es));
    ContestedKeysMembers(Placements(es), KeyOrder(Placements(es)));
  }

  /** The dict `reconcile_exclusive_profiles` returns. */
  datatype Report = Report(changed: bool, moved: nat, removed: nat, overlapsBefore: nat, overlapsAfter: nat)

  /**
   * What one contested key looks like when its turn comes: its rows describe the profiles, and its winner is sourced.
   */
  ghost predicate Ready(es: seq<Entry>, rows: seq<Placement>, key: string, winner: string) {
    && DistinctIds(es) && AllWellFormed(es) && HasSourceId(es, winner)
    && rows != [] && Key(rows[0].group) == Some(key) && DisplayRef(rows[0].source) == rows[0].source
    && Shown(rows[0].group) == rows[0].group
    && forall i :: 0 <= i < |es| ==> (Lists(rows, es[i].id) <==> Holds(es[i].config, key))
  }

  /** One turn of reconcile's loop: give the group to `winner` if it lacks it, strip it from everyone else. */
  method SettleInPlace(accounts: seq<Account>, rows: seq<Placement>, key: string, winner: string)
    returns (moved: nat, removed: nat)
    requires Ready(Snapshot(accounts), rows, key, winner)
    modifies accounts
    ensures rows != [] && Key(rows[0].group).Some?
    ensures forall i :: 0 <= i < |accounts| ==>
              Snapshot(accounts)[i] == SettleEntry(old(Snapshot(accounts))[i], rows, key, winner)
    ensures moved == if Lists(rows, winner) then 0 else 1
    ensures removed == Losers(old(Snapshot(accounts)), key, winner)
  {
    hide Key, Shown, DisplayRef, Holds, WellFormed, HasSource, HasSourceId, StripConfig, EnsureConfig, Lists, Losers,
      Migrate, Ready;
    ghost var es := Snapshot(accounts);
    ReadyFacts(es, rows, key, winner);
    moved := GiveToWinner(accounts, rows, key, winner);
    LosersIgnoreWinner(es, Snapshot(accounts), key, winner);
    removed := StripOthers(accounts, key, winner);
  }

  lemma ReadyFacts(es: seq<Entry>, rows: seq<Placement>, key: string, winner: string)
    requires Ready(es, rows, key, winner)
    ensures DistinctIds(es) && rows != [] && Key(rows[0].group) == Some(key)
    ensures forall i :: 0 <= i < |es| ==> WellFormed(es[i].config)
  {
    hide Key, Shown, DisplayRef, Holds, WellFormed, HasSource, HasSourceId, Lists;
  }

  /** The winner gets the group in its first recorded spelling, unless it already lists it. */
  method GiveToWinner(accounts: seq<Account>, rows: seq<Placement>, key: string, winner: string) returns (moved: nat)
    requires DistinctAccounts(accounts) && Ready(Snapshot(accounts), rows, key, winner)
    modifies accounts
    ensures rows != [] && Key(rows[0].group).Some?
    ensures forall i :: 0 <= i < |accounts| ==>
              accounts[i].config == if accounts[i].id == winner && !Lists(rows, winner)
                                    then EnsureConfig(old(accounts[i].config), rows[0].group, rows[0].source)
                                    else old(accounts[i].config)
    ensures moved == if Lists(rows, winner) then 0 else 1
  {
    hide Key, Shown, DisplayRef, Holds, WellFormed, HasSource, EnsureConfig, Missing, Lists, Migrate;
    moved := 0;
    if !Lists(rows, winner) {
      ghost var es := Snapshot(accounts);
      var n: nat :| n < |accounts| && accounts[n].id == winner;
      assert es[n].id == winner && HasSource(es[n].config);
      WinnerLacksGroup(es[n].config, rows[0].group, rows[0].source, key);
      var added := accounts[n].EnsureGroup(rows[0].group, rows[0].source);
      if added {
        moved := moved + 1;
      }
    }
  }

  lemma {:induction false} LosersIgnoreWinner(a: seq<Entry>, b: seq<Entry>, key: string, winner: string)
    requires |a| == |b| && forall i :: 0 <= i < |a| ==> a[i].id == b[i].id && (a[i].id != winner ==> a[i] == b[i])
    ensures Losers(a, key, winner) == Losers(b, key, winner)
  {
    hide KeysOf;
    if a != [] {
      LosersIgnoreWinner(a[..|a| - 1], b[..|b| - 1], key, winner);
    }
  }

  /** The strip loop of reconcile: every account but the winner, counting those that changed. */
  method StripOthers(accounts: seq<Account>, key: string, winner: string) returns (removed: nat)
    requires DistinctAccounts(accounts)
    requires forall i :: 0 <= i < |accounts| && accounts[i].id != winner ==> WellFormed(accounts[i].config)
    modifies accounts
    ensures forall i :: 0 <= i < |accounts| ==>
              accounts[i].config == if accounts[i].id == winner then old(accounts[i].config)
                  else StripConfig(old(accounts[i].config), key)
    ensures removed == Losers(old(Snapshot(accounts)), key, winner)
  {
    hide Holds, WellFormed, StripConfig, Losers, Mentions, Migrate;
    ghost var es := Snapshot(accounts);
    removed := 0;
    assert es[..0] == [];
    LosersNone(key, winner);
    for a := 0 to |accounts|
      invariant removed == Losers(es[..a], key, winner)
      invariant forall i :: 0 <= i < |accounts| ==>
                  accounts[i].config == if i < a && es[i].id != winner then StripConfig(es[i].config, key)
                      else es[i].config
    {
      LosersNext(es, a, key, winner);
      if accounts[a].id != winner {
        StripCounts(es[a], key);
        var changed := accounts[a].StripGroup(key);
        if changed {
          removed := removed + 1;
        }
      }
    }
    assert es[..|accounts|] == es;
  }

  lemma LosersNone(key: string, winner: string)
    ensures Losers([], key, winner) == 0
  {
  }

  lemma LosersNext(es: seq<Entry>, a: nat, key: string, winner: string)
    requires a < |es|
    ensures Losers(es[..a + 1], key, winner) ==
              Losers(es[..a], key, winner) + (if es[a].id != winner && Holds(es[a].config, key) then 1 else 0)
  {
    hide Holds, KeysOf;
    assert es[..a + 1][..a] == es[..a];
    KeysOfHolds(es[a]);
  }

  lemma StripCounts(e: Entry, key: string)
    requires WellFormed(e.config)
    ensures Mentions(Migrate(e.config), key) <==> Holds(e.config, key)
  {
    hide Key, Migrate, Holds, HoldsAt, WellFormed, Mentions;
    StripEffect(e.config, key);
  }

  lemma WinnerLacksGroup(cfg: Config, group: string, preferred: string, key: string)
    requires WellFormed(cfg) && HasSource(cfg) && Key(group) == Some(key) && !Holds(cfg, key)
    ensures var rs := Migrate(cfg); rs != [] && Missing(rs, group, preferred)
  {
    hide Key, Migrate, TargetIndex;
    SourcedHasRoutes(cfg);
    var rs := Migrate(cfg);
    var n := TargetIndex(rs, preferred);
    WithoutChanges(rs[n].groups, key);
  }

  // ---------------------------------------------------------------- the reconcile loop

  lemma {:induction false} ContestedPrefix(ps: seq<Placement>, order: seq<string>, n: nat)
    requires n <= |order|
    ensures ContestedKeys(ps, order[..n]) <= ContestedKeys(ps, order)
    decreases |order| - n
  {
    if n == |order| {
      assert order[..n] == order;
    } else {
      ContestedNext(ps, order, n);
      ContestedPrefix(ps, order, n + 1);
    }
  }

  lemma {:induction false} OwnedPrefixStops(keys: seq<string>, n: nat, ids: seq<string>, hash: string -> nat)
    requires n <= |keys| && forall k :: k in keys[..n] ==> RightfulOwner(k, ids, hash).Some?
    requires n < |keys| ==> RightfulOwner(keys[n], ids, hash).None?
    ensures OwnedPrefix(keys, ids, hash) == keys[..n]
  {
    hide RightfulOwner;
    if n > 0 {
      assert keys[0] in keys[..n];
      assert forall k :: k in keys[1..][..n - 1] ==> k in keys[..n];
      OwnedPrefixStops(keys[1..], n - 1, ids, hash);
    }
  }

  /** What the loop knows before a contested key's turn. */
  lemma TurnIsReady(es: seq<Entry>, mid: seq<Entry>, done: seq<string>, key: string, ids: seq<string>,
      hash: string -> nat)
    requires DistinctIds(es) && AllWellFormed(es) && Contested(es, key) && key !in done
    requires SettledState(es, mid, done, ids, hash)
    requires RightfulOwner(key, ids, hash).Some? && forall a :: a in ids ==> Strip(a) == a && HasSourceId(es, a)
    ensures Ready(mid, RowsOf(Placements(es), key), key, RightfulOwner(key, ids, hash).value)
    ensures Losers(mid, key, RightfulOwner(key, ids, hash).value) ==
        Losers(es, key, RightfulOwner(key, ids, hash).value)
    ensures Lists(RowsOf(Placements(es), key), RightfulOwner(key, ids, hash).value) <==>
              RightfulOwner(key, ids, hash).value in OwnersOf(es, key)
  {
    hide Key, Shown, Strip, DisplayRef, Holds, HoldsAt, WellFormed, HasSource, RightfulOwner, Lists, Losers,
      Placements, RowsOf, Switches, Contested, OwnersOf, HasSourceId;
    var winner := RightfulOwner(key, ids, hash).value;
    RightfulOwnerIsMember(key, ids, hash);
    ContestedIsHeld(es, key);
    FirstPlacement(es, key);
    FirstSource(es, key);
    LosersSame(es, mid, key, winner);
    OwnersOfMembers(es, key);
    var i := SourcedEntry(es, winner);
    IsSourced(mid, i);
  }

  lemma IsSourced(es: seq<Entry>, i: nat)
    requires i < |es| && HasSource(es[i].config)
    ensures HasSourceId(es, es[i].id)
  {
    hide HasSource;
  }

  lemma FirstSource(es: seq<Entry>, key: string)
    requires RowsOf(Placements(es), key) != []
    ensures DisplayRef(RowsOf(Placements(es), key)[0].source) == RowsOf(Placements(es), key)[0].source
  {
    hide Key, Shown, DisplayRef, Migrate, Placements, RowsOf, Holds;
    var rows := RowsOf(Placements(es), key);
    assert rows[0] in rows;
    var i := HoldersOfRows(es, key, rows[0]);
    MigrateIsStored(es[i].config);
  }

  lemma {:induction false} LosersSame(a: seq<Entry>, b: seq<Entry>, key: string, winner: string)
    requires |a| == |b| && forall i :: 0 <= i < |a| ==>
        a[i].id == b[i].id && (Holds(a[i].config, key) <==> Holds(b[i].config, key))
    ensures Losers(a, key, winner) == Losers(b, key, winner)
  {
    hide Holds, KeysOf;
    if a != [] {
      LosersSame(a[..|a| - 1], b[..|b| - 1], key, winner);
      KeysOfHolds(a[|a| - 1]);
      KeysOfHolds(b[|b| - 1]);
    }
  }

  lemma SettleKeysNext(es: seq<Entry>, done: seq<string>, key: string, ids: seq<string>, hash: string -> nat)
    requires forall k :: k in done + [key] ==> Settleable(Placements(es), k) && RightfulOwner(k, ids, hash).Some?
    ensures forall k :: k in done ==> k in done + [key]
    ensures key in done + [key]
    ensures SettleKeys(es, Placements(es), done + [key], ids, hash) ==
              SettleKey(SettleKeys(es, Placements(es), done, ids, hash), Placements(es), key,
                  RightfulOwner(key, ids, hash).value)
  {
    hide RightfulOwner, Placements, Settleable, SettleKey;
    assert (done + [key])[..|done|] == done;
  }

  /** The profiles are where settling the keys visited so far leaves them. */
  ghost predicate LoopState(es: seq<Entry>, mid: seq<Entry>, done: seq<string>, ids: seq<string>, hash: string -> nat) {
    && (forall k :: k in done ==> Settleable(Placements(es), k) && RightfulOwner(k, ids, hash).Some?)
    && mid == SettleKeys(es, Placements(es), done, ids, hash)
  }

  lemma LoopStart(es: seq<Entry>, ids: seq<string>, hash: string -> nat)
    ensures LoopState(es, es, [], ids, hash)
    ensures ContestedKeys(Placements(es), []) == [] && Surplus(es, []) == 0 && Moves(es, [], ids, hash) == 0
  {
    hide Placements;
  }

  /** The visited contested keys are a proper prefix of all of them, and the next one follows. */
  lemma NextOverlap(es: seq<Entry>, done: seq<string>, n: nat)
    requires DistinctIds(es)
    requires var ps := Placements(es);
             n < |KeyOrder(ps)| && done == ContestedKeys(ps, KeyOrder(ps)[..n]) &&
                 OnTwoAccounts(RowsOf(ps, KeyOrder(ps)[n]))
    ensures var key := KeyOrder(Placements(es))[n];
            && |done| < |Overlaps(es)| && done == Overlaps(es)[..|done|] && Overlaps(es)[|done|] == key
            && key !in done && Contested(es, key)
            && forall k :: k in done ==> Contested(es, k)
    ensures DistinctKeys(done)
  {
    hide Placements, KeyOrder, ContestedKeys, RowsOf, OnTwoAccounts, Contested;
    var ps := Placements(es);
    ContestedNext(ps, KeyOrder(ps), n);
    ContestedPrefix(ps, KeyOrder(ps), n + 1);
    OverlapsAreContested(es);
    var key := KeyOrder(ps)[n];
    assert done + [key] <= Overlaps(es);
    assert forall j :: 0 <= j < |done| ==> done[j] == Overlaps(es)[j];
    assert Overlaps(es)[|done|] == key;
    assert key in Overlaps(es);
    forall k | k in done ensures k in Overlaps(es) {
      var j :| 0 <= j < |done| && done[j] == k;
      assert Overlaps(es)[j] == k;
    }
  }

  /** A contested key without an owner: the source raises here, and `Reconciled` stops here. */
  lemma TurnRaises(es: seq<Entry>, mid: seq<Entry>, done: seq<string>, accountIds: seq<string>, hash: string -> nat)
    requires LoopState(es, mid, done, EligibleIds(es, accountIds), hash) && EligibleIds(es, accountIds) != []
    requires |done| < |Overlaps(es)| && done == Overlaps(es)[..|done|]
    requires RightfulOwner(Overlaps(es)[|done|], EligibleIds(es, accountIds), hash).None?
    ensures mid == Reconciled(es, accountIds, hash)
    ensures exists k :: k in Overlaps(es) && RightfulOwner(k, EligibleIds(es, accountIds), hash).None?
  {
    hide Placements, Overlaps, EligibleIds, RightfulOwner, SettleKeys, Settleable;
    OwnedPrefixStops(Overlaps(es), |done|, EligibleIds(es, accountIds), hash);
    assert Overlaps(es)[|done|] in Overlaps(es);
    OverlapsAreSettleable(es);
  }

  /** Before the turn of an ownable contested key everything `SettleInPlace` asks for holds. */
  lemma TurnStarts(es: seq<Entry>, mid: seq<Entry>, done: seq<string>, key: string, ids: seq<string>,
      hash: string -> nat)
    requires DistinctIds(es) && AllWellFormed(es)
    requires LoopState(es, mid, done, ids, hash) && DistinctKeys(done)
    requires Contested(es, key) && key !in done && forall k :: k in done ==> Contested(es, k)
    requires forall a :: a in ids ==> Strip(a) == a && HasSourceId(es, a)
    requires RightfulOwner(key, ids, hash).Some?
    ensures var winner := RightfulOwner(key, ids, hash).value;
            var rows := RowsOf(Placements(es), key);
            && Ready(mid, rows, key, winner)
            && Settleable(Placements(es), key)
            && Losers(mid, key, winner) - (if Lists(rows, winner) then 0 else 1) == |OwnersOf(es, key)| - 1
            && (Lists(rows, winner) <==> OwnerHasIt(es, key, ids, hash))
  {
    hide Key, Strip, Holds, HasSource, WellFormed, Placements, RowsOf, RightfulOwner, SettledState, Settleable,
      SettleKeys, Ready, Losers, Lists, OwnersOf, HasSourceId;
    SettleKeysEffect(es, done, ids, hash);
    FirstPlacementSettles(es, key);
    TurnIsReady(es, mid, done, key, ids, hash);
    LosersCount(es, key, RightfulOwner(key, ids, hash).value);
  }

  /** After the turn the loop state includes the key. */
  lemma TurnEnds(es: seq<Entry>, mid: seq<Entry>, after: seq<Entry>, done: seq<string>, key: string,
      ids: seq<string>, hash: string -> nat)
    requires LoopState(es, mid, done, ids, hash)
    requires Settleable(Placements(es), key) && RightfulOwner(key, ids, hash).Some?
    requires |after| == |mid| && forall i :: 0 <= i < |mid| ==>
               after[i] == SettleEntry(mid[i], RowsOf(Placements(es), key), key, RightfulOwner(key, ids, hash).value)
    ensures LoopState(es, after, done + [key], ids, hash)
    ensures Surplus(es, done + [key]) == Surplus(es, done) + |OwnersOf(es, key)| - 1
    ensures Moves(es, done + [key], ids, hash) ==
              Moves(es, done, ids, hash) + (if OwnerHasIt(es, key, ids, hash) then 0 else 1)
  {
    hide Key, Placements, RowsOf, RightfulOwner, SettleEntry, SettleKeys, OwnersOf, OwnerHasIt;
    SettleKeysNext(es, done, key, ids, hash);
    assert (done + [key])[..|done|] == done;
  }

  lemma FirstPlacementSettles(es: seq<Entry>, key: string)
    requires DistinctIds(es) && Contested(es, key)
    ensures Settleable(Placements(es), key)
  {
    hide Key, Shown, Placements, RowsOf, Holds, Lists;
    FirstPlacement(es, key);
  }

  lemma LoopEnd(es: seq<Entry>, mid: seq<Entry>, done: seq<string>, accountIds: seq<string>, hash: string -> nat)
    requires LoopState(es, mid, done, EligibleIds(es, accountIds), hash) && EligibleIds(es, accountIds) != []
    requires done == ContestedKeys(Placements(es), KeyOrder(Placements(es)))
    ensures done == Overlaps(es)
    ensures mid == Reconciled(es, accountIds, hash)
    ensures forall k :: k in Overlaps(es) ==> RightfulOwner(k, EligibleIds(es, accountIds), hash).Some?
  {
    hide Placements, EligibleIds, RightfulOwner, SettleKeys, Settleable, ContestedKeys, KeyOrder;
    OverlapsAreSettleable(es);
  }

  /**
   * `reconcile_exclusive_profiles`. `None` is the `ValueError` the source raises when a contested key has
   * no owner; the profiles settled before that key stay settled.
   */
  method Reconcile(accounts: seq<Account>, accountIds: seq<string>,
      hash: string -> nat) returns (report: Option<Report>)
    requires DistinctAccounts(accounts) && AllWellFormed(Snapshot(accounts))
    modifies accounts
    ensures Snapshot(accounts) == Reconciled(old(Snapshot(accounts)), accountIds, hash)
    ensures var es := old(Snapshot(accounts));
            var ids := EligibleIds(es, accountIds);
            if ids == [] then report == Some(Report(false, 0, 0, 0, 0))
            else
              && (report.Some? <==> forall k :: k in Overlaps(es) ==> RightfulOwner(k, ids, hash).Some?)
              && (report.Some? ==>
                    && report.value.overlapsBefore == |Overlaps(es)|
                    && report.value.overlapsAfter == |Overlaps(Snapshot(accounts))|
                    && (report.value.changed <==> Overlaps(es) != [])
                    && report.value.moved == Moves(es, Overlaps(es), ids, hash)
                    && report.value.removed == report.value.moved + Surplus(es, Overlaps(es)))
  {
    hide Key, Strip, Holds, WellFormed, HasSource, HasSourceId, Placements, RowsOf, KeyOrder, EligibleIds,
      RightfulOwner, OnTwoAccounts, Lists, Losers, SettleEntry, SettledState, Settleable, SettleKeys, Contested,
      Ready, Snapshot, ContestedKeys, OwnersOf, Surplus, Moves, OwnerHasIt, LoopState, Reconciled, Overlaps;
    ghost var es := Snapshot(accounts);
    ghost var ps := Placements(es);
    var ids := EligibleIds(Snapshot(accounts), accountIds);
    if ids == [] {
      NothingEligible(es, accountIds, hash);
      return Some(Report(false, 0, 0, 0, 0));
    }
    EligibleIdsFacts(es, accountIds);
    var order, rows := CollectPlacements(accounts);
    var moved, removed, overlapsBefore, changed := 0, 0, 0, false;
    ghost var done: seq<string> := [];
    LoopStart(es, ids, hash);
    assert order[..0] == [];
    for n := 0 to |order|
      invariant done == ContestedKeys(ps, order[..n])
      invariant LoopState(es, Snapshot(accounts), done, ids, hash)
      invariant overlapsBefore == |done| && (changed <==> done != [])
      invariant moved == Moves(es, done, ids, hash) && removed == moved + Surplus(es, done)
    {
      var key := order[n];
      ContestedNext(ps, order, n);
      if OnTwoAccounts(rows[key]) {
        NextOverlap(es, done, n);
        var winner := RightfulOwner(key, ids, hash);
        if winner == None {
          TurnRaises(es, Snapshot(accounts), done, accountIds, hash);
          return None;
        }
        ghost var mid := Snapshot(accounts);
        TurnStarts(es, mid, done, key, ids, hash);
        var m, r := SettleInPlace(accounts, rows[key], key, winner.value);
        TurnEnds(es, mid, Snapshot(accounts), done, key, ids, hash);
        moved, removed, overlapsBefore, changed := moved + m, removed + r, overlapsBefore + 1, true;
        done := done + [key];
      }
    }
    assert order[..|order|] == order;
    LoopEnd(es, Snapshot(accounts), done, accountIds, hash);
    var after, _ := FindOverlaps(accounts);
    report := Some(Report(changed, moved, removed, overlapsBefore, |after|));
  }

  lemma NothingEligible(es: seq<Entry>, accountIds: seq<string>, hash: string -> nat)
    requires EligibleIds(es, accountIds) == []
    ensures Reconciled(es, accountIds, hash) == es
  {
    hide EligibleIds, Placements, Overlaps;
  }

  // ---------------------------------------------------------------- claim_group

  /** The profiles after `claim_group`: everyone else stripped, the owner given the group. */
  function Claimed(es: seq<Entry>, owner: string, group: string, preferred: string): seq<Entry>
    requires Key(group).Some?
  {
    seq(|es|, i requires 0 <= i < |es| =>
      if es[i].id == owner then es[i].(config := EnsureConfig(es[i].config, group, preferred))
      else es[i].(config := StripConfig(es[i].config, Key(group).value)))
  }

  /**
   * Who has the group after `claim_group`: the owner alone, and it only when it had the group before or it has a
   * route and the reference is not slash-rooted.
   */
  lemma ClaimHolders(es: seq<Entry>, i: nat, owner: string, group: string, preferred: string)
    requires AllWellFormed(es) && Key(group).Some? && i < |es|
    ensures var key := Key(group).value;
            Holds(Claimed(es, owner, group, preferred)[i].config, key) <==>
              es[i].id == owner && (Holds(es[i].config, key) || (Migrate(es[i].config) != [] && !SlashRooted(group)))
  {
    hide Key, SlashRooted, Migrate, Holds, HoldsAt, WellFormed, EnsureConfig, StripConfig, Mentions, EnabledSources;
    if es[i].id != owner {
      StripEffect(es[i].config, Key(group).value);
    } else if Migrate(es[i].config) != [] {
      EnsureHoldsIff(es[i].config, group, preferred);
    } else {
      NoRoutesKept(es[i].config, group, preferred);
    }
  }

  /** Where a claim puts the group: under the given source when the owner has a route for it, and on nobody else. */
  lemma ClaimPlaces(es: seq<Entry>, i: nat, owner: string, group: string, preferred: string, source: string)
    requires AllWellFormed(es) && Key(group).Some? && i < |es|
    requires Migrate(es[i].config) != [] && GoesUnder(Migrate(es[i].config), preferred, source)
    ensures var key := Key(group).value;
            forall s, g :: HoldsAt(Claimed(es, owner, group, preferred)[i].config, s, g) <==>
              if es[i].id != owner then HoldsAt(es[i].config, s, g) && Key(g) != Some(key)
              else
                HoldsAt(es[i].config, s, g) ||
                (s == source && g == Shown(group) && !KeyAt(es[i].config, source, key))
  {
    hide Key, Shown, Migrate, HoldsAt, WellFormed, EnsureConfig, StripConfig, KeyAt, GoesUnder;
    if es[i].id != owner {
      StripEffect(es[i].config, Key(group).value);
    } else {
      EnsurePlaces(es[i].config, group, preferred, source);
    }
  }

  lemma NoRoutesKept(cfg: Config, group: string, preferred: string)
    requires Key(group).Some? && Migrate(cfg) == []
    ensures EnsureConfig(cfg, group, preferred) == cfg
    ensures forall k :: !Holds(cfg, k)
  {
    hide Key, Migrate;
  }

  /** Profiles a claim strips: those of other accounts whose routes mention the key. */
  function Strips(es: seq<Entry>, owner: string, key: string): nat {
    if es == [] then 0
    else
      var e := es[|es| - 1];
      Strips(es[..|es| - 1], owner, key) + (if e.id != owner && Mentions(Migrate(e.config), key) then 1 else 0)
  }

  /** For well-formed profiles these are the other accounts that hold the group. */
  lemma {:induction false} StripsAreLosers(es: seq<Entry>, owner: string, key: string)
    requires AllWellFormed(es)
    ensures Strips(es, owner, key) == Losers(es, key, owner)
  {
    hide KeysOf, Mentions, Migrate, WellFormed, Holds;
    if es != [] {
      StripsAreLosers(es[..|es| - 1], owner, key);
      KeysOfHolds(es[|es| - 1]);
      StripCounts(es[|es| - 1], key);
    }
  }

  lemma StripsNext(es: seq<Entry>, a: nat, owner: string, key: string)
    requires a < |es|
    ensures Strips(es[..a + 1], owner, key) ==
              Strips(es[..a], owner, key) + (if es[a].id != owner && Mentions(Migrate(es[a].config), key) then 1 else 0)
  {
    hide Mentions, Migrate;
    assert es[..a + 1][..a] == es[..a];
  }

  lemma {:induction false} StripsSome(es: seq<Entry>, owner: string, key: string)
    ensures Strips(es, owner, key) > 0 <==>
              exists i :: 0 <= i < |es| && es[i].id != owner && Mentions(Migrate(es[i].config), key)
  {
    hide Mentions, Migrate;
    if es != [] {
      var front := es[..|es| - 1];
      StripsSome(front, owner, key);
      if i :| 0 <= i < |front| && front[i].id != owner && Mentions(Migrate(front[i].config), key) {
        assert es[i] == front[i];
      }
    }
  }

  /** `claim_group` strips or adds something on this profile. */
  predicate ClaimTouches(e: Entry, owner: string, group: string, preferred: string)
    requires Key(group).Some?
  {
    var rs := Migrate(e.config);
    if e.id == owner then rs != [] && Missing(rs, group, preferred) else Mentions(rs, Key(group).value)
  }

  predicate ClaimChanges(es: seq<Entry>, owner: string, group: string, preferred: string)
    requires Key(group).Some?
  {
    exists i :: 0 <= i < |es| && ClaimTouches(es[i], owner, group, preferred)
  }

  /** The strip loop of a claim: everyone but the owner loses the group. */
  method StripClaimed(accounts: seq<Account>, owner: string, key: string) returns (removed: nat)
    requires DistinctAccounts(accounts)
    modifies accounts
    ensures forall i :: 0 <= i < |accounts| ==>
              accounts[i].config ==
                if accounts[i].id == owner then old(accounts[i].config) else StripConfig(old(accounts[i].config), key)
    ensures removed == Strips(old(Snapshot(accounts)), owner, key)
  {
    hide Key, StripConfig, Mentions, Migrate, Snapshot, Strips;
    ghost var es := Snapshot(accounts);
    removed := 0;
    assert es[..0] == [];
    NothingStripped(owner, key);
    for a := 0 to |accounts|
      invariant forall i :: 0 <= i < |accounts| ==>
                  accounts[i].config == if i < a && es[i].id != owner then StripConfig(es[i].config, key)
                      else es[i].config
      invariant removed == Strips(es[..a], owner, key)
    {
      StripsNext(es, a, owner, key);
      if accounts[a].id != owner {
        var changed := accounts[a].StripGroup(key);
        if changed {
          removed := removed + 1;
        }
      }
    }
    assert es[..|accounts|] == es;
  }

  lemma NothingStripped(owner: string, key: string)
    ensures Strips([], owner, key) == 0
  {
  }

  /** A claim changes something exactly when it strips a profile or adds the group to the owner's. */
  lemma ChangesAre(es: seq<Entry>, owner: string, group: string, preferred: string)
    requires Key(group).Some?
    ensures ClaimChanges(es, owner, group, preferred) <==>
              || Strips(es, owner, Key(group).value) > 0
              || exists i :: 0 <= i < |es| && es[i].id == owner && ClaimTouches(es[i], owner, group, preferred)
  {
    hide Key, Mentions, Missing, Migrate;
    StripsSome(es, owner, Key(group).value);
  }

  /** `claim_group`; `source` is empty when the source passes none. */
  method ClaimGroup(accounts: seq<Account>, owner: string, group: string, source: string)
    returns (removed: nat, added: bool)
    requires DistinctAccounts(accounts) && Key(group).Some?
    modifies accounts
    ensures Snapshot(accounts) == Claimed(old(Snapshot(accounts)), owner, group, DisplayRef(source))
    ensures removed == Strips(old(Snapshot(accounts)), owner, Key(group).value)
    ensures var es := old(Snapshot(accounts));
            added <==>
              exists i :: 0 <= i < |es| && es[i].id == owner && ClaimTouches(es[i], owner, group, DisplayRef(source))
    ensures removed > 0 || added <==> ClaimChanges(old(Snapshot(accounts)), owner, group, DisplayRef(source))
  {
    hide Key, DisplayRef, StripConfig, EnsureConfig, Mentions, Missing, Migrate, Snapshot, Strips, ClaimChanges;
    ghost var es := Snapshot(accounts);
    ChangesAre(es, owner, group, DisplayRef(source));
    added := false;
    removed := StripClaimed(accounts, owner, Key(group).value);
    var a := 0;
    while a < |accounts| && accounts[a].id != owner
      invariant 0 <= a <= |accounts|
      invariant forall i :: 0 <= i < a ==> accounts[i].id != owner
    {
      a := a + 1;
    }
    if a < |accounts| {
      added := accounts[a].EnsureGroup(group, source);
      assert added <==> ClaimTouches(es[a], owner, group, DisplayRef(source));
      assert forall i :: 0 <= i < |accounts| && es[i].id == owner ==> i == a;
    }
    assert Snapshot(accounts) == Claimed(es, owner, group, DisplayRef(source));
  }

  // ---------------------------------------------------------------- foreign_group_norms_for_account

  /** `foreign_group_norms_for_account`; `None` where the source raises. */
  method ForeignGroupNorms(id: string, accounts: seq<Account>,
      hash: string -> nat) returns (foreign: Option<set<string>>)
    requires DistinctAccounts(accounts)
    ensures foreign == ForeignGroups(Snapshot(accounts), id, hash)
  {
    hide Key, Migrate, Holds, Placements, KeyOrder, RowsOf, OwnersOf, RightfulOwner, SourcedIds, Snapshot;
    ghost var es := Snapshot(accounts);
    var ids := SourcedIds(Snapshot(accounts));
    if id !in ids {
      return Some({});
    }
    var order, rows := CollectPlacements(accounts);
    var found: set<string> := {};
    for n := 0 to |order|
      invariant forall k :: k in order[..n] && NeedsOwner(es, id, k) ==> RightfulOwner(k, ids, hash).Some?
      invariant found == set k | k in order[..n] && NeedsOwner(es, id, k) && RightfulOwner(k, ids, hash) != Some(id)
    {
      var key := order[n];
      SoleRow(es, id, key);
      assert order[..n + 1] == order[..n] + [key];
      if !Lists(rows[key], id) || OnTwoAccounts(rows[key]) {
        var owner := RightfulOwner(key, ids, hash);
        if owner == None {
          return None;
        }
        if owner.value != id {
          found := found + {key};
        }
      }
    }
    assert order[..|order|] == order;
    foreign := Some(found);
  }

  /** The account is the only one in a group's rows exactly when it is its only owner. */
  lemma SoleRow(es: seq<Entry>, id: string, key: string)
    requires DistinctIds(es) && key in KeyOrder(Placements(es))
    ensures var rows := RowsOf(Placements(es), key);
            NeedsOwner(es, id, key) <==> !Lists(rows, id) || OnTwoAccounts(rows)
  {
    hide Key, Shown, Migrate, Holds, Placements, KeyOrder, RowsOf, OwnersOf, OnTwoAccounts, Lists;
    OwnedTwice(es, key);
    PlacedKeys(es);
    FirstPlacement(es, key);
    OwnersOfMembers(es, key);
    OwnersOfCount(es, key);
    var rows := RowsOf(Placements(es), key);
    ListsHolders(es, id, key);
  }

  lemma ListsHolders(es: seq<Entry>, id: string, key: string)
    requires DistinctIds(es)
    ensures Lists(RowsOf(Placements(es), key), id) <==> id in OwnersOf(es, key)
  {
    hide Key, Migrate, Holds, HoldsAt, Placements, RowsOf, OwnersOf;
    OwnersOfMembers(es, key);
    var rows := RowsOf(Placements(es), key);
    if Lists(rows, id) {
      var a :| 0 <= a < |rows| && rows[a].id == id;
      assert rows[a] in rows;
      var i := HoldersOfRows(es, key, rows[a]);
    }
    if id in OwnersOf(es, key) {
      var i :| 0 <= i < |es| && es[i].id == id && Holds(es[i].config, key);
      PlacementsHold(es, i, key);
      RowsOfMembers(Placements(es), key);
      var p :| p in Placements(es) && p.id == id && p.key == key;
      assert p in rows;
      var a :| 0 <= a < |rows| && rows[a] == p;
    }
  }
}
