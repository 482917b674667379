/** Which account and which ad source sync gives each catalog group to, by their places among those eligible. */
module SyncPlaces {
  import opened Common
  import opened Refs
  import opened Routes
  import opened TextOrder
  import opened Ownership
  import opened Exclusivity
  import opened PromoExclusivity
  import opened GroupSync

  // ---------------------------------------------------------------- the account

  /** The account may be given catalog groups: a source of its own is on, or a fallback source stands in. */
  ghost predicate Takes(cfg: Config, fallback: string) {
    HasSource(cfg) || fallback != ""
  }

  ghost function Takers(es: seq<Entry>, fallback: string): set<string> {
    set i: nat | i < |es| && Takes(es[i].config, fallback) :: es[i].id
  }

  lemma EligibleTake(es: seq<Entry>, fallback: string)
    requires DistinctIds(es)
    ensures Members(Eligible(es, fallback)) == Takers(es, fallback)
    ensures |Eligible(es, fallback)| == |Takers(es, fallback)|
  {
    hide Migrate, EnabledSources;
    SourcedAccountsMembers(es, fallback);
    forall i | 0 <= i < |es| ensures SourcesOf(es[i].config, fallback) != [] <==> Takes(es[i].config, fallback) {
    }
    hide SourcesOf, Takes;
    forall a ensures a in Members(Eligible(es, fallback)) <==> a in Takers(es, fallback) {
      if a in Takers(es, fallback) {
        var i: nat :| i < |es| && Takes(es[i].config, fallback) && es[i].id == a;
        assert SourcesOf(es[i].config, fallback) != [];
      }
    }
    AscendingSize(Eligible(es, fallback));
  }

  /** The owner a group is claimed for: of the n accounts that take groups, exactly hash(key) % n come before it. */
  lemma KeyOwnerStands(es: seq<Entry>, fallback: string, key: string, hash: string -> nat, a: string)
    requires DistinctIds(es) && Eligible(es, fallback) != []
    ensures KeyOwner(key, Eligible(es, fallback), hash) == a <==> Stands(Takers(es, fallback), a, key, hash)
  {
    EligibleTake(es, fallback);
    var ids := Eligible(es, fallback);
    var n := hash(key) % |ids|;
    hide Eligible, Takers, Below;
    PlaceIsRank(ids, n);
    InMembers(ids, n);
    if a in Takers(es, fallback) && |Below(Takers(es, fallback), a)| == n {
      RankIsUnique(Takers(es, fallback), a, ids[n]);
    }
  }

  /** Accounts that have an enabled source once the routes are prepared. */
  ghost function FinalTakers(es: seq<Entry>, fallback: string): set<string> {
    set i: nat | i < |es| && Sourceable(es[i].config, fallback) :: es[i].id
  }

  lemma FinalOwnerStands(es: seq<Entry>, fallback: string, refs: seq<string>, k: string, hash: string -> nat, a: string)
    requires SyncInput(es, fallback)
    ensures RightfulOwner(k, FinalIds(es, fallback, refs, hash), hash) == Some(a) <==>
              && FinalTakers(es, fallback) != {} && Key(k).Some?
              && Stands(FinalTakers(es, fallback), a, Key(k).value, hash)
  {
    hide Key, Strip, DisplayRef, WellFormed, Sourceable, Eligible, FinalIds, Stands, RightfulOwner;
    var ids := FinalIds(es, fallback, refs, hash);
    forall b ensures b in ids <==> b in FinalTakers(es, fallback) {
      FinalIdsAre(es, fallback, refs, hash, b);
      if i :| 0 <= i < |es| && es[i].id == b && Sourceable(es[i].config, fallback) {
        assert b in FinalTakers(es, fallback);
      }
    }
    forall b | b in ids ensures Strip(b) == b != "" {
      var i: nat :| i < |es| && Sourceable(es[i].config, fallback) && es[i].id == b;
    }
    assert Clean(ids) == FinalTakers(es, fallback);
    OwnerStands(k, ids, hash, a);
  }

  /** The account has the group after sync, by its place among those that may take it. */
  ghost predicate StandsPlaced(es: seq<Entry>, i: nat, fallback: string, refs: seq<string>, k: string,
      hash: string -> nat)
    requires i < |es| && Eligible(es, fallback) != []
  {
    if Claims(es, fallback, refs, k)
    then Stands(Takers(es, fallback), es[i].id, k, hash) && (Holds(es[i].config, k) || Receives(refs, k))
    else if Settles(es, fallback, refs, k, hash)
    then Key(k).Some? && Stands(FinalTakers(es, fallback), es[i].id, Key(k).value, hash)
    else Holds(es[i].config, k)
  }

  /** Main result on who has each group after sync, by the places of the accounts. */
  lemma SyncStands(es: seq<Entry>, fallback: string, refs: seq<string>, hash: string -> nat, i: nat, k: string)
    requires SyncInput(es, fallback) && PlainKey(refs, k) && i < |es|
    ensures |Synced(es, fallback, refs, hash)| == |es|
    ensures Holds(Synced(es, fallback, refs, hash)[i].config, k) <==> StandsPlaced(es, i, fallback, refs, k, hash)
  {
    hide Key, CleanIds, AllWellFormed, DisplayRef, Holds, Eligible, KeyOwner, RightfulOwner, Synced, FinalIds, Receives,
      PlainKey, Settles, Claims, Stands;
    SyncHolder(es, fallback, refs, hash, k);
    KeyOwnerStands(es, fallback, k, hash, es[i].id);
    FinalOwnerStands(es, fallback, refs, k, hash, es[i].id);
    hide Takers, FinalTakers;
    if Settles(es, fallback, refs, k, hash) {
      TakenFinal(es, fallback, refs, k, hash);
    }
  }

  lemma TakenFinal(es: seq<Entry>, fallback: string, refs: seq<string>, k: string, hash: string -> nat)
    requires SyncInput(es, fallback) && PlainKey(refs, k) && Settles(es, fallback, refs, k, hash)
    ensures FinalTakers(es, fallback) != {}
  {
    SomeoneFinalIff(es, fallback, refs, hash);
    hide SyncInput, FinalIds, Sourceable, Overlaps, AfterClaims, Eligible;
    var i: nat :| i < |es| && Sourceable(es[i].config, fallback);
    assert es[i].id in FinalTakers(es, fallback);
  }

  // ---------------------------------------------------------------- groups that stay where they are

  /** The first account that holds the group may take groups: sync leaves it there. */
  ghost predicate StaysPut(es: seq<Entry>, fallback: string, k: string) {
    exists i: nat :: i < |es| && FirstToHold(es, i, k) && Takes(es[i].config, fallback)
  }

  ghost predicate FirstToHold(es: seq<Entry>, i: nat, k: string)
    requires i < |es|
  {
    Holds(es[i].config, k) && forall j :: 0 <= j < i ==> !Holds(es[j].config, k)
  }

  lemma {:induction false} FirstHolderIs(es: seq<Entry>, i: nat, k: string)
    requires i < |es| && FirstToHold(es, i, k)
    ensures FirstHolder(es, k) == Some(es[i].id)
  {
    hide Holds, KeysOf;
    var last := |es| - 1;
    KeysOfHolds(es[last]);
    if i < last {
      FirstHolderIs(es[..last], i, k);
    } else {
      OwnersOfCount(es[..last], k);
    }
  }

  lemma {:induction false} FirstOne(es: seq<Entry>, i: nat, k: string) returns (n: nat)
    requires i < |es| && Holds(es[i].config, k)
    ensures n < |es| && FirstToHold(es, n, k)
  {
    hide Holds;
    n := i;
    if j :| 0 <= j < i && Holds(es[j].config, k) {
      n := FirstOne(es, j, k);
    }
  }

  /** Sync claims a catalog group exactly when its first holder, if any, may not take groups. */
  lemma ClaimsIff(es: seq<Entry>, fallback: string, refs: seq<string>, k: string)
    requires DistinctIds(es)
    ensures Claims(es, fallback, refs, k) <==> !StaysPut(es, fallback, k) && exists r :: r in refs && Key(r) == Some(k)
  {
    hide Key, StaysPut, Sticky, Eligible;
    if StaysPut(es, fallback, k) {
      StaysIsSticky(es, fallback, k);
    }
    if Sticky(es, Eligible(es, fallback), k) {
      StickyStays(es, fallback, k);
    }
  }

  lemma StaysIsSticky(es: seq<Entry>, fallback: string, k: string)
    requires DistinctIds(es) && StaysPut(es, fallback, k)
    ensures Sticky(es, Eligible(es, fallback), k)
  {
    hide Holds, Eligible, Takes, FirstHolder, FirstToHold;
    EligibleTake(es, fallback);
    var i: nat :| i < |es| && FirstToHold(es, i, k) && Takes(es[i].config, fallback);
    FirstHolderIs(es, i, k);
    assert es[i].id in Members(Eligible(es, fallback));
  }

  lemma StickyStays(es: seq<Entry>, fallback: string, k: string)
    requires DistinctIds(es) && Sticky(es, Eligible(es, fallback), k)
    ensures StaysPut(es, fallback, k)
  {
    hide Holds, Eligible, Takes, FirstHolder, FirstToHold;
    EligibleTake(es, fallback);
    var i := SomeHolder(es, k);
    var n := FirstOne(es, i, k);
    FirstHolderIs(es, n, k);
    assert es[n].id in Takers(es, fallback);
  }

  lemma SomeHolder(es: seq<Entry>, k: string) returns (i: nat)
    requires FirstHolder(es, k).Some?
    ensures i < |es| && Holds(es[i].config, k)
  {
    hide Holds;
    OwnersOfCount(es, k);
    i :| 0 <= i < |es| && Holds(es[i].config, k);
  }

  /** The candidate a group is claimed by is the first one with its key. */
  lemma {:induction false} FirstRefIs(refs: seq<string>, key: string, n: nat)
    requires n < |refs| && Key(refs[n]) == Some(key) && forall m :: 0 <= m < n ==> Key(refs[m]) != Some(key)
    ensures FirstRef(refs, key) == Some(refs[n])
  {
    hide Key;
    var front := refs[..|refs| - 1];
    if n < |front| {
      FirstRefIs(front, key, n);
    } else {
      FirstRefFacts(front, key);
    }
  }

  // ---------------------------------------------------------------- the source

  /** The routes before the `n`-th that are on. */
  ghost function OnBefore(rs: seq<Route>, n: nat): set<nat> {
    set i: nat | i < |rs| && i < n && rs[i].enabled
  }

  /** The route that is on and has exactly hash % n of the n routes that are on before it. */
  ghost predicate PickedRoute(rs: seq<Route>, hash: nat, n: nat) {
    n in OnBefore(rs, |rs|) && |OnBefore(rs, n)| == hash % |OnBefore(rs, |rs|)|
  }

  lemma OnBeforeNext(rs: seq<Route>, n: nat)
    requires n < |rs|
    ensures OnBefore(rs, n) == OnBefore(rs[..n], n)
    ensures OnBefore(rs, n + 1) == OnBefore(rs, n) + if rs[n].enabled then {n} else {}
  {
  }

  lemma {:induction false} EnabledCount(rs: seq<Route>)
    requires Sourced(rs) && DistinctSources(rs)
    ensures |EnabledSources(rs)| == |OnBefore(rs, |rs|)|
  {
    if rs != [] {
      var last := |rs| - 1;
      EnabledCount(rs[..last]);
      EnabledSourcesMembers(rs[..last]);
      OnBeforeNext(rs, last);
      assert rs[last].source !in EnabledSources(rs[..last]);
    }
  }

  /** Sources that are on are listed in route order. */
  lemma {:induction false} EnabledInOrder(rs: seq<Route>, n: nat)
    requires Sourced(rs) && DistinctSources(rs) && n < |rs| && rs[n].enabled
    ensures |OnBefore(rs, n)| < |EnabledSources(rs)|
    ensures EnabledSources(rs)[|OnBefore(rs, n)|] == rs[n].source
  {
    var last := |rs| - 1;
    var front := rs[..last];
    if n < last {
      EnabledInOrder(front, n);
      BeforeOnly(rs, n, last);
    } else {
      EnabledCount(front);
      OnBeforeNext(rs, n);
      NotYetEnabled(rs);
    }
    hide OnBefore;
  }

  lemma BeforeOnly(rs: seq<Route>, n: nat, cut: nat)
    requires n <= cut <= |rs|
    ensures OnBefore(rs, n) == OnBefore(rs[..cut], n)
  {
  }

  lemma NotYetEnabled(rs: seq<Route>)
    requires rs != [] && DistinctSources(rs)
    ensures rs[|rs| - 1].source !in EnabledSources(rs[..|rs| - 1])
  {
    EnabledSourcesMembers(rs[..|rs| - 1]);
  }

  lemma PickedUnique(rs: seq<Route>, hash: nat, m: nat, n: nat)
    requires PickedRoute(rs, hash, m) && PickedRoute(rs, hash, n)
    ensures m == n
  {
    var a, b := if m < n then m else n, if m < n then n else m;
    if a < b {
      SubsetSize(OnBefore(rs, a) + {a}, OnBefore(rs, b));
    }
  }

  lemma SomePicked(rs: seq<Route>, hash: nat, m: nat) returns (n: nat)
    requires Sourced(rs) && DistinctSources(rs) && OnBefore(rs, |rs|) != {} && m == hash % |OnBefore(rs, |rs|)|
    ensures PickedRoute(rs, hash, n) && |EnabledSources(rs)| > m && rs[n].source == EnabledSources(rs)[m]
  {
    EnabledCount(rs);
    EnabledSourcesMembers(rs);
    var s := EnabledSources(rs)[m];
    assert s in EnabledSources(rs);
    var r :| r in rs && r.enabled && r.source == s;
    n :| 0 <= n < |rs| && rs[n] == r;
    EnabledInOrder(rs, n);
    var k := |OnBefore(rs, n)|;
    EnabledDistinct(rs, k, m);
  }

  lemma {:induction false} EnabledDistinct(rs: seq<Route>, i: nat, j: nat)
    requires i < |EnabledSources(rs)| && j < |EnabledSources(rs)| && EnabledSources(rs)[i] == EnabledSources(rs)[j]
    ensures i == j
  {
    var front := EnabledSources(rs[..|rs| - 1]);
    if i < |front| && j < |front| {
      EnabledDistinct(rs[..|rs| - 1], i, j);
    }
  }

  /** The source a claimed group is given: picked among the owner's own that are on, else the fallback. */
  ghost predicate GivenSource(cfg: Config, fallback: string, hash: nat, s: string) {
    if HasSource(cfg) then exists n: nat :: PickedRoute(Migrate(cfg), hash, n) && Migrate(cfg)[n].source == s
    else s == fallback
  }

  lemma SourceGiven(es: seq<Entry>, i: nat, key: string, fallback: string, hash: string -> nat)
    requires DistinctIds(es) && i < |es| && WellFormed(es[i].config) && Takes(es[i].config, fallback)
    ensures GivenSource(es[i].config, fallback, hash(key + ":" + es[i].id),
                        PickSource(es, key, es[i].id, fallback, hash))
    ensures PickSource(es, key, es[i].id, fallback, hash) in SourcesOf(es[i].config, fallback)
  {
    hide Migrate, EnabledSources, SourceFor, OnBefore, PickedRoute;
    SourceForEntry(es, i, fallback);
    var rs := Migrate(es[i].config);
    var h := hash(key + ":" + es[i].id);
    if HasSource(es[i].config) {
      EnabledCount(rs);
      var n := SomePicked(rs, h, h % |OnBefore(rs, |rs|)|);
    }
  }

  // ---------------------------------------------------------------- where the claims put a group

  /** Every profile lists the group where it did, under the same sources. */
  ghost predicate SamePlaces(before: Entry, after: Entry, k: string) {
    && after.id == before.id
    && Switches(Migrate(after.config)) == Switches(Migrate(before.config))
    && forall s, g :: Key(g) == Some(k) ==> (HoldsAt(after.config, s, g) <==> HoldsAt(before.config, s, g))
  }

  /** The group was claimed: its owner lists it where it did and, if it had it not there, under `source`. */
  ghost predicate ClaimedPlaces(before: Entry, after: Entry, k: string, owner: string, source: string, group: string) {
    && after.id == before.id
    && Switches(Migrate(after.config)) == Switches(Migrate(before.config))
    && forall s, g :: Key(g) == Some(k) ==>
         (HoldsAt(after.config, s, g) <==>
            && before.id == owner
            && (HoldsAt(before.config, s, g) || (s == source && g == group && !KeyAt(before.config, source, k))))
  }

  /** A claim of another group moves no spelling of this one. */
  lemma ClaimElsewhere(e: Entry, owner: string, all: seq<string>, ref: string, source: string, k: string)
    requires WellFormed(e.config) && Key(ref).Some? && (e.id == owner ==> Migrate(e.config) != [])
    requires ref in all && PlainKey(all, k) && Key(ref) != Some(k)
    ensures SamePlaces(e, ClaimedEntry(e, owner, ref, source), k)
  {
    hide Key, Shown, SlashRooted, Migrate, WellFormed, EnabledSources, Holds, RoutesHoldAt, StripConfig, EnsureConfig,
      TargetIndex, Missing, Switches;
    if e.id == owner {
      KeyKeptIffNotSlashRooted(ref);
      EnsureEffect(e.config, ref, source);
    } else {
      StripEffect(e.config, Key(ref).value);
    }
  }

  /** The claim of the group itself. */
  lemma ClaimHere(before: Entry, e: Entry, owner: string, ref: string, source: string, k: string)
    requires WellFormed(e.config) && Key(ref) == Some(k) && SamePlaces(before, e, k)
    requires e.id == owner ==> source != "" && HasRoute(Migrate(before.config), source)
    ensures ClaimedPlaces(before, ClaimedEntry(e, owner, ref, source), k, owner, source, Shown(ref))
  {
    hide Key, Shown, Migrate, WellFormed, EnabledSources, Holds, RoutesHoldAt, StripConfig, EnsureConfig, TargetIndex,
      Missing, Switches, HasRoute;
    if e.id == owner {
      SameSwitches(Migrate(before.config), Migrate(e.config));
      HasRoutes(Migrate(e.config), source);
      EnsureEffect(e.config, ref, source);
      EnsurePlaces(e.config, ref, source, source);
    } else {
      StripEffect(e.config, Key(ref).value);
    }
  }

  lemma HasRoutes(rs: seq<Route>, source: string)
    requires HasRoute(rs, source)
    ensures rs != []
  {
  }

  /** What is known of one group while the catalog is claimed. */
  ghost predicate ClaimPlacesKnown(start: seq<Entry>, now: seq<Entry>, k: string, claimed: bool, owner: string,
      source: string, group: string) {
    && |now| == |start|
    && forall i :: 0 <= i < |start| ==>
         if claimed then ClaimedPlaces(start[i], now[i], k, owner, source, group) else SamePlaces(start[i], now[i], k)
  }

  /** The stored spelling a group is claimed in. */
  function FirstSpelling(refs: seq<string>, k: string): string {
    if FirstRef(refs, k).Some? then Shown(FirstRef(refs, k).value) else ""
  }

  lemma SamePlacesThen(a: Entry, b: Entry, c: Entry, k: string, claimed: bool, owner: string, source: string,
      group: string)
    requires SamePlaces(b, c, k)
    requires if claimed then ClaimedPlaces(a, b, k, owner, source, group) else SamePlaces(a, b, k)
    ensures if claimed then ClaimedPlaces(a, c, k, owner, source, group) else SamePlaces(a, c, k)
  {
    hide Key, Migrate, HoldsAt, KeyAt, Switches;
  }

  /** The claim of another group's candidate. */
  lemma PlacesElsewhere(start: seq<Entry>, now: seq<Entry>, all: seq<string>, ref: string, owner': string,
      source': string, k: string, claimed: bool, owner: string, source: string, group: string)
    requires ClaimPlacesKnown(start, now, k, claimed, owner, source, group)
    requires Key(ref).Some? && Key(ref) != Some(k) && ref in all && PlainKey(all, k)
    requires forall i :: 0 <= i < |now| ==>
               WellFormed(now[i].config) && (now[i].id == owner' ==> Migrate(now[i].config) != [])
    ensures ClaimPlacesKnown(start, Claimed(now, owner', ref, source'), k, claimed, owner, source, group)
  {
    hide Key, Migrate, WellFormed, PlainKey, SamePlaces, ClaimedPlaces;
    forall i | 0 <= i < |start|
      ensures var c := Claimed(now, owner', ref, source')[i];
              if claimed then ClaimedPlaces(start[i], c, k, owner, source, group) else SamePlaces(start[i], c, k)
    {
      ClaimElsewhere(now[i], owner', all, ref, source', k);
      SamePlacesThen(start[i], now[i], Claimed(now, owner', ref, source')[i], k, claimed, owner, source, group);
    }
  }

  /** The claim of the group by its first candidate. */
  lemma PlacesHere(start: seq<Entry>, now: seq<Entry>, ref: string, k: string, owner: string, source: string)
    requires ClaimPlacesKnown(start, now, k, false, owner, source, Shown(ref)) && Key(ref) == Some(k)
    requires forall i :: 0 <= i < |now| ==> WellFormed(now[i].config)
    requires forall i :: 0 <= i < |start| && start[i].id == owner ==>
               source != "" && HasRoute(Migrate(start[i].config), source)
    ensures ClaimPlacesKnown(start, Claimed(now, owner, ref, source), k, true, owner, source, Shown(ref))
  {
    hide Key, Migrate, WellFormed, SamePlaces, ClaimedPlaces, HasRoute, Shown, EnsureConfig, StripConfig;
    forall i | 0 <= i < |start|
      ensures ClaimedPlaces(start[i], Claimed(now, owner, ref, source)[i], k, owner, source, Shown(ref))
    {
      SamePlacesId(start[i], now[i], k);
      ClaimHere(start[i], now[i], owner, ref, source, k);
    }
  }

  lemma SamePlacesId(a: Entry, b: Entry, k: string)
    requires SamePlaces(a, b, k)
    ensures a.id == b.id
  {
  }

  /** Whatever else the catalog claims, a plain group is placed by its own first candidate, or where it was. */
  lemma {:induction false} ClaimAllPlaces(es: seq<Entry>, start: seq<Entry>, eligible: seq<string>, fallback: string,
                                          refs: seq<string>, all: seq<string>, hash: string -> nat, k: string)
    requires eligible != [] && DistinctIds(start) && AllWellFormed(start) && refs <= all
    requires Routed(start, eligible) && PlainKey(all, k)
    requires var owner := KeyOwner(k, eligible, hash);
             forall i :: 0 <= i < |start| && start[i].id == owner ==>
               var source := PickSource(es, k, owner, fallback, hash);
               source != "" && HasRoute(Migrate(start[i].config), source)
    ensures var owner := KeyOwner(k, eligible, hash);
            ClaimPlacesKnown(start, ClaimAll(es, start, eligible, fallback, refs, hash).es, k,
                             k in ClaimedKeys(start, eligible, refs), owner,
                             PickSource(es, k, owner, fallback, hash), FirstSpelling(all, k))
  {
    hide Key, Shown, Migrate, WellFormed, Holds, HoldsAt, HasSource, Sticky, PickSource, KeyOwner, FirstOwners,
      PlainKey, HasRoute, Claimed, ClaimChanges, FirstRef, ClaimPlacesKnown, OwnedKnown, Switches, ClaimState;
    var owner := KeyOwner(k, eligible, hash);
    var source := PickSource(es, k, owner, fallback, hash);
    if refs == [] {
      StartPlaces(start, k, owner, source, FirstSpelling(all, k));
    } else {
      var front, ref := refs[..|refs| - 1], refs[|refs| - 1];
      assert refs == front + [ref];
      ClaimAllPlaces(es, start, eligible, fallback, front, all, hash, k);
      ClaimAllEffect(es, start, eligible, fallback, front, all, hash);
      assert ref == all[|front|];
      if Key(ref).Some? {
        PlacesNext(es, ClaimAll(es, start, eligible, fallback, front, hash), start, eligible, fallback, front, ref, all,
            hash, k);
      }
    }
  }

  lemma StartPlaces(start: seq<Entry>, k: string, owner: string, source: string, group: string)
    ensures ClaimPlacesKnown(start, start, k, false, owner, source, group)
  {
    hide Key, Migrate, HoldsAt, Switches;
  }

  lemma PlacesNext(es: seq<Entry>, st: Claiming, start: seq<Entry>, eligible: seq<string>, fallback: string,
                   front: seq<string>, ref: string, all: seq<string>, hash: string -> nat, k: string)
    requires eligible != [] && DistinctIds(start) && Routed(start, eligible) && PlainKey(all, k)
    requires Key(ref).Some? && front + [ref] <= all && ref in all
    requires ClaimsKnown(st, start, all, ClaimedKeys(start, eligible, front), eligible, hash)
    requires var owner := KeyOwner(k, eligible, hash);
             forall i :: 0 <= i < |start| && start[i].id == owner ==>
               var source := PickSource(es, k, owner, fallback, hash);
               source != "" && HasRoute(Migrate(start[i].config), source)
    requires var owner := KeyOwner(k, eligible, hash);
             ClaimPlacesKnown(start, st.es, k, k in ClaimedKeys(start, eligible, front), owner,
                              PickSource(es, k, owner, fallback, hash), FirstSpelling(all, k))
    ensures var owner := KeyOwner(k, eligible, hash);
            ClaimPlacesKnown(start, ClaimRef(es, st, eligible, fallback, ref, hash).es, k,
                             k in ClaimedKeys(start, eligible, front + [ref]), owner,
                             PickSource(es, k, owner, fallback, hash), FirstSpelling(all, k))
  {
    hide Key, Shown, Migrate, WellFormed, Holds, HoldsAt, HasSource, Sticky, PickSource, KeyOwner, PlainKey, HasRoute,
      Claimed, ClaimChanges, FirstRef, ClaimPlacesKnown, Switches, ClaimState;
    assert (front + [ref])[..|front|] == front;
    var key := Key(ref).value;
    var keys := ClaimedKeys(start, eligible, front);
    ClaimedShape(start, st.es, all, keys, eligible, hash, KeyOwner(key, eligible, hash)) by {
      KeyOwnerMember(key, eligible, hash);
    }
    var source := PickSource(es, key, KeyOwner(key, eligible, hash), fallback, hash);
    if key != k {
      PlacesElsewhere(start, st.es, all, ref, KeyOwner(key, eligible, hash), source, k, k in keys,
          KeyOwner(k, eligible, hash), PickSource(es, k, KeyOwner(k, eligible, hash), fallback, hash),
          FirstSpelling(all, k));
    } else if !Sticky(start, eligible, k) && k !in keys {
      IsFirstRef(start, eligible, front, ref, all);
      PlacesHere(start, st.es, ref, k, KeyOwner(k, eligible, hash), source);
    }
  }

  lemma ClaimedShape(start: seq<Entry>, now: seq<Entry>, all: seq<string>, keys: seq<string>, eligible: seq<string>,
      hash: string -> nat, owner: string)
    requires eligible != [] && DistinctIds(start) && Routed(start, eligible) && owner in eligible
    requires ClaimState(start, now, all, keys, eligible, hash)
    ensures |now| == |start|
    ensures forall i :: 0 <= i < |now| ==>
              WellFormed(now[i].config) && (now[i].id == owner ==> Migrate(now[i].config) != [])
  {
    hide Migrate, WellFormed, HasSource, Holds, PlainKey, HoldsClaimed;
    assert forall i :: 0 <= i < |start| ==> ClaimEntry(start[i], now[i], all, keys, eligible, hash);
  }

  // ---------------------------------------------------------------- where sync puts a group

  /** Preparing moves nothing, and leaves a route for each source groups may go to. */
  lemma PreparedPlaces(es: seq<Entry>, fallback: string, i: nat, k: string)
    requires DistinctIds(es) && AllWellFormed(es) && (fallback == "" || DisplayRef(fallback) == fallback) && i < |es|
    ensures Prepared(es, fallback)[i].id == es[i].id
    ensures forall s, g :: HoldsAt(Prepared(es, fallback)[i].config, s, g) <==> HoldsAt(es[i].config, s, g)
    ensures forall s :: Takes(es[i].config, fallback) && s in SourcesOf(es[i].config, fallback) ==>
              s != "" && HasRoute(Migrate(Prepared(es, fallback)[i].config), s)
  {
    EligibleMembers(es, fallback);
    hide Key, DisplayRef, Migrate, Holds, RoutesHoldAt, WellFormed, PrepareConfig, Eligible, EnabledSources, Switches,
      HasRoute;
    var cfg := es[i].config;
    if SourcesOf(cfg, fallback) != [] {
      PrepareEffect(cfg, fallback);
      forall s | s in SourcesOf(cfg, fallback)
        ensures s != "" && HasRoute(Migrate(PrepareConfig(cfg, SourcesOf(cfg, fallback))), s)
      {
        SourceHasRoute(cfg, PrepareConfig(cfg, SourcesOf(cfg, fallback)), fallback, s);
      }
    }
  }

  lemma SourceHasRoute(cfg: Config, after: Config, fallback: string, s: string)
    requires Switches(Migrate(after)) == WithFallback(cfg, fallback) && s in SourcesOf(cfg, fallback)
    ensures s != "" && HasRoute(Migrate(after), s)
  {
    hide Migrate, EnabledSources, HasRoute, Switches;
    var rs := Migrate(cfg);
    RouteSwitches(Migrate(after), s);
    RouteSwitches(rs, s);
    EnabledSourcesMembers(rs);
    if EnabledSources(rs) != [] {
      OnSwitches(rs, s);
    }
  }

  /** Where the claims leave each spelling of a plain group. */
  ghost predicate PlacesAfterClaims(e: Entry, after: Entry, takers: set<string>, k: string, claimed: bool,
      source: string, group: string, hash: string -> nat) {
    forall s, g :: Key(g) == Some(k) ==>
      (HoldsAt(after.config, s, g) <==>
         if claimed
         then
           && e.id in takers && Stands(takers, e.id, k, hash)
           && (HoldsAt(e.config, s, g) || (s == source && g == group && !KeyAt(e.config, source, k)))
         else HoldsAt(e.config, s, g))
  }

  lemma AfterClaimsPlaces(es: seq<Entry>, fallback: string, refs: seq<string>, hash: string -> nat, k: string, i: nat)
    requires SyncInput(es, fallback) && PlainKey(refs, k) && i < |es|
    ensures |AfterClaims(es, fallback, refs, hash)| == |es|
    ensures PlacesAfterClaims(es[i], AfterClaims(es, fallback, refs, hash)[i], Takers(es, fallback), k,
                              Claims(es, fallback, refs, k),
                              PickSource(es, k, KeyOwner(k, Eligible(es, fallback), hash), fallback, hash),
                              FirstSpelling(refs, k), hash)
  {
    hide Key, Shown, Strip, DisplayRef, Migrate, WellFormed, Holds, HoldsAt, HasSource, Prepared, Eligible, OwnersOf,
      ClaimAll, ClaimedKeys, KeyOwner, SourcesOf, Sourceable, PlainKey, FirstSpelling, PickSource, Takers, Stands,
      ClaimPlacesKnown, HasRoute, Switches, CleanIds, Sticky;
    var start, eligible := Prepared(es, fallback), Eligible(es, fallback);
    var owner := KeyOwner(k, eligible, hash);
    PreparedRouted(es, fallback);
    OwnerSource(es, fallback, k, hash);
    ClaimAllPlaces(es, start, eligible, fallback, refs, refs, hash, k);
    PreparedClaims(es, fallback, refs, k);
    hide Routed;
    KeyOwnerStands(es, fallback, k, hash, es[i].id);
    PreparedPlaces(es, fallback, i, k);
    var now := AfterClaims(es, fallback, refs, hash);
    KnownAt(start, now, k, Claims(es, fallback, refs, k), owner, PickSource(es, k, owner, fallback, hash),
        FirstSpelling(refs, k), i);
    FromPrepared(es[i], start[i], now[i], k, Claims(es, fallback, refs, k), owner,
        PickSource(es, k, owner, fallback, hash), FirstSpelling(refs, k), Takers(es, fallback), hash);
  }

  lemma KnownAt(start: seq<Entry>, now: seq<Entry>, k: string, claimed: bool, owner: string, source: string,
      group: string, i: nat)
    requires ClaimPlacesKnown(start, now, k, claimed, owner, source, group) && i < |start|
    ensures |now| == |start|
    ensures if claimed then ClaimedPlaces(start[i], now[i], k, owner, source, group)
            else SamePlaces(start[i], now[i], k)
  {
    hide SamePlaces, ClaimedPlaces;
  }

  lemma FromPrepared(e: Entry, start: Entry, now: Entry, k: string, claimed: bool, owner: string, source: string,
      group: string, takers: set<string>, hash: string -> nat)
    requires if claimed then ClaimedPlaces(start, now, k, owner, source, group) else SamePlaces(start, now, k)
    requires start.id == e.id && forall s, g :: HoldsAt(start.config, s, g) <==> HoldsAt(e.config, s, g)
    requires owner == e.id <==> Stands(takers, e.id, k, hash)
    ensures PlacesAfterClaims(e, now, takers, k, claimed, source, group, hash)
  {
    hide Key, HoldsAt, Below, Migrate, Switches;
  }

  /** The prepared profiles are those the claim loop needs. */
  lemma PreparedRouted(es: seq<Entry>, fallback: string)
    requires SyncInput(es, fallback)
    ensures var start := Prepared(es, fallback);
            |start| == |es| && DistinctIds(start) && AllWellFormed(start) && Routed(start, Eligible(es, fallback))
  {
    hide Key, Strip, DisplayRef, Migrate, WellFormed, Holds, HasSource, Prepared, Eligible, SourcesOf, Sourceable;
    var start, eligible := Prepared(es, fallback), Eligible(es, fallback);
    PreparedEffect(es, fallback);
    EligibleMembers(es, fallback);
    forall a | a in eligible
      ensures exists i :: 0 <= i < |start| && start[i].id == a && Migrate(start[i].config) != []
    {
      var i :| 0 <= i < |es| && es[i].id == a;
      assert start[i].id == a;
    }
  }

  lemma PreparedClaims(es: seq<Entry>, fallback: string, refs: seq<string>, k: string)
    requires SyncInput(es, fallback)
    ensures k in ClaimedKeys(Prepared(es, fallback), Eligible(es, fallback), refs) <==> Claims(es, fallback, refs, k)
  {
    hide Key, Strip, DisplayRef, WellFormed, Holds, HasSource, Prepared, Eligible, OwnersOf, ClaimedKeys, SourcesOf,
      Sourceable, CleanIds;
    PreparedEffect(es, fallback);
    ClaimedKeysMembers(Prepared(es, fallback), Eligible(es, fallback), refs);
    SameHoldingsOwners(Prepared(es, fallback), es, k);
  }

  /** The prepared owner has a route for the source its group is claimed under. */
  lemma OwnerSource(es: seq<Entry>, fallback: string, k: string, hash: string -> nat)
    requires SyncInput(es, fallback)
    ensures var owner := KeyOwner(k, Eligible(es, fallback), hash);
            var start := Prepared(es, fallback);
            forall i :: 0 <= i < |start| && start[i].id == owner ==>
              var source := PickSource(es, k, owner, fallback, hash);
              source != "" && HasRoute(Migrate(start[i].config), source)
  {
    hide Key, Strip, DisplayRef, Migrate, WellFormed, HoldsAt, HasSource, SourcesOf, PickSource, Eligible, HasRoute,
      GivenSource, KeyOwner, PrepareConfig;
    var owner := KeyOwner(k, Eligible(es, fallback), hash);
    var start := Prepared(es, fallback);
    KeyOwnerMember(k, Eligible(es, fallback), hash);
    EligibleTake(es, fallback);
    forall i | 0 <= i < |start| && start[i].id == owner
      ensures var source := PickSource(es, k, owner, fallback, hash);
              source != "" && HasRoute(Migrate(start[i].config), source)
    {
      PreparedPlaces(es, fallback, i, k);
      assert owner in Takers(es, fallback);
      SourceGiven(es, i, k, fallback, hash);
    }
  }

  /** Reconcile keeps every spelling of a group that is on one account at most. */
  lemma UncontestedKept(es: seq<Entry>, ids: seq<string>, hash: string -> nat, k: string, i: nat)
    requires DistinctIds(es) && AllWellFormed(es) && !Contested(es, k) && i < |es|
    ensures |Reconciled(es, ids, hash)| == |es|
    ensures forall s, g :: Key(g) == Some(k) ==>
              (HoldsAt(Reconciled(es, ids, hash)[i].config, s, g) <==> HoldsAt(es[i].config, s, g))
  {
    hide Key, Holds, HoldsAt, HasSource, WellFormed, Contested, Reconciled, Overlaps, EligibleIds, RightfulOwner,
      Switches, Migrate;
    if EligibleIds(es, ids) == [] {
      NothingEligible(es, ids, hash);
    } else {
      ReconcilePlaces(es, ids, hash);
      OverlapsAreContested(es);
      assert k !in OwnedPrefix(Overlaps(es), EligibleIds(es, ids), hash);
    }
  }

  /** The group is listed where it was and, unless it was there already, once under `source`. */
  ghost predicate Adds(before: Config, after: Config, k: string, source: string, group: string) {
    forall s, g :: Key(g) == Some(k) ==>
      (HoldsAt(after, s, g) <==>
         HoldsAt(before, s, g) || (s == source && g == group && !KeyAt(before, source, k)))
  }

  /**
   * Main result on where a claimed group goes: its owner gets it, in the stored spelling of the first candidate
   * naming it, under the source the hash of key and owner picks; other accounts and placements lose it.
   */
  lemma ClaimedGroupPlace(es: seq<Entry>, fallback: string, refs: seq<string>, hash: string -> nat, k: string, i: nat)
    requires SyncInput(es, fallback) && PlainKey(refs, k) && Claims(es, fallback, refs, k) && i < |es|
    ensures |Synced(es, fallback, refs, hash)| == |es|
    ensures if Stands(Takers(es, fallback), es[i].id, k, hash)
            then exists s ::
              && GivenSource(es[i].config, fallback, hash(k + ":" + es[i].id), s)
              && Adds(es[i].config, Synced(es, fallback, refs, hash)[i].config, k, s, FirstSpelling(refs, k))
            else forall s, g :: Key(g) == Some(k) ==> !HoldsAt(Synced(es, fallback, refs, hash)[i].config, s, g)
  {
    hide Key, Strip, Migrate, WellFormed, Holds, HoldsAt, HasSource, Eligible, AfterClaims, PlainKey, Claims, Contested,
      FirstSpelling, PickSource, KeyOwner, GivenSource, Stands, Reconciled, Sourceable;
    var now := AfterClaims(es, fallback, refs, hash);
    AfterClaimsOwnership(es, fallback, refs, hash);
    AfterClaimsPlaces(es, fallback, refs, hash, k, i);
    ContestedAfterClaims(es, fallback, refs, hash, k);
    UncontestedKept(now, Eligible(es, fallback), hash, k, i);
    KeyOwnerStands(es, fallback, k, hash, es[i].id);
    if Stands(Takers(es, fallback), es[i].id, k, hash) {
      TakerTakes(es, fallback, i, k, hash);
      SourceGiven(es, i, k, fallback, hash);
      var s := PickSource(es, k, es[i].id, fallback, hash);
      assert Adds(es[i].config, Synced(es, fallback, refs, hash)[i].config, k, s, FirstSpelling(refs, k));
    }
  }

  lemma TakerTakes(es: seq<Entry>, fallback: string, i: nat, k: string, hash: string -> nat)
    requires DistinctIds(es) && i < |es| && Stands(Takers(es, fallback), es[i].id, k, hash)
    ensures Takes(es[i].config, fallback)
  {
    hide Takes, Below;
  }

  /**
   * A catalog group nobody held is afterwards on the account standing at its hash, listed once, under the source
   * standing at the hash of key and owner, and on no other account.
   */
  lemma NewGroupPlace(es: seq<Entry>, fallback: string, refs: seq<string>, hash: string -> nat, k: string, i: nat)
    requires SyncInput(es, fallback) && PlainKey(refs, k) && !Held(es, k) && Receives(refs, k) && i < |es|
    ensures |Synced(es, fallback, refs, hash)| == |es|
    ensures if Stands(Takers(es, fallback), es[i].id, k, hash)
            then exists s ::
              && GivenSource(es[i].config, fallback, hash(k + ":" + es[i].id), s)
              && OnlyAt(Synced(es, fallback, refs, hash)[i].config, k, s, FirstSpelling(refs, k))
            else !Holds(Synced(es, fallback, refs, hash)[i].config, k)
  {
    NewIsClaimed(es, fallback, refs, k);
    hide SyncInput, Key, Holds, HoldsAt, Eligible, PlainKey, Claims, FirstSpelling, GivenSource, Stands, Synced;
    ClaimedGroupPlace(es, fallback, refs, hash, k, i);
    NotHeldAt(es[i].config, k);
    hide KeyAt;
    var after := Synced(es, fallback, refs, hash)[i].config;
    if Stands(Takers(es, fallback), es[i].id, k, hash) {
      var s :| GivenSource(es[i].config, fallback, hash(k + ":" + es[i].id), s) &&
        Adds(es[i].config, after, k, s, FirstSpelling(refs, k));
      AddsOnly(es[i].config, after, k, s, FirstSpelling(refs, k));
    } else {
      HeldSomewhere(after, k);
    }
  }

  lemma AddsOnly(before: Config, after: Config, k: string, source: string, group: string)
    requires Adds(before, after, k, source, group) && forall s, g :: HoldsAt(before, s, g) ==> Key(g) != Some(k)
    ensures OnlyAt(after, k, source, group)
  {
    hide Key, HoldsAt;
  }

  lemma HeldSomewhere(cfg: Config, key: string)
    ensures Holds(cfg, key) <==> exists s, g :: HoldsAt(cfg, s, g) && Key(g) == Some(key)
  {
    hide Key, Migrate, RoutesHold, RoutesHoldAt;
    HoldsThrough(Migrate(cfg), key);
    if Holds(cfg, key) {
      var s, g :| RoutesHoldAt(Migrate(cfg), s, g) && Key(g) == Some(key);
      assert HoldsAt(cfg, s, g);
    }
  }

  lemma NewIsClaimed(es: seq<Entry>, fallback: string, refs: seq<string>, k: string)
    requires DistinctIds(es) && !Held(es, k) && Receives(refs, k)
    ensures Claims(es, fallback, refs, k)
  {
    hide Key, Holds, Eligible, Takes, Sticky, SlashRooted, FirstRef;
    ClaimsIff(es, fallback, refs, k);
    FirstRefFacts(refs, k);
  }

  // ---------------------------------------------------------------- the fallback route

  lemma DefaultModeRead(cfg: Config)
    ensures DefaultMode(cfg) in {"copy", "forward"}
    ensures DefaultMode(cfg) == "copy" <==> SameButCase(cfg.mode, "copy")
  {
    LowerIff(if cfg.mode != "" then cfg.mode else "forward", "copy");
    LowerIff("forward", "forward");
    assert "forward" != "copy";
  }

  /** A fallback nobody registered gets an empty route that is on, paused as the profile is, in the profile's mode. */
  lemma FallbackRoute(cfg: Config, fallback: string)
    requires WellFormed(cfg) && DisplayRef(fallback) == fallback && AddsFallback(cfg, fallback)
    ensures exists r :: r in PrepareConfig(cfg, SourcesOf(cfg, fallback)).routes
              && r.source == fallback && r.groups == [] && r.enabled && r.paused == cfg.paused
              && r.mode in {"copy", "forward"} && (r.mode == "copy" <==> SameButCase(cfg.mode, "copy"))
    ensures BySource(PrepareConfig(cfg, SourcesOf(cfg, fallback)).routes)
  {
    PreparedConfigIs(cfg, fallback);
    DefaultModeRead(cfg);
    hide DisplayRef, Migrate, SortRoutes, DefaultMode, PrepareConfig, SourcesOf, BySource, WellFormed, SameButCase;
    var written := PreparedRoutes(cfg, fallback);
    SortRoutesFacts(written);
    SortRoutesSorted(written);
    assert written[|written| - 1] in written;
  }

  // ---------------------------------------------------------------- what sync counts

  /** How many candidates have a key. */
  function Keyed(refs: seq<string>): nat {
    if refs == [] then 0 else Keyed(refs[..|refs| - 1]) + if Key(refs[|refs| - 1]).Some? then 1 else 0
  }

  /** The groups the catalog names that sync claims. */
  ghost function ClaimedSet(es: seq<Entry>, fallback: string, refs: seq<string>): set<string> {
    set r | r in refs && Key(r).Some? && Claims(es, fallback, refs, Key(r).value) :: Key(r).value
  }

  lemma {:induction false} ClaimedOnce(es: seq<Entry>, eligible: seq<string>, refs: seq<string>)
    ensures |Members(ClaimedKeys(es, eligible, refs))| == |ClaimedKeys(es, eligible, refs)|
  {
    hide Key, Sticky;
    if refs != [] {
      var front := ClaimedKeys(es, eligible, refs[..|refs| - 1]);
      ClaimedOnce(es, eligible, refs[..|refs| - 1]);
      var all := ClaimedKeys(es, eligible, refs);
      if all != front {
        var k := all[|front|];
        assert Members(all) == Members(front) + {k};
      }
    } else {
      assert Members([]) == {};
    }
  }

  /** Every candidate with a key is claimed or skipped, and a claim is counted once for each claimed group. */
  lemma {:induction false} ClaimAllCounts(es: seq<Entry>, start: seq<Entry>, eligible: seq<string>, fallback: string,
                                          refs: seq<string>, all: seq<string>, hash: string -> nat)
    requires eligible != [] && DistinctIds(start) && AllWellFormed(start) && refs <= all && RefsKept(all)
    requires Routed(start, eligible)
    ensures var st := ClaimAll(es, start, eligible, fallback, refs, hash);
            && st.claimed == |ClaimedKeys(start, eligible, refs)|
            && st.claimed + st.skipped == Keyed(refs)
  {
    hide Key, Shown, Migrate, WellFormed, Sticky, PickSource, KeyOwner, ClaimState, ClaimChanges, FirstOwners, Claimed,
      RefsKept, PlainKey;
    if refs != [] {
      var front, ref := refs[..|refs| - 1], refs[|refs| - 1];
      assert refs == front + [ref];
      ClaimAllCounts(es, start, eligible, fallback, front, all, hash);
      ClaimAllEffect(es, start, eligible, fallback, front, all, hash);
      if Key(ref).Some? {
        KeptReceives(all, Key(ref).value);
        var st, keys := ClaimAll(es, start, eligible, fallback, front, hash), ClaimedKeys(start, eligible, front);
        var key := Key(ref).value;
        if !Sticky(start, eligible, key) && key !in keys {
          ClaimMustChange(start, st.es, all, keys, ref,
              PickSource(es, key, KeyOwner(key, eligible, hash), fallback, hash), eligible, hash);
        }
      }
    }
  }

  /** Main result on the counts sync reports, for a catalog that keeps its keys. */
  lemma SyncCounts(es: seq<Entry>, fallback: string, refs: seq<string>, hash: string -> nat)
    requires SyncInput(es, fallback) && RefsKept(refs)
    ensures var st := ClaimAll(es, Prepared(es, fallback), Eligible(es, fallback), fallback, refs, hash);
            st.claimed == |ClaimedSet(es, fallback, refs)| && st.claimed + st.skipped == Keyed(refs)
  {
    hide Key, Eligible, ClaimAll, ClaimedKeys, RefsKept, Prepared, WellFormed, Claims, CleanIds, DisplayRef;
    var start, eligible := Prepared(es, fallback), Eligible(es, fallback);
    PreparedRouted(es, fallback);
    ClaimAllCounts(es, start, eligible, fallback, refs, refs, hash);
    ClaimedOnce(start, eligible, refs);
    ClaimedAre(es, fallback, refs);
  }

  lemma ClaimedAre(es: seq<Entry>, fallback: string, refs: seq<string>)
    requires SyncInput(es, fallback)
    ensures Members(ClaimedKeys(Prepared(es, fallback), Eligible(es, fallback), refs)) ==
              ClaimedSet(es, fallback, refs)
  {
    InputEligible(es, fallback);
    hide Key, Eligible, ClaimedKeys, Prepared, Sticky, SyncInput;
    var keys := ClaimedKeys(Prepared(es, fallback), Eligible(es, fallback), refs);
    forall k ensures k in Members(keys) <==> k in ClaimedSet(es, fallback, refs) {
      PreparedClaims(es, fallback, refs, k);
      if k in keys {
        var r :| r in refs && Key(r) == Some(k);
      }
    }
  }
}
