/** Attaching catalog groups to promo accounts: prepare routes, claim unowned groups, reconcile. */
module GroupSync {
  import opened Common
  import opened Refs
  import opened Routes
  import opened TextOrder
  import opened Ownership
  import opened Exclusivity
  import opened PromoExclusivity

  // ---------------------------------------------------------------- sources

  /** The ad sources groups of this account may go to; the fallback source stands in when it has none. */
  function SourcesOf(cfg: Config, fallback: string): seq<string> {
    var own := EnabledSources(Migrate(cfg));
    if own == [] && fallback != "" then [fallback] else own
  }

  function SourcedAccounts(es: seq<Entry>, fallback: string): seq<string> {
    if es == [] then []
    else
      SourcedAccounts(es[..|es| - 1], fallback) +
      (if SourcesOf(es[|es| - 1].config, fallback) != [] then [es[|es| - 1].id] else [])
  }

  /** `eligible_accounts` */
  function Eligible(es: seq<Entry>, fallback: string): seq<string> {
    SortedSet(SourcedAccounts(es, fallback))
  }

  lemma {:induction false} SourcedAccountsMembers(es: seq<Entry>, fallback: string)
    ensures forall a :: a in SourcedAccounts(es, fallback) <==>
              exists i :: 0 <= i < |es| && es[i].id == a && SourcesOf(es[i].config, fallback) != []
  {
    hide SourcesOf;
    if es != [] {
      SourcedAccountsMembers(es[..|es| - 1], fallback);
      assert forall i :: 0 <= i < |es| - 1 ==> es[..|es| - 1][i] == es[i];
    }
  }

  // ---------------------------------------------------------------- preparing the routes

  function NewRoute(source: string, paused: bool, mode: string): Route {
    Route(DisplayRef(source), [], true, paused, mode)
  }

  function AddMissing(rs: seq<Route>, sources: seq<string>, paused: bool, mode: string): seq<Route> {
    if sources == [] then rs
    else
      var d := AddMissing(rs, sources[..|sources| - 1], paused, mode);
      var s := sources[|sources| - 1];
      if HasRoute(d, s) then d else d + [NewRoute(s, paused, mode)]
  }

  function DefaultMode(cfg: Config): string {
    var m := Lower(if cfg.mode != "" then cfg.mode else "forward");
    if m in {"forward", "copy"} then m else "forward"
  }

  /** An eligible profile with a route for each of its sources, rewritten in source order. */
  function PrepareConfig(cfg: Config, sources: seq<string>): Config {
    cfg.(routes := SortRoutes(AddMissing(PutAll(Migrate(cfg)), sources, cfg.paused, DefaultMode(cfg))))
  }

  /** A profile's sources always have a route, except a fallback nobody registered. */
  lemma AddMissingEffect(cfg: Config, rs: seq<Route>, fallback: string)
    requires rs == Migrate(cfg) && Sourced(rs) && (fallback == "" || DisplayRef(fallback) == fallback)
    ensures var sources := SourcesOf(cfg, fallback);
            AddMissing(rs, sources, cfg.paused, DefaultMode(cfg)) ==
              if EnabledSources(rs) == [] && fallback != "" && !HasRoute(rs, fallback)
              then rs + [NewRoute(fallback, cfg.paused, DefaultMode(cfg))] else rs
  {
    hide Migrate, DisplayRef, DefaultMode;
    var own := EnabledSources(rs);
    if own == [] && fallback != "" {
      assert [fallback][..0] == [];
    } else {
      EnabledSourcesMembers(rs);
      forall s | s in own ensures HasRoute(rs, s) {
        var r :| r in rs && r.enabled && r.source == s;
      }
      hide EnabledSources;
      AddMissingNone(rs, own, cfg.paused, DefaultMode(cfg));
    }
  }

  lemma {:induction false} AddMissingNone(rs: seq<Route>, sources: seq<string>, paused: bool, mode: string)
    requires forall s :: s in sources ==> HasRoute(rs, s)
    ensures AddMissing(rs, sources, paused, mode) == rs
  {
    hide HasRoute, NewRoute;
    if sources != [] {
      AddMissingNone(rs, sources[..|sources| - 1], paused, mode);
    }
  }

  /** The route added for a fallback source nobody registered, if any. */
  predicate AddsFallback(cfg: Config, fallback: string) {
    EnabledSources(Migrate(cfg)) == [] && fallback != "" && !HasRoute(Migrate(cfg), fallback)
  }

  /** The sources of the prepared routes and whether each is on. */
  ghost function WithFallback(cfg: Config, fallback: string): set<(string, bool)> {
    Switches(Migrate(cfg)) + if AddsFallback(cfg, fallback) then {(fallback, true)} else {}
  }

  /** The account has an enabled source once its routes are prepared. */
  predicate Sourceable(cfg: Config, fallback: string) {
    HasSource(cfg) || AddsFallback(cfg, fallback)
  }

  /** Preparing moves no group; it can only add an empty, enabled fallback route. */
  lemma PrepareEffect(cfg: Config, fallback: string)
    requires WellFormed(cfg) && (fallback == "" || DisplayRef(fallback) == fallback)
    requires SourcesOf(cfg, fallback) != []
    ensures var after := PrepareConfig(cfg, SourcesOf(cfg, fallback));
            && WellFormed(after) && Migrate(after) != []
            && (forall k :: Holds(after, k) <==> Holds(cfg, k))
            && (forall s, g :: HoldsAt(after, s, g) <==> HoldsAt(cfg, s, g))
            && (HasSource(after) <==> Sourceable(cfg, fallback))
            && Switches(Migrate(after)) == WithFallback(cfg, fallback)
  {
    var rs := Migrate(cfg);
    var after := PrepareConfig(cfg, SourcesOf(cfg, fallback));
    var extra := NewRoute(fallback, cfg.paused, DefaultMode(cfg));
    var written := PreparedRoutes(cfg, fallback);
    PrepareWrites(cfg, fallback);
    hide Key, Shown, DisplayRef, Migrate, SortRoutes, DefaultMode, PrepareConfig, Reread, RoutesHold, RoutesHoldAt,
      SameMembers, EnabledSources, Sourced, DistinctSources, SameRoutes, HasRoute;
    var out := SortRoutes(written);
    RereadSources(out);
    SameSourced(Migrate(after), Reread(out), out);
    PreparedHolds(Migrate(after), out, written, rs, extra);
    PreparedSwitches(Migrate(after), out, written, rs, extra);
    PreparedSources(Migrate(after), out, written, rs, extra);
  }

  lemma SameSourced(back: seq<Route>, again: seq<Route>, out: seq<Route>)
    requires SameRoutes(back, again) && Sourced(out) && DistinctSources(out)
    requires |again| == |out| && forall i :: 0 <= i < |out| ==> again[i].source == out[i].source
    ensures |back| == |out| && Sourced(back) && DistinctSources(back)
  {
  }

  lemma PreparedHolds(back: seq<Route>, out: seq<Route>, written: seq<Route>, rs: seq<Route>, extra: Route)
    requires SameRoutes(back, Reread(out)) && SameMembers(Reread(out), written)
    requires extra.groups == [] && (written == rs || written == rs + [extra])
    ensures forall s, g :: RoutesHoldAt(back, s, g) <==> RoutesHoldAt(rs, s, g)
    ensures forall k :: RoutesHold(back, k) <==> RoutesHold(rs, k)
  {
    hide Key, Reread, RoutesHold, RoutesHoldAt, SameMembers, SameRoutes;
    forall s, g ensures RoutesHoldAt(back, s, g) <==> RoutesHoldAt(rs, s, g) {
      SameRoutesHold(back, Reread(out), s, g);
      SameMembersHold(Reread(out), written, s, g);
      ExtraHolds(rs, extra, s, g);
    }
    forall k ensures RoutesHold(back, k) <==> RoutesHold(rs, k) {
      HoldsThrough(rs, k);
      HoldsThrough(back, k);
    }
  }

  lemma PreparedSwitches(back: seq<Route>, out: seq<Route>, written: seq<Route>, rs: seq<Route>, extra: Route)
    requires SameRoutes(back, Reread(out)) && SameMembers(Reread(out), written)
    requires written == rs || (written == rs + [extra] && extra.enabled)
    ensures Switches(back) == Switches(rs) + if written == rs then {} else {(extra.source, true)}
  {
    hide Reread, SameMembers;
    SameRoutesHold(back, Reread(out), "", "");
    SameMembersHold(Reread(out), written, "", "");
  }

  lemma ExtraHolds(rs: seq<Route>, extra: Route, s: string, g: string)
    requires extra.groups == []
    ensures RoutesHoldAt(rs + [extra], s, g) <==> RoutesHoldAt(rs, s, g)
  {
    if RoutesHoldAt(rs, s, g) {
      var i :| 0 <= i < |rs| && rs[i].source == s != "" && g in rs[i].groups;
      assert (rs + [extra])[i] == rs[i];
    }
  }

  lemma PreparedSources(back: seq<Route>, out: seq<Route>, written: seq<Route>, rs: seq<Route>, extra: Route)
    requires SameRoutes(back, Reread(out)) && SameMembers(Reread(out), written)
    requires written == rs || (written == rs + [extra] && EnabledSources(rs) == [] && extra.enabled &&
        extra.source != "")
    ensures EnabledSources(back) != [] <==> EnabledSources(rs) != [] || written != rs
  {
    hide Reread, SameMembers;
    SameRoutesHold(back, Reread(out), "", "");
    forall s ensures s in EnabledSources(Reread(out)) <==> s in EnabledSources(written) {
      SameMembersHold(Reread(out), written, s, "");
    }
    if written != rs {
      assert written[..|written| - 1] == rs;
    }
    hide EnabledSources;
    HasMember(EnabledSources(back));
    HasMember(EnabledSources(written));
  }

  /** The routes a prepared profile is written with, before sorting. */
  function PreparedRoutes(cfg: Config, fallback: string): seq<Route> {
    if AddsFallback(cfg, fallback) then Migrate(cfg) + [NewRoute(fallback, cfg.paused, DefaultMode(cfg))]
        else Migrate(cfg)
  }

  lemma PreparedRoutesFacts(cfg: Config, fallback: string)
    requires WellFormed(cfg) && (fallback == "" || DisplayRef(fallback) == fallback)
    requires SourcesOf(cfg, fallback) != []
    ensures var written := PreparedRoutes(cfg, fallback);
            written != [] && Sourced(written) && DistinctSources(written) && Stored(written)
  {
    MigrateIsStored(cfg);
    NothingToSort(cfg, Migrate(cfg), fallback);
    hide Key, Shown, DisplayRef, Normal, Normalized, Migrate, EnabledSources, DefaultMode;
    if AddsFallback(cfg, fallback) {
      NewRouteStored(Migrate(cfg), fallback, cfg.paused, DefaultMode(cfg));
    }
  }

  lemma NewRouteStored(rs: seq<Route>, fallback: string, paused: bool, mode: string)
    requires Sourced(rs) && DistinctSources(rs) && Stored(rs)
    requires fallback != "" && DisplayRef(fallback) == fallback && !HasRoute(rs, fallback)
    ensures var written := rs + [NewRoute(fallback, paused, mode)];
            Sourced(written) && DistinctSources(written) && Stored(written)
  {
    assert Normal([]);
    hide DisplayRef, Normal;
  }

  lemma PreparedConfigIs(cfg: Config, fallback: string)
    requires WellFormed(cfg) && (fallback == "" || DisplayRef(fallback) == fallback)
    ensures PrepareConfig(cfg, SourcesOf(cfg, fallback)) == cfg.(routes := SortRoutes(PreparedRoutes(cfg, fallback)))
  {
    hide DisplayRef, Migrate, EnabledSources, SortRoutes, DefaultMode, PutAll, AddMissing;
    PutAllDistinct(Migrate(cfg));
    AddMissingEffect(cfg, Migrate(cfg), fallback);
  }

  /** What a prepared profile reads back as. */
  lemma PrepareWrites(cfg: Config, fallback: string)
    requires WellFormed(cfg) && (fallback == "" || DisplayRef(fallback) == fallback)
    requires SourcesOf(cfg, fallback) != []
    ensures var written := PreparedRoutes(cfg, fallback);
            var out := SortRoutes(written);
            && out != [] && Sourced(out) && DistinctSources(out)
            && SameRoutes(Migrate(PrepareConfig(cfg, SourcesOf(cfg, fallback))), Reread(out))
            && SameMembers(Reread(out), written)
  {
    hide Key, Shown, DisplayRef, Normal, Normalized, Migrate, SortRoutes, PreparedRoutes, PrepareConfig, SourcesOf;
    var written := PreparedRoutes(cfg, fallback);
    var out := SortRoutes(written);
    PreparedRoutesFacts(cfg, fallback);
    PreparedConfigIs(cfg, fallback);
    SortRoutesFacts(written);
    forall i | 0 <= i < |out| ensures out[i].source != "" && DisplayRef(out[i].source) == out[i].source {
      assert out[i] in out;
      assert out[i] in written;
    }
    MigrateWritten(cfg, out);
    RereadMembers(out, written);
    RereadStored(written);
  }

  lemma NothingToSort(cfg: Config, rs: seq<Route>, fallback: string)
    requires rs == Migrate(cfg) && SourcesOf(cfg, fallback) != []
    ensures AddsFallback(cfg, fallback) || rs != []
  {
    hide Migrate;
  }

  lemma RereadStored(rs: seq<Route>)
    requires forall i :: 0 <= i < |rs| ==> Normal(rs[i].groups)
    ensures Reread(rs) == rs
  {
    hide Normal, Normalized;
    forall i | 0 <= i < |rs| ensures Normalized(rs[i].groups) == rs[i].groups {
      NormalIsFixed(rs[i].groups);
    }
  }

  /** All eligible profiles prepared, the others untouched. */
  function Prepared(es: seq<Entry>, fallback: string): seq<Entry> {
    seq(|es|, i requires 0 <= i < |es| =>
      if es[i].id in Eligible(es, fallback)
      then es[i].(config := PrepareConfig(es[i].config, SourcesOf(es[i].config, fallback))) else es[i])
  }

  /** Profiles that hold the same groups, under the same ids, as before. */
  ghost predicate SameHoldings(a: seq<Entry>, b: seq<Entry>) {
    |a| == |b| && forall i :: 0 <= i < |a| ==>
      a[i].id == b[i].id && forall k :: Holds(a[i].config, k) <==> Holds(b[i].config, k)
  }

  lemma PreparedEffect(es: seq<Entry>, fallback: string)
    requires DistinctIds(es) && AllWellFormed(es) && (fallback == "" || DisplayRef(fallback) == fallback)
    ensures var ps := Prepared(es, fallback);
            && SameHoldings(ps, es) && AllWellFormed(ps)
            && forall i :: 0 <= i < |es| ==>
                 && (es[i].id in Eligible(es, fallback) <==> SourcesOf(es[i].config, fallback) != [])
                 && (es[i].id in Eligible(es, fallback) ==> Migrate(ps[i].config) != [])
                 && (HasSource(ps[i].config) <==> Sourceable(es[i].config, fallback))
  {
    hide Key, DisplayRef, Migrate, Holds, HoldsAt, WellFormed, HasSource, PrepareConfig, SourcesOf, AddsFallback;
    SourcedAccountsMembers(es, fallback);
    forall i | 0 <= i < |es|
      ensures es[i].id in Eligible(es, fallback) <==> SourcesOf(es[i].config, fallback) != []
      ensures Sourceable(es[i].config, fallback) ==> SourcesOf(es[i].config, fallback) != []
    {
      SourcesOfFacts(es[i].config, fallback);
    }
    forall i | 0 <= i < |es| && es[i].id in Eligible(es, fallback)
      ensures var after := PrepareConfig(es[i].config, SourcesOf(es[i].config, fallback));
              && WellFormed(after) && Migrate(after) != []
              && (forall k :: Holds(after, k) <==> Holds(es[i].config, k))
              && (HasSource(after) <==> Sourceable(es[i].config, fallback))
    {
      PrepareEffect(es[i].config, fallback);
    }
  }

  lemma SourcesOfFacts(cfg: Config, fallback: string)
    ensures Sourceable(cfg, fallback) ==> SourcesOf(cfg, fallback) != []
    ensures fallback == "" ==> (Sourceable(cfg, fallback) <==> SourcesOf(cfg, fallback) != [])
  {
    hide Migrate, EnabledSources;
  }

  // ---------------------------------------------------------------- claiming catalog groups

  /** Owner of a key among ids, and the route source it goes to. */
  function KeyOwner(key: string, ids: seq<string>, hash: string -> nat): string
    requires ids != []
  {
    ids[hash(key) % |ids|]
  }

  lemma KeyOwnerMember(k: string, ids: seq<string>, hash: string -> nat)
    requires ids != []
    ensures KeyOwner(k, ids, hash) in ids
  {
  }

  function FirstHolder(es: seq<Entry>, key: string): Option<string> {
    if OwnersOf(es, key) == [] then None else Some(OwnersOf(es, key)[0])
  }

  /** The group is on an eligible account already, as the first account that lists it. */
  predicate Sticky(es: seq<Entry>, eligible: seq<string>, key: string) {
    FirstHolder(es, key).Some? && FirstHolder(es, key).value in eligible
  }

  function SourceFor(es: seq<Entry>, owner: string, fallback: string): seq<string> {
    if es == [] then []
    else if es[|es| - 1].id == owner then SourcesOf(es[|es| - 1].config, fallback)
    else SourceFor(es[..|es| - 1], owner, fallback)
  }

  /** `sources[stable_bucket_index(f"{group_norm}:{owner}")]` */
  function PickSource(es: seq<Entry>, key: string, owner: string, fallback: string, hash: string -> nat): string {
    var sources := SourceFor(es, owner, fallback);
    if sources == [] then "" else sources[hash(key + ":" + owner) % |sources|]
  }

  /** Keys the candidate refs seen so far make sync claim. */
  function ClaimedKeys(es: seq<Entry>, eligible: seq<string>, refs: seq<string>): seq<string> {
    if refs == [] then []
    else
      var front := ClaimedKeys(es, eligible, refs[..|refs| - 1]);
      var ref := refs[|refs| - 1];
      if Key(ref).None? || Sticky(es, eligible, Key(ref).value) || Key(ref).value in front then front
      else front + [Key(ref).value]
  }

  lemma {:induction false} ClaimedKeysMembers(es: seq<Entry>, eligible: seq<string>, refs: seq<string>)
    ensures forall k :: k in ClaimedKeys(es, eligible, refs) <==>
              !Sticky(es, eligible, k) && exists r :: r in refs && Key(r) == Some(k)
  {
    hide Key, Sticky;
    if refs != [] {
      ClaimedKeysMembers(es, eligible, refs[..|refs| - 1]);
      assert refs == refs[..|refs| - 1] + [refs[|refs| - 1]];
    }
  }

  /** `already_owned`: the first account that lists each group. */
  function FirstOwners(es: seq<Entry>): map<string, string> {
    map k | k in KeyOrder(Placements(es)) && OwnersOf(es, k) != [] :: OwnersOf(es, k)[0]
  }

  /** The claim loop's variables: the profiles, `already_owned`, and the two counters. */
  datatype Claiming = Claiming(es: seq<Entry>, owned: map<string, string>, claimed: nat, skipped: nat)

  function ClaimRef(es: seq<Entry>, st: Claiming, eligible: seq<string>, fallback: string, ref: string,
      hash: string -> nat): Claiming
    requires eligible != []
  {
    if Key(ref).None? then st
    else
      var key := Key(ref).value;
      if key in st.owned && st.owned[key] in eligible then st.(skipped := st.skipped + 1)
      else
        var owner := KeyOwner(key, eligible, hash);
        var source := PickSource(es, key, owner, fallback, hash);
        var now := Claimed(st.es, owner, ref, source);
        if ClaimChanges(st.es, owner, ref, source)
        then Claiming(now, st.owned[key := owner], st.claimed + 1, st.skipped)
        else st.(es := now)
  }

  /** The claim loop after every candidate was handled; `start` are the prepared profiles, `es` the original ones. */
  function ClaimAll(es: seq<Entry>, start: seq<Entry>, eligible: seq<string>, fallback: string, refs: seq<string>,
                    hash: string -> nat): Claiming
    requires eligible != []
  {
    if refs == [] then Claiming(start, FirstOwners(start), 0, 0)
    else
      ClaimRef(es, ClaimAll(es, start, eligible, fallback, refs[..|refs| - 1], hash), eligible, fallback,
          refs[|refs| - 1], hash)
  }

  // ---------------------------------------------------------------- what the claim loop does

  /** Every candidate that has a key keeps it when stored. */
  ghost predicate RefsKept(refs: seq<string>) {
    forall r :: r in refs && Key(r).Some? ==> Key(Shown(r)) == Key(r)
  }

  /** The catalog keeps its keys exactly when no candidate is slash-rooted. */
  lemma RefsKeptIff(refs: seq<string>)
    ensures (forall r :: r in refs && Key(r).Some? ==> !SlashRooted(r)) <==> RefsKept(refs)
  {
    hide Key, Shown, SlashRooted;
    forall r ensures Key(Shown(r)) == Key(r) <==> !SlashRooted(r) {
      KeyKeptIffNotSlashRooted(r);
    }
  }

  /** No slash-rooted candidate is stored under this key: claims of other groups leave it alone. */
  ghost predicate PlainKey(refs: seq<string>, key: string) {
    forall r :: r in refs && Key(r).Some? && SlashRooted(r) ==> Key(Shown(r)) != Some(key)
  }

  /** The first candidate with this key: the one its group is claimed by. */
  function FirstRef(refs: seq<string>, key: string): Option<string> {
    if refs == [] then None
    else
      var front := FirstRef(refs[..|refs| - 1], key);
      if front.Some? then front
      else if Key(refs[|refs| - 1]) == Some(key) then Some(refs[|refs| - 1]) else None
  }

  /** A claim of this group puts it on an account that did not have it. */
  predicate Receives(refs: seq<string>, key: string) {
    FirstRef(refs, key).Some? && !SlashRooted(FirstRef(refs, key).value)
  }

  lemma {:induction false} FirstRefFacts(refs: seq<string>, key: string)
    ensures FirstRef(refs, key).Some? <==> exists r :: r in refs && Key(r) == Some(key)
    ensures FirstRef(refs, key).Some? ==>
        FirstRef(refs, key).value in refs && Key(FirstRef(refs, key).value) == Some(key)
  {
    hide Key;
    if refs != [] {
      FirstRefFacts(refs[..|refs| - 1], key);
      assert refs == refs[..|refs| - 1] + [refs[|refs| - 1]];
    }
  }

  /** Candidates that follow do not change which one was first. */
  lemma {:induction false} FirstRefStays(refs: seq<string>, all: seq<string>, key: string)
    requires refs <= all && FirstRef(refs, key).Some?
    ensures FirstRef(all, key) == FirstRef(refs, key)
  {
    hide Key;
    if refs == all {
    } else {
      var front := all[..|all| - 1];
      assert refs <= front;
      FirstRefStays(refs, front, key);
    }
  }

  /** A catalog that keeps its keys gives every claimed group to its owner. */
  lemma KeptReceives(refs: seq<string>, key: string)
    requires RefsKept(refs)
    ensures PlainKey(refs, key)
    ensures Receives(refs, key) <==> exists r :: r in refs && Key(r) == Some(key)
  {
    hide Key, Shown, SlashRooted;
    RefsKeptIff(refs);
    FirstRefFacts(refs, key);
  }

  /** Claimed groups at their hash owner at most, every other group where it was. */
  ghost predicate ClaimState(start: seq<Entry>, now: seq<Entry>, all: seq<string>, keys: seq<string>,
      eligible: seq<string>, hash: string -> nat)
    requires eligible != []
  {
    && |now| == |start|
    && forall i :: 0 <= i < |start| ==> ClaimEntry(start[i], now[i], all, keys, eligible, hash)
  }

  ghost predicate ClaimEntry(before: Entry, after: Entry, all: seq<string>, keys: seq<string>, eligible: seq<string>,
      hash: string -> nat)
    requires eligible != []
  {
    && after.id == before.id
    && WellFormed(after.config)
    && (Migrate(before.config) != [] ==> Migrate(after.config) != [])
    && HasSource(after.config) == HasSource(before.config)
    && (forall k :: PlainKey(all, k) ==>
        (Holds(after.config, k) <==> HoldsClaimed(before, k, all, keys, eligible, hash)))
  }

  /** The account has the group after the claims of `keys`. */
  ghost predicate HoldsClaimed(before: Entry, k: string, all: seq<string>, keys: seq<string>, eligible: seq<string>,
      hash: string -> nat)
    requires eligible != []
  {
    if k in keys then before.id == KeyOwner(k, eligible, hash) && (Holds(before.config, k) || Receives(all, k))
    else Holds(before.config, k)
  }

  /** One profile after one claim. */
  function ClaimedEntry(e: Entry, owner: string, ref: string, source: string): Entry
    requires Key(ref).Some?
  {
    if e.id == owner then e.(config := EnsureConfig(e.config, ref, source))
    else e.(config := StripConfig(e.config, Key(ref).value))
  }

  lemma ClaimKeepsShape(e: Entry, owner: string, ref: string, source: string)
    requires WellFormed(e.config) && Key(ref).Some? && (e.id == owner ==> Migrate(e.config) != [])
    ensures var after := ClaimedEntry(e, owner, ref, source).config;
            && WellFormed(after) && HasSource(after) == HasSource(e.config)
            && (Migrate(e.config) != [] ==> Migrate(after) != [])
  {
    hide Key, Shown, Migrate, WellFormed, EnabledSources, RoutesHold, RoutesHoldAt, StripConfig, EnsureConfig,
      TargetIndex, Missing;
    if e.id == owner {
      EnsureEffect(e.config, ref, source);
      SameMembersEmpty(EnabledSources(Migrate(EnsureConfig(e.config, ref, source))), EnabledSources(Migrate(e.config)));
    } else {
      StripEffect(e.config, Key(ref).value);
      StripKeepsRoutes(e.config, Key(ref).value);
    }
  }

  /** A claim touches, among the keys no slash-rooted candidate is stored under, its own key alone. */
  lemma ClaimKeepsOthers(e: Entry, owner: string, all: seq<string>, ref: string, source: string, k: string)
    requires WellFormed(e.config) && Key(ref).Some? && (e.id == owner ==> Migrate(e.config) != [])
    requires ref in all && PlainKey(all, k)
    ensures Holds(ClaimedEntry(e, owner, ref, source).config, k) <==>
              if Some(k) != Key(ref) then Holds(e.config, k)
              else e.id == owner && (Holds(e.config, k) || !SlashRooted(ref))
  {
    hide Key, Shown, SlashRooted, Migrate, WellFormed, EnabledSources, Holds, HoldsAt, StripConfig, EnsureConfig,
      TargetIndex, Missing;
    if e.id == owner {
      KeyKeptIffNotSlashRooted(ref);
      EnsureEffect(e.config, ref, source);
      EnsureHoldsIff(e.config, ref, source);
    } else {
      StripEffect(e.config, Key(ref).value);
    }
  }

  lemma StripKeepsRoutes(cfg: Config, key: string)
    requires WellFormed(cfg)
    ensures |Migrate(StripConfig(cfg, key))| == |Migrate(cfg)|
  {
    hide Key, Migrate, StripConfig;
    StripReadBack(cfg, key);
  }

  lemma ClaimOne(start: Entry, e: Entry, all: seq<string>, keys: seq<string>, ref: string, source: string,
      eligible: seq<string>, hash: string -> nat)
    requires eligible != [] && ClaimEntry(start, e, all, keys, eligible, hash)
    requires Key(ref).Some? && ref in all
    requires PlainKey(all, Key(ref).value) ==> Key(ref).value !in keys && FirstRef(all, Key(ref).value) == Some(ref)
    requires start.id == KeyOwner(Key(ref).value, eligible, hash) ==> Migrate(start.config) != []
    ensures ClaimEntry(start, ClaimedEntry(e, KeyOwner(Key(ref).value, eligible, hash), ref, source), all,
                       keys + [Key(ref).value], eligible, hash)
  {
    hide Key, Shown, Migrate, WellFormed, HasSource, Holds, PlainKey, SlashRooted, FirstRef, KeyOwner, ClaimedEntry;
    var key := Key(ref).value;
    var owner := KeyOwner(key, eligible, hash);
    var after := ClaimedEntry(e, owner, ref, source);
    ClaimKeepsShape(e, owner, ref, source);
    ClaimedId(e, owner, ref, source);
    forall k | PlainKey(all, k)
      ensures Holds(after.config, k) <==> HoldsClaimed(start, k, all, keys + [key], eligible, hash)
    {
      ClaimKeepsOthers(e, owner, all, ref, source, k);
    }
  }

  lemma ClaimedId(e: Entry, owner: string, ref: string, source: string)
    requires Key(ref).Some?
    ensures ClaimedEntry(e, owner, ref, source).id == e.id
  {
  }

  /** Only keys no slash-rooted candidate is stored under matter in `keys`. */
  lemma PlainKeysOnly(start: Entry, e: Entry, all: seq<string>, keys: seq<string>, keys': seq<string>,
      eligible: seq<string>, hash: string -> nat)
    requires eligible != [] && ClaimEntry(start, e, all, keys, eligible, hash)
    requires forall k :: PlainKey(all, k) ==> (k in keys <==> k in keys')
    ensures ClaimEntry(start, e, all, keys', eligible, hash)
  {
    hide Migrate, WellFormed, HasSource, Holds, PlainKey, Receives, KeyOwner;
  }

  /** `already_owned` names an eligible account exactly for sticky groups and groups claimed so far. */
  ghost predicate OwnedKnown(owned: map<string, string>, start: seq<Entry>, all: seq<string>, eligible: seq<string>,
      keys: seq<string>) {
    forall k :: PlainKey(all, k) ==> (k in owned && owned[k] in eligible <==> Sticky(start, eligible, k) || k in keys)
  }

  lemma FirstOwnersKnown(start: seq<Entry>, all: seq<string>, eligible: seq<string>)
    requires DistinctIds(start)
    ensures OwnedKnown(FirstOwners(start), start, all, eligible, [])
  {
    hide Holds, Placements, KeyOrder, OwnersOf, PlainKey;
    PlacedKeys(start);
    forall k ensures OwnersOf(start, k) == [] <==> !Held(start, k) {
      OwnersOfCount(start, k);
    }
  }

  /** Every one of these accounts has a route. */
  ghost predicate Routed(start: seq<Entry>, eligible: seq<string>) {
    forall a :: a in eligible ==> exists i :: 0 <= i < |start| && start[i].id == a && Migrate(start[i].config) != []
  }

  /** Claiming a group no eligible account was first to list always changes some profile. */
  lemma ClaimMustChange(start: seq<Entry>, now: seq<Entry>, all: seq<string>, keys: seq<string>, ref: string,
      source: string, eligible: seq<string>, hash: string -> nat)
    requires eligible != [] && DistinctIds(start) && ClaimState(start, now, all, keys, eligible, hash)
    requires Key(ref).Some? && Key(ref).value !in keys && !Sticky(start, eligible, Key(ref).value)
    requires PlainKey(all, Key(ref).value)
    requires Routed(start, eligible)
    ensures ClaimChanges(now, KeyOwner(Key(ref).value, eligible, hash), ref, source)
  {
    hide Key, Migrate, Holds, WellFormed, HasSource, Mentions, Missing, OwnersOf, PlainKey, Receives;
    var key := Key(ref).value;
    var owner := KeyOwner(key, eligible, hash);
    KeyOwnerMember(key, eligible, hash);
    hide KeyOwner;
    var n :| 0 <= n < |start| && start[n].id == owner && Migrate(start[n].config) != [];
    assert ClaimEntry(start[n], now[n], all, keys, eligible, hash);
    if Holds(start[n].config, key) {
      SoleOwner(start, n, key);
      assert Contested(start, key);
      var i, j :| 0 <= i < j < |start| && Holds(start[i].config, key) && Holds(start[j].config, key);
      var m := if i == n then j else i;
      assert ClaimEntry(start[m], now[m], all, keys, eligible, hash);
      StripCounts(now[m], key);
      assert ClaimTouches(now[m], owner, ref, source);
    } else {
      LacksGroup(now[n].config, ref, source, key);
      assert ClaimTouches(now[n], owner, ref, source);
    }
  }

  lemma LacksGroup(cfg: Config, group: string, preferred: string, key: string)
    requires WellFormed(cfg) && Migrate(cfg) != [] && Key(group) == Some(key) && !Holds(cfg, key)
    ensures Missing(Migrate(cfg), group, preferred)
  {
    hide Key, Migrate, TargetIndex;
    var rs := Migrate(cfg);
    WithoutChanges(rs[TargetIndex(rs, preferred)].groups, key);
  }

  /** The claim loop on any part of a catalog: where every group is, whatever the spelling of the candidates. */
  lemma {:induction false} ClaimAllEffect(es: seq<Entry>, start: seq<Entry>, eligible: seq<string>, fallback: string,
                                          refs: seq<string>, all: seq<string>, hash: string -> nat)
    requires eligible != [] && DistinctIds(start) && AllWellFormed(start) && refs <= all
    requires Routed(start, eligible)
    ensures var st := ClaimAll(es, start, eligible, fallback, refs, hash);
            && ClaimState(start, st.es, all, ClaimedKeys(start, eligible, refs), eligible, hash)
            && OwnedKnown(st.owned, start, all, eligible, ClaimedKeys(start, eligible, refs))
  {
    hide Key, Shown, Migrate, WellFormed, Holds, HasSource, Sticky, PickSource, StripConfig, EnsureConfig, KeyOwner,
      ClaimEntry, ClaimChanges, FirstOwners, OwnedKnown;
    if refs == [] {
      forall i | 0 <= i < |start| ensures ClaimEntry(start[i], start[i], all, [], eligible, hash) {
        ClaimNothing(start[i], all, eligible, hash);
      }
      FirstOwnersKnown(start, all, eligible);
    } else {
      var front, ref := refs[..|refs| - 1], refs[|refs| - 1];
      assert refs == front + [ref];
      ClaimAllEffect(es, start, eligible, fallback, front, all, hash);
      if Key(ref).Some? {
        ClaimNext(es, start, eligible, fallback, front, ref, all, hash);
      }
    }
  }

  /** The state after a candidate: the keys claimed so far, with its own if it was due. */
  ghost predicate ClaimsKnown(st: Claiming, start: seq<Entry>, all: seq<string>, keys: seq<string>,
      eligible: seq<string>, hash: string -> nat)
    requires eligible != []
  {
    ClaimState(start, st.es, all, keys, eligible, hash) && OwnedKnown(st.owned, start, all, eligible, keys)
  }

  lemma ClaimNext(es: seq<Entry>, start: seq<Entry>, eligible: seq<string>, fallback: string,
                  front: seq<string>, ref: string, all: seq<string>, hash: string -> nat)
    requires eligible != [] && DistinctIds(start) && Key(ref).Some? && front + [ref] <= all
    requires Routed(start, eligible)
    requires ClaimsKnown(ClaimAll(es, start, eligible, fallback, front, hash), start, all,
                         ClaimedKeys(start, eligible, front), eligible, hash)
    ensures var st := ClaimRef(es, ClaimAll(es, start, eligible, fallback, front, hash), eligible, fallback, ref, hash);
            var keys := ClaimedKeys(start, eligible, front);
            var key := Key(ref).value;
            ClaimsKnown(st, start, all, if Sticky(start, eligible, key) || key in keys then keys
                else keys + [key], eligible, hash)
  {
    hide Key, Shown, Migrate, WellFormed, Holds, HasSource, Sticky, ClaimAll, ClaimedKeys, ClaimRef, ClaimsKnown,
      PlainKey, FirstRef;
    var keys := ClaimedKeys(start, eligible, front);
    var key := Key(ref).value;
    var before := ClaimAll(es, start, eligible, fallback, front, hash);
    assert (front + [ref])[|front|] == ref == all[|front|];
    if PlainKey(all, key) {
      if !Sticky(start, eligible, key) && key !in keys {
        IsFirstRef(start, eligible, front, ref, all);
        ClaimDue(es, before, start, eligible, fallback, keys, ref, all, hash);
      } else {
        ClaimSkipped(es, before, start, eligible, fallback, keys, ref, all, hash);
      }
    } else {
      ClaimOdd(es, before, start, eligible, fallback, keys, ref, all, hash);
      var keys' := if Sticky(start, eligible, key) || key in keys then keys else keys + [key];
      ClaimsKnownPlain(ClaimRef(es, before, eligible, fallback, ref, hash), start, all, keys + [key], keys', eligible,
          hash);
    }
  }

  lemma IsFirstRef(start: seq<Entry>, eligible: seq<string>, front: seq<string>, ref: string, all: seq<string>)
    requires front + [ref] <= all && Key(ref).Some?
    requires !Sticky(start, eligible, Key(ref).value) && Key(ref).value !in ClaimedKeys(start, eligible, front)
    ensures FirstRef(all, Key(ref).value) == Some(ref)
  {
    hide Key, Sticky, ClaimedKeys;
    var key := Key(ref).value;
    ClaimedKeysMembers(start, eligible, front);
    FirstRefFacts(front, key);
    assert (front + [ref])[..|front|] == front;
    FirstRefStays(front + [ref], all, key);
  }

  /** A claim changes every profile to its claimed form. */
  lemma ClaimAtOwner(start: seq<Entry>, before: seq<Entry>, all: seq<string>, keys: seq<string>, ref: string,
      source: string, eligible: seq<string>, hash: string -> nat)
    requires eligible != [] && ClaimState(start, before, all, keys, eligible, hash) && DistinctIds(start)
    requires Routed(start, eligible)
    requires Key(ref).Some? && ref in all
    requires PlainKey(all, Key(ref).value) ==> Key(ref).value !in keys && FirstRef(all, Key(ref).value) == Some(ref)
    ensures ClaimState(start, Claimed(before, KeyOwner(Key(ref).value, eligible, hash), ref, source), all,
                       keys + [Key(ref).value], eligible, hash)
  {
    hide Key, Shown, Migrate, PlainKey, FirstRef, ClaimEntry, KeyOwner, EnsureConfig, StripConfig;
    var owner := KeyOwner(Key(ref).value, eligible, hash);
    KeyOwnerMember(Key(ref).value, eligible, hash);
    forall i | 0 <= i < |start|
      ensures ClaimEntry(start[i], Claimed(before, owner, ref, source)[i], all, keys + [Key(ref).value], eligible, hash)
    {
      ClaimOne(start[i], before[i], all, keys, ref, source, eligible, hash);
    }
  }

  /** The first candidate of a group no eligible account was first to list claims it. */
  lemma ClaimDue(es: seq<Entry>, before: Claiming, start: seq<Entry>, eligible: seq<string>, fallback: string,
      keys: seq<string>, ref: string, all: seq<string>, hash: string -> nat)
    requires eligible != [] && DistinctIds(start) && Key(ref).Some? && ref in all
    requires Routed(start, eligible)
    requires ClaimsKnown(before, start, all, keys, eligible, hash)
    requires PlainKey(all, Key(ref).value) && FirstRef(all, Key(ref).value) == Some(ref)
    requires !Sticky(start, eligible, Key(ref).value) && Key(ref).value !in keys
    ensures ClaimsKnown(ClaimRef(es, before, eligible, fallback, ref, hash), start, all, keys + [Key(ref).value],
        eligible, hash)
  {
    hide Key, Shown, Migrate, Sticky, ClaimState, PlainKey, FirstRef, ClaimChanges, PickSource, KeyOwner, Claimed;
    var key := Key(ref).value;
    var source := PickSource(es, key, KeyOwner(key, eligible, hash), fallback, hash);
    KeyOwnerMember(key, eligible, hash);
    ClaimMustChange(start, before.es, all, keys, ref, source, eligible, hash);
    ClaimAtOwner(start, before.es, all, keys, ref, source, eligible, hash);
  }

  lemma ClaimSkipped(es: seq<Entry>, before: Claiming, start: seq<Entry>, eligible: seq<string>, fallback: string,
      keys: seq<string>, ref: string, all: seq<string>, hash: string -> nat)
    requires eligible != [] && Key(ref).Some? && PlainKey(all, Key(ref).value)
    requires ClaimsKnown(before, start, all, keys, eligible, hash)
    requires Sticky(start, eligible, Key(ref).value) || Key(ref).value in keys
    ensures ClaimsKnown(ClaimRef(es, before, eligible, fallback, ref, hash), start, all, keys, eligible, hash)
  {
    hide Key, Sticky, ClaimState, PlainKey, ClaimChanges, PickSource, KeyOwner, Claimed;
  }

  /** A candidate whose key is the stored key of a slash-rooted one changes nothing else, claimed or not. */
  lemma ClaimOdd(es: seq<Entry>, before: Claiming, start: seq<Entry>, eligible: seq<string>, fallback: string,
      keys: seq<string>, ref: string, all: seq<string>, hash: string -> nat)
    requires eligible != [] && DistinctIds(start) && Key(ref).Some? && ref in all && !PlainKey(all, Key(ref).value)
    requires Routed(start, eligible)
    requires ClaimsKnown(before, start, all, keys, eligible, hash)
    ensures ClaimsKnown(ClaimRef(es, before, eligible, fallback, ref, hash), start, all, keys + [Key(ref).value],
        eligible, hash)
  {
    hide Key, Migrate, Sticky, ClaimState, PlainKey, ClaimChanges, PickSource, KeyOwner, Claimed;
    var key := Key(ref).value;
    ClaimsKnownPlain(before, start, all, keys, keys + [key], eligible, hash);
    var source := PickSource(es, key, KeyOwner(key, eligible, hash), fallback, hash);
    ClaimAtOwner(start, before.es, all, keys, ref, source, eligible, hash);
  }

  lemma ClaimsKnownPlain(st: Claiming, start: seq<Entry>, all: seq<string>, keys: seq<string>, keys': seq<string>,
      eligible: seq<string>, hash: string -> nat)
    requires eligible != [] && ClaimsKnown(st, start, all, keys, eligible, hash)
    requires forall k :: PlainKey(all, k) ==> (k in keys <==> k in keys')
    ensures ClaimsKnown(st, start, all, keys', eligible, hash)
  {
    hide PlainKey, Sticky, ClaimEntry;
    forall i | 0 <= i < |start| ensures ClaimEntry(start[i], st.es[i], all, keys', eligible, hash) {
      PlainKeysOnly(start[i], st.es[i], all, keys, keys', eligible, hash);
    }
  }

  lemma ClaimNothing(e: Entry, all: seq<string>, eligible: seq<string>, hash: string -> nat)
    requires eligible != [] && WellFormed(e.config)
    ensures ClaimEntry(e, e, all, [], eligible, hash)
  {
    hide Holds, HasSource, WellFormed, Migrate, PlainKey;
  }

  // ---------------------------------------------------------------- sync

  function AfterClaims(es: seq<Entry>, fallback: string, refs: seq<string>, hash: string -> nat): seq<Entry>
    requires Eligible(es, fallback) != []
  {
    ClaimAll(es, Prepared(es, fallback), Eligible(es, fallback), fallback, refs, hash).es
  }

  /** The profiles after `sync`. */
  function Synced(es: seq<Entry>, fallback: string, refs: seq<string>, hash: string -> nat): seq<Entry>
    requires Eligible(es, fallback) != []
  {
    Reconciled(AfterClaims(es, fallback, refs, hash), Eligible(es, fallback), hash)
  }

  /** A catalog group that sync takes for its hash owner: no eligible account is its first holder. */
  ghost predicate Claims(es: seq<Entry>, fallback: string, refs: seq<string>, key: string) {
    !Sticky(es, Eligible(es, fallback), key) && exists r :: r in refs && Key(r) == Some(key)
  }

  lemma {:induction false} SameHoldingsOwners(a: seq<Entry>, b: seq<Entry>, key: string)
    requires SameHoldings(a, b)
    ensures OwnersOf(a, key) == OwnersOf(b, key)
  {
    hide Holds, KeysOf;
    if a != [] {
      SameHoldingsOwners(a[..|a| - 1], b[..|b| - 1], key);
      KeysOfHolds(a[|a| - 1]);
      KeysOfHolds(b[|b| - 1]);
    }
  }

  /** What sync is given: well-formed profiles under clean, distinct ids, and some account with a source. */
  ghost predicate SyncInput(es: seq<Entry>, fallback: string) {
    && DistinctIds(es) && CleanIds(es) && AllWellFormed(es)
    && (fallback == "" || DisplayRef(fallback) == fallback)
    && Eligible(es, fallback) != []
  }

  ghost predicate AfterClaimsEntry(before: Entry, after: Entry, es: seq<Entry>, fallback: string, refs: seq<string>,
      hash: string -> nat)
    requires Eligible(es, fallback) != []
  {
    && after.id == before.id && WellFormed(after.config)
    && (HasSource(after.config) <==> Sourceable(before.config, fallback))
    && (forall k :: PlainKey(refs, k) ==>
          (Holds(after.config, k) <==> HoldsAfterClaims(before, es, fallback, refs, k, hash)))
  }

  /** The account has the group once the catalog was claimed. */
  ghost predicate HoldsAfterClaims(before: Entry, es: seq<Entry>, fallback: string, refs: seq<string>, k: string,
      hash: string -> nat)
    requires Eligible(es, fallback) != []
  {
    if Claims(es, fallback, refs, k)
    then before.id == KeyOwner(k, Eligible(es, fallback), hash) && (Holds(before.config, k) || Receives(refs, k))
    else Holds(before.config, k)
  }

  /** Claiming leaves each claimed group with its hash owner at most and moves nothing else, for every catalog. */
  lemma AfterClaimsOwnership(es: seq<Entry>, fallback: string, refs: seq<string>, hash: string -> nat)
    requires SyncInput(es, fallback)
    ensures var now := AfterClaims(es, fallback, refs, hash);
            |now| == |es| && forall i :: 0 <= i < |es| ==> AfterClaimsEntry(es[i], now[i], es, fallback, refs, hash)
  {
    hide Key, Shown, Strip, DisplayRef, Migrate, WellFormed, Holds, HasSource, Prepared, Eligible, OwnersOf, ClaimAll,
      ClaimEntry, ClaimedKeys, KeyOwner, SourcesOf, Sourceable, PlainKey, Receives;
    var start := Prepared(es, fallback);
    var eligible := Eligible(es, fallback);
    PreparedEffect(es, fallback);
    EligibleMembers(es, fallback);
    forall a | a in eligible
      ensures exists i :: 0 <= i < |start| && start[i].id == a && Migrate(start[i].config) != []
    {
      var i :| 0 <= i < |es| && es[i].id == a;
      assert start[i].id == a;
    }
    ClaimAllEffect(es, start, eligible, fallback, refs, refs, hash);
    ClaimedKeysMembers(start, eligible, refs);
    forall k ensures Sticky(start, eligible, k) == Sticky(es, eligible, k) {
      SameHoldingsOwners(start, es, k);
    }
    var now := AfterClaims(es, fallback, refs, hash);
    hide Sticky;
    forall i | 0 <= i < |es| ensures AfterClaimsEntry(es[i], now[i], es, fallback, refs, hash) {
      ClaimEntryFacts(start[i], now[i], refs, ClaimedKeys(start, eligible, refs), eligible, hash);
    }
  }

  lemma ClaimEntryFacts(before: Entry, after: Entry, all: seq<string>, keys: seq<string>, eligible: seq<string>,
      hash: string -> nat)
    requires eligible != [] && ClaimEntry(before, after, all, keys, eligible, hash)
    ensures after.id == before.id && WellFormed(after.config) && HasSource(after.config) == HasSource(before.config)
    ensures forall k :: PlainKey(all, k) ==>
              (Holds(after.config, k) <==>
                 if k in keys then before.id == KeyOwner(k, eligible, hash) &&
                     (Holds(before.config, k) || Receives(all, k))
                 else Holds(before.config, k))
  {
    hide Holds, HasSource, WellFormed, Migrate, KeyOwner, PlainKey, Receives;
  }

  /** After claiming, a group is contested exactly when it was and sync did not claim it. */
  lemma ContestedAfterClaims(es: seq<Entry>, fallback: string, refs: seq<string>, hash: string -> nat, k: string)
    requires SyncInput(es, fallback) && PlainKey(refs, k)
    ensures Contested(AfterClaims(es, fallback, refs, hash), k) <==> !Claims(es, fallback, refs, k) && Contested(es, k)
  {
    hide Key, Strip, DisplayRef, WellFormed, Holds, HasSource, Eligible, AfterClaims, Claims, KeyOwner, PlainKey,
      Receives, Sourceable;
    AfterClaimsOwnership(es, fallback, refs, hash);
    var now := AfterClaims(es, fallback, refs, hash);
    assert forall i :: 0 <= i < |es| ==>
        (Holds(now[i].config, k) <==> HoldsAfterClaims(es[i], es, fallback, refs, k, hash));
    if Claims(es, fallback, refs, k) {
      assert forall i, j :: 0 <= i < j < |es| ==> !(Holds(now[i].config, k) && Holds(now[j].config, k));
    }
  }

  // ---------------------------------------------------------------- who reconcile may choose

  /** Some account has an enabled source once the routes are prepared. */
  predicate SomeSourced(es: seq<Entry>, fallback: string) {
    exists i :: 0 <= i < |es| && Sourceable(es[i].config, fallback)
  }

  /** Accounts reconcile may move contested groups to at the end of sync. */
  function FinalIds(es: seq<Entry>, fallback: string, refs: seq<string>, hash: string -> nat): seq<string>
    requires Eligible(es, fallback) != []
  {
    EligibleIds(AfterClaims(es, fallback, refs, hash), Eligible(es, fallback))
  }

  lemma EligibleIdsMembers(es: seq<Entry>, requested: seq<string>)
    requires requested != []
    ensures forall a :: a in EligibleIds(es, requested) <==>
              a != "" && HasSourceId(es, a) && exists b :: b in requested && Strip(b) == a
  {
    hide Strip, HasSourceId;
    StripIdsMembers(requested);
    WithSourceMembers(es, StripIds(requested));
  }

  lemma EligibleMembers(es: seq<Entry>, fallback: string)
    requires DistinctIds(es)
    ensures forall i :: 0 <= i < |es| ==>
        (es[i].id in Eligible(es, fallback) <==> SourcesOf(es[i].config, fallback) != [])
    ensures forall a :: a in Eligible(es, fallback) ==> exists i :: 0 <= i < |es| && es[i].id == a
  {
    hide SourcesOf;
    SourcedAccountsMembers(es, fallback);
  }

  /** Whatever was claimed, reconcile chooses among the accounts with an enabled source after preparing. */
  lemma FinalIdsAre(es: seq<Entry>, fallback: string, refs: seq<string>, hash: string -> nat, a: string)
    requires SyncInput(es, fallback)
    ensures a in FinalIds(es, fallback, refs, hash) <==>
              exists i :: 0 <= i < |es| && es[i].id == a && Sourceable(es[i].config, fallback)
  {
    hide Key, Strip, DisplayRef, WellFormed, Holds, HasSource, AfterClaims, PlainKey, HoldsAfterClaims, SourcesOf,
      Sourceable, EligibleIds, Eligible;
    var now := AfterClaims(es, fallback, refs, hash);
    AfterClaimsOwnership(es, fallback, refs, hash);
    EligibleMembers(es, fallback);
    EligibleIdsMembers(now, Eligible(es, fallback));
    if i :| 0 <= i < |es| && es[i].id == a && Sourceable(es[i].config, fallback) {
      SourcesOfFacts(es[i].config, fallback);
      assert now[i].id == a && HasSource(now[i].config);
      assert a in Eligible(es, fallback) && Strip(a) == a;
    }
    if a in FinalIds(es, fallback, refs, hash) {
      var i := SourcedEntry(now, a);
      assert es[i].id == a;
    }
  }

  /** Reconcile has somebody to choose exactly when some account has a source or gets the fallback route. */
  lemma SomeoneFinalIff(es: seq<Entry>, fallback: string, refs: seq<string>, hash: string -> nat)
    requires SyncInput(es, fallback)
    ensures FinalIds(es, fallback, refs, hash) != [] <==> SomeSourced(es, fallback)
  {
    InputEligible(es, fallback);
    hide SyncInput, FinalIds, Sourceable, Eligible;
    var ids := FinalIds(es, fallback, refs, hash);
    if ids != [] {
      assert ids[0] in ids;
      FinalIdsAre(es, fallback, refs, hash, ids[0]);
    }
    if i :| 0 <= i < |es| && Sourceable(es[i].config, fallback) {
      FinalIdsAre(es, fallback, refs, hash, es[i].id);
    }
  }

  /** Without a fallback source the eligible accounts all have an enabled source, so reconcile always runs. */
  lemma NoFallbackIds(es: seq<Entry>, refs: seq<string>, hash: string -> nat)
    requires SyncInput(es, "")
    ensures FinalIds(es, "", refs, hash) == Eligible(es, "")
    ensures SomeSourced(es, "")
  {
    hide Key, Strip, DisplayRef, WellFormed, AfterClaims, SourcesOf, Sourceable, EligibleIds;
    EligibleMembers(es, "");
    hide Eligible;
    forall a ensures a in FinalIds(es, "", refs, hash) <==> a in Eligible(es, "") {
      FinalIdsAre(es, "", refs, hash, a);
      SourcedAre(es, a);
    }
    AscendingFinal(es, refs, hash);
    SomeoneFinalIff(es, "", refs, hash);
  }

  lemma SourcedAre(es: seq<Entry>, a: string)
    requires DistinctIds(es)
    ensures a in Eligible(es, "") <==> exists i :: 0 <= i < |es| && es[i].id == a && Sourceable(es[i].config, "")
  {
    hide SourcesOf, Sourceable, Eligible;
    EligibleMembers(es, "");
    forall i | 0 <= i < |es| ensures Sourceable(es[i].config, "") <==> es[i].id in Eligible(es, "") {
      SourcesOfFacts(es[i].config, "");
    }
    if a in Eligible(es, "") {
      var i :| 0 <= i < |es| && es[i].id == a;
    }
  }

  lemma AscendingFinal(es: seq<Entry>, refs: seq<string>, hash: string -> nat)
    requires Eligible(es, "") != []
    requires forall a :: a in FinalIds(es, "", refs, hash) <==> a in Eligible(es, "")
    ensures FinalIds(es, "", refs, hash) == Eligible(es, "")
  {
    hide AfterClaims, SourcedAccounts, WithSource, StripIds;
    AscendingUnique(FinalIds(es, "", refs, hash), Eligible(es, ""));
  }

  /** The hash owner sync uses is the rightful owner among the eligible accounts. */
  lemma KeyOwnerIsRightful(es: seq<Entry>, fallback: string, ref: string, hash: string -> nat)
    requires DistinctIds(es) && CleanIds(es) && Eligible(es, fallback) != [] && Key(ref).Some?
    ensures RightfulOwner(ref, Eligible(es, fallback), hash) ==
        Some(KeyOwner(Key(ref).value, Eligible(es, fallback), hash))
  {
    hide Key, Strip, SourcesOf;
    var ids := Eligible(es, fallback);
    EligibleMembers(es, fallback);
    StripIdsMembers(ids);
    forall a ensures a in StripIds(ids) <==> a in ids {
      if a in ids {
        var i :| 0 <= i < |es| && es[i].id == a;
      }
      if b :| b in ids && Strip(b) == a {
        var i :| 0 <= i < |es| && es[i].id == b;
      }
    }
    AscendingUnique(SortedSet(StripIds(ids)), ids);
  }

  // ---------------------------------------------------------------- where every group ends

  /** The stored key of every slash-rooted candidate is itself a reference with a key, as for `/name`. */
  ghost predicate KeyedStores(refs: seq<string>) {
    forall r, k :: r in refs && Key(r).Some? && SlashRooted(r) && Key(Shown(r)) == Some(k) ==> Key(k).Some?
  }

  /** Every group that stays contested after the claims can be given an owner. */
  ghost predicate LeftOwnable(es: seq<Entry>, fallback: string, refs: seq<string>) {
    KeyedStores(refs) && forall k :: Contested(es, k) && !Claims(es, fallback, refs, k) ==> Key(k).Some?
  }

  lemma OddKeyed(refs: seq<string>, k: string)
    requires KeyedStores(refs)
    ensures PlainKey(refs, k) || Key(k).Some?
  {
    hide Key, Shown, SlashRooted;
  }

  /** After the claims every contested group has a key exactly when those left contested had one. */
  lemma KeyedAfterClaims(es: seq<Entry>, fallback: string, refs: seq<string>, hash: string -> nat)
    requires SyncInput(es, fallback) && KeyedStores(refs)
    ensures (forall k :: Contested(AfterClaims(es, fallback, refs, hash), k) ==> Key(k).Some?) <==>
              LeftOwnable(es, fallback, refs)
  {
    InputEligible(es, fallback);
    hide Key, SyncInput, Eligible, AfterClaims, Contested, Claims, PlainKey, KeyedStores;
    forall k
      ensures PlainKey(refs, k) || Key(k).Some?
      ensures PlainKey(refs, k) ==>
                (Contested(AfterClaims(es, fallback, refs, hash), k) <==>
                    !Claims(es, fallback, refs, k) && Contested(es, k))
    {
      OddKeyed(refs, k);
      if PlainKey(refs, k) {
        ContestedAfterClaims(es, fallback, refs, hash, k);
      }
    }
  }

  /** Reconcile settles this group at the end of sync: it is contested after the claims, before any raise. */
  predicate Settles(es: seq<Entry>, fallback: string, refs: seq<string>, key: string, hash: string -> nat)
    requires Eligible(es, fallback) != []
  {
    var ids := FinalIds(es, fallback, refs, hash);
    ids != [] && key in OwnedPrefix(Overlaps(AfterClaims(es, fallback, refs, hash)), ids, hash)
  }

  /** Only groups that were contested and are not claimed settle; when reconcile runs to the end, all of those do. */
  lemma SettlesAre(es: seq<Entry>, fallback: string, refs: seq<string>, k: string, hash: string -> nat)
    requires SyncInput(es, fallback) && PlainKey(refs, k)
    ensures Settles(es, fallback, refs, k, hash) ==>
              && Contested(es, k) && !Claims(es, fallback, refs, k)
              && RightfulOwner(k, FinalIds(es, fallback, refs, hash), hash).Some?
    ensures SomeSourced(es, fallback) && LeftOwnable(es, fallback, refs) ==>
              (Settles(es, fallback, refs, k, hash) <==> Contested(es, k) && !Claims(es, fallback, refs, k))
  {
    hide Key, Shown, Strip, DisplayRef, WellFormed, Holds, HasSource, Eligible, EligibleIds, AfterClaims, Claims,
      RightfulOwner, Contested, Overlaps, PlainKey, HoldsAfterClaims, Sourceable, SomeSourced, KeyedStores,
      LeftOwnable;
    var now := AfterClaims(es, fallback, refs, hash);
    AfterClaimsOwnership(es, fallback, refs, hash);
    ContestedAfterClaims(es, fallback, refs, hash, k);
    OverlapsAreContested(now);
    var ids := FinalIds(es, fallback, refs, hash);
    assert k in OwnedPrefix(Overlaps(now), ids, hash) ==> k in Overlaps(now);
    if SomeSourced(es, fallback) && LeftOwnable(es, fallback, refs) {
      LastsToEnd(es, fallback, refs, hash);
    }
  }

  /** With an owner for each group left contested, reconcile settles all it finds. */
  lemma LastsToEnd(es: seq<Entry>, fallback: string, refs: seq<string>, hash: string -> nat)
    requires SyncInput(es, fallback) && SomeSourced(es, fallback) && LeftOwnable(es, fallback, refs)
    ensures var ids := FinalIds(es, fallback, refs, hash);
            var keys := Overlaps(AfterClaims(es, fallback, refs, hash));
            ids != [] && OwnedPrefix(keys, ids, hash) == keys
  {
    hide Key, Shown, Strip, DisplayRef, WellFormed, Holds, HasSource, Eligible, EligibleIds, AfterClaims, Claims,
      RightfulOwner, Contested, Overlaps, PlainKey, HoldsAfterClaims, Sourceable, SomeSourced, KeyedStores;
    var now := AfterClaims(es, fallback, refs, hash);
    AfterClaimsOwnership(es, fallback, refs, hash);
    SomeoneFinalIff(es, fallback, refs, hash);
    KeyedAfterClaims(es, fallback, refs, hash);
    OwnableIff(now, Eligible(es, fallback), hash);
    OverlapsAreContested(now);
  }

  /** Where every group is after sync: claimed, settled, or left alone. */
  ghost predicate SyncPlaced(es: seq<Entry>, out: seq<Entry>, fallback: string, refs: seq<string>, hash: string -> nat)
    requires Eligible(es, fallback) != []
  {
    && |out| == |es|
    && forall i, k :: 0 <= i < |es| && PlainKey(refs, k) ==>
         (Holds(out[i].config, k) <==> PlacedOn(es, i, fallback, refs, k, hash))
  }

  /** The account has the group after sync. */
  ghost predicate PlacedOn(es: seq<Entry>, i: nat, fallback: string, refs: seq<string>, k: string, hash: string -> nat)
    requires i < |es| && Eligible(es, fallback) != []
  {
    if Claims(es, fallback, refs, k)
    then es[i].id == KeyOwner(k, Eligible(es, fallback), hash) && (Holds(es[i].config, k) || Receives(refs, k))
    else if Settles(es, fallback, refs, k, hash)
    then RightfulOwner(k, FinalIds(es, fallback, refs, hash), hash) == Some(es[i].id)
    else Holds(es[i].config, k)
  }

  /**
   * Main result: the owner of every group after sync, for every catalog and fallback, whether reconcile runs to the
   * end, raises or has nobody to choose. Groups under the stored key of a slash-rooted candidate are set apart.
   */
  lemma SyncOwnership(es: seq<Entry>, fallback: string, refs: seq<string>, hash: string -> nat)
    requires SyncInput(es, fallback)
    ensures SyncPlaced(es, Synced(es, fallback, refs, hash), fallback, refs, hash)
  {
    hide Key, Shown, Strip, DisplayRef, WellFormed, Holds, HoldsAt, HasSource, Eligible, EligibleIds, AfterClaims,
      Claims, KeyOwner, RightfulOwner, Contested, Reconciled, PlainKey, Receives, Sourceable, Overlaps, OwnedPrefix;
    var now := AfterClaims(es, fallback, refs, hash);
    AfterClaimsOwnership(es, fallback, refs, hash);
    var out, ids := Synced(es, fallback, refs, hash), FinalIds(es, fallback, refs, hash);
    if ids == [] {
      NothingEligible(now, Eligible(es, fallback), hash);
    } else {
      ReconcilePlaces(now, Eligible(es, fallback), hash);
      forall i, k | 0 <= i < |es| && PlainKey(refs, k)
        ensures Holds(out[i].config, k) <==> PlacedOn(es, i, fallback, refs, k, hash)
      {
        SettlesAre(es, fallback, refs, k, hash);
        SettledAt(now[i], out[i], OwnedPrefix(Overlaps(now), ids, hash), ids, hash, k);
      }
    }
  }

  lemma SettledAt(before: Entry, after: Entry, keys: seq<string>, ids: seq<string>, hash: string -> nat, k: string)
    requires SettledEntry(before, after, keys, ids, hash)
    ensures Holds(after.config, k) <==>
              if k in keys then RightfulOwner(k, ids, hash) == Some(before.id) else Holds(before.config, k)
  {
    hide Key, Holds, HoldsAt, WellFormed, HasSource, RightfulOwner;
  }

  /**
   * Sync ends with exclusive ownership exactly when every group left contested by the claims has a key, and, should
   * no account have an enabled source, when the claims leave none contested. A fallback source whose route is
   * disabled makes an account eligible for claims but leaves reconcile with nobody to give contested groups to.
   */
  lemma SyncExclusiveIff(es: seq<Entry>, fallback: string, refs: seq<string>, hash: string -> nat)
    requires SyncInput(es, fallback) && KeyedStores(refs) && (SomeSourced(es, fallback) || RefsKept(refs))
    ensures Exclusive(Synced(es, fallback, refs, hash)) <==>
              if SomeSourced(es, fallback) then LeftOwnable(es, fallback, refs)
              else forall k :: Contested(es, k) ==> Claims(es, fallback, refs, k)
  {
    hide Key, Shown, Strip, DisplayRef, WellFormed, Holds, HasSource, Eligible, EligibleIds, AfterClaims, Claims,
      Contested, Reconciled, PlainKey, HoldsAfterClaims, Sourceable, SomeSourced, KeyedStores, LeftOwnable, RefsKept;
    var now := AfterClaims(es, fallback, refs, hash);
    AfterClaimsOwnership(es, fallback, refs, hash);
    SomeoneFinalIff(es, fallback, refs, hash);
    if SomeSourced(es, fallback) {
      KeyedAfterClaims(es, fallback, refs, hash);
      ReconcileExclusiveIff(now, Eligible(es, fallback), hash);
    } else {
      forall k ensures Contested(now, k) <==> !Claims(es, fallback, refs, k) && Contested(es, k) {
        KeptReceives(refs, k);
        ContestedAfterClaims(es, fallback, refs, hash, k);
      }
      NothingEligible(now, Eligible(es, fallback), hash);
    }
  }

  lemma PlacedAt(es: seq<Entry>, out: seq<Entry>, fallback: string, refs: seq<string>, hash: string -> nat, k: string)
    requires Eligible(es, fallback) != [] && SyncPlaced(es, out, fallback, refs, hash) && PlainKey(refs, k)
    ensures |out| == |es|
    ensures forall i :: 0 <= i < |es| ==> (Holds(out[i].config, k) <==> PlacedOn(es, i, fallback, refs, k, hash))
  {
    hide Holds, Eligible, PlacedOn, PlainKey;
  }

  /** Who holds one group after sync. */
  lemma SyncHolder(es: seq<Entry>, fallback: string, refs: seq<string>, hash: string -> nat, k: string)
    requires SyncInput(es, fallback)
    requires PlainKey(refs, k)
    ensures |Synced(es, fallback, refs, hash)| == |es|
    ensures forall i :: 0 <= i < |es| ==>
              (Holds(Synced(es, fallback, refs, hash)[i].config, k) <==> PlacedOn(es, i, fallback, refs, k, hash))
  {
    hide SyncInput, SomeSourced, LeftOwnable, Synced, SyncPlaced, PlacedOn, PlainKey, Holds, Eligible;
    SyncOwnership(es, fallback, refs, hash);
    InputEligible(es, fallback);
    PlacedAt(es, Synced(es, fallback, refs, hash), fallback, refs, hash, k);
  }

  lemma InputEligible(es: seq<Entry>, fallback: string)
    requires SyncInput(es, fallback)
    ensures Eligible(es, fallback) != []
  {
  }

  /** The account groups with this key are claimed for has the group already. */
  ghost predicate OwnerHolds(es: seq<Entry>, fallback: string, k: string, hash: string -> nat)
    requires Eligible(es, fallback) != []
  {
    exists i :: 0 <= i < |es| && es[i].id == KeyOwner(k, Eligible(es, fallback), hash) && Holds(es[i].config, k)
  }

  /**
   * Which groups somebody holds after sync: unclaimed ones as before; claimed ones unless the reference they were
   * claimed by is slash-rooted and their hash owner did not have them. Kept references lose nothing.
   */
  lemma SyncConserves(es: seq<Entry>, fallback: string, refs: seq<string>, hash: string -> nat, k: string)
    requires SyncInput(es, fallback)
    requires PlainKey(refs, k)
    ensures Held(Synced(es, fallback, refs, hash), k) <==>
              if Claims(es, fallback, refs, k) then Receives(refs, k) || OwnerHolds(es, fallback, k, hash)
              else Held(es, k)
    ensures RefsKept(refs) ==>
              (Held(Synced(es, fallback, refs, hash), k) <==> Held(es, k) || exists r :: r in refs && Key(r) == Some(k))
  {
    hide Key, SyncInput, Holds, Eligible, Synced, RefsKept, Receives, PlainKey, SomeSourced, LeftOwnable, Claims,
      Contested, OwnerHolds, PlacedOn, Held;
    InputEligible(es, fallback);
    SyncHolder(es, fallback, refs, hash, k);
    var out := Synced(es, fallback, refs, hash);
    PlacedHeld(es, out, fallback, refs, k, hash);
    if RefsKept(refs) {
      KeptReceives(refs, k);
      ClaimsOrHeld(es, fallback, refs, k);
    }
  }

  lemma PlacedHeld(es: seq<Entry>, out: seq<Entry>, fallback: string, refs: seq<string>, k: string, hash: string -> nat)
    requires SyncInput(es, fallback) && PlainKey(refs, k)
    requires |out| == |es|
    requires forall i :: 0 <= i < |es| ==> (Holds(out[i].config, k) <==> PlacedOn(es, i, fallback, refs, k, hash))
    ensures Held(out, k) <==>
              if Claims(es, fallback, refs, k) then Receives(refs, k) || OwnerHolds(es, fallback, k, hash)
              else Held(es, k)
  {
    hide Key, Strip, CleanIds, AllWellFormed, Holds, Eligible, KeyOwner, RightfulOwner, FinalIds, Receives,
      SomeSourced, LeftOwnable, Contested, Claims, Settles, PlainKey;
    if Claims(es, fallback, refs, k) {
      EligibleMembers(es, fallback);
      KeyOwnerMember(k, Eligible(es, fallback), hash);
      ClaimedHeld(es, out, k, KeyOwner(k, Eligible(es, fallback), hash), Receives(refs, k));
    } else if Settles(es, fallback, refs, k, hash) {
      SettlesAre(es, fallback, refs, k, hash);
      OwnerIsAccount(es, fallback, refs, k, hash);
      hide SyncInput;
      ContestedIsHeld(es, k);
      var i :| 0 <= i < |es| && RightfulOwner(k, FinalIds(es, fallback, refs, hash), hash) == Some(es[i].id);
      assert Holds(out[i].config, k);
    } else {
      hide SyncInput;
      assert forall i :: 0 <= i < |es| ==> (Holds(out[i].config, k) <==> Holds(es[i].config, k));
    }
  }

  lemma ClaimedHeld(es: seq<Entry>, out: seq<Entry>, k: string, owner: string, receives: bool)
    requires |out| == |es| && exists i :: 0 <= i < |es| && es[i].id == owner
    requires forall i :: 0 <= i < |es| ==>
               (Holds(out[i].config, k) <==> es[i].id == owner && (Holds(es[i].config, k) || receives))
    ensures Held(out, k) <==> receives || exists i :: 0 <= i < |es| && es[i].id == owner && Holds(es[i].config, k)
  {
    hide Holds;
    var i :| 0 <= i < |es| && es[i].id == owner;
    assert receives ==> Holds(out[i].config, k);
    if j :| 0 <= j < |es| && es[j].id == owner && Holds(es[j].config, k) {
      assert Holds(out[j].config, k);
    }
  }

  /** A catalog group is claimed or held already. */
  lemma ClaimsOrHeld(es: seq<Entry>, fallback: string, refs: seq<string>, k: string)
    ensures (exists r :: r in refs && Key(r) == Some(k)) ==> Claims(es, fallback, refs, k) || Held(es, k)
    ensures Claims(es, fallback, refs, k) ==> exists r :: r in refs && Key(r) == Some(k)
  {
    hide Key, Holds, Eligible, OwnersOf;
    OwnersOfCount(es, k);
  }

  lemma OwnerIsAccount(es: seq<Entry>, fallback: string, refs: seq<string>, k: string, hash: string -> nat)
    requires SyncInput(es, fallback) && RightfulOwner(k, FinalIds(es, fallback, refs, hash), hash).Some?
    ensures exists i :: 0 <= i < |es| && RightfulOwner(k, FinalIds(es, fallback, refs, hash), hash) == Some(es[i].id)
  {
    hide Key, Strip, DisplayRef, AllWellFormed, Eligible, KeyOwner, FinalIds, Sourceable, RightfulOwner;
    var ids := FinalIds(es, fallback, refs, hash);
    RightfulOwnerIsMember(k, ids, hash);
    var a :| a in ids && RightfulOwner(k, ids, hash).value == Strip(a);
    FinalIdsAre(es, fallback, refs, hash, a);
    var i :| 0 <= i < |es| && es[i].id == a && Sourceable(es[i].config, fallback);
    assert Strip(es[i].id) == es[i].id;
  }

  /** A group held by one account alone stays there when that account is eligible, in the catalog or not. */
  lemma SyncSticky(es: seq<Entry>, fallback: string, refs: seq<string>, hash: string -> nat, i: nat, j: nat, k: string)
    requires SyncInput(es, fallback)
    requires PlainKey(refs, k) && i < |es| && j < |es|
    requires Holds(es[i].config, k) && !Contested(es, k) && es[i].id in Eligible(es, fallback)
    ensures |Synced(es, fallback, refs, hash)| == |es|
    ensures Holds(Synced(es, fallback, refs, hash)[j].config, k) <==> j == i
  {
    SettlesAre(es, fallback, refs, k, hash);
    InputEligible(es, fallback);
    SoleSticky(es, Eligible(es, fallback), i, k);
    hide Key, Holds, Eligible, KeyOwner, RightfulOwner, Synced, FinalIds, Receives, PlainKey, SomeSourced, LeftOwnable,
      Settles, Sticky, SyncInput, Contested;
    SyncHolder(es, fallback, refs, hash, k);
    if j != i {
      SoleHolder(es, i, j, k);
    }
  }

  lemma SoleSticky(es: seq<Entry>, eligible: seq<string>, i: nat, k: string)
    requires DistinctIds(es) && i < |es| && Holds(es[i].config, k) && !Contested(es, k) && es[i].id in eligible
    ensures Sticky(es, eligible, k)
  {
    hide Holds, Contested, OwnersOf;
    SoleOwner(es, i, k);
  }

  lemma SoleHolder(es: seq<Entry>, i: nat, j: nat, k: string)
    requires i < |es| && j < |es| && i != j && Holds(es[i].config, k) && !Contested(es, k)
    ensures !Holds(es[j].config, k)
  {
    hide Holds;
    assert i < j || j < i;
  }

  /**
   * A group held by one account alone is lost exactly when that account is not eligible and the first candidate
   * naming the group is slash-rooted.
   */
  lemma SyncLosesIff(es: seq<Entry>, fallback: string, refs: seq<string>, hash: string -> nat, i: nat, k: string)
    requires SyncInput(es, fallback)
    requires PlainKey(refs, k) && i < |es| && Holds(es[i].config, k) && !Contested(es, k)
    ensures !Held(Synced(es, fallback, refs, hash), k) <==>
              && es[i].id !in Eligible(es, fallback)
              && FirstRef(refs, k).Some? && SlashRooted(FirstRef(refs, k).value)
  {
    SettlesAre(es, fallback, refs, k, hash);
    hide Key, Strip, DisplayRef, WellFormed, Holds, Eligible, KeyOwner, Synced, OwnersOf, FirstRef, SlashRooted,
      PlainKey, SomeSourced, LeftOwnable, Settles;
    SyncConserves(es, fallback, refs, hash, k);
    SoleOwner(es, i, k);
    FirstRefFacts(refs, k);
    KeyOwnerMember(k, Eligible(es, fallback), hash);
    assert Held(es, k);
    assert forall j :: 0 <= j < |es| && j != i ==> !Holds(es[j].config, k);
    assert es[i].id !in Eligible(es, fallback) ==> !OwnerHolds(es, fallback, k, hash);
  }

  /**
   * A catalog group nobody held ends on its rightful owner among the eligible accounts, unless the first candidate
   * naming it is slash-rooted: then nobody gets it.
   */
  lemma SyncNewGroup(es: seq<Entry>, fallback: string, refs: seq<string>, hash: string -> nat, ref: string, j: nat)
    requires SyncInput(es, fallback)
    requires ref in refs && Key(ref).Some? && PlainKey(refs, Key(ref).value) && !Held(es, Key(ref).value) && j < |es|
    ensures |Synced(es, fallback, refs, hash)| == |es|
    ensures Holds(Synced(es, fallback, refs, hash)[j].config, Key(ref).value) <==>
              Receives(refs, Key(ref).value) && RightfulOwner(ref, Eligible(es, fallback), hash) == Some(es[j].id)
    ensures RefsKept(refs) ==> Receives(refs, Key(ref).value)
  {
    SettlesAre(es, fallback, refs, Key(ref).value, hash);
    hide Key, Strip, DisplayRef, WellFormed, Holds, Eligible, KeyOwner, RightfulOwner, Synced, OwnersOf, FinalIds,
      Receives, PlainKey, SomeSourced, LeftOwnable, Settles, RefsKept, Contested;
    var k := Key(ref).value;
    SyncHolder(es, fallback, refs, hash, k);
    KeyOwnerIsRightful(es, fallback, ref, hash);
    OwnersOfCount(es, k);
    if RefsKept(refs) {
      KeptReceives(refs, k);
    }
  }

  // ---------------------------------------------------------------- the sync loops

  datatype SyncOutcome =
    | NoChannels                                              // SystemExit: no account has a source
    | Raised(claimed: nat)                                    // ValueError inside reconcile
    | Done(claimed: nat, skipped: nat, report: Report)

  /** Preparing an account in place. */
  method PrepareAccount(account: Account, sources: seq<string>)
    modifies account
    ensures account.config == PrepareConfig(old(account.config), sources)
  {
    hide Migrate, DisplayRef, SortRoutes, Put, DefaultMode, NewRoute;
    var routes := MigrateRoutes(account.config);
    var bySource := PutAll(routes);
    hide PutAll;
    var paused, mode := account.config.paused, DefaultMode(account.config);
    for i := 0 to |sources|
      invariant account.config == old(account.config)
      invariant bySource == AddMissing(PutAll(routes), sources[..i], paused, mode)
    {
      assert sources[..i + 1][..i] == sources[..i];
      if !HasRoute(bySource, sources[i]) {
        bySource := bySource + [NewRoute(sources[i], paused, mode)];
      }
    }
    assert sources[..|sources|] == sources;
    account.config := account.config.(routes := SortRoutes(bySource));
  }

  method PrepareAccounts(accounts: seq<Account>, fallback: string)
    requires DistinctAccounts(accounts)
    modifies accounts
    ensures Snapshot(accounts) == Prepared(old(Snapshot(accounts)), fallback)
  {
    hide Migrate, PrepareConfig, Eligible, SourcesOf;
    ghost var es := Snapshot(accounts);
    var eligible := Eligible(Snapshot(accounts), fallback);
    for a := 0 to |accounts|
      invariant forall i :: 0 <= i < a ==> accounts[i].config == Prepared(es, fallback)[i].config
      invariant forall i :: a <= i < |accounts| ==> accounts[i].config == es[i].config
    {
      if accounts[a].id in eligible {
        PrepareAccount(accounts[a], SourcesOf(accounts[a].config, fallback));
      }
    }
    assert Snapshot(accounts) == Prepared(es, fallback);
  }

  /** Ensuring any keyed group, kept spelling or not, leaves the profile well-formed. */
  lemma EnsureWellFormed(cfg: Config, group: string, preferred: string)
    requires WellFormed(cfg) && Key(group).Some?
    ensures WellFormed(EnsureConfig(cfg, group, preferred))
  {
    if Migrate(cfg) != [] {
      EnsureEffect(cfg, group, preferred);
    }
  }

  lemma ClaimedWellFormed(es: seq<Entry>, owner: string, group: string, preferred: string)
    requires AllWellFormed(es) && Key(group).Some?
    ensures AllWellFormed(Claimed(es, owner, group, preferred))
  {
    hide Key, WellFormed, EnsureConfig, StripConfig, Holds, HoldsAt, Migrate, Mentions;
    forall i | 0 <= i < |es| ensures WellFormed(Claimed(es, owner, group, preferred)[i].config) {
      EnsureWellFormed(es[i].config, group, preferred);
      StripEffect(es[i].config, Key(group).value);
    }
  }

  lemma FirstOwnersMap(es: seq<Entry>, owners: map<string, seq<string>>, order: seq<string>)
    requires OwnersKnown(owners, es) && order == KeyOrder(Placements(es)) && forall k :: k in owners <==> k in order
    ensures forall k :: k in owners ==> owners[k] != []
    ensures FirstOwners(es) == map k | k in owners :: owners[k][0]
  {
    hide Placements, KeyOrder, OwnersOf;
  }

  /** One candidate of the claim loop. */
  method ClaimCandidate(accounts: seq<Account>, ghost es: seq<Entry>, sources: map<string, seq<string>>,
      eligible: seq<string>,
                        fallback: string, ref: string, hash: string -> nat, owned0: map<string, string>,
                            claimed0: nat, skipped0: nat)
    returns (owned: map<string, string>, claimed: nat, skipped: nat)
    requires DistinctAccounts(accounts) && AllWellFormed(Snapshot(accounts)) && eligible != []
    requires forall a :: a in eligible ==> a in sources && sources[a] == SourceFor(es, a, fallback)
    requires forall a, s :: a in eligible && s in sources[a] ==> DisplayRef(s) == s
    modifies accounts
    ensures AllWellFormed(Snapshot(accounts))
    ensures Claiming(Snapshot(accounts), owned, claimed, skipped) ==
              ClaimRef(es, Claiming(old(Snapshot(accounts)), owned0, claimed0, skipped0), eligible, fallback, ref, hash)
  {
    hide Key, DisplayRef, Migrate, WellFormed, Claimed, ClaimChanges, SourceFor, Snapshot;
    owned, claimed, skipped := owned0, claimed0, skipped0;
    if Key(ref).None? {
      return;
    }
    var key := Key(ref).value;
    if key in owned && owned[key] in eligible {
      skipped := skipped + 1;
      return;
    }
    var owner := KeyOwner(key, eligible, hash);
    KeyOwnerMember(key, eligible, hash);
    var options := sources[owner];
    var source := if options == [] then "" else options[hash(key + ":" + owner) % |options|];
    assert source == PickSource(es, key, owner, fallback, hash);
    assert DisplayRef(source) == source by {
      if options == [] { BlankSource(); } else { assert source in options; }
    }
    ClaimedWellFormed(Snapshot(accounts), owner, ref, source);
    var removed, added := ClaimGroup(accounts, owner, ref, source);
    if added || removed > 0 {
      claimed := claimed + 1;
      owned := owned[key := owner];
    }
  }

  lemma BlankSource()
    ensures DisplayRef("") == ""
  {
  }

  /** `sources_by_account` */
  method CollectSources(accounts: seq<Account>, fallback: string) returns (sources: map<string, seq<string>>)
    requires DistinctAccounts(accounts) && (fallback == "" || DisplayRef(fallback) == fallback)
    ensures forall a :: a in Eligible(Snapshot(accounts), fallback) ==>
              a in sources && sources[a] == SourceFor(Snapshot(accounts), a, fallback)
    ensures forall a, s :: a in sources && s in sources[a] ==> DisplayRef(s) == s
  {
    hide DisplayRef, SourcesOf, Eligible;
    sources := map[];
    ghost var es := Snapshot(accounts);
    EligibleMembers(es, fallback);
    for a := 0 to |accounts|
      invariant forall i :: 0 <= i < a ==> es[i].id in sources && sources[es[i].id] == SourcesOf(es[i].config, fallback)
      invariant forall b, s :: b in sources && s in sources[b] ==> DisplayRef(s) == s
    {
      var own := SourcesOf(accounts[a].config, fallback);
      SourcesDisplayed(accounts[a].config, fallback);
      sources := sources[accounts[a].id := own];
    }
    forall i | 0 <= i < |es| ensures SourceFor(es, es[i].id, fallback) == SourcesOf(es[i].config, fallback) {
      SourceForEntry(es, i, fallback);
    }
  }

  lemma {:induction false} SourceForEntry(es: seq<Entry>, i: nat, fallback: string)
    requires DistinctIds(es) && i < |es|
    ensures SourceFor(es, es[i].id, fallback) == SourcesOf(es[i].config, fallback)
  {
    hide SourcesOf;
    if i < |es| - 1 {
      SourceForEntry(es[..|es| - 1], i, fallback);
    }
  }

  lemma SourcesDisplayed(cfg: Config, fallback: string)
    requires fallback == "" || DisplayRef(fallback) == fallback
    ensures forall s :: s in SourcesOf(cfg, fallback) ==> DisplayRef(s) == s
  {
    hide DisplayRef, Normal, Migrate, EnabledSources;
    EnabledSourcesMembers(Migrate(cfg));
    MigrateIsStored(cfg);
    forall s | s in EnabledSources(Migrate(cfg)) ensures DisplayRef(s) == s {
      var r :| r in Migrate(cfg) && r.enabled && r.source == s;
      var i :| 0 <= i < |Migrate(cfg)| && Migrate(cfg)[i] == r;
    }
  }

  /** `sync` on in-memory profiles, for candidate refs in catalog order and a displayed fallback source. */
  method Sync(accounts: seq<Account>, fallback: string, refs: seq<string>,
      hash: string -> nat) returns (outcome: SyncOutcome)
    requires DistinctAccounts(accounts) && AllWellFormed(Snapshot(accounts))
    requires fallback == "" || DisplayRef(fallback) == fallback
    modifies accounts
    ensures var es := old(Snapshot(accounts));
            var eligible := Eligible(es, fallback);
            if eligible == [] then outcome == NoChannels && Snapshot(accounts) == es
            else
              var st := ClaimAll(es, Prepared(es, fallback), eligible, fallback, refs, hash);
              && Snapshot(accounts) == Synced(es, fallback, refs, hash)
              && !outcome.NoChannels? && outcome.claimed == st.claimed
              && (outcome.Done? ==> outcome.skipped == st.skipped)
              && (outcome.Done? <==>
                    FinalIds(es, fallback, refs, hash) == [] ||
                    forall k :: k in Overlaps(st.es) ==>
                        RightfulOwner(k, FinalIds(es, fallback, refs, hash), hash).Some?)
  {
    hide Key, DisplayRef, Migrate, WellFormed, Holds, HasSource, Prepared, Eligible, ClaimRef, Overlaps, EligibleIds,
      Snapshot, Reconciled, OwnersKnown, SourceFor, FirstOwners, RightfulOwner, Placements, KeyOrder;
    ghost var es := Snapshot(accounts);
    var eligible := Eligible(Snapshot(accounts), fallback);
    if eligible == [] {
      return NoChannels;
    }
    var sources := CollectSources(accounts, fallback);
    PrepareAccounts(accounts, fallback);
    PreparedEffect(es, fallback);
    ghost var start := Snapshot(accounts);
    var owners, order := CollectOwners(accounts);
    FirstOwnersMap(start, owners, order);
    var owned := map k | k in owners :: owners[k][0];
    var claimed, skipped := 0, 0;
    assert refs[..0] == [];
    for n := 0 to |refs|
      invariant AllWellFormed(Snapshot(accounts))
      invariant Claiming(Snapshot(accounts), owned, claimed, skipped) ==
                  ClaimAll(es, start, eligible, fallback, refs[..n], hash)
    {
      assert refs[..n + 1][..n] == refs[..n];
      owned, claimed, skipped :=
        ClaimCandidate(accounts, es, sources, eligible, fallback, refs[n], hash, owned, claimed, skipped);
    }
    assert refs[..|refs|] == refs;
    var report := Reconcile(accounts, eligible, hash);
    outcome := if report == None then Raised(claimed) else Done(claimed, skipped, report.value);
  }
}
