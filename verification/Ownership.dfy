/** Which account holds which destination group: strip, ensure and their effect on one profile. */
module Ownership {
  import opened Common
  import opened Refs
  import opened Routes
  import opened TextOrder

  // ---------------------------------------------------------------- what a profile holds

  ghost predicate ListHolds(gs: seq<string>, key: string) {
    exists g :: g in gs && Key(g) == Some(key)
  }

  ghost predicate RoutesHold(rs: seq<Route>, key: string) {
    exists i :: 0 <= i < |rs| && rs[i].source != "" && ListHolds(rs[i].groups, key)
  }

  ghost predicate RoutesHoldAt(rs: seq<Route>, source: string, group: string) {
    exists i :: 0 <= i < |rs| && rs[i].source == source != "" && group in rs[i].groups
  }

  /** A group with this key is on some route of the profile that has a source. */
  ghost predicate Holds(cfg: Config, key: string) {
    RoutesHold(Migrate(cfg), key)
  }

  /** The route of `source` lists exactly this spelling. */
  ghost predicate HoldsAt(cfg: Config, source: string, group: string) {
    RoutesHoldAt(Migrate(cfg), source, group)
  }

  function EnabledSources(rs: seq<Route>): seq<string> {
    if rs == [] then []
    else
      var front := EnabledSources(rs[..|rs| - 1]);
      var r := rs[|rs| - 1];
      if r.enabled && r.source != "" && r.source !in front then front + [r.source] else front
  }

  lemma {:induction false} EnabledSourcesMembers(rs: seq<Route>)
    ensures forall s :: s in EnabledSources(rs) <==> s != "" && exists r :: r in rs && r.enabled && r.source == s
  {
    if rs != [] {
      EnabledSourcesMembers(rs[..|rs| - 1]);
      assert rs == rs[..|rs| - 1] + [rs[|rs| - 1]];
    }
  }

  predicate HasSource(cfg: Config) {
    EnabledSources(Migrate(cfg)) != []
  }

  predicate HasRoute(rs: seq<Route>, source: string) {
    exists i :: 0 <= i < |rs| && rs[i].source == source
  }

  /** The sources of a profile and whether each is on. */
  ghost function Switches(rs: seq<Route>): set<(string, bool)> {
    set r | r in rs :: (r.source, r.enabled)
  }

  lemma SameSwitches(a: seq<Route>, b: seq<Route>)
    requires Switches(a) == Switches(b)
    ensures forall s :: HasRoute(a, s) == HasRoute(b, s)
    ensures forall s :: s in EnabledSources(a) <==> s in EnabledSources(b)
  {
    EnabledSourcesMembers(a);
    EnabledSourcesMembers(b);
    hide EnabledSources;
    forall s ensures HasRoute(a, s) == HasRoute(b, s) {
      RouteSwitches(a, s);
      RouteSwitches(b, s);
    }
    forall s ensures s in EnabledSources(a) <==> s in EnabledSources(b) {
      OnSwitches(a, s);
      OnSwitches(b, s);
    }
  }

  lemma RouteSwitches(rs: seq<Route>, s: string)
    ensures HasRoute(rs, s) <==> (s, true) in Switches(rs) || (s, false) in Switches(rs)
  {
    if i :| 0 <= i < |rs| && rs[i].source == s {
      assert rs[i] in rs;
    }
  }

  lemma OnSwitches(rs: seq<Route>, s: string)
    ensures (exists r :: r in rs && r.enabled && r.source == s) <==> (s, true) in Switches(rs)
  {
    if r :| r in rs && r.enabled && r.source == s {
      assert (r.source, r.enabled) in Switches(rs);
    }
  }

  /** An enabled route that is not paused lists the group: new posts of its source are queued for it. */
  ghost predicate Serves(cfg: Config, key: string) {
    exists i :: 0 <= i < |Migrate(cfg)| && ServedBy(Migrate(cfg)[i], key)
  }

  ghost predicate ServedBy(r: Route, key: string) {
    r.enabled && !r.paused && r.source != "" && ListHolds(r.groups, key)
  }

  /** Serving a group is holding it, and having an enabled source. */
  lemma ServesHolds(cfg: Config, key: string)
    requires Serves(cfg, key)
    ensures Holds(cfg, key) && HasSource(cfg)
  {
    hide Migrate, ListHolds;
    var rs := Migrate(cfg);
    var i :| 0 <= i < |rs| && ServedBy(rs[i], key);
    EnabledSourcesMembers(rs);
    assert rs[i] in rs;
    assert rs[i].source in EnabledSources(rs);
  }

  ghost predicate DistinctSources(rs: seq<Route>) {
    forall i, j :: 0 <= i < j < |rs| ==> rs[i].source != rs[j].source
  }

  ghost predicate Sourced(rs: seq<Route>) {
    forall i :: 0 <= i < |rs| ==> rs[i].source != ""
  }

  /** Route sources are non-blank and distinct within the profile. */
  ghost predicate WellFormed(cfg: Config) {
    Sourced(Migrate(cfg)) && DistinctSources(Migrate(cfg))
  }

  // ---------------------------------------------------------------- strip_group_from_profile

  function Without(gs: seq<string>, key: string): seq<string> {
    if gs == [] then []
    else
      var front := Without(gs[..|gs| - 1], key);
      if Key(gs[|gs| - 1]) == Some(key) then front else front + [gs[|gs| - 1]]
  }

  lemma {:induction false} WithoutMembers(gs: seq<string>, key: string)
    ensures forall g :: g in Without(gs, key) <==> g in gs && Key(g) != Some(key)
  {
    hide Key;
    if gs != [] {
      assert gs == gs[..|gs| - 1] + [gs[|gs| - 1]];
      WithoutMembers(gs[..|gs| - 1], key);
    }
  }

  lemma {:induction false} WithoutChanges(gs: seq<string>, key: string)
    ensures |Without(gs, key)| <= |gs|
    ensures ListHolds(gs, key) <==> Without(gs, key) != gs
    ensures ListHolds(gs, key) <==> |Without(gs, key)| < |gs|
  {
    hide Key;
    if gs != [] {
      var front, last := gs[..|gs| - 1], gs[|gs| - 1];
      assert gs == front + [last];
      WithoutChanges(front, key);
    }
  }

  lemma {:induction false} WithoutNormal(gs: seq<string>, key: string)
    requires Normal(gs)
    ensures Normal(Without(gs, key))
  {
    hide Key, Shown;
    if gs != [] {
      var front, last := gs[..|gs| - 1], gs[|gs| - 1];
      WithoutNormal(front, key);
      WithoutMembers(front, key);
      assert last !in front;
    }
  }

  function StripRoute(r: Route, key: string): Route {
    r.(groups := Without(r.groups, key))
  }

  function StripRoutes(rs: seq<Route>, key: string): seq<Route> {
    seq(|rs|, i requires 0 <= i < |rs| => StripRoute(rs[i], key))
  }

  predicate Mentions(rs: seq<Route>, key: string) {
    exists i :: 0 <= i < |rs| && Without(rs[i].groups, key) != rs[i].groups
  }

  function StripConfig(cfg: Config, key: string): Config {
    var rs := Migrate(cfg);
    if Mentions(rs, key) then cfg.(routes := StripRoutes(rs, key)) else cfg
  }

  /** Reading back a stripped profile gives its routes without the group. */
  lemma StripReadBack(cfg: Config, key: string)
    requires WellFormed(cfg)
    ensures SameRoutes(Migrate(StripConfig(cfg, key)), StripRoutes(Migrate(cfg), key))
  {
    hide Key, Shown, DisplayRef;
    var rs := Migrate(cfg);
    if Mentions(rs, key) {
      MigrateIsStored(cfg);
      forall i | 0 <= i < |rs| ensures Normal(StripRoutes(rs, key)[i].groups) {
        WithoutNormal(rs[i].groups, key);
      }
      MigrateStored(cfg, StripRoutes(rs, key));
    }
  }

  /** Routes keep their places, sources and switches. */
  ghost predicate SameShape(a: seq<Route>, b: seq<Route>) {
    |a| == |b| && forall i :: 0 <= i < |a| ==> a[i].source == b[i].source && a[i].enabled == b[i].enabled
  }

  lemma {:induction false} SameShapeEnabled(a: seq<Route>, b: seq<Route>)
    requires SameShape(a, b)
    ensures EnabledSources(a) == EnabledSources(b)
    ensures Switches(a) == Switches(b)
  {
    if a != [] {
      var n := |a| - 1;
      SameShapeEnabled(a[..n], b[..n]);
    }
    ShapeSwitches(a, b);
    ShapeSwitches(b, a);
  }

  lemma ShapeSwitches(a: seq<Route>, b: seq<Route>)
    requires SameShape(a, b)
    ensures Switches(a) <= Switches(b)
  {
    forall x | x in Switches(a) ensures x in Switches(b) {
      var i :| 0 <= i < |a| && (a[i].source, a[i].enabled) == x;
      assert b[i] in b;
    }
  }

  /** Stripping a group removes exactly its spellings from the profile and keeps every source. */
  lemma StripEffect(cfg: Config, key: string)
    requires WellFormed(cfg)
    ensures var after := StripConfig(cfg, key);
            && WellFormed(after)
            && EnabledSources(Migrate(after)) == EnabledSources(Migrate(cfg))
            && Switches(Migrate(after)) == Switches(Migrate(cfg))
            && (forall k :: Holds(after, k) <==> k != key && Holds(cfg, k))
            && (forall s, g :: HoldsAt(after, s, g) <==> HoldsAt(cfg, s, g) && Key(g) != Some(key))
    ensures Mentions(Migrate(cfg), key) <==> Holds(cfg, key)
  {
    hide Key, Shown, DisplayRef, StripConfig;
    var after := StripConfig(cfg, key);
    var rs, back := Migrate(cfg), Migrate(after);
    StripReadBack(cfg, key);
    hide Migrate;
    SameShapeEnabled(back, rs);
    assert forall i {:trigger rs[i]} {:trigger back[i]} :: 0 <= i < |rs| ==>
        back[i].source == rs[i].source && back[i].groups == Without(rs[i].groups, key);
    hide SameShape, SameRoutes, Without, EnabledSources;
    StrippedHold(rs, back, key);
  }

  /** Routes that lost the spellings of one key hold everything else they held. */
  lemma StrippedHold(rs: seq<Route>, back: seq<Route>, key: string)
    requires |back| == |rs| && forall i :: 0 <= i < |rs| ==>
      back[i].source == rs[i].source && back[i].groups == Without(rs[i].groups, key)
    ensures Sourced(rs) ==> Sourced(back)
    ensures DistinctSources(rs) ==> DistinctSources(back)
    ensures forall k :: RoutesHold(back, k) <==> k != key && RoutesHold(rs, k)
    ensures forall s, g :: RoutesHoldAt(back, s, g) <==> RoutesHoldAt(rs, s, g) && Key(g) != Some(key)
    ensures Sourced(rs) ==> (Mentions(rs, key) <==> RoutesHold(rs, key))
  {
    hide Key;
    forall i | 0 <= i < |rs|
      ensures forall g :: g in back[i].groups <==> g in rs[i].groups && Key(g) != Some(key)
      ensures Without(rs[i].groups, key) != rs[i].groups <==> ListHolds(rs[i].groups, key)
    {
      WithoutMembers(rs[i].groups, key);
      WithoutChanges(rs[i].groups, key);
    }
    hide Without;
    forall k ensures RoutesHold(back, k) <==> k != key && RoutesHold(rs, k) {
      forall i | 0 <= i < |rs| ensures ListHolds(back[i].groups, k) <==> k != key && ListHolds(rs[i].groups, k) {}
    }
  }

  // ---------------------------------------------------------------- ensure_group_on_profile

  /** Index of the first route the group may go to: preferred source, else first enabled, else first. */
  function FirstWithSource(rs: seq<Route>, source: string): (n: nat)
    ensures n <= |rs|
    ensures n < |rs| ==> rs[n].source == source
  {
    if rs == [] || rs[0].source == source then 0 else 1 + FirstWithSource(rs[1..], source)
  }

  function FirstEnabled(rs: seq<Route>): (n: nat)
    ensures n <= |rs|
    ensures n < |rs| ==> rs[n].enabled
  {
    if rs == [] || rs[0].enabled then 0 else 1 + FirstEnabled(rs[1..])
  }

  function TargetIndex(rs: seq<Route>, preferred: string): (n: nat)
    requires rs != []
    ensures n < |rs|
  {
    if preferred != "" && FirstWithSource(rs, preferred) < |rs| then FirstWithSource(rs, preferred)
    else if FirstEnabled(rs) < |rs| then FirstEnabled(rs)
    else 0
  }

  /** The first route that is on. */
  ghost predicate IsFirstOn(rs: seq<Route>, n: nat) {
    n < |rs| && rs[n].enabled && forall j :: 0 <= j < n ==> !rs[j].enabled
  }

  /**
   * Where a group with this preference goes: under the preferred source when a route has it, else under that of the
   * first route that is on, else under that of the first route.
   */
  ghost predicate GoesUnder(rs: seq<Route>, preferred: string, s: string) {
    if preferred != "" && HasRoute(rs, preferred) then s == preferred
    else if exists n: nat :: IsFirstOn(rs, n) then exists n: nat :: IsFirstOn(rs, n) && rs[n].source == s
    else rs != [] && rs[0].source == s
  }

  lemma {:induction false} FirstWithSourceFacts(rs: seq<Route>, source: string)
    ensures FirstWithSource(rs, source) < |rs| <==> HasRoute(rs, source)
  {
    if rs != [] && rs[0].source != source {
      FirstWithSourceFacts(rs[1..], source);
      if i :| 0 <= i < |rs| && rs[i].source == source {
        assert rs[1..][i - 1] == rs[i];
      }
    }
  }

  lemma {:induction false} FirstEnabledFacts(rs: seq<Route>, n: nat)
    ensures IsFirstOn(rs, n) <==> n == FirstEnabled(rs) < |rs|
  {
    if rs != [] && !rs[0].enabled {
      if n > 0 {
        FirstEnabledFacts(rs[1..], n - 1);
        assert forall j :: 0 < j < |rs| ==> rs[j] == rs[1..][j - 1];
      }
    } else if IsFirstOn(rs, n) {
      assert n == 0;
    }
  }

  /** The target is the one route of that source. */
  lemma TargetGoes(rs: seq<Route>, preferred: string, s: string)
    requires rs != []
    ensures GoesUnder(rs, preferred, s) <==> s == rs[TargetIndex(rs, preferred)].source
  {
    FirstWithSourceFacts(rs, preferred);
    forall n: nat ensures IsFirstOn(rs, n) <==> n == FirstEnabled(rs) < |rs| {
      FirstEnabledFacts(rs, n);
    }
    hide FirstWithSource, FirstEnabled, IsFirstOn;
    assert FirstEnabled(rs) < |rs| ==> IsFirstOn(rs, FirstEnabled(rs));
  }

  /** `by_src[route.source] = route` on an insertion-ordered dict. */
  function Put(d: seq<Route>, r: Route): seq<Route> {
    if d == [] then [r]
    else if d[0].source == r.source then [r] + d[1..]
    else [d[0]] + Put(d[1..], r)
  }

  function PutAll(rs: seq<Route>): seq<Route> {
    if rs == [] then []
    else
      var front := PutAll(rs[..|rs| - 1]);
      var r := rs[|rs| - 1];
      if r.source == "" then front else Put(front, r)
  }

  lemma {:induction false} PutFresh(d: seq<Route>, r: Route)
    requires forall i :: 0 <= i < |d| ==> d[i].source != r.source
    ensures Put(d, r) == d + [r]
  {
    if d != [] { PutFresh(d[1..], r); }
  }

  lemma {:induction false} PutSame(d: seq<Route>, n: nat)
    requires DistinctSources(d) && n < |d|
    ensures Put(d, d[n]) == d
  {
    if n > 0 { PutSame(d[1..], n - 1); }
  }

  /** With distinct, non-blank sources the dict holds every route in order. */
  lemma {:induction false} PutAllDistinct(rs: seq<Route>)
    requires DistinctSources(rs) && Sourced(rs)
    ensures PutAll(rs) == rs
  {
    if rs != [] {
      var front := rs[..|rs| - 1];
      PutAllDistinct(front);
      PutFresh(front, rs[|rs| - 1]);
      assert rs == front + [rs[|rs| - 1]];
    }
  }

  /** The dict holds the last route of each source, and none without a source. */
  lemma {:induction false} PutAllHolds(rs: seq<Route>)
    ensures Sourced(PutAll(rs)) && DistinctSources(PutAll(rs))
    ensures forall r :: r in PutAll(rs) <==> exists i :: IsLastOf(rs, i) && rs[i] == r
  {
    if rs != [] {
      var front, r := rs[..|rs| - 1], rs[|rs| - 1];
      PutAllHolds(front);
      if r.source != "" {
        PutHolds(PutAll(front), r);
      }
      LastOfGrows(rs);
    }
  }

  ghost predicate IsLastOf(rs: seq<Route>, i: int) {
    && 0 <= i < |rs| && rs[i].source != ""
    && forall j :: i < j < |rs| ==> rs[j].source != rs[i].source
  }

  lemma LastOfGrows(rs: seq<Route>)
    requires rs != []
    ensures var front, r := rs[..|rs| - 1], rs[|rs| - 1];
            forall x :: (exists i :: IsLastOf(rs, i) && rs[i] == x) <==>
              (x == r && r.source != "")
              || (x.source != r.source && exists i :: IsLastOf(front, i) && front[i] == x)
  {
    var n := |rs| - 1;
    var front := rs[..n];
    assert IsLastOf(rs, n) <==> rs[n].source != "";
    forall i | 0 <= i < n ensures IsLastOf(rs, i) <==> IsLastOf(front, i) && rs[i].source != rs[n].source {
    }
  }

  lemma {:induction false} PutHolds(d: seq<Route>, r: Route)
    requires DistinctSources(d) && Sourced(d) && r.source != ""
    ensures DistinctSources(Put(d, r)) && Sourced(Put(d, r))
    ensures forall x :: x in Put(d, r) <==> x == r || (x in d && x.source != r.source)
  {
    if d != [] && d[0].source != r.source {
      PutHolds(d[1..], r);
      var rest := Put(d[1..], r);
      assert Put(d, r) == [d[0]] + rest && d == [d[0]] + d[1..];
      forall j | 0 <= j < |rest| ensures rest[j].source != d[0].source {
        assert rest[j] in rest;
      }
    } else if d != [] {
      assert d == [d[0]] + d[1..];
    }
  }

  /** Insertion that keeps equal sources in arrival order, as Python's stable sort does. */
  function InsertRoute(sorted: seq<Route>, r: Route): seq<Route> {
    if sorted == [] then [r]
    else if Le(sorted[0].source, r.source) then [sorted[0]] + InsertRoute(sorted[1..], r)
    else [r] + sorted
  }

  /** `sorted(routes, key=source)`. */
  function SortRoutes(rs: seq<Route>): seq<Route> {
    if rs == [] then [] else InsertRoute(SortRoutes(rs[..|rs| - 1]), rs[|rs| - 1])
  }

  /** Routes in order of their sources. */
  ghost predicate BySource(rs: seq<Route>) {
    forall i, j :: 0 <= i < j < |rs| ==> Le(rs[i].source, rs[j].source)
  }

  lemma {:induction false} InsertRouteSorted(sorted: seq<Route>, r: Route)
    requires BySource(sorted)
    ensures BySource(InsertRoute(sorted, r))
  {
    hide Le;
    if sorted != [] {
      LeTotal(sorted[0].source, r.source);
      if Le(sorted[0].source, r.source) {
        InsertRouteSorted(sorted[1..], r);
        InsertRouteFacts(sorted[1..], r);
        var rest := InsertRoute(sorted[1..], r);
        forall j | 0 <= j < |rest| ensures Le(sorted[0].source, rest[j].source) {
          assert rest[j] in rest;
        }
      } else {
        forall j | 0 <= j < |sorted| ensures Le(r.source, sorted[j].source) {
          if j > 0 {
            LeTransitive(r.source, sorted[0].source, sorted[j].source);
          }
        }
      }
    }
  }

  lemma {:induction false} SortRoutesSorted(rs: seq<Route>)
    ensures BySource(SortRoutes(rs))
  {
    if rs != [] {
      SortRoutesSorted(rs[..|rs| - 1]);
      InsertRouteSorted(SortRoutes(rs[..|rs| - 1]), rs[|rs| - 1]);
    }
  }

  lemma {:induction false} InsertRouteFacts(sorted: seq<Route>, r: Route)
    ensures |InsertRoute(sorted, r)| == |sorted| + 1
    ensures forall x :: x in InsertRoute(sorted, r) <==> x == r || x in sorted
    ensures DistinctSources(sorted) && (forall x :: x in sorted ==> x.source != r.source) ==>
              DistinctSources(InsertRoute(sorted, r))
  {
    if sorted != [] && Le(sorted[0].source, r.source) {
      var rest := InsertRoute(sorted[1..], r);
      InsertRouteFacts(sorted[1..], r);
      assert InsertRoute(sorted, r) == [sorted[0]] + rest;
      assert sorted == [sorted[0]] + sorted[1..];
      if DistinctSources(sorted) && (forall x :: x in sorted ==> x.source != r.source) {
        forall j | 0 <= j < |rest| ensures sorted[0].source != rest[j].source {
          assert rest[j] in rest;
        }
      }
    }
  }

  lemma {:induction false} SortRoutesFacts(rs: seq<Route>)
    ensures |SortRoutes(rs)| == |rs|
    ensures forall x :: x in SortRoutes(rs) <==> x in rs
    ensures DistinctSources(rs) ==> DistinctSources(SortRoutes(rs))
  {
    if rs != [] {
      var front, last := rs[..|rs| - 1], rs[|rs| - 1];
      assert rs == front + [last];
      SortRoutesFacts(front);
      InsertRouteFacts(SortRoutes(front), last);
      if DistinctSources(rs) {
        forall x | x in SortRoutes(front) ensures x.source != last.source {
          assert x in front;
        }
      }
    }
  }

  /** The list written by ensure, before it is rebuilt by source. */
  function Appended(rs: seq<Route>, n: nat, group: string): seq<Route>
    requires n < |rs|
  {
    rs[n := rs[n].(groups := rs[n].groups + [group])]
  }

  function EnsureRoutes(rs: seq<Route>, group: string, preferred: string): seq<Route>
    requires rs != []
  {
    var n := TargetIndex(rs, preferred);
    var written := Appended(rs, n, group);
    var bySource := PutAll(written);
    SortRoutes(if written[n].source == "" then bySource else Put(bySource, written[n]))
  }

  /** The group is not yet on the route `ensure_group_on_profile` would use. */
  predicate Missing(rs: seq<Route>, group: string, preferred: string)
    requires rs != [] && Key(group).Some?
  {
    var n := TargetIndex(rs, preferred);
    Without(rs[n].groups, Key(group).value) == rs[n].groups
  }

  /** `ensure_group_on_profile`; the group has a key, as the source raises otherwise. */
  function EnsureConfig(cfg: Config, group: string, preferred: string): Config
    requires Key(group).Some?
  {
    var rs := Migrate(cfg);
    if rs != [] && Missing(rs, group, preferred) then cfg.(routes := EnsureRoutes(rs, group, preferred)) else cfg
  }

  /** With distinct, non-blank sources nothing but the order of the written list changes. */
  lemma EnsureRoutesFacts(rs: seq<Route>, group: string, preferred: string)
    requires rs != [] && Sourced(rs) && DistinctSources(rs)
    ensures var written := Appended(rs, TargetIndex(rs, preferred), group);
            var out := EnsureRoutes(rs, group, preferred);
            && |out| == |rs| && Sourced(out) && DistinctSources(out)
            && forall x :: x in out <==> x in written
  {
    var n := TargetIndex(rs, preferred);
    var written := Appended(rs, n, group);
    PutAllDistinct(written);
    PutSame(written, n);
    SortRoutesFacts(written);
    var out := EnsureRoutes(rs, group, preferred);
    forall i | 0 <= i < |out| ensures out[i].source != "" {
      assert out[i] in out;
    }
  }

  // ---------------------------------------------------------------- what ensure's write reads back as

  /** Written routes as they read back: group lists normalised. */
  function Reread(rs: seq<Route>): seq<Route> {
    seq(|rs|, i requires 0 <= i < |rs| => rs[i].(groups := Normalized(rs[i].groups)))
  }

  ghost predicate SameMembers(a: seq<Route>, b: seq<Route>) {
    forall x :: x in a <==> x in b
  }

  lemma RereadMembers(a: seq<Route>, b: seq<Route>)
    requires SameMembers(a, b)
    ensures SameMembers(Reread(a), Reread(b))
  {
    hide Normalized;
    forall x | x in Reread(a) ensures x in Reread(b) { RereadMember(a, b, x); }
    forall x | x in Reread(b) ensures x in Reread(a) { RereadMember(b, a, x); }
  }

  lemma RereadMember(a: seq<Route>, b: seq<Route>, x: Route)
    requires x in Reread(a) && forall y :: y in a ==> y in b
    ensures x in Reread(b)
  {
    hide Normalized;
    var i :| 0 <= i < |a| && Reread(a)[i] == x;
    assert a[i] in a;
    var j :| 0 <= j < |b| && b[j] == a[i];
    assert Reread(b)[j] == x;
  }

  lemma SameMembersHold(a: seq<Route>, b: seq<Route>, s: string, g: string)
    requires SameMembers(a, b)
    ensures RoutesHoldAt(a, s, g) == RoutesHoldAt(b, s, g)
    ensures s in EnabledSources(a) <==> s in EnabledSources(b)
    ensures Switches(a) == Switches(b)
  {
    EnabledSourcesMembers(a);
    EnabledSourcesMembers(b);
    if RoutesHoldAt(a, s, g) {
      var i :| 0 <= i < |a| && a[i].source == s != "" && g in a[i].groups;
      assert a[i] in b;
    }
    if RoutesHoldAt(b, s, g) {
      var i :| 0 <= i < |b| && b[i].source == s != "" && g in b[i].groups;
      assert b[i] in a;
    }
  }

  /** The target route of the group, holding its stored spelling as well. */
  function WithGroup(rs: seq<Route>, n: nat, group: string): seq<Route>
    requires n < |rs|
  {
    if Shown(group) in rs[n].groups then rs else rs[n := rs[n].(groups := rs[n].groups + [Shown(group)])]
  }

  lemma RereadAppended(rs: seq<Route>, n: nat, group: string)
    requires n < |rs| && Stored(rs) && Shown(group) != ""
    ensures Reread(Appended(rs, n, group)) == WithGroup(rs, n, group)
  {
    hide Shown, DisplayRef, Normalized;
    NormalAppend(rs[n].groups, group);
    forall j | 0 <= j < |rs| ensures Reread(Appended(rs, n, group))[j] == WithGroup(rs, n, group)[j] {
      NormalIsFixed(rs[j].groups);
    }
  }

  lemma WithGroupHolds(rs: seq<Route>, n: nat, group: string, s: string, g: string)
    requires n < |rs| && Sourced(rs)
    ensures RoutesHoldAt(WithGroup(rs, n, group), s, g) <==>
              RoutesHoldAt(rs, s, g) || (s == rs[n].source && g == Shown(group))
  {
    hide Shown;
    var w := WithGroup(rs, n, group);
    assert forall i :: 0 <= i < |rs| ==> w[i].source == rs[i].source;
    assert forall i :: 0 <= i < |rs| ==> (g in w[i].groups <==> g in rs[i].groups || (i == n && g == Shown(group)));
    hide WithGroup;
    if RoutesHoldAt(w, s, g) {
      var i :| 0 <= i < |w| && w[i].source == s != "" && g in w[i].groups;
    }
    if RoutesHoldAt(rs, s, g) {
      var i :| 0 <= i < |rs| && rs[i].source == s != "" && g in rs[i].groups;
      assert w[i].source == s && g in w[i].groups;
    }
    if s == rs[n].source && g == Shown(group) {
      assert w[n].source == s && g in w[n].groups;
    }
  }

  lemma WithGroupEnabled(rs: seq<Route>, n: nat, group: string)
    requires n < |rs|
    ensures EnabledSources(WithGroup(rs, n, group)) == EnabledSources(rs)
    ensures Switches(WithGroup(rs, n, group)) == Switches(rs)
  {
    hide Shown, EnabledSources, Switches;
    SameShapeEnabled(WithGroup(rs, n, group), rs);
  }

  lemma EnsureRoutesDisplayed(rs: seq<Route>, group: string, preferred: string)
    requires rs != [] && Sourced(rs) && DistinctSources(rs) && Stored(rs)
    ensures var out := EnsureRoutes(rs, group, preferred);
            forall i :: 0 <= i < |out| ==> DisplayRef(out[i].source) == out[i].source
  {
    hide DisplayRef, Normal, EnsureRoutes, TargetIndex;
    EnsureRoutesFacts(rs, group, preferred);
    var out := EnsureRoutes(rs, group, preferred);
    forall i | 0 <= i < |out| ensures DisplayRef(out[i].source) == out[i].source {
      assert out[i] in out;
      assert out[i] in Appended(rs, TargetIndex(rs, preferred), group);
    }
  }

  /** Reading back an ensured profile gives its routes with the group added, in source order. */
  lemma EnsureReadBack(cfg: Config, group: string, preferred: string)
    requires WellFormed(cfg) && Migrate(cfg) != []
    requires Key(group).Some? && Missing(Migrate(cfg), group, preferred)
    ensures var rs := Migrate(cfg);
            var back := Migrate(EnsureConfig(cfg, group, preferred));
            var out := EnsureRoutes(rs, group, preferred);
            && SameRoutes(back, Reread(out)) && Sourced(out) && DistinctSources(out) && BySource(back)
            && SameMembers(Reread(out), WithGroup(rs, TargetIndex(rs, preferred), group))
  {
    var rs := Migrate(cfg);
    var n := TargetIndex(rs, preferred);
    var out := EnsureRoutes(rs, group, preferred);
    KeyedShown(group);
    hide Key, Shown, DisplayRef, Normal, Normalized, Migrate, EnsureRoutes, TargetIndex, WithGroup, Appended, Stored,
      Missing, SameMembers;
    MigrateIsStored(cfg);
    EnsureWritten(cfg, rs, group, preferred);
    RereadMembers(out, Appended(rs, n, group));
    RereadAppended(rs, n, group);
    BackInOrder(Migrate(EnsureConfig(cfg, group, preferred)), rs, group, preferred);
    SameMembersEqual(Reread(out), Reread(Appended(rs, n, group)), WithGroup(rs, n, group));
  }

  lemma BackInOrder(back: seq<Route>, rs: seq<Route>, group: string, preferred: string)
    requires rs != [] && SameRoutes(back, Reread(EnsureRoutes(rs, group, preferred)))
    ensures BySource(back)
  {
    hide TargetIndex, PutAll, Put, SortRoutes, Le, Normalized;
    var n := TargetIndex(rs, preferred);
    var written := Appended(rs, n, group);
    SortRoutesSorted(if written[n].source == "" then PutAll(written) else Put(PutAll(written), written[n]));
    RereadSources(EnsureRoutes(rs, group, preferred));
  }

  lemma SameMembersEqual(a: seq<Route>, b: seq<Route>, c: seq<Route>)
    requires SameMembers(a, b) && b == c
    ensures SameMembers(a, c)
  {
  }

  /** Reading back the list ensure writes. */
  lemma EnsureWritten(cfg: Config, rs: seq<Route>, group: string, preferred: string)
    requires rs != [] && Sourced(rs) && DistinctSources(rs) && Stored(rs)
    ensures var out := EnsureRoutes(rs, group, preferred);
            && SameRoutes(Migrate(cfg.(routes := out)), Reread(out)) && Sourced(out) && DistinctSources(out)
            && SameMembers(out, Appended(rs, TargetIndex(rs, preferred), group))
  {
    hide DisplayRef, Normal, Normalized, Migrate, EnsureRoutes, TargetIndex, Appended, Stored;
    EnsureRoutesFacts(rs, group, preferred);
    EnsureRoutesDisplayed(rs, group, preferred);
    MigrateWritten(cfg, EnsureRoutes(rs, group, preferred));
  }

  lemma SameRoutesHold(a: seq<Route>, b: seq<Route>, s: string, g: string)
    requires SameRoutes(a, b)
    ensures RoutesHoldAt(a, s, g) == RoutesHoldAt(b, s, g)
    ensures EnabledSources(a) == EnabledSources(b) && Switches(a) == Switches(b)
  {
    SameShapeEnabled(a, b);
    if RoutesHoldAt(a, s, g) {
      var i :| 0 <= i < |a| && a[i].source == s != "" && g in a[i].groups;
      assert b[i].source == s && g in b[i].groups;
    }
    if RoutesHoldAt(b, s, g) {
      var i :| 0 <= i < |b| && b[i].source == s != "" && g in b[i].groups;
      assert a[i].source == s && g in a[i].groups;
    }
  }

  lemma ReadBackHolds(back: seq<Route>, out: seq<Route>, rs: seq<Route>, n: nat, group: string, s: string, g: string)
    requires n < |rs| && Sourced(rs)
    requires SameRoutes(back, Reread(out)) && SameMembers(Reread(out), WithGroup(rs, n, group))
    ensures RoutesHoldAt(back, s, g) <==> RoutesHoldAt(rs, s, g) || (s == rs[n].source && g == Shown(group))
    ensures s in EnabledSources(back) <==> s in EnabledSources(rs)
    ensures Switches(back) == Switches(rs)
  {
    hide Switches, Shown, Reread, WithGroup, RoutesHoldAt, SameRoutes, SameMembers;
    SameRoutesHold(back, Reread(out), s, g);
    SameMembersHold(Reread(out), WithGroup(rs, n, group), s, g);
    WithGroupHolds(rs, n, group, s, g);
    WithGroupEnabled(rs, n, group);
  }

  /** A key is held through some spelling at some source. */
  lemma HoldsThrough(rs: seq<Route>, k: string)
    ensures RoutesHold(rs, k) <==> exists s, g :: RoutesHoldAt(rs, s, g) && Key(g) == Some(k)
  {
    hide Key;
    if RoutesHold(rs, k) {
      var i :| 0 <= i < |rs| && rs[i].source != "" && ListHolds(rs[i].groups, k);
      var g :| g in rs[i].groups && Key(g) == Some(k);
      assert RoutesHoldAt(rs, rs[i].source, g);
    }
  }

  /** Ensuring a group adds exactly its stored spelling, hence the key of that spelling, and keeps every source. */
  lemma EnsureEffect(cfg: Config, group: string, preferred: string)
    requires WellFormed(cfg) && Migrate(cfg) != [] && Key(group).Some?
    ensures var after := EnsureConfig(cfg, group, preferred);
            var rs := Migrate(cfg);
            && WellFormed(after)
            && (forall s :: s in EnabledSources(Migrate(after)) <==> s in EnabledSources(rs))
            && Switches(Migrate(after)) == Switches(rs)
            && (forall s, g :: HoldsAt(after, s, g) <==>
                  HoldsAt(cfg, s, g)
                  || (Missing(rs, group, preferred) && s == rs[TargetIndex(rs, preferred)].source && g == Shown(group)))
            && (forall k :: Holds(after, k) <==>
                  Holds(cfg, k) || (Missing(rs, group, preferred) && Key(Shown(group)) == Some(k)))
            && Migrate(after) != []
  {
    var rs := Migrate(cfg);
    if Missing(rs, group, preferred) {
      EnsureAdds(cfg, group, preferred);
    } else {
      hide Key, Shown, DisplayRef, Migrate, TargetIndex;
    }
  }

  /** Some spelling of the group is on the route of this source. */
  ghost predicate KeyAt(cfg: Config, source: string, key: string) {
    exists g :: HoldsAt(cfg, source, g) && Key(g) == Some(key)
  }

  /** The target lacks the group exactly when no spelling of it is there. */
  lemma MissingIff(rs: seq<Route>, group: string, preferred: string)
    requires rs != [] && Sourced(rs) && DistinctSources(rs) && Key(group).Some?
    ensures Missing(rs, group, preferred) <==>
              forall g :: RoutesHoldAt(rs, rs[TargetIndex(rs, preferred)].source, g) ==> Key(g) != Key(group)
  {
    hide Key, TargetIndex;
    var n := TargetIndex(rs, preferred);
    WithoutChanges(rs[n].groups, Key(group).value);
    hide Without;
    forall g ensures RoutesHoldAt(rs, rs[n].source, g) <==> g in rs[n].groups {
      if i :| 0 <= i < |rs| && rs[i].source == rs[n].source && g in rs[i].groups {
        assert i == n;
      }
    }
  }

  /**
   * Main result on ensuring a group: it is added, in its stored spelling, under the preferred source when a route has
   * it, else under that of the first enabled route, else of the first route, unless that route lists it already.
   */
  lemma EnsurePlaces(cfg: Config, group: string, preferred: string, source: string)
    requires WellFormed(cfg) && Migrate(cfg) != [] && Key(group).Some?
    requires GoesUnder(Migrate(cfg), preferred, source)
    ensures forall s, g :: HoldsAt(EnsureConfig(cfg, group, preferred), s, g) <==>
              HoldsAt(cfg, s, g) || (s == source && g == Shown(group) && !KeyAt(cfg, source, Key(group).value))
  {
    hide Key, Shown, Migrate, GoesUnder, Holds, RoutesHoldAt, EnsureConfig, TargetIndex, Missing, EnabledSources,
      Switches;
    TargetGoes(Migrate(cfg), preferred, source);
    MissingIff(Migrate(cfg), group, preferred);
    EnsureEffect(cfg, group, preferred);
  }

  /** A route that is not missing the group makes the profile hold it. */
  lemma PresentHolds(cfg: Config, group: string, preferred: string)
    requires WellFormed(cfg) && Migrate(cfg) != [] && Key(group).Some? && !Missing(Migrate(cfg), group, preferred)
    ensures Holds(cfg, Key(group).value)
  {
    hide Key, Migrate, TargetIndex;
    var rs := Migrate(cfg);
    WithoutChanges(rs[TargetIndex(rs, preferred)].groups, Key(group).value);
  }

  /** Ensuring a group whose spelling keeps its key adds exactly that key. */
  lemma EnsureAddsKey(cfg: Config, group: string, preferred: string)
    requires WellFormed(cfg) && Migrate(cfg) != [] && Key(group).Some? && Key(Shown(group)) == Key(group)
    ensures forall k :: Holds(EnsureConfig(cfg, group, preferred), k) <==> k == Key(group).value || Holds(cfg, k)
  {
    hide Key, Shown, Migrate, Holds, HoldsAt, WellFormed, Missing, EnsureConfig, TargetIndex, EnabledSources;
    EnsureEffect(cfg, group, preferred);
    if !Missing(Migrate(cfg), group, preferred) {
      PresentHolds(cfg, group, preferred);
    }
  }

  /** After ensuring a group the profile holds it exactly when it did before or the reference is not slash-rooted. */
  lemma EnsureHoldsIff(cfg: Config, group: string, preferred: string)
    requires WellFormed(cfg) && Migrate(cfg) != [] && Key(group).Some?
    ensures Holds(EnsureConfig(cfg, group, preferred), Key(group).value) <==>
              Holds(cfg, Key(group).value) || !SlashRooted(group)
  {
    hide Key, Shown, SlashRooted, Migrate, Holds, HoldsAt, WellFormed, Missing, EnsureConfig, TargetIndex,
      EnabledSources;
    KeyKeptIffNotSlashRooted(group);
    EnsureEffect(cfg, group, preferred);
    if !Missing(Migrate(cfg), group, preferred) {
      PresentHolds(cfg, group, preferred);
    }
  }

  lemma EnsureAdds(cfg: Config, group: string, preferred: string)
    requires WellFormed(cfg) && Migrate(cfg) != []
    requires Key(group).Some? && Missing(Migrate(cfg), group, preferred)
    ensures var rs := Migrate(cfg);
            var back := Migrate(EnsureConfig(cfg, group, preferred));
            && back != [] && Sourced(back) && DistinctSources(back)
            && (forall s :: s in EnabledSources(back) <==> s in EnabledSources(rs))
            && Switches(back) == Switches(rs)
            && (forall s, g :: RoutesHoldAt(back, s, g) <==>
                  RoutesHoldAt(rs, s, g) || (s == rs[TargetIndex(rs, preferred)].source && g == Shown(group)))
            && (forall k :: RoutesHold(back, k) <==> Key(Shown(group)) == Some(k) || RoutesHold(rs, k))
  {
    var rs, back := Migrate(cfg), Migrate(EnsureConfig(cfg, group, preferred));
    var n := TargetIndex(rs, preferred);
    EnsureReadBack(cfg, group, preferred);
    hide Key, Shown, DisplayRef, Migrate, EnsureConfig, EnsureRoutes, TargetIndex, Missing, Reread, WithGroup,
      RoutesHoldAt, RoutesHold, SameMembers, EnabledSources, Switches;
    var out := EnsureRoutes(rs, group, preferred);
    RereadSources(out);
    EnsureRoutesLength(rs, group, preferred);
    forall s, g
      ensures RoutesHoldAt(back, s, g) <==> RoutesHoldAt(rs, s, g) || (s == rs[n].source && g == Shown(group))
    {
      ReadBackHolds(back, out, rs, n, group, s, g);
    }
    forall s ensures s in EnabledSources(back) <==> s in EnabledSources(rs) {
      ReadBackHolds(back, out, rs, n, group, s, "");
    }
    ReadBackHolds(back, out, rs, n, group, "", "");
    KeyAdded(rs, back, rs[n].source, group);
  }

  lemma EnsureRoutesLength(rs: seq<Route>, group: string, preferred: string)
    requires rs != [] && Sourced(rs) && DistinctSources(rs)
    ensures |EnsureRoutes(rs, group, preferred)| == |rs|
  {
    EnsureRoutesFacts(rs, group, preferred);
  }

  lemma RereadSources(rs: seq<Route>)
    ensures |Reread(rs)| == |rs| && forall i :: 0 <= i < |rs| ==> Reread(rs)[i].source == rs[i].source
  {
    hide Normalized;
  }

  lemma KeyAdded(rs: seq<Route>, back: seq<Route>, source: string, group: string)
    requires forall s, g :: RoutesHoldAt(back, s, g) <==> RoutesHoldAt(rs, s, g) || (s == source && g == Shown(group))
    ensures forall k :: RoutesHold(back, k) <==> Key(Shown(group)) == Some(k) || RoutesHold(rs, k)
  {
    hide Key, Shown, RoutesHold, RoutesHoldAt;
    assert RoutesHoldAt(back, source, Shown(group));
    forall k ensures RoutesHold(back, k) <==> Key(Shown(group)) == Some(k) || RoutesHold(rs, k) {
      HoldsThrough(rs, k);
      HoldsThrough(back, k);
    }
  }
}
