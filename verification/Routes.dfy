/** Promo routes: one ad source, many destination groups; and the legacy single-source shape. */
module Routes {
  import opened Refs

  /** One entry of `routes[]`. An empty text stands for a missing or falsy field. */
  datatype Route = Route(source: string, groups: seq<string>, enabled: bool, paused: bool, mode: string)

  /** The `promo_spread` object: `routes[]`, and the legacy fields read when it is empty. */
  datatype Config = Config(routes: seq<Route>, source: string, groups: seq<string>, paused: bool, mode: string)

  function Lower(s: string): string {
    seq(|s|, i requires 0 <= i < |s| =>
      if 'A' <= s[i] <= 'Z' then (s[i] as int + 32) as char else s[i])
  }

  // ---------------------------------------------------------------- group lists

  /** Group lists as they are stored: each in its shown form, none twice. */
  ghost predicate Normal(gs: seq<string>) {
    && (forall i :: 0 <= i < |gs| ==> gs[i] != "" && Shown(gs[i]) == gs[i])
    && (forall i, j :: 0 <= i < j < |gs| ==> gs[i] != gs[j])
  }

  function Normalized(raw: seq<string>): seq<string> {
    if raw == [] then []
    else
      var r := Normalized(raw[..|raw| - 1]);
      var shown := Shown(raw[|raw| - 1]);
      if shown != "" && shown !in r then r + [shown] else r
  }

  lemma {:induction false} NormalizedIsNormal(raw: seq<string>)
    ensures Normal(Normalized(raw))
  {
    if raw != [] {
      NormalizedIsNormal(raw[..|raw| - 1]);
      ShownIdempotent(raw[|raw| - 1]);
    }
  }

  method NormalizeGroupList(raw: seq<string>) returns (out: seq<string>)
    ensures out == Normalized(raw)
  {
    out := [];
    for i := 0 to |raw|
      invariant out == Normalized(raw[..i])
    {
      assert raw[..i + 1][..i] == raw[..i];
      var shown := Shown(raw[i]);
      if shown != "" && shown !in out {
        out := out + [shown];
      }
    }
    assert raw[..|raw|] == raw;
  }

  /** A stored list is read back unchanged. */
  lemma {:induction false} NormalIsFixed(gs: seq<string>)
    requires Normal(gs)
    ensures Normalized(gs) == gs
  {
    hide Shown;
    if gs != [] {
      var front := gs[..|gs| - 1];
      NormalIsFixed(front);
      assert gs == front + [gs[|gs| - 1]];
    }
  }

  /** A list with one raw item appended is read back with that item in its shown form, once. */
  lemma NormalAppend(gs: seq<string>, item: string)
    requires Normal(gs) && Shown(item) != ""
    ensures Normalized(gs + [item]) == if Shown(item) in gs then gs else gs + [Shown(item)]
  {
    NormalIsFixed(gs);
    assert (gs + [item])[..|gs|] == gs;
  }

  /** The stored list has exactly the stored forms of the raw items that have one. */
  lemma {:induction false} NormalizedMembers(raw: seq<string>)
    ensures forall g :: g in Normalized(raw) <==> g != "" && exists r :: r in raw && Shown(r) == g
  {
    hide Shown;
    if raw != [] {
      NormalizedMembers(raw[..|raw| - 1]);
      assert raw == raw[..|raw| - 1] + [raw[|raw| - 1]];
    }
  }

  // ---------------------------------------------------------------- migrate_routes

  function ItemMode(item: Route, cfg: Config): string {
    var m := Lower(if item.mode != "" then item.mode else if cfg.mode != "" then cfg.mode else "forward");
    if m in {"forward", "copy"} then m else "forward"
  }

  function Refresh(item: Route, cfg: Config): Route {
    Route(DisplayRef(item.source), Normalized(item.groups), item.enabled, item.paused, ItemMode(item, cfg))
  }

  function MigrateItems(items: seq<Route>, cfg: Config): seq<Route> {
    if items == [] then []
    else
      var last := items[|items| - 1];
      var r := MigrateItems(items[..|items| - 1], cfg);
      if last.source == "" then r else r + [Refresh(last, cfg)]
  }

  function Migrate(cfg: Config): seq<Route> {
    if cfg.routes != [] then MigrateItems(cfg.routes, cfg)
    else if cfg.source != "" then
      [Route(DisplayRef(cfg.source), Normalized(Normalized(cfg.groups)), true, cfg.paused,
             Lower(if cfg.mode != "" then cfg.mode else "forward"))]
    else []
  }

  method MigrateRoutes(cfg: Config) returns (out: seq<Route>)
    ensures out == Migrate(cfg)
  {
    if cfg.routes != [] {
      out := [];
      for i := 0 to |cfg.routes|
        invariant out == MigrateItems(cfg.routes[..i], cfg)
      {
        assert cfg.routes[..i + 1][..i] == cfg.routes[..i];
        var item := cfg.routes[i];
        if item.source != "" {
          var groups := NormalizeGroupList(item.groups);
          out := out + [Route(DisplayRef(item.source), groups, item.enabled, item.paused, ItemMode(item, cfg))];
        }
      }
      assert cfg.routes[..|cfg.routes|] == cfg.routes;
      return;
    }
    var groups := NormalizeGroupList(cfg.groups);
    if cfg.source != "" {
      groups := NormalizeGroupList(groups);
      return [Route(DisplayRef(cfg.source), groups, true, cfg.paused,
                    Lower(if cfg.mode != "" then cfg.mode else "forward"))];
    }
    return [];
  }

  /** Same route up to the delivery mode, which is validated when read. */
  predicate SameRoute(a: Route, b: Route) {
    a.source == b.source && a.groups == b.groups && a.enabled == b.enabled && a.paused == b.paused
  }

  predicate SameRoutes(a: seq<Route>, b: seq<Route>) {
    |a| == |b| && forall i :: 0 <= i < |a| ==> SameRoute(a[i], b[i])
  }

  /** Routes as they are read: displayed sources and stored group lists. */
  ghost predicate Stored(rs: seq<Route>) {
    forall i :: 0 <= i < |rs| ==> DisplayRef(rs[i].source) == rs[i].source && Normal(rs[i].groups)
  }

  lemma {:induction false} MigrateItemsStored(items: seq<Route>, cfg: Config)
    ensures Stored(MigrateItems(items, cfg))
  {
    if items != [] {
      var last := items[|items| - 1];
      MigrateItemsStored(items[..|items| - 1], cfg);
      DisplayIdempotent(last.source);
      NormalizedIsNormal(last.groups);
    }
  }

  lemma MigrateIsStored(cfg: Config)
    ensures Stored(Migrate(cfg))
  {
    if cfg.routes != [] {
      MigrateItemsStored(cfg.routes, cfg);
    } else {
      DisplayIdempotent(cfg.source);
      NormalizedIsNormal(Normalized(cfg.groups));
    }
  }

  lemma {:induction false} MigrateAllSourced(items: seq<Route>, cfg: Config)
    requires forall i :: 0 <= i < |items| ==> items[i].source != ""
    ensures |MigrateItems(items, cfg)| == |items|
    ensures forall i :: 0 <= i < |items| ==> MigrateItems(items, cfg)[i] == Refresh(items[i], cfg)
  {
    if items != [] {
      MigrateAllSourced(items[..|items| - 1], cfg);
    }
  }

  /** What reading back a written, non-empty list of displayed routes gives. */
  lemma MigrateWritten(cfg: Config, rs: seq<Route>)
    requires rs != []
    requires forall i :: 0 <= i < |rs| ==> rs[i].source != "" && DisplayRef(rs[i].source) == rs[i].source
    ensures var back := Migrate(cfg.(routes := rs));
            |back| == |rs| && forall i :: 0 <= i < |rs| ==>
              SameRoute(back[i], rs[i].(groups := Normalized(rs[i].groups)))
  {
    MigrateAllSourced(rs, cfg.(routes := rs));
  }

  /** Reading back stored, sourced routes gives those routes: `migrate_routes` is stable. */
  lemma MigrateStored(cfg: Config, rs: seq<Route>)
    requires rs != [] && Stored(rs) && forall i :: 0 <= i < |rs| ==> rs[i].source != ""
    ensures SameRoutes(Migrate(cfg.(routes := rs)), rs)
  {
    MigrateWritten(cfg, rs);
    forall i | 0 <= i < |rs| ensures Normalized(rs[i].groups) == rs[i].groups {
      NormalIsFixed(rs[i].groups);
    }
  }

  // ---------------------------------------------------------------- delivery modes and the legacy shape

  predicate IsUpper(c: char) {
    'A' <= c <= 'Z'
  }

  /** The texts differ at most in letters that are capital in the first and small in the second. */
  predicate SameButCase(a: string, b: string) {
    |a| == |b| && forall i :: 0 <= i < |a| ==> a[i] == b[i] || (IsUpper(a[i]) && a[i] as int + 32 == b[i] as int)
  }

  lemma LowerIff(a: string, b: string)
    requires forall i :: 0 <= i < |b| ==> !IsUpper(b[i])
    ensures Lower(a) == b <==> SameButCase(a, b)
  {
    if SameButCase(a, b) {
      assert forall i :: 0 <= i < |a| ==> Lower(a)[i] == b[i];
    }
  }

  lemma LowerSame(a: string)
    ensures SameButCase(a, Lower(a)) && forall i :: 0 <= i < |a| ==> !IsUpper(Lower(a)[i])
  {
  }

  /** A route is copied exactly when its own mode, or the profile's when it has none, reads `copy` in any case. */
  lemma ModeRead(item: Route, cfg: Config)
    ensures ItemMode(item, cfg) in {"copy", "forward"}
    ensures ItemMode(item, cfg) == "copy" <==> SameButCase(if item.mode != "" then item.mode else cfg.mode, "copy")
  {
    var typed := if item.mode != "" then item.mode else if cfg.mode != "" then cfg.mode else "forward";
    LowerIff(typed, "copy");
    LowerIff("forward", "forward");
    assert "forward" != "copy";
  }

  /** The legacy shape reads as one enabled route; its mode is lower-cased but not checked. */
  lemma LegacyReads(cfg: Config)
    requires cfg.routes == []
    ensures cfg.source == "" ==> Migrate(cfg) == []
    ensures cfg.source != "" ==>
              && |Migrate(cfg)| == 1
              && var r := Migrate(cfg)[0];
                 && r.source == DisplayRef(cfg.source) && r.enabled && r.paused == cfg.paused
                 && Normal(r.groups)
                 && (forall g :: g in r.groups <==> g != "" && exists x :: x in cfg.groups && Shown(x) == g)
                 && (if cfg.mode == "" then r.mode == "forward" else SameButCase(cfg.mode, r.mode))
                 && forall i :: 0 <= i < |r.mode| ==> !IsUpper(r.mode[i])
  {
    hide Shown, DisplayRef, Normalized, Normal;
    NormalizedIsNormal(cfg.groups);
    NormalizedMembers(cfg.groups);
    NormalIsFixed(Normalized(cfg.groups));
    LowerSame(cfg.mode);
    LowerIff("forward", "forward");
  }

  /** Once a profile has routes its legacy fields are ignored, even when no route has a source. */
  lemma LegacyIgnored(cfg: Config, source: string, groups: seq<string>)
    requires cfg.routes != []
    ensures Migrate(cfg.(source := source, groups := groups)) == Migrate(cfg)
  {
    ItemsIgnore(cfg.routes, cfg, source, groups);
  }

  lemma {:induction false} ItemsIgnore(items: seq<Route>, cfg: Config, source: string, groups: seq<string>)
    ensures MigrateItems(items, cfg.(source := source, groups := groups)) == MigrateItems(items, cfg)
  {
    if items != [] {
      ItemsIgnore(items[..|items| - 1], cfg, source, groups);
    }
  }

  /** Routes without a source are dropped, the others kept in their order. */
  lemma {:induction false} BlankItemsDropped(a: seq<Route>, blank: Route, b: seq<Route>, cfg: Config)
    requires blank.source == ""
    ensures MigrateItems(a + [blank] + b, cfg) == MigrateItems(a + b, cfg)
  {
    hide Refresh;
    if b == [] {
      assert (a + [blank] + b)[..|a|] == a == a + b;
    } else {
      var front := b[..|b| - 1];
      assert (a + [blank] + b)[..|a| + |b|] == a + [blank] + front && (a + b)[..|a + b| - 1] == a + front;
      BlankItemsDropped(a, blank, front, cfg);
    }
  }
}
