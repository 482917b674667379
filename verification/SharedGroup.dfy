/** Small inputs: two accounts that meet what the ownership results ask for, and those that break each promise. */
module SharedGroup {
  import opened Common
  import opened Refs
  import opened Spellings
  import opened Routes
  import opened Ownership
  import opened Exclusivity
  import opened GroupSync

  /** One route under the source `@s`. */
  function Profile(groups: seq<string>, enabled: bool): Config {
    Config([Route("@s", groups, enabled, false, "forward")], "", [], false, "")
  }

  function Two(first: Config, second: Config): seq<Entry> {
    [Entry("a", first), Entry("b", second)]
  }

  // ---------------------------------------------------------------- spellings

  /** A short name is stored behind an `@` as it is, and its key is the name. */
  lemma AtName(c: char)
    requires 'a' <= c <= 'z'
    ensures Strip(['@', c]) == ['@', c] && Shown(['@', c]) == ['@', c] && DisplayRef(['@', c]) == ['@', c]
    ensures Key(['@', c]) == Some([c]) && !SlashRooted(['@', c])
  {
    var text := ['@', c];
    NoMarkers(c);
    assert RTrim(text, IsSpace) == text && LTrim(text, IsSpace) == text;
    assert text[1..] == [c] && [c][1..] == [];
    assert Before([c], '?') == [c];
    assert Before(text, '?') == text;
    assert Trim(text, IsSlash) == text;
    assert LTrim([c], IsDash) == [c] && !LooksNumeric([c]);
  }

  lemma NoMarkers(c: char)
    requires 'a' <= c <= 'z'
    ensures forall sub: string :: |sub| > 2 ==> After(['@', c], sub) == None
    ensures After(['@', c], "/+") == None
  {
    var text := ['@', c];
    assert text[1..] == [c] && [c][1..] == [];
    forall sub: string | |sub| > 2 || sub == "/+" ensures After(text, sub) == None {
      assert After([], sub) == None && After([c], sub) == None;
      assert sub == "/+" ==> sub[0] != text[0];
    }
  }

  lemma Letter(c: char)
    requires 'a' <= c <= 'z'
    ensures Strip([c]) == [c] && Key([c]) == Some([c])
  {
    assert [c][1..] == [] && [c][..0] == [];
    assert Before([c], '?') == [c];
    assert LTrim([c], IsDash) == [c] && !LooksNumeric([c]);
  }

  /** A bare `@` is a group reference with an empty key, which is not a reference with a key. */
  lemma AtAlone()
    ensures Shown("@") == "@" && Key("@") == Some("") && Key("").None?
  {
    assert "@"[1..] == "" && "@"[..1] == "@";
    assert RTrim("@", IsSpace) == "@" && LTrim("@", IsSpace) == "@";
    forall sub: string | |sub| > 1 ensures After("@", sub) == None {
      assert After("", sub) == None;
    }
    assert Before("@", '?') == "@" && Trim("@", IsSlash) == "@";
    assert !LooksNumeric("");
  }

  /** Only small letters. */
  predicate Letters(name: string) {
    name != "" && forall i :: 0 <= i < |name| ==> 'a' <= name[i] <= 'z'
  }

  lemma {:induction false} NoQuestion(text: string)
    requires '?' !in text
    ensures Before(text, '?') == text
  {
    if text != "" {
      assert text[0] in text && forall c :: c in text[1..] ==> c in text;
      NoQuestion(text[1..]);
    }
  }

  lemma SlashNameIsNoLink(name: string)
    requires Letters(name)
    ensures Strip("/" + name) == "/" + name && !IsLink("/" + name) && !Has("/" + name, "t.me/")
  {
    var text := "/" + name;
    assert text[|text| - 1] == name[|name| - 1];
    TrimIsTrimmed(text, IsSpace);
    assert '.' !in text && '+' !in text && '/' !in name;
    assert "t.me/"[1] == '.' && "telegram.me/"[8] == '.' && "/+"[1] == '+' && "joinchat/"[8] == '/';
    CharOf(text, "t.me/", 1);
    CharOf(text, "telegram.me/", 8);
    CharOf(text, "/+", 1);
    CharOf(name, "joinchat/", 8);
    assert text[1..] == name && text[0] == '/' && "joinchat/"[0] == 'j' && "+"[0] == '+';
  }

  /** `/name` has the key `name`, but is stored as `@/name`, whose key is `/name`. */
  lemma SlashName(name: string)
    requires Letters(name)
    ensures SlashRooted("/" + name) && Key("/" + name) == Some(name)
    ensures Shown("/" + name) == "@/" + name && Key("@/" + name) == Some("/" + name)
  {
    var text := "/" + name;
    SlashNameIsNoLink(name);
    SlashNamePath(name);
    NameKey(name);
    assert "@" + text == "@/" + name && text[0] == '/';
    KeyPathPlain(text);
    StripAt(text);
    KeyPathAt(text);
    PathKeyAtRooted(text);
    hide Before, RTrim, LTrim, Trim, Has, After, KeyPath, PathKey, LooksNumeric, InviteHash, Strip;
  }

  lemma SlashNamePath(name: string)
    requires Letters(name)
    ensures var text := "/" + name;
            && RTrim(Before(text, '?'), IsSlash) == text && LTrim(text, IsSlash) == name && !LooksNumeric(text)
  {
    var text := "/" + name;
    assert '?' !in text;
    NoQuestion(text);
    hide Before;
    assert text[|text| - 1] == name[|name| - 1] && text[0] == '/';
    assert text[1..] == name && LTrim(name, IsSlash) == name;
    assert LTrim(text, IsDash) == text;
  }

  lemma NameKey(name: string)
    requires Letters(name)
    ensures PathKey(name) == Some(name)
  {
    assert LTrim(name, IsDash) == name;
  }

  // ---------------------------------------------------------------- profiles

  lemma OneRoute(route: Route, cfg: Config)
    requires route.source != "" && DisplayRef(route.source) == route.source && Normalized(route.groups) == route.groups
    ensures MigrateItems([route], cfg) == [route.(mode := ItemMode(route, cfg))]
  {
    hide DisplayRef, Normalized, ItemMode;
    assert [route][..0] == [];
    assert MigrateItems([], cfg) == [];
  }

  lemma ForwardMode(route: Route, cfg: Config)
    requires route.mode == "forward"
    ensures ItemMode(route, cfg) == "forward"
  {
    assert Lower("forward") == "forward";
  }

  /** A profile of stored groups reads back as written. */
  lemma ProfileReads(groups: seq<string>, enabled: bool)
    requires Normal(groups)
    ensures Migrate(Profile(groups, enabled)) == [Route("@s", groups, enabled, false, "forward")]
  {
    var route := Route("@s", groups, enabled, false, "forward");
    AtName('s');
    NormalIsFixed(groups);
    ForwardMode(route, Profile(groups, enabled));
    hide Shown, DisplayRef, Key, SlashRooted, Normalized, ItemMode, MigrateItems;
    OneRoute(route, Profile(groups, enabled));
  }

  lemma ProfileHolds(groups: seq<string>, enabled: bool)
    requires Normal(groups)
    ensures WellFormed(Profile(groups, enabled))
    ensures EnabledSources(Migrate(Profile(groups, enabled))) == if enabled then ["@s"] else []
    ensures forall k :: Holds(Profile(groups, enabled), k) <==> ListHolds(groups, k)
  {
    hide Migrate, Key, Shown, DisplayRef, SlashRooted, Strip, Normal, ListHolds;
    ProfileReads(groups, enabled);
    var rs := Migrate(Profile(groups, enabled));
    assert rs[..0] == [];
    forall k ensures RoutesHold(rs, k) <==> ListHolds(groups, k) {
      assert rs[0].groups == groups;
    }
  }

  lemma ProfileServes(groups: seq<string>, key: string)
    requires Normal(groups) && ListHolds(groups, key)
    ensures Serves(Profile(groups, true), key)
  {
    hide Migrate, Key, Shown, DisplayRef, Normal, ListHolds;
    ProfileReads(groups, true);
    assert ServedBy(Migrate(Profile(groups, true))[0], key);
  }

  /** A profile whose only group is `@c`. */
  lemma SingleHolds(c: char, enabled: bool)
    requires 'a' <= c <= 'z'
    ensures WellFormed(Profile([['@', c]], enabled))
    ensures EnabledSources(Migrate(Profile([['@', c]], enabled))) == if enabled then ["@s"] else []
    ensures forall k :: Holds(Profile([['@', c]], enabled), k) <==> k == [c]
  {
    AtName(c);
    hide Migrate, Key, Shown, DisplayRef, SlashRooted, Strip, Holds, WellFormed, EnabledSources;
    ProfileHolds([['@', c]], enabled);
    assert [['@', c]][0] == ['@', c];
  }

  lemma TwoFacts(first: Config, second: Config)
    requires WellFormed(first) && WellFormed(second)
    ensures var es := Two(first, second);
            && |es| == 2 && es[0] == Entry("a", first) && es[1] == Entry("b", second)
            && DistinctIds(es) && CleanIds(es) && AllWellFormed(es)
            && forall k :: Contested(es, k) <==> Holds(first, k) && Holds(second, k)
  {
    hide Key, Strip, Holds, WellFormed;
    Letter('a');
    Letter('b');
    var es := Two(first, second);
    assert "a" != "b";
    forall k ensures Contested(es, k) <==> Holds(first, k) && Holds(second, k) {
      assert Holds(es[0].config, k) == Holds(first, k) && Holds(es[1].config, k) == Holds(second, k);
    }
  }

  lemma EligibleBoth(es: seq<Entry>)
    requires es != [] && DistinctIds(es) && CleanIds(es) && HasSource(es[0].config)
    ensures EligibleIds(es, []) != [] && Eligible(es, "") != []
  {
    hide Strip, Migrate, EligibleIds, SourcedIds, Eligible, EnabledSources;
    SourcedIdsMembers(es);
    CleanEligible(es);
    EligibleMembers(es, "");
    assert es[0].id in SourcedIds(es) && es[0].id in Eligible(es, "");
  }

  // ---------------------------------------------------------------- one shared group

  /** Both accounts list `@g`. */
  function Accounts(): seq<Entry> {
    Two(Profile(["@g"], true), Profile(["@g"], true))
  }

  lemma AccountsFacts()
    ensures DistinctIds(Accounts()) && CleanIds(Accounts()) && AllWellFormed(Accounts()) && |Accounts()| == 2
    ensures Accounts()[0].config == Profile(["@g"], true) == Accounts()[1].config && HasSource(Accounts()[0].config)
    ensures forall k :: Contested(Accounts(), k) <==> k == "g"
  {
    hide Key, Strip, Holds, Migrate, WellFormed, Profile, Two, Contested, DistinctIds, CleanIds, AllWellFormed;
    SingleHolds('g', true);
    TwoFacts(Profile(["@g"], true), Profile(["@g"], true));
  }

  lemma CatalogKept()
    ensures RefsKept(["@h"]) && KeyedStores(["@h"])
  {
    AtName('h');
    hide Key, Shown, DisplayRef, SlashRooted;
    RefsKeptIff(["@h"]);
  }

  lemma BothOwnable(hash: string -> nat)
    ensures EligibleIds(Accounts(), []) != [] && Eligible(Accounts(), "") != []
    ensures Ownable(Accounts(), EligibleIds(Accounts(), []), hash)
    ensures forall k :: Contested(Accounts(), k) ==> Key(k).Some?
  {
    AccountsFacts();
    Letter('g');
    hide Key, Strip, Holds, HasSource, WellFormed, RightfulOwner, EligibleIds, Eligible, DistinctIds, CleanIds,
      Contested, Accounts, Profile, Ownable;
    EligibleBoth(Accounts());
    OwnableIff(Accounts(), [], hash);
  }

  /** Two accounts with one group: ids are clean, `g` is contested and can be owned, and sync may run on a new group. */
  lemma ContestedCase(hash: string -> nat)
    ensures var es := Accounts();
            && DistinctIds(es) && CleanIds(es) && AllWellFormed(es) && Contested(es, "g")
            && EligibleIds(es, []) != [] && Ownable(es, EligibleIds(es, []), hash)
            && SyncInput(es, "") && SomeSourced(es, "") && LeftOwnable(es, "", ["@h"]) && RefsKept(["@h"])
            && forall k :: Contested(es, k) ==> Key(k).Some?
  {
    hide Key, AllWellFormed, EligibleIds, Eligible, DistinctIds, CleanIds, Contested, Accounts, Ownable, RefsKept,
      DisplayRef, HasSource, KeyedStores, Claims, AddsFallback;
    AccountsFacts();
    BothOwnable(hash);
    CatalogKept();
    assert Sourceable(Accounts()[0].config, "");
  }

  lemma ExactlyOne(es: seq<Entry>, out: seq<Entry>, k: string)
    requires |es| == 2 && |out| == |es| && Exclusive(out) && Held(es, k) && (forall x :: Held(out, x) <==> Held(es, x))
    ensures Holds(out[0].config, k) <==> !Holds(out[1].config, k)
  {
    hide Holds;
    assert !Contested(out, k);
  }

  /** Reconcile leaves the group with exactly one of the two, whatever the hash. */
  lemma ContestedCaseSettles(hash: string -> nat)
    ensures var out := Reconciled(Accounts(), [], hash);
            |out| == 2 && (Holds(out[0].config, "g") <==> !Holds(out[1].config, "g"))
  {
    hide *;
    AccountsFacts();
    ContestedCase(hash);
    ContestedIsHeld(Accounts(), "g");
    ReconcileExclusive(Accounts(), [], hash);
    ExactlyOne(Accounts(), Reconciled(Accounts(), [], hash), "g");
  }

  // ---------------------------------------------------------------- a group whose key has no key

  /** Both accounts list `@g` and a bare `@`. */
  function UnkeyedAccounts(): seq<Entry> {
    Two(Profile(["@g", "@"], true), Profile(["@g", "@"], true))
  }

  lemma UnkeyedGroups()
    ensures Normal(["@g", "@"]) && ListHolds(["@g", "@"], "g") && ListHolds(["@g", "@"], "") && Key("").None?
  {
    var groups := ["@g", "@"];
    hide Key, Shown, DisplayRef, SlashRooted, Strip;
    AtName('g');
    AtAlone();
    assert groups[0] == "@g" && groups[1] == "@" && |groups| == 2;
    assert |groups[0]| == 2 && |groups[1]| == 1;
    assert "@g" in groups && "@" in groups && Key("@g") == Some("g");
  }

  lemma UnkeyedFacts()
    ensures var es := UnkeyedAccounts();
            && DistinctIds(es) && CleanIds(es) && AllWellFormed(es) && |es| == 2
            && (forall i :: 0 <= i < 2 ==>
                  HasSource(es[i].config) && Serves(es[i].config, "g") && Holds(es[i].config, ""))
            && Contested(es, "g") && Contested(es, "") && Key("").None?
  {
    hide Key, ListHolds, Holds, Serves, Migrate, WellFormed, Profile, Contested, DistinctIds, CleanIds, AllWellFormed,
      Two, Normal;
    UnkeyedGroups();
    ProfileHolds(["@g", "@"], true);
    ProfileServes(["@g", "@"], "g");
    TwoFacts(Profile(["@g", "@"], true), Profile(["@g", "@"], true));
  }

  /** Reconcile raises with `@` still on both accounts, and both workers send to the other group, whatever the hash. */
  lemma UnkeyedCase(hash: string -> nat)
    ensures var es := UnkeyedAccounts();
            && !Exclusive(Reconciled(es, [], hash))
            && |es| == 2 && Sends(es, 0, "g", hash) && Sends(es, 1, "g", hash)
  {
    UnkeyedFacts();
    var es := UnkeyedAccounts();
    hide Key, Strip, Holds, Serves, HasSource, WellFormed, DistinctIds, CleanIds, AllWellFormed, Contested, Profile,
      UnkeyedAccounts, EligibleIds, Eligible, Reconciled, Exclusive, Sends, Unscannable, RightfulOwner;
    EligibleBoth(es);
    ReconcileExclusiveIff(es, [], hash);
    UnkeyedScan(es, 0);
    UnkeyedScan(es, 1);
    SendsIff(es, 0, "g", hash);
    SendsIff(es, 1, "g", hash);
  }

  lemma UnkeyedScan(es: seq<Entry>, i: nat)
    requires DistinctIds(es) && i < |es| && Holds(es[i].config, "") && Contested(es, "") && Key("").None?
    ensures Unscannable(es, i)
  {
    hide Key, Holds, OwnersOf, Contested;
    SoleOwner(es, i, "");
    assert Held(es, "");
  }

  // ---------------------------------------------------------------- when reconcile raises, order matters

  /** One account lists the bare `@` first, the other `@g`. */
  function UnkeyedFirst(): Entry {
    Entry("a", Profile(["@", "@g"], true))
  }

  function UnkeyedLast(): Entry {
    Entry("b", Profile(["@g", "@"], true))
  }

  lemma {:induction false} KeyOrderFirst(ps: seq<Placement>)
    requires ps != []
    ensures KeyOrder(ps) != [] && KeyOrder(ps)[0] == ps[0].key
  {
    if |ps| == 1 {
      assert ps[..0] == [] && KeyOrder([]) == [];
    } else {
      KeyOrderFirst(ps[..|ps| - 1]);
    }
  }

  lemma {:induction false} ContestedFirst(ps: seq<Placement>, keys: seq<string>)
    requires keys != [] && OnTwoAccounts(RowsOf(ps, keys[0]))
    ensures ContestedKeys(ps, keys) != [] && ContestedKeys(ps, keys)[0] == keys[0]
  {
    hide OnTwoAccounts, RowsOf;
    if |keys| == 1 {
      assert keys[..0] == [] && ContestedKeys(ps, []) == [];
    } else {
      ContestedFirst(ps, keys[..|keys| - 1]);
    }
  }

  lemma {:induction false} PlacementsFirst(es: seq<Entry>)
    requires es != [] && RoutePlacements(es[0].id, Migrate(es[0].config)) != []
    ensures Placements(es) != [] && Placements(es)[0] == RoutePlacements(es[0].id, Migrate(es[0].config))[0]
  {
    hide Migrate, RoutePlacements;
    if |es| == 1 {
      assert es[..0] == [] && Placements([]) == [];
    } else {
      PlacementsFirst(es[..|es| - 1]);
    }
  }

  /** The first group of the first account is the first placement. */
  lemma FirstListed(e: Entry, first: string, second: string)
    requires Normal([first, second]) && e.config == Profile([first, second], true)
    requires Key(first).Some? && Key(second).Some?
    ensures var ps := RoutePlacements(e.id, Migrate(e.config)); ps != [] && ps[0].key == Key(first).value
  {
    hide Key, Normal, Migrate;
    ProfileReads([first, second], true);
    var rs, groups := Migrate(e.config), [first, second];
    assert rs[..0] == [] && groups[..1] == [first] && [first][..0] == [];
    assert ListPlacements(e.id, "@s", [first]) == [Placement(Key(first).value, e.id, "@s", first)];
  }

  /** The first overlap is the first key of the first account, when that is contested. */
  lemma FirstOverlap(es: seq<Entry>, key: string)
    requires DistinctIds(es) && es != [] && Contested(es, key)
    requires var ps := RoutePlacements(es[0].id, Migrate(es[0].config)); ps != [] && ps[0].key == key
    ensures Overlaps(es) != [] && Overlaps(es)[0] == key
  {
    hide Migrate, RoutePlacements, Placements, Contested, RowsOf, OnTwoAccounts, KeyOrder, ContestedKeys;
    PlacementsFirst(es);
    var ps := Placements(es);
    KeyOrderFirst(ps);
    RowsOnTwoAccounts(es, key);
    ContestedFirst(ps, KeyOrder(ps));
  }

  /** A group without a key first: reconcile raises before it settles anything. */
  lemma RaisesAtOnce(es: seq<Entry>, hash: string -> nat)
    requires EligibleIds(es, []) != [] && Overlaps(es) != [] && Key(Overlaps(es)[0]).None?
    ensures Reconciled(es, [], hash) == es
  {
    hide Key, EligibleIds, Overlaps, Placements, StripIds;
    var ids := EligibleIds(es, []);
    assert RightfulOwner(Overlaps(es)[0], ids, hash).None?;
    hide RightfulOwner;
    assert OwnedPrefix(Overlaps(es), ids, hash) == [];
  }

  /** A group with a key first: it is settled. */
  lemma SettlesFirst(es: seq<Entry>, hash: string -> nat)
    requires DistinctIds(es) && AllWellFormed(es) && EligibleIds(es, []) != []
    requires Overlaps(es) != [] && Key(Overlaps(es)[0]).Some?
    ensures !Contested(Reconciled(es, [], hash), Overlaps(es)[0])
  {
    hide Key, Strip, Holds, HasSource, WellFormed, EligibleIds, Overlaps, RightfulOwner, Reconciled, HasSourceId;
    var ids, key, out := EligibleIds(es, []), Overlaps(es)[0], Reconciled(es, [], hash);
    EligibleIdsFacts(es, []);
    OwnerAmong(ids, key, hash);
    var keys := OwnedPrefix(Overlaps(es), ids, hash);
    assert keys != [] && keys[0] == key;
    ReconcilePlaces(es, [], hash);
    hide OwnedPrefix;
    assert forall i :: 0 <= i < |es| ==> SettledEntry(es[i], out[i], keys, ids, hash);
    assert forall i :: 0 <= i < |es| ==>
        (Holds(out[i].config, key) <==> RightfulOwner(key, ids, hash) == Some(es[i].id));
  }

  lemma OrderInput()
    ensures DistinctIds([UnkeyedFirst(), UnkeyedLast()]) && DistinctIds([UnkeyedLast(), UnkeyedFirst()])
    ensures AllWellFormed([UnkeyedFirst(), UnkeyedLast()]) && AllWellFormed([UnkeyedLast(), UnkeyedFirst()])
    ensures CleanIds([UnkeyedFirst(), UnkeyedLast()]) && CleanIds([UnkeyedLast(), UnkeyedFirst()])
    ensures HasSource(UnkeyedFirst().config) && HasSource(UnkeyedLast().config)
    ensures forall k :: k == "g" || k == "" ==> Holds(UnkeyedFirst().config, k) && Holds(UnkeyedLast().config, k)
    ensures Normal(["@", "@g"]) && Normal(["@g", "@"])
  {
    hide Key, Strip, ListHolds, Holds, Migrate, WellFormed, Profile, Normal;
    UnkeyedGroups();
    UnkeyedGroupsTurned();
    ProfileHolds(["@g", "@"], true);
    ProfileHolds(["@", "@g"], true);
    Letter('a');
    Letter('b');
    assert "a" != "b";
  }

  lemma UnkeyedGroupsTurned()
    ensures Normal(["@", "@g"]) && ListHolds(["@", "@g"], "g") && ListHolds(["@", "@g"], "")
  {
    hide Key, Shown, DisplayRef, SlashRooted, Strip;
    AtName('g');
    AtAlone();
    var groups := ["@", "@g"];
    assert groups[0] == "@" && groups[1] == "@g" && |groups[0]| == 1 && |groups[1]| == 2;
    assert "@g" in groups && "@" in groups && Key("@g") == Some("g");
  }

  lemma PairContested(first: Entry, second: Entry, k: string)
    requires Holds(first.config, k) && Holds(second.config, k)
    ensures Contested([first, second], k)
  {
    hide Holds;
    var es := [first, second];
    assert 0 <= 0 < 1 < |es| && Holds(es[0].config, k) && Holds(es[1].config, k);
  }

  /** The same two accounts in either order: the shared group stays on both, or is settled, before the raise. */
  lemma OrderCase(hash: string -> nat)
    ensures Contested(Reconciled([UnkeyedFirst(), UnkeyedLast()], [], hash), "g")
    ensures !Contested(Reconciled([UnkeyedLast(), UnkeyedFirst()], [], hash), "g")
  {
    var first, last := UnkeyedFirst(), UnkeyedLast();
    OrderInput();
    AtName('g');
    AtAlone();
    Letter('g');
    FirstListed(first, "@", "@g");
    FirstListed(last, "@g", "@");
    hide *;
    PairContested(first, last, "g");
    PairContested(first, last, "");
    PairContested(last, first, "g");
    EligibleBoth([first, last]);
    EligibleBoth([last, first]);
    FirstOverlap([first, last], "");
    RaisesAtOnce([first, last], hash);
    FirstOverlap([last, first], "g");
    SettlesFirst([last, first], hash);
  }

  // ---------------------------------------------------------------- a fallback source that is switched off

  /** Both accounts list `@g` under the only route, which is disabled. */
  function DisabledAccounts(): seq<Entry> {
    Two(Profile(["@g"], false), Profile(["@g"], false))
  }

  lemma SingleNormal(c: char)
    requires 'a' <= c <= 'z'
    ensures Normal([['@', c]])
  {
    AtName(c);
    hide Key, Shown, DisplayRef, SlashRooted, Strip;
  }

  lemma DisabledFacts()
    ensures var es := DisabledAccounts();
            && DistinctIds(es) && CleanIds(es) && AllWellFormed(es) && |es| == 2 && Contested(es, "g")
            && es[0].config == Profile(["@g"], false) == es[1].config
  {
    hide Key, Holds, Migrate, WellFormed, Profile, Contested, DistinctIds, CleanIds, AllWellFormed, Two,
      EnabledSources;
    SingleHolds('g', false);
    TwoFacts(Profile(["@g"], false), Profile(["@g"], false));
  }

  lemma EmptyCatalog(es: seq<Entry>, fallback: string, k: string)
    ensures RefsKept([]) && KeyedStores([]) && !Claims(es, fallback, [], k)
  {
    hide Key, Shown, SlashRooted, Sticky, Eligible;
  }

  /** With its source as the fallback and an empty catalog, sync runs and leaves the group on both accounts. */
  lemma DisabledCase(hash: string -> nat)
    ensures var es := DisabledAccounts();
            && SyncInput(es, "@s") && !SomeSourced(es, "@s") && RefsKept([]) && KeyedStores([])
            && !Exclusive(Synced(es, "@s", [], hash))
  {
    hide *;
    var es := DisabledAccounts();
    DisabledFacts();
    DisabledInput(es);
    EmptyCatalog(es, "@s", "g");
    SyncExclusiveIff(es, "@s", [], hash);
  }

  lemma DisabledInput(es: seq<Entry>)
    requires DistinctIds(es) && CleanIds(es) && AllWellFormed(es) && |es| == 2
    requires es[0].config == Profile(["@g"], false) == es[1].config
    ensures SyncInput(es, "@s") && !SomeSourced(es, "@s")
  {
    hide Key, Shown, DisplayRef, SlashRooted, Strip, Normal, DistinctIds, CleanIds, AllWellFormed, SourcesOf,
      Sourceable, Profile, Eligible;
    SingleNormal('g');
    AtName('s');
    DisabledSource(es[0].config);
    EligibleMembers(es, "@s");
    assert es[0].id in Eligible(es, "@s");
  }

  lemma DisabledSource(cfg: Config)
    requires cfg == Profile(["@g"], false) && Normal(["@g"])
    ensures SourcesOf(cfg, "@s") != [] && !Sourceable(cfg, "@s")
  {
    hide Migrate, DisplayRef, Shown, Normal;
    ProfileReads(["@g"], false);
    var rs := Migrate(cfg);
    assert rs[0].source == "@s" && rs[..0] == [];
  }

  // ---------------------------------------------------------------- a catalog that names a group with a slash

  /** The first account lists `@g` under a disabled route; the second has an enabled source and `@h`. */
  function OneSidedAccounts(): seq<Entry> {
    Two(Profile(["@g"], false), Profile(["@h"], true))
  }

  lemma OneSidedFacts()
    ensures |OneSidedAccounts()| == 2
    ensures var es := OneSidedAccounts();
            && DistinctIds(es) && CleanIds(es) && AllWellFormed(es)
            && Holds(es[0].config, "g") && (forall k :: !Contested(es, k))
            && SourcesOf(es[0].config, "") == [] && SourcesOf(es[1].config, "") != [] && Sourceable(es[1].config, "")
  {
    hide Key, Holds, Migrate, WellFormed, Profile, Contested, DistinctIds, CleanIds, AllWellFormed, Two,
      EnabledSources, SourcesOf, Sourceable;
    SingleHolds('g', false);
    SingleHolds('h', true);
    TwoFacts(Profile(["@g"], false), Profile(["@h"], true));
    assert "g"[0] != "h"[0];
    SwitchedOff(Profile(["@g"], false));
    SwitchedOn(Profile(["@h"], true));
  }

  lemma SwitchedOff(cfg: Config)
    requires EnabledSources(Migrate(cfg)) == []
    ensures SourcesOf(cfg, "") == []
  {
    hide EnabledSources, Migrate;
  }

  lemma SwitchedOn(cfg: Config)
    requires EnabledSources(Migrate(cfg)) == ["@s"]
    ensures SourcesOf(cfg, "") != [] && Sourceable(cfg, "")
  {
    hide EnabledSources, Migrate;
  }

  lemma SlashCatalog()
    ensures PlainKey(["/g"], "g") && KeyedStores(["/g"])
    ensures FirstRef(["/g"], "g") == Some("/g") && SlashRooted("/g")
  {
    hide Key, Shown, SlashRooted;
    SlashName("g");
    SlashTexts();
    SlashKeyed();
    assert ["/g"][..0] == [] && FirstRef([], "g") == None;
  }

  lemma SlashTexts()
    ensures "/" + "g" == "/g" && "@/" + "g" == "@/g" && "g" != "/g"
  {
    assert |"g"| != |"/g"|;
  }

  /** The stored key of `/g` is a reference with a key as well. */
  lemma SlashKeyed()
    ensures Key("/g").Some?
  {
    hide Key, Shown, SlashRooted;
    SlashName("g");
    assert "/" + "g" == "/g";
  }

  /** A catalog with `/g` makes sync take the group from its only account and give it to nobody. */
  lemma SlashCase(hash: string -> nat)
    ensures var es := OneSidedAccounts();
            && SyncInput(es, "") && SomeSourced(es, "") && LeftOwnable(es, "", ["/g"]) && PlainKey(["/g"], "g")
            && Held(es, "g") && !Held(Synced(es, "", ["/g"], hash), "g")
  {
    hide *;
    var es, refs := OneSidedAccounts(), ["/g"];
    OneSidedFacts();
    SlashCatalog();
    OneSidedInput(es, refs);
    SoleHeld(es, "g");
    SyncLosesIff(es, "", refs, hash, 0, "g");
  }

  lemma OneSidedInput(es: seq<Entry>, refs: seq<string>)
    requires DistinctIds(es) && CleanIds(es) && AllWellFormed(es) && |es| == 2
    requires SourcesOf(es[0].config, "") == [] && SourcesOf(es[1].config, "") != [] && Sourceable(es[1].config, "")
    requires KeyedStores(refs) && forall k :: !Contested(es, k)
    ensures SyncInput(es, "") && SomeSourced(es, "") && LeftOwnable(es, "", refs)
    ensures es[0].id !in Eligible(es, "")
  {
    hide Key, Shown, DisplayRef, SlashRooted, Holds, DistinctIds, CleanIds, AllWellFormed, Contested, SourcesOf,
      Sourceable, Eligible, KeyedStores, Claims;
    EligibleMembers(es, "");
    assert es[1].id in Eligible(es, "");
  }

  lemma SoleHeld(es: seq<Entry>, k: string)
    requires es != [] && Holds(es[0].config, k)
    ensures Held(es, k)
  {
  }
}
