/** Removing marked entities from a text: splicing from the back equals replacing every span at once. */
module TextSplice {
  import opened Sorting

  /** UTF-16 code units; Telegram offsets count these. */
  datatype Unit = Unit(code: int)
  type Text = seq<Unit>

  const SPACE := Unit(0x20)

  datatype Kind = Url | TextUrl | Mention | MentionName | Hashtag | Formatting

  datatype Entity = Entity(kind: Kind, offset: int, length: int)

  datatype Config = Config(removeLinks: bool, removeMentions: bool, removeHashtags: bool)

  predicate ShouldDrop(e: Entity, cfg: Config) {
    match e.kind
    case Url | TextUrl => cfg.removeLinks
    case Mention | MentionName => cfg.removeMentions
    case Hashtag => cfg.removeHashtags
    case Formatting => false
  }

  function Targets(entities: seq<Entity>, cfg: Config): seq<Entity> {
    if entities == [] then []
    else
      var front := Targets(entities[..|entities| - 1], cfg);
      var last := entities[|entities| - 1];
      if ShouldDrop(last, cfg) then front + [last] else front
  }

  predicate InRange(n: nat, e: Entity) {
    0 <= e.offset && e.offset + e.length <= n && e.length > 0
  }

  function Backwards(e: Entity): int {
    -e.offset
  }

  /** `sorted(targets, key=offset, reverse=True)`, stable. */
  function SortDown(entities: seq<Entity>): seq<Entity> {
    SortBy(entities, Backwards)
  }

  function Splice<T>(text: seq<T>, space: T, e: Entity): (spliced: seq<T>)
    ensures |spliced| == if InRange(|text|, e) then |text| - e.length + 1 else |text|
  {
    if InRange(|text|, e) then text[..e.offset] + [space] + text[e.offset + e.length..] else text
  }

  function SpliceAll<T>(text: seq<T>, space: T, entities: seq<Entity>): seq<T>
    decreases |entities|
  {
    if entities == [] then text else SpliceAll(Splice(text, space, entities[0]), space, entities[1..])
  }

  // ---------------------------------------------------------------- what is dropped

  /** The configuration asks for entities of this kind to go; formatting never does. */
  ghost predicate Unwanted(kind: Kind, cfg: Config) {
    || (cfg.removeLinks && kind in {Url, TextUrl})
    || (cfg.removeMentions && kind in {Mention, MentionName})
    || (cfg.removeHashtags && kind == Hashtag)
  }

  lemma DropIff(e: Entity, cfg: Config)
    ensures ShouldDrop(e, cfg) <==> Unwanted(e.kind, cfg)
  {
  }

  /** Taking out an entity that is wanted changes nothing. */
  lemma {:induction false} WantedIgnored(a: seq<Entity>, e: Entity, b: seq<Entity>, cfg: Config)
    requires !Unwanted(e.kind, cfg)
    ensures Targets(a + [e] + b, cfg) == Targets(a + b, cfg)
  {
    hide ShouldDrop, Unwanted;
    if b == [] {
      DropIff(e, cfg);
      assert (a + [e] + b)[..|a|] == a == a + b;
    } else {
      var front := b[..|b| - 1];
      assert (a + [e] + b)[..|a| + |b|] == a + [e] + front && (a + b)[..|a + b| - 1] == a + front;
      WantedIgnored(a, e, front, cfg);
    }
  }

  /** Unwanted entities are all dropped, in the order given. */
  lemma {:induction false} UnwantedAre(entities: seq<Entity>, cfg: Config)
    requires forall i :: 0 <= i < |entities| ==> Unwanted(entities[i].kind, cfg)
    ensures Targets(entities, cfg) == entities
  {
    if entities != [] {
      DropIff(entities[|entities| - 1], cfg);
      UnwantedAre(entities[..|entities| - 1], cfg);
    }
  }

  // ---------------------------------------------------------------- replacing at once

  ghost function SpansOf(text: Text, entities: seq<Entity>): set<Entity> {
    set e | e in entities && InRange(|text|, e)
  }

  ghost predicate StartsAt(spans: set<Entity>, i: int) {
    exists e :: e in spans && e.offset == i
  }

  ghost function SpanAt(spans: set<Entity>, i: int): (e: Entity)
    requires StartsAt(spans, i)
    ensures e in spans && e.offset == i
  {
    var e :| e in spans && e.offset == i; e
  }

  /** Reading from `i`: a span that starts here becomes one space, any other code unit is kept. */
  ghost function ReplacedFrom(text: Text, spans: set<Entity>, i: nat): Text
    requires i <= |text| && forall e :: e in spans ==> InRange(|text|, e)
    decreases |text| - i
  {
    if i == |text| then []
    else if StartsAt(spans, i) then
      var e := SpanAt(spans, i);
      assert InRange(|text|, e);
      [SPACE] + ReplacedFrom(text, spans, i + e.length)
    else [text[i]] + ReplacedFrom(text, spans, i + 1)
  }

  predicate Apart(a: Entity, b: Entity) {
    a.offset + a.length <= b.offset || b.offset + b.length <= a.offset
  }

  predicate Disjoint(text: Text, entities: seq<Entity>) {
    forall i, j :: 0 <= i < j < |entities| && InRange(|text|, entities[i]) && InRange(|text|, entities[j]) ==>
      Apart(entities[i], entities[j])
  }

  lemma DisjointParts(text: Text, front: seq<Entity>, last: Entity)
    ensures Disjoint(text, front + [last]) <==>
      Disjoint(text, front) && forall x :: x in front && InRange(|text|, x) && InRange(|text|, last) ==> Apart(x, last)
  {
    var all := front + [last];
    hide Apart;
    assert all[..|front|] == front;
    assert forall i :: 0 <= i < |front| ==> all[i] == front[i];
    if Disjoint(text, all) {
      forall x | x in front && InRange(|text|, x) && InRange(|text|, last) ensures Apart(x, last) {
        var i :| 0 <= i < |front| && front[i] == x;
        assert Apart(all[i], all[|front|]);
      }
    }
  }

  lemma {:induction false} InsertDisjoint(text: Text, sorted: seq<Entity>, e: Entity)
    requires Disjoint(text, sorted)
    requires forall x :: x in sorted && InRange(|text|, x) && InRange(|text|, e) ==> Apart(x, e)
    ensures Disjoint(text, InsertBy(sorted, e, Backwards))
  {
    if sorted == [] || Backwards(sorted[|sorted| - 1]) <= Backwards(e) {
      DisjointParts(text, sorted, e);
    } else {
      var front, last := sorted[..|sorted| - 1], sorted[|sorted| - 1];
      assert sorted == front + [last];
      DisjointParts(text, front, last);
      InsertDisjoint(text, front, e);
      InsertKeeps(front, e, Backwards);
      forall x | x in InsertBy(front, e, Backwards) && InRange(|text|, x) &&
          InRange(|text|, last) ensures Apart(x, last) {
        assert x in multiset(front) + multiset{e};
      }
      hide Disjoint;
      DisjointParts(text, InsertBy(front, e, Backwards), last);
    }
  }

  /** Sorting keeps the spans apart. */
  lemma {:induction false} SortDownKeeps(text: Text, entities: seq<Entity>)
    requires Disjoint(text, entities)
    ensures Disjoint(text, SortDown(entities))
  {
    if entities != [] {
      var front, last := entities[..|entities| - 1], entities[|entities| - 1];
      assert entities == front + [last];
      DisjointParts(text, front, last);
      SortDownKeeps(text, front);
      SortSorts(front, Backwards);
      SameMembers(SortDown(front), front);
      hide Disjoint;
      InsertDisjoint(text, SortDown(front), last);
    }
  }

  /** No span starts at or after `i`: the rest is copied. */
  lemma {:induction false} CopyRest(text: Text, spans: set<Entity>, i: nat)
    requires i <= |text| && forall e :: e in spans ==> InRange(|text|, e) && e.offset < i
    ensures ReplacedFrom(text, spans, i) == text[i..]
    decreases |text| - i
  {
    if i < |text| {
      CopyRest(text, spans, i + 1);
    }
  }

  lemma SplicePrefix(text: Text, last: Entity, spans: set<Entity>)
    requires InRange(|text|, last) && forall e :: e in spans ==>
        InRange(|text|, e) && e.offset + e.length <= last.offset
    ensures Splice(text, SPACE, last)[..last.offset] == text[..last.offset]
    ensures Splice(text, SPACE, last)[last.offset..] == [SPACE] + text[last.offset + last.length..]
    ensures forall e :: e in spans ==> InRange(|Splice(text, SPACE, last)|, e)
  {
  }

  ghost predicate AllApart(spans: set<Entity>) {
    forall e, f :: e in spans && f in spans && e != f ==> Apart(e, f)
  }

  /** The last span does not matter for what starts before it. */
  lemma StartsBefore(text: Text, spans: set<Entity>, last: Entity, i: int)
    requires AllApart(spans) && i < last.offset && forall e :: e in spans ==> InRange(|text|, e)
    ensures StartsAt(spans, i) <==> StartsAt(spans + {last}, i)
    ensures StartsAt(spans, i) ==> SpanAt(spans + {last}, i) == SpanAt(spans, i)
  {
    if StartsAt(spans, i) {
      var e := SpanAt(spans, i);
      assert e in spans + {last};
      var f := SpanAt(spans + {last}, i);
      assert InRange(|text|, e) && InRange(|text|, f);
    }
  }

  lemma ReadStep(text: Text, spans: set<Entity>, i: nat)
    requires i < |text| && forall e :: e in spans ==> InRange(|text|, e)
    ensures !StartsAt(spans, i) ==> ReplacedFrom(text, spans, i) == [text[i]] + ReplacedFrom(text, spans, i + 1)
    ensures StartsAt(spans, i) ==>
      var end := i + SpanAt(spans, i).length;
      0 < end <= |text| && ReplacedFrom(text, spans, i) == [SPACE] + ReplacedFrom(text, spans, end)
  {
    if StartsAt(spans, i) {
      assert InRange(|text|, SpanAt(spans, i));
    }
  }

  /** At the place of the last span both readings write one space and copy the rest. */
  lemma SpliceHere(text: Text, spans: set<Entity>, last: Entity)
    requires InRange(|text|, last)
    requires forall e :: e in spans ==> InRange(|text|, e) && e.offset + e.length <= last.offset
    ensures forall e :: e in spans ==> InRange(|Splice(text, SPACE, last)|, e)
    ensures ReplacedFrom(Splice(text, SPACE, last), spans, last.offset) ==
        ReplacedFrom(text, spans + {last}, last.offset)
  {
    var all, i := spans + {last}, last.offset;
    SplicePrefix(text, last, spans);
    LastStarts(spans, last, |text|);
    hide Splice, ReplacedFrom, SpanAt, StartsAt, InRange;
    CopyRest(Splice(text, SPACE, last), spans, i);
    CopyRest(text, all, i + last.length);
    ReadStep(text, all, i);
  }

  lemma LastStarts(spans: set<Entity>, last: Entity, n: nat)
    requires InRange(n, last) && forall e :: e in spans ==> InRange(n, e) && e.offset + e.length <= last.offset
    ensures StartsAt(spans + {last}, last.offset) && SpanAt(spans + {last}, last.offset) == last
    ensures forall e :: e in spans ==> e.offset < last.offset
    ensures forall e :: e in spans + {last} ==> InRange(n, e) && e.offset < last.offset + last.length
    ensures 0 <= last.offset && last.offset + last.length <= n && last.length > 0
  {
    assert last in spans + {last};
  }

  /** Splicing out the last span first does not change what replacing the others does before it. */
  lemma {:induction false} SpliceLast(text: Text, spans: set<Entity>, last: Entity, i: nat)
    requires InRange(|text|, last) && i <= last.offset && AllApart(spans)
    requires forall e :: e in spans ==> InRange(|text|, e) && e.offset + e.length <= last.offset
    ensures forall e :: e in spans ==> InRange(|Splice(text, SPACE, last)|, e)
    ensures ReplacedFrom(Splice(text, SPACE, last), spans, i) == ReplacedFrom(text, spans + {last}, i)
    decreases last.offset - i
  {
    hide AllApart, Splice, Apart, ReplacedFrom, StartsAt;
    SpliceHere(text, spans, last);
    if i < last.offset {
      var less, all := Splice(text, SPACE, last), spans + {last};
      SplicePrefix(text, last, spans);
      StartsBefore(text, spans, last, i);
      ReadStep(text, all, i);
      ReadStep(less, spans, i);
      if StartsAt(spans, i) {
        SpliceLast(text, spans, last, i + SpanAt(spans, i).length);
      } else {
        assert less[i] == less[..last.offset][i] == text[..last.offset][i] == text[i];
        SpliceLast(text, spans, last, i + 1);
      }
    }
  }

  /** In descending order, every later span ends before the first one starts. */
  lemma RestEnds(text: Text, first: Entity, rest: seq<Entity>)
    requires Ascending([first] + rest, Backwards) && Disjoint(text, [first] + rest) && InRange(|text|, first)
    ensures forall e :: e in rest && InRange(|text|, e) ==> e.offset + e.length <= first.offset
    ensures Disjoint(text, rest) && Ascending(rest, Backwards)
  {
    var all := [first] + rest;
    assert forall j :: 0 <= j < |rest| ==> all[j + 1] == rest[j];
    forall e | e in rest && InRange(|text|, e) ensures e.offset + e.length <= first.offset {
      var j :| 0 <= j < |rest| && rest[j] == e;
      assert all[0] == first && all[j + 1] == e;
    }
  }

  lemma SetApart(text: Text, entities: seq<Entity>)
    requires Disjoint(text, entities)
    ensures AllApart(SpansOf(text, entities))
  {
    var spans := SpansOf(text, entities);
    forall e, f | e in spans && f in spans && e != f ensures Apart(e, f) {
      var i, j :| 0 <= i < |entities| && 0 <= j < |entities| && entities[i] == e && entities[j] == f;
    }
  }

  /** The spans that end before the one spliced out are the same in the shorter text. */
  lemma SpansStay(text: Text, first: Entity, rest: seq<Entity>)
    requires InRange(|text|, first) && Disjoint(text, rest)
    requires forall e :: e in rest && InRange(|text|, e) ==> e.offset + e.length <= first.offset
    ensures SpansOf(Splice(text, SPACE, first), rest) == SpansOf(text, rest)
    ensures Disjoint(Splice(text, SPACE, first), rest)
  {
    var less := Splice(text, SPACE, first);
    hide Splice, Apart;
    assert forall e :: e in rest ==> (InRange(|less|, e) <==> InRange(|text|, e));
  }

  lemma {:induction false} SpliceAllIsReplace(text: Text, entities: seq<Entity>)
    requires Ascending(entities, Backwards) && Disjoint(text, entities)
    ensures SpliceAll(text, SPACE, entities) == ReplacedFrom(text, SpansOf(text, entities), 0)
    decreases |entities|
  {
    if entities == [] {
      assert SpansOf(text, entities) == {};
      CopyRest(text, {}, 0);
    } else {
      var first, rest := entities[0], entities[1..];
      assert entities == [first] + rest;
      var less := Splice(text, SPACE, first);
      if InRange(|text|, first) {
        RestEnds(text, first, rest);
        SetApart(text, rest);
        SpansStay(text, first, rest);
        hide Disjoint, Splice, AllApart, Apart, ReplacedFrom;
        SpliceAllIsReplace(less, rest);
        assert SpansOf(text, entities) == SpansOf(text, rest) + {first};
        SpliceLast(text, SpansOf(text, rest), first, 0);
      } else {
        SpliceAllIsReplace(text, rest);
        assert SpansOf(text, entities) == SpansOf(text, rest);
      }
    }
  }

  /**
   * Main result: for targets whose in-range spans do not overlap, in any input order, splicing from the back
   * gives the text with each such span replaced by one space and every other code unit kept in order.
   */
  lemma SpliceIsReplace(text: Text, targets: seq<Entity>)
    requires Disjoint(text, targets)
    ensures SpliceAll(text, SPACE, SortDown(targets)) == ReplacedFrom(text, SpansOf(text, targets), 0)
  {
    var sorted := SortDown(targets);
    SortDownKeeps(text, targets);
    SortSorts(targets, Backwards);
    SameMembers(sorted, targets);
    assert SpansOf(text, sorted) == SpansOf(text, targets);
    SpliceAllIsReplace(text, sorted);
  }

  method StripEntities(text: Text, entities: seq<Entity>, cfg: Config) returns (stripped: Text)
    ensures stripped == SpliceAll(text, SPACE, SortDown(Targets(entities, cfg)))
    ensures Disjoint(text, Targets(entities, cfg)) ==>
      stripped == ReplacedFrom(text, SpansOf(text, Targets(entities, cfg)), 0)
  {
    var targets := [];
    for i := 0 to |entities|
      invariant targets == Targets(entities[..i], cfg)
    {
      assert entities[..i + 1][..i] == entities[..i];
      if ShouldDrop(entities[i], cfg) {
        targets := targets + [entities[i]];
      }
    }
    assert entities[..|entities|] == entities;
    hide Targets, ReplacedFrom, SpansOf, Disjoint, SortDown;
    stripped := SpliceBackwards(text, SortDown(targets));
    if Disjoint(text, targets) {
      SpliceIsReplace(text, targets);
    }
  }

  /** Replaces one span after the other, skipping those that do not fit what is left. */
  method SpliceBackwards(text: Text, ordered: seq<Entity>) returns (stripped: Text)
    ensures stripped == SpliceAll(text, SPACE, ordered)
  {
    stripped := text;
    for i := 0 to |ordered|
      invariant SpliceAll(stripped, SPACE, ordered[i..]) == SpliceAll(text, SPACE, ordered)
    {
      var start, end := ordered[i].offset, ordered[i].offset + ordered[i].length;
      assert ordered[i..][1..] == ordered[i + 1..];
      if !(start < 0 || end > |stripped| || start >= end) {
        stripped := stripped[..start] + [SPACE] + stripped[end..];
      }
    }
  }
}
