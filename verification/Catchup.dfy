/** Picking the recent source posts that were missed: albums stay together, the newest posts win. */
module Catchup {
  import opened Common
  import opened Sorting

  /** A message as the selection sees it; an `album` of 0 means none, an `id` of 0 means it has none. */
  datatype Message = Message(id: int, date: Option<int>, album: int, action: bool)

  datatype Key = Album(album: int) | Single(id: int)

  /** One entry of the dict of posts, in insertion order. */
  datatype Post = Post(key: Key, messages: seq<Message>)

  predicate IsEligible(m: Message, cutoff: int) {
    !m.action && m.id != 0 && m.date.Some? && m.date.value >= cutoff
  }

  function Eligible(messages: seq<Message>, cutoff: int): seq<Message> {
    if messages == [] then []
    else
      var front := Eligible(messages[..|messages| - 1], cutoff);
      var last := messages[|messages| - 1];
      if IsEligible(last, cutoff) then front + [last] else front
  }

  function KeyOf(m: Message): Key {
    if m.album != 0 then Album(m.album) else Single(m.id)
  }

  /** The messages of one post, in the order given. */
  function Members(messages: seq<Message>, key: Key): seq<Message> {
    if messages == [] then []
    else
      var front := Members(messages[..|messages| - 1], key);
      var last := messages[|messages| - 1];
      if KeyOf(last) == key then front + [last] else front
  }

  /** Index of the post with this key, or the number of posts. */
  function IndexOf(posts: seq<Post>, key: Key): (n: nat)
    ensures n <= |posts| && (n < |posts| ==> posts[n].key == key)
    ensures forall i :: 0 <= i < n ==> posts[i].key != key
  {
    if posts == [] || posts[0].key == key then 0 else 1 + IndexOf(posts[1..], key)
  }

  /** `posts.setdefault(key, []).append(m)` */
  function Filed(posts: seq<Post>, m: Message): seq<Post> {
    var n := IndexOf(posts, KeyOf(m));
    if n < |posts| then posts[n := Post(posts[n].key, posts[n].messages + [m])] else posts + [Post(KeyOf(m), [m])]
  }

  function Posts(messages: seq<Message>): seq<Post> {
    if messages == [] then [] else Filed(Posts(messages[..|messages| - 1]), messages[|messages| - 1])
  }

  function MinId(messages: seq<Message>): int {
    if messages == [] then 0
    else if |messages| == 1 then messages[0].id
    else
      var rest := MinId(messages[1..]);
      if messages[0].id <= rest then messages[0].id else rest
  }

  function IdOf(m: Message): int {
    m.id
  }

  function FirstId(p: Post): int {
    MinId(p.messages)
  }

  function Sorted(posts: seq<Post>): seq<seq<Message>> {
    seq(|posts|, i requires 0 <= i < |posts| => SortBy(posts[i].messages, IdOf))
  }

  /** The posts picked, before each is put in order. */
  function PickedPosts(messages: seq<Message>, cutoff: int, limit: int): seq<Post> {
    if limit <= 0 then [] else Last(SortBy(Posts(Eligible(messages, cutoff)), FirstId), limit)
  }

  // ---------------------------------------------------------------- which messages count

  /** A dated message of its own, no older than the cutoff. */
  ghost predicate Recent(m: Message, cutoff: int) {
    !m.action && m.id != 0 && exists date :: m.date == Some(date) && cutoff <= date
  }

  /** Taking out a message that does not count changes nothing. */
  lemma {:induction false} OthersIgnored(a: seq<Message>, m: Message, b: seq<Message>, cutoff: int)
    requires !Recent(m, cutoff)
    ensures Eligible(a + [m] + b, cutoff) == Eligible(a + b, cutoff)
  {
    hide Recent, IsEligible;
    if b == [] {
      EligibleIff(m, cutoff);
      assert (a + [m] + b)[..|a|] == a == a + b;
    } else {
      var front := b[..|b| - 1];
      assert (a + [m] + b)[..|a| + |b|] == a + [m] + front && (a + b)[..|a + b| - 1] == a + front;
      OthersIgnored(a, m, front, cutoff);
    }
  }

  lemma EligibleIff(m: Message, cutoff: int)
    ensures IsEligible(m, cutoff) <==> Recent(m, cutoff)
  {
  }

  /** Messages that count are all eligible, in the order given. */
  lemma {:induction false} RecentAre(messages: seq<Message>, cutoff: int)
    requires forall i :: 0 <= i < |messages| ==> Recent(messages[i], cutoff)
    ensures Eligible(messages, cutoff) == messages
  {
    if messages != [] {
      RecentAre(messages[..|messages| - 1], cutoff);
    }
  }

  /** Two messages belong to one post exactly when they are of one album, or are one message outside any album. */
  lemma SamePostIff(a: Message, b: Message)
    ensures KeyOf(a) == KeyOf(b) <==> a.album == b.album && (a.album == 0 ==> a.id == b.id)
  {
  }

  // ---------------------------------------------------------------- laws

  ghost predicate DistinctKeys(posts: seq<Post>) {
    forall i, j :: 0 <= i < j < |posts| ==> posts[i].key != posts[j].key
  }

  function KeysOf(messages: seq<Message>): set<Key> {
    set m | m in messages :: KeyOf(m)
  }

  lemma {:induction false} MembersAre(messages: seq<Message>, key: Key)
    ensures forall m :: m in Members(messages, key) <==> m in messages && KeyOf(m) == key
  {
    if messages != [] {
      assert messages == messages[..|messages| - 1] + [messages[|messages| - 1]];
      MembersAre(messages[..|messages| - 1], key);
    }
  }

  ghost predicate HoldMembers(posts: seq<Post>, messages: seq<Message>) {
    forall i :: 0 <= i < |posts| ==> posts[i].messages == Members(messages, posts[i].key)
  }

  function PostKeys(posts: seq<Post>): set<Key> {
    set i | 0 <= i < |posts| :: posts[i].key
  }

  /** One post a key, holding all messages of that key in order. */
  ghost predicate Grouped(posts: seq<Post>, messages: seq<Message>) {
    && DistinctKeys(posts) && HoldMembers(posts, messages)
    && PostKeys(posts) == KeysOf(messages) && |posts| == |KeysOf(messages)|
  }

  lemma KeysGrow(messages: seq<Message>, m: Message)
    ensures KeysOf(messages + [m]) == KeysOf(messages) + {KeyOf(m)}
  {
  }

  lemma MembersGrow(messages: seq<Message>, m: Message, key: Key)
    ensures Members(messages + [m], key) == Members(messages, key) + if KeyOf(m) == key then [m] else []
  {
    assert (messages + [m])[..|messages|] == messages;
  }

  lemma {:induction false} NoMembers(messages: seq<Message>, key: Key)
    requires key !in KeysOf(messages)
    ensures Members(messages, key) == []
  {
    if messages != [] {
      var front, last := messages[..|messages| - 1], messages[|messages| - 1];
      assert last in messages && KeysOf(front) <= KeysOf(messages);
      NoMembers(front, key);
    }
  }

  lemma KnownIff(posts: seq<Post>, key: Key)
    ensures IndexOf(posts, key) < |posts| <==> key in PostKeys(posts)
  {
  }

  lemma FiledKeys(posts: seq<Post>, m: Message)
    ensures PostKeys(Filed(posts, m)) == PostKeys(posts) + {KeyOf(m)}
    ensures DistinctKeys(posts) ==> DistinctKeys(Filed(posts, m))
  {
    var after, n := Filed(posts, m), IndexOf(posts, KeyOf(m));
    hide KeyOf;
    assert forall i :: 0 <= i < |posts| ==> after[i].key == posts[i].key;
    assert after[n].key == KeyOf(m);
    if n == |posts| {
      assert after == posts + [Post(KeyOf(m), [m])];
    }
  }

  lemma FiledMembers(posts: seq<Post>, messages: seq<Message>, m: Message)
    requires DistinctKeys(posts) && HoldMembers(posts, messages) && PostKeys(posts) == KeysOf(messages)
    ensures HoldMembers(Filed(posts, m), messages + [m])
  {
    var more, after, n := messages + [m], Filed(posts, m), IndexOf(posts, KeyOf(m));
    KnownIff(posts, KeyOf(m));
    if n == |posts| {
      NoMembers(messages, KeyOf(m));
    }
    hide Members, KeysOf, PostKeys, KeyOf;
    forall i | 0 <= i < |after| ensures after[i].messages == Members(more, after[i].key) {
      MembersGrow(messages, m, after[i].key);
    }
  }

  lemma FiledGrouped(posts: seq<Post>, messages: seq<Message>, m: Message)
    requires Grouped(posts, messages)
    ensures Grouped(Filed(posts, m), messages + [m])
  {
    FiledKeys(posts, m);
    FiledMembers(posts, messages, m);
    KeysGrow(messages, m);
    KnownIff(posts, KeyOf(m));
    hide DistinctKeys, HoldMembers, PostKeys, KeysOf, KeyOf;
  }

  lemma {:induction false} PostsGrouped(messages: seq<Message>)
    ensures Grouped(Posts(messages), messages)
  {
    if messages == [] {
      assert KeysOf(messages) == {} == PostKeys([]);
    } else {
      var front, last := messages[..|messages| - 1], messages[|messages| - 1];
      assert messages == front + [last];
      PostsGrouped(front);
      hide Grouped, Filed;
      FiledGrouped(Posts(front), front, last);
    }
  }

  lemma {:induction false} MinIsLeast(messages: seq<Message>)
    requires messages != []
    ensures exists m :: m in messages && m.id == MinId(messages)
    ensures forall m :: m in messages ==> MinId(messages) <= m.id
  {
    if |messages| == 1 {
      assert messages[0] in messages;
    } else {
      var rest := messages[1..];
      assert messages == [messages[0]] + rest;
      MinIsLeast(rest);
      var least :| least in rest && least.id == MinId(rest);
      assert least in messages && messages[0] in messages;
    }
  }

  /** A sorted group starts with its smallest id. */
  lemma SortedStart(messages: seq<Message>)
    requires messages != []
    ensures var sorted := SortBy(messages, IdOf);
            sorted != [] && Ascending(sorted, IdOf) && multiset(sorted) == multiset(messages) &&
                sorted[0].id == MinId(messages)
  {
    var sorted := SortBy(messages, IdOf);
    SortSorts(messages, IdOf);
    SameMembers(sorted, messages);
    MinIsLeast(messages);
    hide SortBy, MinId;
    assert sorted[0] in sorted;
    var least :| least in messages && least.id == MinId(messages);
    assert least in sorted;
    var i :| 0 <= i < |sorted| && sorted[i] == least;
    assert IdOf(sorted[0]) <= IdOf(sorted[i]);
  }

  lemma NonEmptyPost(posts: seq<Post>, messages: seq<Message>, i: nat)
    requires HoldMembers(posts, messages) && PostKeys(posts) == KeysOf(messages) && i < |posts|
    ensures posts[i].messages != []
  {
    assert posts[i].key in PostKeys(posts);
    var m :| m in messages && KeyOf(m) == posts[i].key;
    MembersAre(messages, posts[i].key);
    assert m in posts[i].messages;
  }

  lemma SamePosts(a: seq<Post>, b: seq<Post>, messages: seq<Message>)
    requires (forall p :: p in a <==> p in b) && HoldMembers(b, messages)
    ensures PostKeys(a) == PostKeys(b) && HoldMembers(a, messages)
  {
    hide Members;
    forall i | 0 <= i < |a| ensures a[i].key in PostKeys(b) && a[i].messages == Members(messages, a[i].key) {
      assert a[i] in a;
      var j :| 0 <= j < |b| && b[j] == a[i];
    }
    forall j | 0 <= j < |b| ensures b[j].key in PostKeys(a) {
      assert b[j] in b;
      var i :| 0 <= i < |a| && a[i] == b[j];
    }
  }

  /** Posts in order of their first id, grouping the messages. */
  ghost predicate InOrder(posts: seq<Post>, messages: seq<Message>) {
    && Ascending(posts, FirstId) && DistinctKeys(posts) && HoldMembers(posts, messages)
    && forall i :: 0 <= i < |posts| ==> posts[i].messages != []
  }

  /** Sorting the posts keeps them grouped. */
  lemma SortedPosts(posts: seq<Post>, messages: seq<Message>)
    requires Grouped(posts, messages)
    ensures var sorted := SortBy(posts, FirstId);
            |sorted| == |posts| && InOrder(sorted, messages) && PostKeys(sorted) == KeysOf(messages)
  {
    var sorted := SortBy(posts, FirstId);
    SortSorts(posts, FirstId);
    SameMembers(sorted, posts);
    hide SortBy, FirstId, Members, KeysOf, PostKeys, HoldMembers, DistinctKeys, Ascending;
    SamePosts(sorted, posts, messages);
    KeysDistinct(sorted);
    forall i | 0 <= i < |sorted| ensures sorted[i].messages != [] {
      NonEmptyPost(sorted, messages, i);
    }
  }

  lemma LastKey(front: seq<Post>, last: Post)
    ensures PostKeys(front + [last]) == PostKeys(front) + {last.key}
  {
    var all := front + [last];
    assert all[|front|] == last && forall i :: 0 <= i < |front| ==> all[i] == front[i];
  }

  /** As many keys as posts: no key twice. */
  lemma {:induction false} KeysDistinct(posts: seq<Post>)
    ensures |PostKeys(posts)| <= |posts|
    ensures |PostKeys(posts)| == |posts| ==> DistinctKeys(posts)
  {
    if posts == [] {
      assert PostKeys(posts) == {};
    } else {
      var front, last := posts[..|posts| - 1], posts[|posts| - 1];
      KeysDistinct(front);
      LastKey(front, last);
      assert posts == front + [last];
    }
  }

  /** As many groups as posts, up to the limit; each group a whole post. */
  ghost predicate Complete(groups: seq<seq<Message>>, eligible: seq<Message>, limit: nat) {
    && |groups| == (if |KeysOf(eligible)| < limit then |KeysOf(eligible)| else limit)
    && forall i :: 0 <= i < |groups| ==> Whole(groups[i], eligible)
  }

  /** Different posts, by smallest id. */
  ghost predicate OldestFirst(groups: seq<seq<Message>>)
    requires forall i :: 0 <= i < |groups| ==> groups[i] != []
  {
    forall i, j :: 0 <= i < j < |groups| ==>
        KeyOf(groups[i][0]) != KeyOf(groups[j][0]) && groups[i][0].id <= groups[j][0].id
  }

  /** A message left out belongs to a post no younger than any group. */
  ghost predicate NewestKept(groups: seq<seq<Message>>, eligible: seq<Message>)
    requires forall i :: 0 <= i < |groups| ==> groups[i] != []
  {
    forall m, i :: m in eligible && 0 <= i < |groups| && (forall k :: 0 <= k < |groups| ==> m !in groups[k]) ==>
      Predates(eligible, KeyOf(m), groups[i][0].id)
  }

  /** What the selection promises about the groups it returns. */
  ghost predicate Selection(groups: seq<seq<Message>>, eligible: seq<Message>, limit: nat) {
    Complete(groups, eligible, limit) && OldestFirst(groups) && NewestKept(groups, eligible)
  }

  /** All eligible messages of one post, in order of id. */
  ghost predicate Whole(group: seq<Message>, eligible: seq<Message>) {
    group != [] && Ascending(group, IdOf) && multiset(group) == multiset(Members(eligible, KeyOf(group[0])))
  }

  /** The post with this key has a message no younger than `id`. */
  ghost predicate Predates(eligible: seq<Message>, key: Key, id: int) {
    exists m :: m in eligible && KeyOf(m) == key && m.id <= id
  }

  lemma GroupIsWhole(p: Post, eligible: seq<Message>)
    requires p.messages == Members(eligible, p.key) && p.messages != []
    ensures var group := SortBy(p.messages, IdOf);
            Whole(group, eligible) && KeyOf(group[0]) == p.key && group[0].id == FirstId(p)
  {
    var group := SortBy(p.messages, IdOf);
    SortedStart(p.messages);
    SameMembers(group, p.messages);
    MembersAre(eligible, p.key);
    hide SortBy, Members, MinId;
    assert group[0] in group;
  }

  lemma SuffixDistinct(posts: seq<Post>, cut: nat)
    requires DistinctKeys(posts) && cut <= |posts|
    ensures DistinctKeys(posts[cut..])
  {
    forall i, j | 0 <= i < j < |posts| - cut ensures posts[cut..][i].key != posts[cut..][j].key {
      assert posts[cut + i].key != posts[cut + j].key;
    }
  }

  lemma SuffixAscends(posts: seq<Post>, cut: nat)
    requires Ascending(posts, FirstId) && cut <= |posts|
    ensures Ascending(posts[cut..], FirstId)
  {
    hide FirstId;
    forall i, j | 0 <= i < j < |posts| - cut ensures FirstId(posts[cut..][i]) <= FirstId(posts[cut..][j]) {
      assert FirstId(posts[cut + i]) <= FirstId(posts[cut + j]);
    }
  }

  lemma LastInOrder(sorted: seq<Post>, eligible: seq<Message>, limit: nat)
    requires InOrder(sorted, eligible)
    ensures InOrder(Last(sorted, limit), eligible)
  {
    var cut := if |sorted| <= limit then 0 else |sorted| - limit;
    assert Last(sorted, limit) == sorted[cut..];
    SuffixDistinct(sorted, cut);
    SuffixAscends(sorted, cut);
    hide Members, FirstId, Ascending, DistinctKeys, Last;
  }

  /** Putting each picked post in order gives whole groups, one a post, oldest first. */
  lemma GroupsAreWhole(picked: seq<Post>, eligible: seq<Message>)
    requires InOrder(picked, eligible)
    ensures var groups := Sorted(picked);
      && |groups| == |picked|
      && (forall i :: 0 <= i < |groups| ==> Whole(groups[i], eligible) && groups[i][0].id == FirstId(picked[i]))
      && (forall i, m :: 0 <= i < |groups| ==> (m in groups[i] <==> m in picked[i].messages))
      && (forall i, j :: 0 <= i < j < |groups| ==>
          KeyOf(groups[i][0]) != KeyOf(groups[j][0]) && groups[i][0].id <= groups[j][0].id)
  {
    var groups := Sorted(picked);
    hide SortBy, Members, FirstId, KeyOf, Whole;
    forall i | 0 <= i < |picked|
      ensures Whole(groups[i], eligible) && groups[i] != [] && KeyOf(groups[i][0]) == picked[i].key &&
          groups[i][0].id == FirstId(picked[i])
      ensures forall m :: m in groups[i] <==> m in picked[i].messages
    {
      GroupIsWhole(picked[i], eligible);
      SortSorts(picked[i].messages, IdOf);
      SameMembers(groups[i], picked[i].messages);
    }
    forall i, j | 0 <= i < j < |groups| ensures groups[i][0].id <= groups[j][0].id &&
        KeyOf(groups[i][0]) != KeyOf(groups[j][0]) {
      assert FirstId(picked[i]) <= FirstId(picked[j]);
    }
  }

  lemma KeyPost(posts: seq<Post>, key: Key) returns (n: nat)
    requires key in PostKeys(posts)
    ensures n < |posts| && posts[n].key == key
  {
    n :| 0 <= n < |posts| && posts[n].key == key;
  }

  /** A post that did not make it is no younger than any post that did. */
  lemma LeftOut(sorted: seq<Post>, eligible: seq<Message>, limit: nat, m: Message, i: nat)
    requires InOrder(sorted, eligible) && PostKeys(sorted) == KeysOf(eligible)
    requires m in eligible && i < |Last(sorted, limit)|
    requires forall k :: 0 <= k < |Last(sorted, limit)| ==> m !in Last(sorted, limit)[k].messages
    ensures Predates(eligible, KeyOf(m), FirstId(Last(sorted, limit)[i]))
  {
    var picked := Last(sorted, limit);
    var cut := |sorted| - |picked|;
    assert KeyOf(m) in KeysOf(eligible);
    MembersAre(eligible, KeyOf(m));
    hide Members, KeysOf, PostKeys, KeyOf;
    var n := KeyPost(sorted, KeyOf(m));
    assert m in sorted[n].messages;
    assert forall k :: 0 <= k < |picked| ==> picked[k] == sorted[cut + k];
    assert n < cut + i;
    assert FirstId(sorted[n]) <= FirstId(sorted[cut + i]);
    MinIsLeast(sorted[n].messages);
    var least :| least in sorted[n].messages && least.id == MinId(sorted[n].messages);
    assert least in eligible && KeyOf(least) == KeyOf(m);
  }

  /**
   * Main result: the selection returns the newest posts, at most `limit` of them, oldest first; each post whole
   * and in order; and every eligible message left out belongs to a post no younger than any returned one.
   */
  lemma SelectionHolds(messages: seq<Message>, cutoff: int, limit: nat)
    ensures Selection(Sorted(PickedPosts(messages, cutoff, limit)), Eligible(messages, cutoff), limit)
  {
    var eligible := Eligible(messages, cutoff);
    var posts := Posts(eligible);
    PostsGrouped(eligible);
    SortedPosts(posts, eligible);
    var sorted := SortBy(posts, FirstId);
    hide SortBy, FirstId, Members, KeysOf, PostKeys, HoldMembers, DistinctKeys, Ascending, Eligible, Posts, KeyOf,
      Whole, InOrder, Predates, Sorted, NewestKept;
    var picked := PickedPosts(messages, cutoff, limit);
    assert picked == Last(sorted, limit);
    LastInOrder(sorted, eligible, limit);
    GroupsAreWhole(picked, eligible);
    var groups := Sorted(picked);
    assert Complete(groups, eligible, limit) && OldestFirst(groups);
    KeptIsNewest(sorted, eligible, limit);
  }

  lemma KeptIsNewest(sorted: seq<Post>, eligible: seq<Message>, limit: nat)
    requires InOrder(sorted, eligible) && PostKeys(sorted) == KeysOf(eligible)
    ensures (forall i :: 0 <= i < |Sorted(Last(sorted, limit))| ==> Sorted(Last(sorted, limit))[i] != [])
    ensures NewestKept(Sorted(Last(sorted, limit)), eligible)
  {
    hide SortBy, FirstId, Members, KeysOf, PostKeys, InOrder, KeyOf, Predates, Sorted, Last;
    var picked := Last(sorted, limit);
    LastInOrder(sorted, eligible, limit);
    GroupsAreWhole(picked, eligible);
    var groups: seq<seq<Message>> := Sorted(picked);
    forall m, i | m in eligible && 0 <= i < |groups| && (forall k :: 0 <= k < |groups| ==> m !in groups[k])
      ensures Predates(eligible, KeyOf(m), groups[i][0].id)
    {
      LeftOut(sorted, eligible, limit, m, i);
    }
  }

  method FilePost(posts: seq<Post>, m: Message) returns (after: seq<Post>)
    ensures after == Filed(posts, m)
  {
    hide KeyOf;
    var key := KeyOf(m);
    var n := 0;
    while n < |posts| && posts[n].key != key
      invariant n <= |posts| && IndexOf(posts, key) == n + IndexOf(posts[n..], key)
    {
      assert posts[n..][1..] == posts[n + 1..];
      n := n + 1;
    }
    if n < |posts| {
      after := posts[n := Post(posts[n].key, posts[n].messages + [m])];
    } else {
      after := posts + [Post(key, [m])];
    }
  }

  lemma PostsGrow(messages: seq<Message>, m: Message)
    ensures Posts(messages + [m]) == Filed(Posts(messages), m)
  {
    hide Filed;
    assert (messages + [m])[..|messages|] == messages;
  }

  method SelectCatchupPosts(messages: seq<Message>, cutoff: int, limit: int) returns (picked: seq<seq<Message>>)
    ensures picked == Sorted(PickedPosts(messages, cutoff, limit))
    ensures Selection(picked, Eligible(messages, cutoff), if limit < 0 then 0 else limit)
  {
    hide SortBy, Selection, FirstId, KeyOf, Filed, Posts;
    SelectionHolds(messages, cutoff, if limit < 0 then 0 else limit);
    NoPosts();
    if limit <= 0 || messages == [] {
      return [];
    }
    var posts := [];
    for i := 0 to |messages|
      invariant posts == Posts(Eligible(messages[..i], cutoff))
    {
      var m := messages[i];
      assert messages[..i + 1][..i] == messages[..i];
      PostsGrow(Eligible(messages[..i], cutoff), m);
      if m.action || m.id == 0 || m.date.None? || m.date.value < cutoff {
        continue;
      }
      posts := FilePost(posts, m);
    }
    assert messages[..|messages|] == messages;
    var ordered := Last(SortBy(posts, FirstId), limit);
    picked := [];
    for i := 0 to |ordered|
      invariant picked == Sorted(ordered[..i])
    {
      picked := picked + [SortBy(ordered[i].messages, IdOf)];
    }
    assert ordered[..|ordered|] == ordered;
  }

  lemma NoPosts()
    ensures Posts([]) == [] && SortBy(Posts([]), FirstId) == []
  {
  }
}
