/** Runs of claims on one marker bucket: once-only up to an eviction that needs 200 other claims. */
module MarkerRuns {
  import opened Common
  import opened PromoQueue
  import opened Sorting

  /** One claim that reaches the bucket: a marker key and the time of the claim. */
  datatype Claim = Claim(key: string, at: int)

  ghost predicate DistinctKeys(markers: seq<Marker>) {
    forall i, j :: 0 <= i < j < |markers| ==> markers[i].key != markers[j].key
  }

  /** A bucket as the claims leave it: oldest first, one entry a key, bounded, nothing from the future. */
  ghost predicate Bucket(markers: seq<Marker>, clock: int) {
    && Ascending(markers, TimeOf) && DistinctKeys(markers) && |markers| <= MAX_MARKERS
    && forall i :: 0 <= i < |markers| ==> markers[i].at <= clock
  }

  /** The claims happen in the order of a clock that never runs backwards. */
  ghost predicate Timed(clock: int, claims: seq<Claim>) {
    && (forall i :: 0 <= i < |claims| ==> clock <= claims[i].at)
    && forall i, j :: 0 <= i < j < |claims| ==> claims[i].at <= claims[j].at
  }

  function Clock(clock: int, claims: seq<Claim>): int {
    if claims == [] then clock else claims[|claims| - 1].at
  }

  function After(markers: seq<Marker>, claims: seq<Claim>): seq<Marker> {
    if claims == [] then markers
    else
      var last := claims[|claims| - 1];
      ClaimMarkers(After(markers, claims[..|claims| - 1]), last.key, last.at)
  }

  /** The `i`-th claim is told True. */
  predicate Won(markers: seq<Marker>, claims: seq<Claim>, i: nat)
    requires i < |claims|
  {
    !Marked(After(markers, claims[..i]), claims[i].key)
  }

  /** The keys of the claims told True from the `i`-th to before the `j`-th. */
  function WonKeys(markers: seq<Marker>, claims: seq<Claim>, i: nat, j: nat): set<string>
    requires j <= |claims|
  {
    set k | i <= k < j && Won(markers, claims, k) :: claims[k].key
  }

  function Newest(markers: seq<Marker>): Marker
    requires markers != []
  {
    markers[|markers| - 1]
  }

  /** A claim appends a marker, then drops the oldest 101 when there are 301. */
  lemma ClaimAppends(markers: seq<Marker>, clock: int, key: string, now: int)
    requires Bucket(markers, clock) && clock <= now
    ensures ClaimMarkers(markers, key, now) ==
      if Marked(markers, key) then markers
      else if |markers| < MAX_MARKERS then markers + [Marker(key, now)]
      else (markers + [Marker(key, now)])[|markers| + 1 - KEPT_MARKERS..]
  {
    var all := markers + [Marker(key, now)];
    assert Ascending(all, TimeOf);
    SortedIsFixed(all, TimeOf);
    hide SortBy;
  }

  /** Whatever the clock did, the claim that makes 301 markers leaves the 200 newest. */
  lemma EvictsOldest(markers: seq<Marker>, key: string, now: int)
    requires |markers| == 300 && !Marked(markers, key)
    ensures var all, after := markers + [Marker(key, now)], ClaimMarkers(markers, key, now);
            && |after| == 200 && multiset(after) <= multiset(all)
            && forall x, y :: x in all && x !in after && y in after ==> x.at <= y.at
  {
    var all := markers + [Marker(key, now)];
    var sorted := SortBy(all, TimeOf);
    var after := ClaimMarkers(markers, key, now);
    SortSorts(all, TimeOf);
    SameMembers(sorted, all);
    assert after == sorted[101..];
    hide ClaimMarkers, SortBy, Ascending;
    assert sorted == sorted[..101] + after;
    CutAscends(sorted, 101);
  }

  lemma CutAscends(sorted: seq<Marker>, n: nat)
    requires Ascending(sorted, TimeOf) && n <= |sorted|
    ensures forall x, y :: x in sorted[..n] && y in sorted[n..] ==> x.at <= y.at
  {
    forall x, y | x in sorted[..n] && y in sorted[n..] ensures x.at <= y.at {
      var i :| 0 <= i < n && sorted[i] == x;
      var j :| 0 <= j < |sorted| - n && sorted[n..][j] == y;
      assert TimeOf(sorted[i]) <= TimeOf(sorted[n + j]);
    }
  }

  lemma AppendToBucket(markers: seq<Marker>, clock: int, key: string, now: int)
    requires Bucket(markers, clock) && clock <= now && !Marked(markers, key) && |markers| < MAX_MARKERS
    ensures Bucket(markers + [Marker(key, now)], now)
  {
  }

  lemma DropFromBucket(markers: seq<Marker>, clock: int, key: string, now: int, n: nat)
    requires Bucket(markers, clock) && clock <= now && !Marked(markers, key) && 1 <= n <= |markers|
    ensures Bucket((markers + [Marker(key, now)])[n..], now)
  {
    var kept := markers[n..];
    assert kept + [Marker(key, now)] == (markers + [Marker(key, now)])[n..];
    assert Bucket(kept, now) && !Marked(kept, key);
    AppendToBucket(kept, now, key, now);
  }

  lemma ClaimKeepsBucket(markers: seq<Marker>, clock: int, key: string, now: int)
    requires Bucket(markers, clock) && clock <= now
    ensures Bucket(ClaimMarkers(markers, key, now), now)
    ensures !Marked(markers, key) ==>
        ClaimMarkers(markers, key, now) != [] && Newest(ClaimMarkers(markers, key, now)).key == key
  {
    ClaimAppends(markers, clock, key, now);
    if !Marked(markers, key) {
      if |markers| < MAX_MARKERS {
        AppendToBucket(markers, clock, key, now);
      } else {
        DropFromBucket(markers, clock, key, now, |markers| + 1 - KEPT_MARKERS);
      }
      hide ClaimMarkers, Bucket;
    } else {
      hide ClaimMarkers;
    }
  }

  lemma {:induction false} RunKeepsBucket(markers: seq<Marker>, clock: int, claims: seq<Claim>)
    requires Bucket(markers, clock) && Timed(clock, claims)
    ensures Bucket(After(markers, claims), Clock(clock, claims))
  {
    if claims != [] {
      var front := claims[..|claims| - 1];
      RunKeepsBucket(markers, clock, front);
      hide ClaimMarkers, Bucket;
      assert Clock(clock, front) <= claims[|claims| - 1].at;
      ClaimKeepsBucket(After(markers, front), Clock(clock, front), claims[|claims| - 1].key, claims[|claims| - 1].at);
    }
  }

  /** The marker of `key` sits at `p`, and every later marker was claimed since. */
  ghost predicate KeptAt(markers: seq<Marker>, key: string, since: set<string>, p: nat) {
    p < |markers| && markers[p].key == key && forall q :: p < q < |markers| ==> markers[q].key in since
  }

  /** The marker of `key` is still there, or 200 other keys were claimed since. */
  ghost predicate KeptOr(markers: seq<Marker>, key: string, since: set<string>) {
    (exists p: nat :: KeptAt(markers, key, since, p)) || |since - {key}| >= KEPT_MARKERS
  }

  function Keys(markers: seq<Marker>): set<string> {
    set i | 0 <= i < |markers| :: markers[i].key
  }

  lemma {:induction false} KeysSize(markers: seq<Marker>)
    requires DistinctKeys(markers)
    ensures |Keys(markers)| == |markers|
  {
    if markers != [] {
      var front, last := markers[..|markers| - 1], markers[|markers| - 1];
      KeysSize(front);
      assert Keys(markers) == Keys(front) + {last.key} by {
        forall i | 0 <= i < |front| ensures front[i].key in Keys(markers) {
          assert markers[i] == front[i];
        }
      }
      assert last.key !in Keys(front);
    }
  }

  /** Distinct claimed keys after position `p` are a lower bound on the keys claimed. */
  lemma ManySince(markers: seq<Marker>, key: string, since: set<string>, p: nat)
    requires DistinctKeys(markers) && KeptAt(markers, key, since, p) && |markers| - p > KEPT_MARKERS
    ensures |since - {key}| >= KEPT_MARKERS
  {
    var later := markers[p + 1..];
    KeysSize(later);
    SubsetSize(Keys(later), since - {key});
  }

  lemma GoneMeansMany(markers: seq<Marker>, key: string, since: set<string>)
    requires KeptOr(markers, key, since) && !Marked(markers, key)
    ensures |since - {key}| >= KEPT_MARKERS
  {
  }

  /** Dropping the oldest markers keeps the one of `key`, or leaves 200 others claimed since. */
  lemma CutKeepsKept(markers: seq<Marker>, key: string, since: set<string>, p: nat, cut: nat)
    requires DistinctKeys(markers) && KeptAt(markers, key, since, p) && cut <= |markers|
    requires cut == 0 || |markers| - cut == KEPT_MARKERS
    ensures KeptOr(markers[cut..], key, since)
  {
    if p < cut {
      ManySince(markers, key, since, p);
    } else {
      assert KeptAt(markers[cut..], key, since, p - cut);
    }
  }

  /** One more claim keeps the marker, or evicts it after 200 others. */
  lemma ClaimKeepsKept(markers: seq<Marker>, clock: int, key: string, since: set<string>, claim: Claim)
    requires Bucket(markers, clock) && clock <= claim.at && KeptOr(markers, key, since)
    ensures var more := if Marked(markers, claim.key) then since else since + {claim.key};
            KeptOr(ClaimMarkers(markers, claim.key, claim.at), key, more)
  {
    var more, all := since + {claim.key}, markers + [Marker(claim.key, claim.at)];
    ClaimAppends(markers, clock, claim.key, claim.at);
    hide ClaimMarkers, SortBy;
    if !Marked(markers, claim.key) {
      if p: nat :| KeptAt(markers, key, since, p) {
        assert DistinctKeys(all);
        assert KeptAt(all, key, more, p);
        hide Marked, DistinctKeys, Ascending, KeptAt;
        CutKeepsKept(all, key, more, p, if |markers| < MAX_MARKERS then 0 else |all| - KEPT_MARKERS);
        assert all[0..] == all;
      } else {
        SubsetSize(since - {key}, more - {key});
      }
    }
  }

  lemma MoreWon(markers: seq<Marker>, claims: seq<Claim>, i: nat, j: nat)
    requires i < j <= |claims|
    ensures WonKeys(markers, claims, i, j) ==
      if Won(markers, claims, j - 1) then WonKeys(markers, claims, i, j - 1) + {claims[j - 1].key}
      else WonKeys(markers, claims, i, j - 1)
  {
    hide Won;
  }

  lemma NewestKept(markers: seq<Marker>, key: string, since: set<string>)
    requires markers != [] && Newest(markers).key == key
    ensures KeptOr(markers, key, since)
  {
    assert KeptAt(markers, key, since, |markers| - 1);
  }

  /** The state around the `j`-th claim. */
  lemma LastClaim(markers: seq<Marker>, clock: int, claims: seq<Claim>, j: nat)
    requires Bucket(markers, clock) && Timed(clock, claims) && 1 <= j <= |claims|
    ensures Bucket(After(markers, claims[..j - 1]), Clock(clock, claims[..j - 1]))
    ensures Clock(clock, claims[..j - 1]) <= claims[j - 1].at
    ensures After(markers, claims[..j]) ==
              ClaimMarkers(After(markers, claims[..j - 1]), claims[j - 1].key, claims[j - 1].at)
  {
    hide Bucket, ClaimMarkers;
    assert claims[..j][..j - 1] == claims[..j - 1];
    RunKeepsBucket(markers, clock, claims[..j - 1]);
  }

  /** What is kept before the `j`-th claim is kept after it, with its key among those claimed when it won. */
  lemma KeptOneMore(markers: seq<Marker>, clock: int, claims: seq<Claim>, key: string, from: nat, j: nat)
    requires Bucket(markers, clock) && Timed(clock, claims) && from < j <= |claims|
    requires KeptOr(After(markers, claims[..j - 1]), key, WonKeys(markers, claims, from, j - 1))
    ensures KeptOr(After(markers, claims[..j]), key, WonKeys(markers, claims, from, j))
  {
    LastClaim(markers, clock, claims, j);
    MoreWon(markers, claims, from, j);
    hide ClaimMarkers, Bucket, Timed, Clock, After, KeptOr, WonKeys, Marked;
    ClaimKeepsKept(After(markers, claims[..j - 1]), Clock(clock, claims[..j - 1]), key,
                   WonKeys(markers, claims, from, j - 1), claims[j - 1]);
  }

  lemma {:induction false} KeptSince(markers: seq<Marker>, clock: int, claims: seq<Claim>, i: nat, j: nat)
    requires Bucket(markers, clock) && Timed(clock, claims) && i < j <= |claims| && Won(markers, claims, i)
    ensures KeptOr(After(markers, claims[..j]), claims[i].key, WonKeys(markers, claims, i + 1, j))
    decreases j
  {
    hide ClaimMarkers, Bucket, Timed, Clock, After, KeptOr, WonKeys, Marked;
    var key := claims[i].key;
    if j == i + 1 {
      LastClaim(markers, clock, claims, j);
      ClaimKeepsBucket(After(markers, claims[..i]), Clock(clock, claims[..i]), key, claims[i].at);
      NewestKept(After(markers, claims[..j]), key, WonKeys(markers, claims, i + 1, j));
    } else {
      KeptSince(markers, clock, claims, i, j - 1);
      KeptOneMore(markers, clock, claims, key, i + 1, j);
    }
  }

  /**
   * Main result: the bucket never holds more than 300 markers, and between two claims of one key that are both
   * told True, at least 200 other keys were claimed.
   */
  lemma OnceOnly(markers: seq<Marker>, clock: int, claims: seq<Claim>, i: nat, j: nat)
    requires Bucket(markers, clock) && Timed(clock, claims)
    requires i < j < |claims| && claims[i].key == claims[j].key
    requires Won(markers, claims, i) && Won(markers, claims, j)
    ensures |WonKeys(markers, claims, i + 1, j) - {claims[i].key}| >= 200
    ensures |After(markers, claims)| <= 300
  {
    RunKeepsBucket(markers, clock, claims);
    KeptSince(markers, clock, claims, i, j);
    hide After, WonKeys, Bucket;
    GoneMeansMany(After(markers, claims[..j]), claims[i].key, WonKeys(markers, claims, i + 1, j));
  }
}
