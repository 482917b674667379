/** Python's ordering of text by code points, and `sorted` of a set of texts. */
module TextOrder {
  import opened Common

  /** `a <= b` for Python strings. */
  predicate Le(a: string, b: string) {
    a == [] || (b != [] && (a[0] < b[0] || (a[0] == b[0] && Le(a[1..], b[1..]))))
  }

  lemma {:induction false} LeTotal(a: string, b: string)
    ensures Le(a, b) || Le(b, a)
  {
    if a != [] && b != [] && a[0] == b[0] {
      LeTotal(a[1..], b[1..]);
    }
  }

  lemma {:induction false} LeAntisymmetric(a: string, b: string)
    requires Le(a, b) && Le(b, a)
    ensures a == b
  {
    if a != [] {
      LeAntisymmetric(a[1..], b[1..]);
      assert a == [a[0]] + a[1..] && b == [b[0]] + b[1..];
    }
  }

  lemma {:induction false} LeTransitive(a: string, b: string, c: string)
    requires Le(a, b) && Le(b, c)
    ensures Le(a, c)
  {
    if a != [] && a[0] == b[0] && b[0] == c[0] {
      LeTransitive(a[1..], b[1..], c[1..]);
    }
  }

  predicate Lt(a: string, b: string) {
    Le(a, b) && a != b
  }

  /** The texts agree up to `n`, and there `a` ends or has the smaller character. */
  predicate DiffersAt(a: string, b: string, n: nat) {
    && n <= |a| && n < |b| && a[..n] == b[..n]
    && (n == |a| || a[n] < b[n])
  }

  /** One text precedes another exactly when it ends, or has the smaller character, where they first differ. */
  lemma {:induction false} LtIff(a: string, b: string)
    ensures Lt(a, b) <==> exists n: nat :: DiffersAt(a, b, n)
  {
    if Lt(a, b) {
      var n := FirstDifference(a, b);
    }
    if n: nat :| DiffersAt(a, b, n) {
      DifferenceOrders(a, b, n);
    }
  }

  lemma {:induction false} FirstDifference(a: string, b: string) returns (n: nat)
    requires Lt(a, b)
    ensures DiffersAt(a, b, n)
  {
    n := 0;
    if a != [] && a[0] == b[0] {
      assert a == [a[0]] + a[1..] && b == [b[0]] + b[1..];
      var m := FirstDifference(a[1..], b[1..]);
      n := m + 1;
      assert a[..n] == [a[0]] + a[1..][..m] && b[..n] == [b[0]] + b[1..][..m];
    }
  }

  lemma {:induction false} DifferenceOrders(a: string, b: string, n: nat)
    requires DiffersAt(a, b, n)
    ensures Lt(a, b)
  {
    if n > 0 {
      assert a[..n][0] == a[0] && b[..n][0] == b[0];
      assert a[1..][..n - 1] == a[..n][1..] && b[1..][..n - 1] == b[..n][1..];
      DifferenceOrders(a[1..], b[1..], n - 1);
    }
  }

  /** The texts of `ids` that come strictly before `a`. */
  ghost function Below(ids: set<string>, a: string): set<string> {
    set b | b in ids && Lt(b, a)
  }

  /** Strictly increasing: the shape of `sorted({...})`. */
  ghost predicate Ascending(s: seq<string>) {
    forall i, j :: 0 <= i < j < |s| ==> Lt(s[i], s[j])
  }

  /** Insert into an ascending list, keeping one copy. */
  function Insert(x: string, s: seq<string>): (r: seq<string>)
    ensures forall y :: y in r <==> y == x || y in s
    ensures Ascending(s) ==> Ascending(r)
  {
    if s == [] then [x]
    else if x == s[0] then s
    else if Le(x, s[0]) then
      assert Ascending(s) ==> Ascending([x] + s) by {
        if Ascending(s) {
          forall j | 0 <= j < |s| ensures Lt(x, s[j]) {
            if j > 0 {
              LeTransitive(x, s[0], s[j]);
              if x == s[j] { LeAntisymmetric(x, s[0]); }
            }
          }
        }
      }
      [x] + s
    else
      var r := [s[0]] + Insert(x, s[1..]);
      assert Ascending(s) ==> Ascending(r) by {
        if Ascending(s) {
          LeTotal(x, s[0]);
          forall j | 0 <= j < |r| - 1 ensures Lt(s[0], Insert(x, s[1..])[j]) {
            assert Insert(x, s[1..])[j] in Insert(x, s[1..]);
          }
        }
      }
      r
  }

  /** `sorted(set(s))`. */
  function SortedSet(s: seq<string>): (r: seq<string>)
    ensures forall y :: y in r <==> y in s
    ensures Ascending(r)
  {
    if s == [] then [] else Insert(s[0], SortedSet(s[1..]))
  }

  ghost function Members(s: seq<string>): set<string> {
    set x | x in s
  }

  lemma {:induction false} AscendingSize(s: seq<string>)
    requires Ascending(s)
    ensures |Members(s)| == |s|
  {
    if s != [] {
      var front, last := s[..|s| - 1], s[|s| - 1];
      AscendingSize(front);
      assert s == front + [last];
      assert Members(s) == Members(front) + {last};
      assert last !in front;
    }
  }

  /** In an ascending list the place of a text is the number of texts before it. */
  lemma PlaceIsRank(s: seq<string>, i: nat)
    requires Ascending(s) && i < |s|
    ensures |Below(Members(s), s[i])| == i
  {
    AscendingSize(s[..i]);
    forall x ensures x in Below(Members(s), s[i]) <==> x in Members(s[..i]) {
      if x in s && Lt(x, s[i]) {
        var j :| 0 <= j < |s| && s[j] == x;
        if j > i {
          LeAntisymmetric(x, s[i]);
        }
        assert j < i && s[..i][j] == x;
      }
      if x in s[..i] {
        var j :| 0 <= j < i && s[..i][j] == x;
        assert s[j] == x;
      }
    }
    assert Below(Members(s), s[i]) == Members(s[..i]);
  }

  /** Two texts with equally many before them are the same. */
  lemma RankIsUnique(ids: set<string>, a: string, b: string)
    requires a in ids && b in ids && |Below(ids, a)| == |Below(ids, b)|
    ensures a == b
  {
    if a != b {
      LeTotal(a, b);
      if Lt(a, b) {
        RankGrows(ids, a, b);
      } else {
        RankGrows(ids, b, a);
      }
    }
  }

  lemma RankGrows(ids: set<string>, a: string, b: string)
    requires a in ids && Lt(a, b)
    ensures |Below(ids, a)| < |Below(ids, b)|
  {
    forall x | x in Below(ids, a) ensures x in Below(ids, b) && x != a {
      LeTransitive(x, a, b);
      if x == b {
        LeAntisymmetric(a, b);
      }
    }
    SubsetSize(Below(ids, a) + {a}, Below(ids, b));
  }

  lemma HasMember(s: seq<string>)
    ensures s == [] || exists x :: x in s
  {
    if s != [] { assert s[0] in s; }
  }

  /** An ascending list is determined by its members. */
  lemma {:induction false} AscendingUnique(s: seq<string>, t: seq<string>)
    requires Ascending(s) && Ascending(t)
    requires forall y :: y in s <==> y in t
    ensures s == t
  {
    HasMember(s);
    HasMember(t);
    if s != [] {
      assert s[0] in t && t != [];
      assert t[0] in s;
      if s[0] != t[0] {
        var i :| 0 <= i < |t| && t[i] == s[0];
        var j :| 0 <= j < |s| && s[j] == t[0];
        LeAntisymmetric(s[0], t[0]);
      }
      forall y ensures y in s[1..] <==> y in t[1..] {
        if y in s[1..] { assert y in s && y != s[0]; }
        if y in t[1..] { assert y in t && y != t[0]; }
      }
      AscendingUnique(s[1..], t[1..]);
      assert s == [s[0]] + s[1..] && t == [t[0]] + t[1..];
    }
  }
}
