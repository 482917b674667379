/** The Cloudflare AI accounts: which may be used now, in which order, and how use and exhaustion are recorded. */
module AccountStore {
  import opened Common
  import opened TextOrder

  /** A row; `name` stands for its lower-case form, moments are whole UTC seconds. */
  datatype Account = Account(
    name: string, active: bool, priority: int, usage: nat, lastUsed: Option<int>, exhaustedAt: Option<int>)

  const DAY := 86_400

  function Midnight(now: int): int {
    now - now % DAY
  }

  predicate Available(a: Account, now: int) {
    a.active && !(a.exhaustedAt.Some? && a.exhaustedAt.value >= Midnight(now))
  }

  /** Index of the first account with this name, or the number of accounts. */
  function IndexOf(accounts: seq<Account>, name: string): (n: nat)
    ensures n <= |accounts| && (n < |accounts| ==> accounts[n].name == name)
    ensures forall i :: 0 <= i < n ==> accounts[i].name != name
  {
    if accounts == [] || accounts[0].name == name then 0 else 1 + IndexOf(accounts[1..], name)
  }

  // ---------------------------------------------------------------- order of use

  predicate Precedes(a: Account, b: Account) {
    a.priority < b.priority || (a.priority == b.priority && Le(a.name, b.name))
  }

  function Insert(sorted: seq<Account>, a: Account): seq<Account> {
    if sorted == [] then [a]
    else
      var last := sorted[|sorted| - 1];
      if Precedes(last, a) then sorted + [a] else Insert(sorted[..|sorted| - 1], a) + [last]
  }

  /** `list_accounts`: by priority, then name. */
  function Listed(accounts: seq<Account>): seq<Account> {
    if accounts == [] then [] else Insert(Listed(accounts[..|accounts| - 1]), accounts[|accounts| - 1])
  }

  function Usable(accounts: seq<Account>, now: int): seq<Account> {
    Filtered(Listed(accounts), now)
  }

  function Filtered(listed: seq<Account>, now: int): seq<Account> {
    if listed == [] then []
    else
      var front := Filtered(listed[..|listed| - 1], now);
      if Available(listed[|listed| - 1], now) then front + [listed[|listed| - 1]] else front
  }

  predicate InOrder(accounts: seq<Account>) {
    forall i, j :: 0 <= i < j < |accounts| ==> Precedes(accounts[i], accounts[j])
  }

  lemma {:induction false} InsertKeeps(sorted: seq<Account>, a: Account)
    ensures multiset(Insert(sorted, a)) == multiset(sorted) + multiset{a}
  {
    if sorted != [] {
      assert sorted == sorted[..|sorted| - 1] + [sorted[|sorted| - 1]];
      InsertKeeps(sorted[..|sorted| - 1], a);
    }
  }

  lemma PrecedesOrder(a: Account, b: Account, c: Account)
    ensures Precedes(a, b) || Precedes(b, a)
    ensures Precedes(a, b) && Precedes(b, c) ==> Precedes(a, c)
  {
    LeTotal(a.name, b.name);
    if Precedes(a, b) && Precedes(b, c) && a.priority == c.priority {
      LeTransitive(a.name, b.name, c.name);
    }
  }

  lemma AppendInOrder(accounts: seq<Account>, a: Account)
    requires InOrder(accounts) && forall x :: x in accounts ==> Precedes(x, a)
    ensures InOrder(accounts + [a])
  {
    hide Precedes;
  }

  lemma {:induction false} InsertOrders(sorted: seq<Account>, a: Account)
    requires InOrder(sorted)
    ensures InOrder(Insert(sorted, a))
  {
    hide Precedes;
    if sorted != [] {
      var front, last := sorted[..|sorted| - 1], sorted[|sorted| - 1];
      assert sorted == front + [last];
      InsertOrders(front, a);
      InsertKeeps(front, a);
      if Precedes(last, a) {
        forall x | x in sorted ensures Precedes(x, a) {
          if x != last {
            PrecedesOrder(x, last, a);
          }
        }
        AppendInOrder(sorted, a);
      } else {
        PrecedesOrder(last, a, a);
        forall x | x in Insert(front, a) ensures Precedes(x, last) {
          assert x in multiset(front) + multiset{a};
        }
        AppendInOrder(Insert(front, a), last);
      }
    }
  }

  /** The listing holds exactly the accounts, in order of priority and name. */
  lemma {:induction false} ListedInOrder(accounts: seq<Account>)
    ensures multiset(Listed(accounts)) == multiset(accounts) && InOrder(Listed(accounts))
  {
    if accounts != [] {
      var front, last := accounts[..|accounts| - 1], accounts[|accounts| - 1];
      assert accounts == front + [last];
      ListedInOrder(front);
      InsertKeeps(Listed(front), last);
      InsertOrders(Listed(front), last);
    }
  }

  lemma {:induction false} FilteredMembers(listed: seq<Account>, now: int)
    ensures forall a :: a in Filtered(listed, now) <==> a in listed && Available(a, now)
  {
    if listed != [] {
      assert listed == listed[..|listed| - 1] + [listed[|listed| - 1]];
      FilteredMembers(listed[..|listed| - 1], now);
    }
  }

  lemma UsableMembers(accounts: seq<Account>, now: int, a: Account)
    ensures a in Usable(accounts, now) <==> a in accounts && Available(a, now)
  {
    ListedInOrder(accounts);
    FilteredMembers(Listed(accounts), now);
    assert a in Listed(accounts) <==> a in multiset(Listed(accounts));
    assert a in accounts <==> a in multiset(accounts);
  }

  /**
   * Usable at a moment of the UTC day that began at `midnight` is exactly an active account not marked exhausted on
   * that day.
   */
  lemma UsableIff(accounts: seq<Account>, now: int, midnight: int, a: Account)
    requires midnight % 86_400 == 0 && midnight <= now < midnight + 86_400
    ensures a in Usable(accounts, now) <==>
              a in accounts && a.active && (a.exhaustedAt == None || a.exhaustedAt.value < midnight)
  {
    UsableMembers(accounts, now, a);
    assert Midnight(now) == midnight;
    hide Usable;
  }

  /** Usable accounts come by priority, and by name within one priority. */
  lemma UsableInOrder(accounts: seq<Account>, now: int, i: nat, j: nat)
    requires i < j < |Usable(accounts, now)|
    ensures var a, b := Usable(accounts, now)[i], Usable(accounts, now)[j];
            a.priority < b.priority || (a.priority == b.priority && Le(a.name, b.name))
  {
    ListedInOrder(accounts);
    FilteredInOrder(Listed(accounts), now);
    hide Filtered, Listed;
  }

  lemma {:induction false} FilteredInOrder(listed: seq<Account>, now: int)
    requires InOrder(listed)
    ensures InOrder(Filtered(listed, now))
  {
    hide Precedes, Available;
    if listed != [] {
      var front, last := listed[..|listed| - 1], listed[|listed| - 1];
      FilteredInOrder(front, now);
      FilteredMembers(front, now);
      forall x | x in Filtered(front, now) ensures Precedes(x, last) {
        assert x in front;
      }
      AppendInOrder(Filtered(front, now), last);
    }
  }

  // ---------------------------------------------------------------- changes

  datatype Change =
    | MarkUsed(name: string, exhausted: bool, at: int)
    | SetActive(name: string, active: bool)
    | SetPriority(name: string, priority: int)
    | Add(account: Account)
    | Remove(name: string)

  function Used(a: Account, exhausted: bool, at: int): Account {
    if exhausted then a.(exhaustedAt := Some(at)) else a.(usage := a.usage + 1, lastUsed := Some(at))
  }

  function Removed(accounts: seq<Account>, name: string): seq<Account> {
    if accounts == [] then []
    else
      var front, last := Removed(accounts[..|accounts| - 1], name), accounts[|accounts| - 1];
      if last.name == name then front else front + [last]
  }

  function Apply(accounts: seq<Account>, c: Change): seq<Account> {
    match c
    case Add(a) => if IndexOf(accounts, a.name) < |accounts| then accounts
        else accounts + [a.(usage := 0, lastUsed := None, exhaustedAt := None)]
    case Remove(name) => Removed(accounts, name)
    case _ =>
      var n := IndexOf(accounts, c.name);
      if n == |accounts| then accounts
      else
        accounts[n := match c
          case MarkUsed(_, exhausted, at) => Used(accounts[n], exhausted, at)
          case SetActive(_, active) =>
            if active then accounts[n].(active := true, exhaustedAt := None) else accounts[n].(active := false)
          case SetPriority(_, priority) => accounts[n].(priority := priority)]
  }

  function ApplyAll(accounts: seq<Account>, changes: seq<Change>): seq<Account> {
    if changes == [] then accounts else Apply(ApplyAll(accounts, changes[..|changes| - 1]), changes[|changes| - 1])
  }

  ghost predicate UniqueNames(accounts: seq<Account>) {
    forall i, j :: 0 <= i < j < |accounts| ==> accounts[i].name != accounts[j].name
  }

  lemma {:induction false} InsertUnique(sorted: seq<Account>, a: Account)
    requires UniqueNames(sorted) && forall x :: x in sorted ==> x.name != a.name
    ensures UniqueNames(Insert(sorted, a))
  {
    hide Precedes;
    if sorted != [] {
      var front, last := sorted[..|sorted| - 1], sorted[|sorted| - 1];
      InsertUnique(front, a);
      InsertKeeps(front, a);
      if !Precedes(last, a) {
        forall x | x in Insert(front, a) ensures x.name != last.name {
          assert x in multiset(front) + multiset{a};
        }
      }
    }
  }

  /** Names stay unique in the list of usable accounts. */
  lemma {:induction false} ListedUnique(accounts: seq<Account>)
    requires UniqueNames(accounts)
    ensures UniqueNames(Listed(accounts))
  {
    if accounts != [] {
      var front, last := accounts[..|accounts| - 1], accounts[|accounts| - 1];
      ListedUnique(front);
      ListedInOrder(front);
      forall x | x in Listed(front) ensures x.name != last.name {
        assert x in multiset(front);
      }
      InsertUnique(Listed(front), last);
    }
  }

  lemma {:induction false} FilteredUnique(listed: seq<Account>, now: int)
    requires UniqueNames(listed)
    ensures UniqueNames(Filtered(listed, now))
  {
    if listed != [] {
      var front, last := listed[..|listed| - 1], listed[|listed| - 1];
      FilteredUnique(front, now);
      FilteredMembers(front, now);
      forall x | x in Filtered(front, now) ensures x.name != last.name {
        assert x in front;
      }
    }
  }

  /** Every account of this name was exhausted no earlier than `since`. */
  ghost predicate ExhaustedSince(accounts: seq<Account>, name: string, since: int) {
    forall a :: a in accounts && a.name == name ==> a.exhaustedAt.Some? && a.exhaustedAt.value >= since
  }

  /** Re-enabled or added again. */
  predicate Revives(c: Change, name: string) {
    (c.SetActive? && c.active && c.name == name) || (c.Add? && c.account.name == name)
  }

  lemma {:induction false} RemovedMembers(accounts: seq<Account>, name: string)
    ensures forall a :: a in Removed(accounts, name) <==> a in accounts && a.name != name
  {
    if accounts != [] {
      assert accounts == accounts[..|accounts| - 1] + [accounts[|accounts| - 1]];
      RemovedMembers(accounts[..|accounts| - 1], name);
    }
  }

  lemma ChangeKeepsExhausted(accounts: seq<Account>, c: Change, name: string, since: int)
    requires ExhaustedSince(accounts, name, since) && !Revives(c, name) && (c.MarkUsed? ==> c.at >= since)
    ensures ExhaustedSince(Apply(accounts, c), name, since)
  {
    if c.Remove? {
      RemovedMembers(accounts, c.name);
    } else if !c.Add? && IndexOf(accounts, c.name) < |accounts| {
      assert accounts[IndexOf(accounts, c.name)] in accounts;
    }
  }

  /**
   * Main result: whatever is done to the store, an account marked exhausted is not usable again before the next
   * UTC midnight unless it is re-enabled or added again.
   */
  lemma {:induction false} ExhaustedStaysOut(accounts: seq<Account>, changes: seq<Change>, name: string, since: int,
      now: int)
    requires ExhaustedSince(accounts, name, since)
    requires forall i :: 0 <= i < |changes| ==>
        !Revives(changes[i], name) && (changes[i].MarkUsed? ==> changes[i].at >= since)
    requires Midnight(now) <= since
    ensures ExhaustedSince(ApplyAll(accounts, changes), name, since)
    ensures forall a :: a in Usable(ApplyAll(accounts, changes), now) ==> a.name != name
    decreases |changes|
  {
    if changes != [] {
      var front := changes[..|changes| - 1];
      ExhaustedStaysOut(accounts, front, name, since, now);
      ChangeKeepsExhausted(ApplyAll(accounts, front), changes[|changes| - 1], name, since);
    }
    var end := ApplyAll(accounts, changes);
    hide ApplyAll, Usable;
    forall a | a in Usable(end, now) ensures a.name != name {
      UsableMembers(end, now, a);
    }
  }

  /** Marking an account exhausted at a moment of the day makes it unusable for the rest of that day. */
  lemma MarkedIsExhausted(accounts: seq<Account>, name: string, at: int)
    requires UniqueNames(accounts)
    ensures ExhaustedSince(Apply(accounts, MarkUsed(name, true, at)), name, at)
  {
    var after := Apply(accounts, MarkUsed(name, true, at));
    forall a | a in after && a.name == name ensures a.exhaustedAt == Some(at) {
      var i :| 0 <= i < |after| && after[i] == a;
      assert accounts[i].name == name;
    }
  }

  // ---------------------------------------------------------------- what an admin changes

  /** Switching an account on forgets its exhaustion; switching it off, or giving it a priority, changes that alone. */
  lemma AdminChanges(accounts: seq<Account>, c: Change, i: nat)
    requires UniqueNames(accounts) && i < |accounts| && (c.SetActive? || c.SetPriority?)
    ensures |Apply(accounts, c)| == |accounts|
    ensures var a, b := accounts[i], Apply(accounts, c)[i];
            if a.name != c.name then b == a
            else
              && b.name == a.name && b.usage == a.usage && b.lastUsed == a.lastUsed
              && b.active == (if c.SetActive? then c.active else a.active)
              && b.priority == (if c.SetPriority? then c.priority else a.priority)
              && b.exhaustedAt == if c.SetActive? && c.active then None else a.exhaustedAt
  {
  }

  /** A new account comes last, unused; a taken name changes nothing. */
  lemma AddIs(accounts: seq<Account>, a: Account)
    ensures (exists x :: x in accounts && x.name == a.name) ==> Apply(accounts, Add(a)) == accounts
    ensures !(exists x :: x in accounts && x.name == a.name) ==>
              Apply(accounts, Add(a)) == accounts + [Account(a.name, a.active, a.priority, 0, None, None)]
  {
    if x :| x in accounts && x.name == a.name {
      var i :| 0 <= i < |accounts| && accounts[i] == x;
    }
    assert IndexOf(accounts, a.name) < |accounts| ==> accounts[IndexOf(accounts, a.name)] in accounts;
  }

  /** Removing an account takes it out and leaves the others in their order. */
  lemma RemoveIs(a: seq<Account>, x: Account, b: seq<Account>)
    requires forall y :: y in a || y in b ==> y.name != x.name
    ensures Apply(a + [x] + b, Remove(x.name)) == a + b
  {
    NothingRemoved(a, x.name);
    NothingRemoved(b, x.name);
    RemovedSplit(a, [x], x.name);
    RemovedSplit(a + [x], b, x.name);
    assert [x][..0] == [];
    assert a + [] == a;
  }

  lemma {:induction false} RemovedSplit(a: seq<Account>, b: seq<Account>, name: string)
    ensures Removed(a + b, name) == Removed(a, name) + Removed(b, name)
  {
    if b == [] {
      assert a + b == a;
    } else {
      assert (a + b)[..|a + b| - 1] == a + b[..|b| - 1];
      RemovedSplit(a, b[..|b| - 1], name);
    }
  }

  lemma {:induction false} NothingRemoved(accounts: seq<Account>, name: string)
    requires forall y :: y in accounts ==> y.name != name
    ensures Removed(accounts, name) == accounts
  {
    if accounts != [] {
      assert accounts == accounts[..|accounts| - 1] + [accounts[|accounts| - 1]];
      NothingRemoved(accounts[..|accounts| - 1], name);
    }
  }

  // ---------------------------------------------------------------- the store

  class CloudflareAIStore {
    var accounts: seq<Account>

    constructor (accounts: seq<Account>)
      ensures this.accounts == accounts
    {
      this.accounts := accounts;
    }

    method UsableAccounts(now: int) returns (usable: seq<Account>)
      ensures usable == Usable(accounts, now)
    {
      var listed := Listed(accounts);
      usable := [];
      for i := 0 to |listed|
        invariant usable == Filtered(listed[..i], now)
      {
        assert listed[..i + 1][..i] == listed[..i];
        if Available(listed[i], now) {
          usable := usable + [listed[i]];
        }
      }
      assert listed[..|listed|] == listed;
    }

    method Locate(name: string) returns (n: nat)
      ensures n == IndexOf(accounts, name)
    {
      n := 0;
      while n < |accounts| && accounts[n].name != name
        invariant n <= |accounts| && IndexOf(accounts, name) == n + IndexOf(accounts[n..], name)
      {
        assert accounts[n..][1..] == accounts[n + 1..];
        n := n + 1;
      }
    }

    method MarkUsedAt(name: string, exhausted: bool, at: int)
      modifies this
      ensures accounts == Apply(old(accounts), MarkUsed(name, exhausted, at))
    {
      var n := Locate(name);
      if n < |accounts| {
        if exhausted {
          accounts := accounts[n := accounts[n].(exhaustedAt := Some(at))];
        } else {
          accounts := accounts[n := accounts[n].(usage := accounts[n].usage + 1, lastUsed := Some(at))];
        }
      }
    }

    method Enable(name: string, active: bool) returns (changed: bool)
      modifies this
      ensures accounts == Apply(old(accounts), SetActive(name, active))
      ensures changed == (IndexOf(old(accounts), name) < |old(accounts)|)
    {
      var n := Locate(name);
      changed := n < |accounts|;
      if changed {
        accounts := accounts[n := accounts[n].(active := active)];
        if active {
          accounts := accounts[n := accounts[n].(exhaustedAt := None)];
        }
      }
    }

    /** None stands for the error raised when the name is taken. */
    method AddAccount(name: string, active: bool, priority: Option<int>) returns (added: Option<Account>)
      modifies this
      ensures added.None? <==> IndexOf(old(accounts), name) < |old(accounts)|
      ensures accounts == if added.Some? then Apply(old(accounts), Add(added.value)) else old(accounts)
      ensures added == None
        || added == Some(Account(name, active, if priority.Some? then priority.value
            else |old(accounts)|, 0, None, None))
    {
      var n := Locate(name);
      if n < |accounts| {
        return None;
      }
      var row := Account(name, active, if priority.Some? then priority.value else |accounts|, 0, None, None);
      accounts := accounts + [row];
      added := Some(row);
    }
  }
}
