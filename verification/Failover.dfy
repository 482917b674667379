/** One chat completion over the usable accounts, rotating on failure. */
module Failover {
  import opened Common
  import opened AccountStore

  /** The `success` field of an envelope. */
  datatype Success = Absent | Truthy | False | Falsy

  /** A non-empty JSON object: whether it has a `result`, and whether its first error speaks of a limit. */
  datatype Body = Body(hasResult: bool, success: Success, limitMessage: bool)

  /** What the transport returned; `jsonError` says that the error text complains about JSON mode. */
  datatype Reply = Reply(status: int, body: Option<Body>, jsonError: bool)

  predicate ShouldRotate(r: Reply) {
    || r.status == 429
    || (r.status == 400 && r.body.Some? && r.body.value.limitMessage)
    || (r.body.Some? && r.body.value.success == False)
  }

  /** What the loop makes of a reply. */
  datatype Verdict = Answer | SoftFailure | JsonUnsupported | Transport | Quota | Fatal

  function Judge(r: Reply, jsonMode: bool): Verdict {
    if r.status == 200 && r.body.Some? then
      if r.body.value.hasResult && !r.body.value.success.Absent? && !r.body.value.success.Truthy? then
        if jsonMode && r.jsonError then JsonUnsupported else SoftFailure
      else Answer
    else if jsonMode && r.jsonError then JsonUnsupported
    else if r.status == 0 then Transport
    else if ShouldRotate(r) then Quota
    else Fatal
  }

  predicate GoesOn(v: Verdict) {
    v.SoftFailure? || v.Transport? || v.Quota?
  }

  datatype Outcome =
    NoAccounts | Answered(name: string) | JsonModeUnsupported | RequestFailed | NoResponse | QuotaExhausted

  /** The replies of the attempts of one call, by attempt. */
  type Oracle = nat -> Reply

  /** The first attempt that ends the call, or `limit` when none does. */
  function EndsAt(replies: Oracle, jsonMode: bool, limit: nat, from: nat): (n: nat)
    requires from <= limit
    ensures from <= n <= limit
    ensures forall k :: from <= k < n ==> GoesOn(Judge(replies(k), jsonMode))
    ensures n < limit ==> !GoesOn(Judge(replies(n), jsonMode))
    decreases limit - from
  {
    if from == limit || !GoesOn(Judge(replies(from), jsonMode)) then from
        else EndsAt(replies, jsonMode, limit, from + 1)
  }

  function StartOf(idx: nat, count: nat): nat {
    if idx >= count then 0 else idx
  }

  function TurnIndex(count: nat, start: nat, k: nat): (i: nat)
    requires count > 0
    ensures i < count
  {
    (start + k) % count
  }

  /** The account of attempt `k`. */
  function Turn(usable: seq<Account>, start: nat, k: nat): Account
    requires start < |usable|
  {
    usable[TurnIndex(|usable|, start, k)]
  }

  /** What attempt `k` records, if anything. */
  function MarkOf(v: Verdict, name: string, at: int): seq<Change> {
    match v
    case Answer | Transport | Fatal => [MarkUsed(name, false, at)]
    case SoftFailure | Quota => [MarkUsed(name, true, at)]
    case JsonUnsupported => []
  }

  /** What the first `n` attempts record. */
  function Marks(usable: seq<Account>, start: nat, replies: Oracle, jsonMode: bool, clock: nat -> int,
      n: nat): seq<Change>
    requires start < |usable|
  {
    if n == 0 then []
    else
      Marks(usable, start, replies, jsonMode, clock, n - 1)
      + MarkOf(Judge(replies(n - 1), jsonMode), Turn(usable, start, n - 1).name, clock(n - 1))
  }

  predicate SawQuota(replies: Oracle, jsonMode: bool, n: nat) {
    exists k: nat :: k < n && Judge(replies(k), jsonMode).Quota?
  }

  /** How a verdict that ends the call is reported. */
  function OutcomeAt(v: Verdict, name: string): Outcome {
    match v
    case Answer => Answered(name)
    case JsonUnsupported => JsonModeUnsupported
    case _ => RequestFailed
  }

  function OutcomeOf(usable: seq<Account>, start: nat, replies: Oracle, jsonMode: bool, n: nat): Outcome
    requires start < |usable| && n <= |usable|
  {
    if n < |usable| then OutcomeAt(Judge(replies(n), jsonMode), Turn(usable, start, n).name)
    else if SawQuota(replies, jsonMode, n) then QuotaExhausted
    else NoResponse
  }

  /** One call: the replies by attempt, when it looks for usable accounts, and the moment each attempt is recorded. */
  datatype Call = Call(replies: Oracle, jsonMode: bool, now: int, clock: nat -> int)

  /** How many accounts the call asks. */
  function Asked(accounts: seq<Account>, call: Call): (n: nat)
    ensures n <= |Usable(accounts, call.now)|
  {
    var count := |Usable(accounts, call.now)|;
    var n := EndsAt(call.replies, call.jsonMode, count, 0);
    if n < count then n + 1 else n
  }

  /** Whom the call asks, in order; `idx` is where the last successful call ended. */
  function Contacts(accounts: seq<Account>, idx: nat, call: Call): (names: seq<string>)
    ensures |names| == Asked(accounts, call)
  {
    var usable := Usable(accounts, call.now);
    seq(Asked(accounts, call), k requires 0 <= k < Asked(accounts, call) =>
      Turn(usable, StartOf(idx, |usable|), k).name)
  }

  /** The accounts after the call. */
  function Called(accounts: seq<Account>, idx: nat, call: Call): seq<Account> {
    var usable := Usable(accounts, call.now);
    if usable == [] then accounts
    else
      ApplyAll(accounts, Marks(usable, StartOf(idx, |usable|), call.replies, call.jsonMode, call.clock,
                               Asked(accounts, call)))
  }

  /** Where the next call starts. */
  function NextIdx(accounts: seq<Account>, idx: nat, call: Call): nat {
    var usable := Usable(accounts, call.now);
    if usable == [] then idx
    else
      var start, n := StartOf(idx, |usable|), EndsAt(call.replies, call.jsonMode, |usable|, 0);
      if OutcomeOf(usable, start, call.replies, call.jsonMode, n).Answered? then TurnIndex(|usable|, start, n)
          else start
  }

  // ---------------------------------------------------------------- laws

  /** No account gets two turns in one call. */
  lemma TurnsDiffer(count: nat, start: nat, j: nat, k: nat)
    requires start < count && j < k < count
    ensures TurnIndex(count, start, j) != TurnIndex(count, start, k)
  {
    WrapOnce(count, start + j);
    WrapOnce(count, start + k);
  }

  lemma WrapOnce(count: nat, n: nat)
    requires n < 2 * count
    ensures n % count == if n < count then n else n - count
  {
    if n >= count {
      assert n == count + (n - count);
      assert (n - count) % count == n - count;
      assert n / count == 1;
    }
  }

  /** One call contacts no account twice: its attempts are within one round and names are unique. */
  lemma ContactsDiffer(accounts: seq<Account>, now: int, start: nat, j: nat, k: nat)
    requires UniqueNames(accounts) && start < |Usable(accounts, now)| && j < k < |Usable(accounts, now)|
    ensures Turn(Usable(accounts, now), start, j).name != Turn(Usable(accounts, now), start, k).name
  {
    ListedUnique(accounts);
    FilteredUnique(Listed(accounts), now);
    hide Listed, Filtered;
    TurnsDiffer(|Usable(accounts, now)|, start, j, k);
    hide TurnIndex;
  }

  /** Every position gets a turn in a full round. */
  lemma TurnReaches(count: nat, start: nat, i: nat) returns (k: nat)
    requires start < count && i < count
    ensures k < count && TurnIndex(count, start, k) == i
  {
    k := if i >= start then i - start else i + count - start;
    WrapOnce(count, start + k);
  }

  lemma MarkKeepsNames(accounts: seq<Account>, marks: seq<Change>)
    requires UniqueNames(accounts) && |marks| <= 1 && forall c :: c in marks ==> c.MarkUsed?
    ensures UniqueNames(if marks == [] then accounts else Apply(accounts, marks[0]))
  {
  }

  lemma {:induction false} MarksKeepNames(accounts: seq<Account>, usable: seq<Account>, start: nat, replies: Oracle,
      jsonMode: bool, clock: nat -> int, n: nat)
    requires start < |usable| && n <= |usable| && UniqueNames(accounts)
    ensures UniqueNames(ApplyAll(accounts, Marks(usable, start, replies, jsonMode, clock, n)))
  {
    hide UniqueNames, Judge, TurnIndex, Apply, ApplyAll, Marks;
    if n == 0 {
      NothingTried(usable, start, replies, jsonMode, clock, accounts);
    } else {
      MarksKeepNames(accounts, usable, start, replies, jsonMode, clock, n - 1);
      MarksNext(usable, start, replies, jsonMode, clock, n - 1, accounts);
      MarkKeepsNames(ApplyAll(accounts, Marks(usable, start, replies, jsonMode, clock, n - 1)),
                     MarkOf(Judge(replies(n - 1), jsonMode), Turn(usable, start, n - 1).name, clock(n - 1)));
    }
  }

  /** The account of attempt `k`, turned away or without success, is exhausted after the attempts that follow. */
  lemma {:induction false} TriedExhausted(accounts: seq<Account>, usable: seq<Account>, start: nat, replies: Oracle,
      jsonMode: bool, clock: nat -> int, n: nat, k: nat, since: int)
    requires start < |usable| && k < n <= |usable| && UniqueNames(accounts)
    requires Judge(replies(k), jsonMode).SoftFailure? || Judge(replies(k), jsonMode).Quota?
    requires forall j: nat :: k <= j < n ==> clock(j) >= since
    ensures ExhaustedSince(ApplyAll(accounts, Marks(usable, start, replies, jsonMode, clock, n)),
                           Turn(usable, start, k).name, since)
  {
    hide UniqueNames, Judge, TurnIndex, Apply, ApplyAll, Marks, ExhaustedSince;
    var before := ApplyAll(accounts, Marks(usable, start, replies, jsonMode, clock, n - 1));
    var name, at := Turn(usable, start, n - 1).name, clock(n - 1);
    var marks := MarkOf(Judge(replies(n - 1), jsonMode), name, at);
    MarksNext(usable, start, replies, jsonMode, clock, n - 1, accounts);
    if k == n - 1 {
      MarksKeepNames(accounts, usable, start, replies, jsonMode, clock, n - 1);
      MarkedIsExhausted(before, name, at);
      SinceEarlier(Apply(before, marks[0]), name, at, since);
    } else {
      TriedExhausted(accounts, usable, start, replies, jsonMode, clock, n - 1, k, since);
      if marks != [] {
        ChangeKeepsExhausted(before, marks[0], Turn(usable, start, k).name, since);
      }
    }
  }

  lemma SinceEarlier(accounts: seq<Account>, name: string, at: int, since: int)
    requires ExhaustedSince(accounts, name, at) && since <= at
    ensures ExhaustedSince(accounts, name, since)
  {
  }

  lemma StillOut(accounts: seq<Account>, name: string, since: int, now: int)
    requires ExhaustedSince(accounts, name, since) && Midnight(now) <= since
    ensures forall a :: a in Usable(accounts, now) ==> a.name != name
  {
    ExhaustedStaysOut(accounts, [], name, since, now);
  }

  // ---------------------------------------------------------------- the provider

  class CloudflareAIProvider {
    const store: CloudflareAIStore
    var currentIdx: nat

    constructor (store: CloudflareAIStore)
      ensures this.store == store && currentIdx == 0
    {
      this.store, currentIdx := store, 0;
    }

    /** What one attempt records on its account. */
    method Record(verdict: Verdict, name: string, at: int)
      modifies store
      ensures var marks := MarkOf(verdict, name, at);
              store.accounts == if marks == [] then old(store.accounts) else Apply(old(store.accounts), marks[0])
    {
      hide Apply;
      match verdict {
        case Answer | Transport | Fatal => store.MarkUsedAt(name, false, at);
        case SoftFailure | Quota => store.MarkUsedAt(name, true, at);
        case JsonUnsupported =>
      }
    }

    /** `contacted` lists the accounts in the order they were asked. */
    method Chat(replies: Oracle, jsonMode: bool, now: int, clock: nat -> int) returns (outcome: Outcome,
        contacted: seq<string>)
      modifies this, store
      ensures outcome.NoAccounts? <==> Usable(old(store.accounts), now) == []
      ensures outcome.NoAccounts? ==>
          contacted == [] && store.accounts == old(store.accounts) && currentIdx == old(currentIdx)
      ensures !outcome.NoAccounts? ==>
        var usable := Usable(old(store.accounts), now);
        var start := StartOf(old(currentIdx), |usable|);
        var n := EndsAt(replies, jsonMode, |usable|, 0);
        && outcome == OutcomeOf(usable, start, replies, jsonMode, n)
        && |contacted| == (if n < |usable| then n + 1 else n) <= |usable|
        && (forall k :: 0 <= k < |contacted| ==> contacted[k] == Turn(usable, start, k).name)
        && store.accounts == ApplyAll(old(store.accounts), Marks(usable, start, replies, jsonMode, clock, |contacted|))
        && currentIdx == (if outcome.Answered? then TurnIndex(|usable|, start, n) else start)
      ensures var call := Call(replies, jsonMode, now, clock);
        && contacted == Contacts(old(store.accounts), old(currentIdx), call)
        && store.accounts == Called(old(store.accounts), old(currentIdx), call)
        && currentIdx == NextIdx(old(store.accounts), old(currentIdx), call)
    {
      hide Usable, Apply, Judge, TurnIndex, ApplyAll, Marks, EndsAt, SawQuota;
      var usable := store.UsableAccounts(now);
      if usable == [] {
        return NoAccounts, [];
      }
      if currentIdx >= |usable| {
        currentIdx := 0;
      }
      var end, idx, hits;
      end, idx, hits, contacted := Rotate(usable, currentIdx, replies, jsonMode, clock);
      if end.None? {
        outcome := if hits == 0 then NoResponse else QuotaExhausted;
      } else {
        outcome := OutcomeAt(end.value, usable[idx].name);
        if end.value.Answer? {
          currentIdx := idx;
        }
      }
    }

    /** Asks account after account from `start` on; `end` is the verdict that ended the call, at index `idx`. */
    method Rotate(usable: seq<Account>, start: nat, replies: Oracle, jsonMode: bool, clock: nat -> int)
      returns (end: Option<Verdict>, idx: nat, hits: nat, contacted: seq<string>)
      requires start < |usable|
      modifies store
      ensures var n := EndsAt(replies, jsonMode, |usable|, 0);
        && end == (if n < |usable| then Some(Judge(replies(n), jsonMode)) else None)
        && idx == TurnIndex(|usable|, start, n)
        && |contacted| == (if n < |usable| then n + 1 else n)
        && (forall k :: 0 <= k < |contacted| ==> contacted[k] == Turn(usable, start, k).name)
        && (end.None? ==> (hits > 0 <==> SawQuota(replies, jsonMode, n)))
        && store.accounts == ApplyAll(old(store.accounts), Marks(usable, start, replies, jsonMode, clock, |contacted|))
    {
      hide Apply, Judge, TurnIndex, Turn, ApplyAll, Tried, Marks, EndsAt, GoesOn, MarkOf, SawQuota;
      var attempts := 0;
      end, idx, hits, contacted := None, start, 0, [];
      NextIndex(|usable|, start, 0);
      NothingTried(usable, start, replies, jsonMode, clock, old(store.accounts));
      while attempts < |usable|
        invariant 0 <= attempts <= |usable| && idx == TurnIndex(|usable|, start, attempts)
        invariant Tried(usable, start, replies, jsonMode, attempts, contacted, hits)
        invariant store.accounts == ApplyAll(old(store.accounts),
            Marks(usable, start, replies, jsonMode, clock, attempts))
      {
        var name := usable[idx].name;
        var verdict := Judge(replies(attempts), jsonMode);
        MarksNext(usable, start, replies, jsonMode, clock, attempts, old(store.accounts));
        TriedNext(usable, start, replies, jsonMode, attempts, contacted, hits);
        Record(verdict, name, clock(attempts));
        contacted := contacted + [name];
        if !GoesOn(verdict) {
          return Some(verdict), idx, hits, contacted;
        }
        hits := if verdict.Quota? then hits + 1 else hits;
        NextIndex(|usable|, start, attempts);
        idx := (idx + 1) % |usable|;
        attempts := attempts + 1;
      }
      AllTried(usable, start, replies, jsonMode, contacted, hits);
      end := None;
    }
  }

  /** Nobody ended the call in the first `n` attempts, and `contacted` and `hits` describe them. */
  ghost predicate Tried(usable: seq<Account>, start: nat, replies: Oracle, jsonMode: bool, n: nat,
      contacted: seq<string>, hits: int)
    requires start < |usable| && n <= |usable|
  {
    && EndsAt(replies, jsonMode, |usable|, 0) == EndsAt(replies, jsonMode, |usable|, n)
    && |contacted| == n && (forall k :: 0 <= k < n ==> contacted[k] == Turn(usable, start, k).name)
    && (hits > 0 <==> SawQuota(replies, jsonMode, n))
  }

  lemma NothingTried(usable: seq<Account>, start: nat, replies: Oracle, jsonMode: bool, clock: nat -> int,
      accounts: seq<Account>)
    requires start < |usable|
    ensures Tried(usable, start, replies, jsonMode, 0, [], 0)
    ensures ApplyAll(accounts, Marks(usable, start, replies, jsonMode, clock, 0)) == accounts
  {
  }

  lemma TriedNext(usable: seq<Account>, start: nat, replies: Oracle, jsonMode: bool, n: nat, contacted: seq<string>,
      hits: int)
    requires start < |usable| && n < |usable| && Tried(usable, start, replies, jsonMode, n, contacted, hits) &&
        hits >= 0
    ensures var verdict := Judge(replies(n), jsonMode);
            var more := contacted + [usable[TurnIndex(|usable|, start, n)].name];
            && |more| == n + 1 && (forall k :: 0 <= k <= n ==> more[k] == Turn(usable, start, k).name)
            && (GoesOn(verdict) ==>
                 Tried(usable, start, replies, jsonMode, n + 1, more, if verdict.Quota? then hits + 1 else hits))
            && (!GoesOn(verdict) ==> EndsAt(replies, jsonMode, |usable|, 0) == n)
  {
    hide Judge, TurnIndex;
  }

  lemma AllTried(usable: seq<Account>, start: nat, replies: Oracle, jsonMode: bool, contacted: seq<string>, hits: int)
    requires start < |usable| && Tried(usable, start, replies, jsonMode, |usable|, contacted, hits)
    ensures EndsAt(replies, jsonMode, |usable|, 0) == |usable| == |contacted|
    ensures forall k :: 0 <= k < |usable| ==> contacted[k] == Turn(usable, start, k).name
    ensures hits > 0 <==> SawQuota(replies, jsonMode, |usable|)
  {
    hide Judge, TurnIndex;
  }

  lemma MarksNext(usable: seq<Account>, start: nat, replies: Oracle, jsonMode: bool, clock: nat -> int, n: nat,
      accounts: seq<Account>)
    requires start < |usable| && n < |usable|
    ensures var more := MarkOf(Judge(replies(n), jsonMode), usable[TurnIndex(|usable|, start, n)].name, clock(n));
            var before := ApplyAll(accounts, Marks(usable, start, replies, jsonMode, clock, n));
            ApplyAll(accounts, Marks(usable, start, replies, jsonMode, clock, n + 1)) ==
            if more == [] then before else Apply(before, more[0])
  {
    hide Judge, TurnIndex, Apply, ApplyAll;
    ApplyOne(accounts, Marks(usable, start, replies, jsonMode, clock, n),
             MarkOf(Judge(replies(n), jsonMode), Turn(usable, start, n).name, clock(n)));
  }

  lemma ApplyOne(accounts: seq<Account>, changes: seq<Change>, more: seq<Change>)
    requires |more| <= 1
    ensures ApplyAll(accounts, changes + more) ==
      if more == [] then ApplyAll(accounts, changes) else Apply(ApplyAll(accounts, changes), more[0])
  {
    hide Apply;
    if more == [] {
      assert changes + more == changes;
    } else {
      assert (changes + more)[..|changes + more| - 1] == changes;
    }
  }

  lemma NextIndex(count: nat, start: nat, k: nat)
    requires start < count && k < count
    ensures (TurnIndex(count, start, k) + 1) % count == TurnIndex(count, start, k + 1)
    ensures k == 0 ==> TurnIndex(count, start, k) == start
  {
    WrapOnce(count, start + k);
    WrapOnce(count, start + k + 1);
    WrapOnce(count, (start + k) % count + 1);
  }
}
