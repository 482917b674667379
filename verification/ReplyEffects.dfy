/** What a reply does to its account and to the call, by the fields of the reply. */
module ReplyEffects {
  import opened Common
  import opened AccountStore
  import opened Failover

  // ---------------------------------------------------------------- kinds of replies

  /** Status 200 with an object. */
  predicate Good(r: Reply) {
    r.status == 200 && r.body != None
  }

  /** A result that reports no success. */
  predicate Denied(r: Reply) {
    Good(r) && r.body.value.hasResult && r.body.value.success in {False, Falsy}
  }

  predicate Answers(r: Reply) {
    Good(r) && !Denied(r)
  }

  /** The gateway cannot do JSON mode, and was asked to. */
  predicate NoJson(r: Reply, jsonMode: bool) {
    jsonMode && r.jsonError && !Answers(r)
  }

  /** No answer within the time allowed, or no connection. */
  predicate Unreached(r: Reply, jsonMode: bool) {
    r.status == 0 && !NoJson(r, jsonMode)
  }

  predicate SaysLimit(r: Reply) {
    || r.status == 429
    || (r.status == 400 && r.body != None && r.body.value.limitMessage)
    || (r.status != 0 && r.body != None && r.body.value.success == False)
  }

  /** The account was turned away for its limit. */
  predicate AtLimit(r: Reply, jsonMode: bool) {
    SaysLimit(r) && !Good(r) && !NoJson(r, jsonMode)
  }

  predicate Unsuccessful(r: Reply, jsonMode: bool) {
    Denied(r) && !NoJson(r, jsonMode)
  }

  /** The call tries the next account. */
  predicate Passes(r: Reply, jsonMode: bool) {
    Unreached(r, jsonMode) || AtLimit(r, jsonMode) || Unsuccessful(r, jsonMode)
  }

  /** Any other reply fails the call. */
  predicate Fails(r: Reply, jsonMode: bool) {
    !Passes(r, jsonMode) && !Answers(r) && !NoJson(r, jsonMode)
  }

  /** Each kind of reply gets its own verdict. */
  lemma VerdictIs(r: Reply, jsonMode: bool)
    ensures Judge(r, jsonMode).Answer? <==> Answers(r)
    ensures Judge(r, jsonMode).JsonUnsupported? <==> NoJson(r, jsonMode)
    ensures Judge(r, jsonMode).Transport? <==> Unreached(r, jsonMode)
    ensures Judge(r, jsonMode).Quota? <==> AtLimit(r, jsonMode)
    ensures Judge(r, jsonMode).SoftFailure? <==> Unsuccessful(r, jsonMode)
    ensures Judge(r, jsonMode).Fatal? <==> Fails(r, jsonMode)
    ensures GoesOn(Judge(r, jsonMode)) <==> Passes(r, jsonMode)
  {
  }

  // ---------------------------------------------------------------- how far a call goes and how it ends

  /** Every reply before this attempt made the call go on. */
  ghost predicate AllPass(replies: Oracle, jsonMode: bool, n: nat) {
    forall j: nat :: j < n ==> Passes(replies(j), jsonMode)
  }

  /** The first reply, if any, that does not make the call go on. */
  lemma FirstToEnd(replies: Oracle, jsonMode: bool, limit: nat, n: nat)
    requires n <= limit
    ensures EndsAt(replies, jsonMode, limit, 0) == n <==>
              AllPass(replies, jsonMode, n) && (n < limit ==> !Passes(replies(n), jsonMode))
  {
    hide Judge, Passes, GoesOn;
    var end := EndsAt(replies, jsonMode, limit, 0);
    forall k: nat ensures GoesOn(Judge(replies(k), jsonMode)) <==> Passes(replies(k), jsonMode) {
      VerdictIs(replies(k), jsonMode);
    }
    assert end < limit ==> !Passes(replies(end), jsonMode);
    assert end > n ==> Passes(replies(n), jsonMode);
  }

  /** The call asks its `k`-th account exactly when there is one and every reply before it passed. */
  lemma AskedIff(accounts: seq<Account>, call: Call, k: nat)
    ensures k < Asked(accounts, call) <==>
              k < |Usable(accounts, call.now)| && AllPass(call.replies, call.jsonMode, k)
  {
    hide Usable, EndsAt, Passes;
    var count := |Usable(accounts, call.now)|;
    var end := EndsAt(call.replies, call.jsonMode, count, 0);
    FirstToEnd(call.replies, call.jsonMode, count, end);
    assert AllPass(call.replies, call.jsonMode, k) && end < k ==> Passes(call.replies(end), call.jsonMode);
  }

  /** The `k`-th reply is the first that does not pass. */
  ghost predicate EndsWith(usable: seq<Account>, replies: Oracle, jsonMode: bool, k: nat) {
    k < |usable| && AllPass(replies, jsonMode, k) && !Passes(replies(k), jsonMode)
  }

  /** How a call ends, by its replies. */
  lemma OutcomeIs(usable: seq<Account>, start: nat, replies: Oracle, jsonMode: bool)
    requires start < |usable|
    ensures var outcome := OutcomeOf(usable, start, replies, jsonMode, EndsAt(replies, jsonMode, |usable|, 0));
            && (forall k: nat :: EndsWith(usable, replies, jsonMode, k) ==>
                  outcome ==
                    if Answers(replies(k)) then Answered(Turn(usable, start, k).name)
                    else if NoJson(replies(k), jsonMode) then JsonModeUnsupported
                    else RequestFailed)
            && (AllPass(replies, jsonMode, |usable|) ==>
                  outcome ==
                    if exists k: nat :: k < |usable| && AtLimit(replies(k), jsonMode) then QuotaExhausted
                    else NoResponse)
            && (AllPass(replies, jsonMode, |usable|) || exists k: nat :: EndsWith(usable, replies, jsonMode, k))
  {
    hide Judge, Passes, GoesOn, TurnIndex, Answers, NoJson, AtLimit, EndsAt;
    var n := EndsAt(replies, jsonMode, |usable|, 0);
    FirstToEnd(replies, jsonMode, |usable|, n);
    forall k: nat ensures Judge(replies(k), jsonMode).Quota? <==> AtLimit(replies(k), jsonMode) {
      VerdictIs(replies(k), jsonMode);
    }
    if n < |usable| {
      VerdictIs(replies(n), jsonMode);
      KindOf(replies(n), jsonMode);
      assert EndsWith(usable, replies, jsonMode, n);
    }
    forall k: nat | EndsWith(usable, replies, jsonMode, k) ensures k == n {
      FirstToEnd(replies, jsonMode, |usable|, k);
    }
  }

  /** An answer is no refusal of JSON mode. */
  lemma KindOf(r: Reply, jsonMode: bool)
    ensures Answers(r) ==> !NoJson(r, jsonMode)
  {
  }

  /**
   * Quota exhaustion is reported exactly when every usable account was tried and every reply passed, and one of them
   * said that its account is at its limit; accounts that answered without success are marked exhausted too, but do
   * not count.
   */
  lemma QuotaExhaustedIff(usable: seq<Account>, start: nat, replies: Oracle, jsonMode: bool)
    requires start < |usable|
    ensures OutcomeOf(usable, start, replies, jsonMode, EndsAt(replies, jsonMode, |usable|, 0)).QuotaExhausted? <==>
              && AllPass(replies, jsonMode, |usable|)
              && exists k: nat :: k < |usable| && AtLimit(replies(k), jsonMode)
  {
    hide Judge, Passes, Answers, NoJson, AtLimit, EndsAt, OutcomeOf, Turn, AllPass;
    OutcomeIs(usable, start, replies, jsonMode);
  }

  /**
   * When every account answers without success the call reports no response, yet all usable accounts are exhausted
   * from its first attempt on, so none of them is usable again before the next midnight.
   */
  lemma SilentExhaustion(accounts: seq<Account>, usable: seq<Account>, start: nat, replies: Oracle, jsonMode: bool,
      clock: nat -> int)
    requires start < |usable|
    requires forall k: nat :: k < |usable| ==> Unsuccessful(replies(k), jsonMode)
    ensures EndsAt(replies, jsonMode, |usable|, 0) == |usable|
    ensures OutcomeOf(usable, start, replies, jsonMode, |usable|).NoResponse?
    ensures UniqueNames(accounts) && (forall k: nat :: clock(k) >= clock(0)) ==>
      var after := ApplyAll(accounts, Marks(usable, start, replies, jsonMode, clock, |usable|));
      forall i :: 0 <= i < |usable| ==>
        && ExhaustedSince(after, usable[i].name, clock(0))
        && forall now, a :: Midnight(now) <= clock(0) && a in Usable(after, now) ==> a.name != usable[i].name
  {
    OutcomeIs(usable, start, replies, jsonMode);
    FirstToEnd(replies, jsonMode, |usable|, |usable|);
    forall k: nat | k < |usable| ensures Judge(replies(k), jsonMode).SoftFailure? {
      VerdictIs(replies(k), jsonMode);
    }
    hide UniqueNames, Judge, TurnIndex, Apply, ApplyAll, Marks, ExhaustedSince, Usable;
    if UniqueNames(accounts) && forall k: nat :: clock(k) >= clock(0) {
      var after := ApplyAll(accounts, Marks(usable, start, replies, jsonMode, clock, |usable|));
      forall i | 0 <= i < |usable|
        ensures ExhaustedSince(after, usable[i].name, clock(0))
        ensures forall now, a :: Midnight(now) <= clock(0) && a in Usable(after, now) ==> a.name != usable[i].name
      {
        var k := TurnReaches(|usable|, start, i);
        TriedExhausted(accounts, usable, start, replies, jsonMode, clock, |usable|, k, clock(0));
        forall now, a | Midnight(now) <= clock(0) && a in Usable(after, now) ensures a.name != usable[i].name {
          StillOut(after, usable[i].name, clock(0), now);
        }
      }
    }
  }

  // ---------------------------------------------------------------- what a call records

  /** The account before and after the attempt that got this reply. */
  ghost predicate Recorded(a: Account, b: Account, r: Reply, jsonMode: bool, at: int) {
    && b.name == a.name && b.active == a.active && b.priority == a.priority
    && if AtLimit(r, jsonMode) || Unsuccessful(r, jsonMode)
       then b.exhaustedAt == Some(at) && b.usage == a.usage && b.lastUsed == a.lastUsed
       else if NoJson(r, jsonMode) then b == a
       else b.exhaustedAt == a.exhaustedAt && b.usage == a.usage + 1 && b.lastUsed == Some(at)
  }

  /** One attempt touches its own account alone. */
  lemma MarkRecords(accounts: seq<Account>, r: Reply, jsonMode: bool, name: string, at: int, i: nat)
    requires UniqueNames(accounts) && i < |accounts|
    ensures var marks := MarkOf(Judge(r, jsonMode), name, at);
            var after := if marks == [] then accounts else Apply(accounts, marks[0]);
            && |after| == |accounts| && UniqueNames(after)
            && if accounts[i].name == name then Recorded(accounts[i], after[i], r, jsonMode, at)
               else after[i] == accounts[i]
  {
    VerdictIs(r, jsonMode);
    hide Judge, AtLimit, Unsuccessful, NoJson, Unreached, Answers, Fails;
  }

  /** After `n` attempts an account is as its own attempt left it, or untouched. */
  lemma {:induction false} MarksRecord(accounts: seq<Account>, usable: seq<Account>, start: nat, replies: Oracle,
      jsonMode: bool, clock: nat -> int, n: nat, i: nat)
    requires start < |usable| && n <= |usable| && UniqueNames(accounts) && i < |accounts|
    requires forall j: nat, k: nat :: j < k < |usable| ==> Turn(usable, start, j).name != Turn(usable, start, k).name
    ensures var after := ApplyAll(accounts, Marks(usable, start, replies, jsonMode, clock, n));
            && |after| == |accounts| && UniqueNames(after)
            && ((forall k: nat :: k < n ==> Turn(usable, start, k).name != accounts[i].name) ==>
                  after[i] == accounts[i])
            && (forall k: nat :: k < n && Turn(usable, start, k).name == accounts[i].name ==>
                  Recorded(accounts[i], after[i], replies(k), jsonMode, clock(k)))
  {
    hide Judge, Turn, Apply, ApplyAll, Marks, MarkOf, UniqueNames, Recorded;
    if n == 0 {
      NothingTried(usable, start, replies, jsonMode, clock, accounts);
    } else {
      var before := ApplyAll(accounts, Marks(usable, start, replies, jsonMode, clock, n - 1));
      MarksRecord(accounts, usable, start, replies, jsonMode, clock, n - 1, i);
      MarksNext(usable, start, replies, jsonMode, clock, n - 1, accounts);
      TurnOf(usable, start, n - 1);
      MarkRecords(before, replies(n - 1), jsonMode, Turn(usable, start, n - 1).name, clock(n - 1), i);
      RecordedName(accounts[i], before[i], replies, jsonMode, clock);
      assert forall k: nat :: k < n - 1 && Turn(usable, start, k).name == accounts[i].name ==>
          Recorded(accounts[i], before[i], replies(k), jsonMode, clock(k)) &&
          Turn(usable, start, n - 1).name != accounts[i].name;
    }
  }

  lemma TurnOf(usable: seq<Account>, start: nat, k: nat)
    requires start < |usable|
    ensures usable[TurnIndex(|usable|, start, k)] == Turn(usable, start, k)
  {
  }

  lemma RecordedName(a: Account, b: Account, replies: Oracle, jsonMode: bool, clock: nat -> int)
    ensures forall k: nat :: Recorded(a, b, replies(k), jsonMode, clock(k)) ==> b.name == a.name
  {
  }

  /** What a call leaves on every account, by the replies: contacted ones as recorded, the others untouched. */
  lemma CallRecords(accounts: seq<Account>, idx: nat, call: Call, i: nat)
    requires UniqueNames(accounts) && i < |accounts|
    ensures var after := Called(accounts, idx, call);
            var names := Contacts(accounts, idx, call);
            && |after| == |accounts| && UniqueNames(after)
            && (accounts[i].name !in names ==> after[i] == accounts[i])
            && forall k :: 0 <= k < |names| && names[k] == accounts[i].name ==>
                 Recorded(accounts[i], after[i], call.replies(k), call.jsonMode, call.clock(k))
  {
    var usable := Usable(accounts, call.now);
    hide Usable, Marks, ApplyAll, EndsAt, Turn, Recorded, Asked, UniqueNames;
    if usable != [] {
      var start := StartOf(idx, |usable|);
      forall j: nat, k: nat | j < k < |usable| ensures Turn(usable, start, j).name != Turn(usable, start, k).name {
        ContactsDiffer(accounts, call.now, start, j, k);
      }
      var n := Asked(accounts, call);
      MarksRecord(accounts, usable, start, call.replies, call.jsonMode, call.clock, n, i);
      var names := Contacts(accounts, idx, call);
      assert forall k :: 0 <= k < n ==> names[k] == Turn(usable, start, k).name && names[k] in names;
    }
  }

  /** An account that could not be reached stays as usable as it was; one at its limit, or without success, does not. */
  lemma ContactedUsable(accounts: seq<Account>, idx: nat, call: Call, i: nat, k: nat, later: int)
    requires UniqueNames(accounts) && i < |accounts| && k < |Contacts(accounts, idx, call)|
    requires Contacts(accounts, idx, call)[k] == accounts[i].name
    ensures var r := call.replies(k);
            var after := Called(accounts, idx, call);
            && |after| == |accounts|
            && (Available(after[i], later) <==>
                  if AtLimit(r, call.jsonMode) || Unsuccessful(r, call.jsonMode)
                  then accounts[i].active && call.clock(k) < Midnight(later)
                  else Available(accounts[i], later))
  {
    CallRecords(accounts, idx, call, i);
    hide Called, Contacts, AtLimit, Unsuccessful, NoJson, UniqueNames;
  }

  // ---------------------------------------------------------------- whom a call asks

  /** The first account asked is the one at the provider's position, or the first of all when that is past the end. */
  lemma FirstAsked(accounts: seq<Account>, idx: nat, call: Call)
    requires Usable(accounts, call.now) != []
    ensures var usable := Usable(accounts, call.now);
            Contacts(accounts, idx, call) != [] &&
            Contacts(accounts, idx, call)[0] == usable[if idx < |usable| then idx else 0].name
  {
    hide Usable, EndsAt;
    WrapOnce(|Usable(accounts, call.now)|, StartOf(idx, |Usable(accounts, call.now)|));
  }

  /** Each account asked next is the next usable one in the listing, or the first after the last. */
  lemma NextAsked(accounts: seq<Account>, idx: nat, call: Call, k: nat, i: nat)
    requires UniqueNames(accounts) && k + 1 < |Contacts(accounts, idx, call)|
    requires i < |Usable(accounts, call.now)|
    requires Contacts(accounts, idx, call)[k] == Usable(accounts, call.now)[i].name
    ensures var usable := Usable(accounts, call.now);
            Contacts(accounts, idx, call)[k + 1] == usable[if i + 1 < |usable| then i + 1 else 0].name
  {
    var usable := Usable(accounts, call.now);
    ListedUnique(accounts);
    FilteredUnique(Listed(accounts), call.now);
    hide Usable, EndsAt, Listed, Filtered;
    var start := StartOf(idx, |usable|);
    WrapOnce(|usable|, start + k);
    WrapOnce(|usable|, start + k + 1);
  }

  /** The next call starts at the account that answered, and otherwise where this one started. */
  lemma NextStart(accounts: seq<Account>, idx: nat, call: Call)
    requires Usable(accounts, call.now) != []
    ensures var usable := Usable(accounts, call.now);
            var start := if idx < |usable| then idx else 0;
            var next := NextIdx(accounts, idx, call);
            && (forall k: nat :: EndsWith(usable, call.replies, call.jsonMode, k) ==>
                  && k < |Contacts(accounts, idx, call)|
                  && if Answers(call.replies(k))
                     then next < |usable| && usable[next].name == Contacts(accounts, idx, call)[k] else next == start)
            && (AllPass(call.replies, call.jsonMode, |usable|) ==> next == start)
  {
    var usable := Usable(accounts, call.now);
    hide Usable, EndsAt, Passes, Judge, Answers, NoJson, TurnIndex, AtLimit;
    OutcomeIs(usable, StartOf(idx, |usable|), call.replies, call.jsonMode);
    forall k: nat | EndsWith(usable, call.replies, call.jsonMode, k) || (k == |usable| &&
        AllPass(call.replies, call.jsonMode, |usable|))
      ensures EndsAt(call.replies, call.jsonMode, |usable|, 0) == k
    {
      FirstToEnd(call.replies, call.jsonMode, |usable|, k);
    }
  }
}
