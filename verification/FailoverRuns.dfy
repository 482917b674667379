/** Sequences of chat completions and admin changes: an exhausted account is left alone for the rest of its day. */
module FailoverRuns {
  import opened AccountStore
  import opened Failover
  import opened ReplyEffects

  /** The store's accounts and the provider's position. */
  datatype State = State(accounts: seq<Account>, idx: nat)

  /** A completion, or a change an admin makes in between. */
  datatype Event = Chat(call: Call) | Admin(change: Change)

  function Step(s: State, e: Event): State {
    match e
    case Chat(call) => State(Called(s.accounts, s.idx, call), NextIdx(s.accounts, s.idx, call))
    case Admin(change) => s.(accounts := Apply(s.accounts, change))
  }

  function After(s: State, run: seq<Event>): State {
    if run == [] then s else Step(After(s, run[..|run| - 1]), run[|run| - 1])
  }

  /** Admins do not record use; everything a call records happens after it looked for usable accounts. */
  ghost predicate Sound(e: Event) {
    match e
    case Chat(call) => forall k: nat :: call.now <= call.clock(k) <= call.clock(k + 1)
    case Admin(change) => !change.MarkUsed?
  }

  /** The event happens at or after the moment. */
  ghost predicate From(e: Event, moment: int) {
    e.Chat? ==> e.call.now >= moment && forall k: nat :: e.call.clock(k) >= moment
  }

  /** Calls follow one another: all of one is recorded before the next looks for accounts. */
  ghost predicate Timed(run: seq<Event>) {
    && (forall i :: 0 <= i < |run| ==> Sound(run[i]))
    && forall i, j, k: nat :: 0 <= i < j < |run| && run[i].Chat? ==> From(run[j], run[i].call.clock(k))
  }

  lemma ChangeKeepsNames(accounts: seq<Account>, c: Change)
    requires UniqueNames(accounts)
    ensures UniqueNames(Apply(accounts, c))
  {
    if c.Remove? {
      RemovedUnique(accounts, c.name);
    }
  }

  lemma {:induction false} RemovedUnique(accounts: seq<Account>, name: string)
    requires UniqueNames(accounts)
    ensures UniqueNames(Removed(accounts, name))
  {
    if accounts != [] {
      var front, last := accounts[..|accounts| - 1], accounts[|accounts| - 1];
      RemovedUnique(front, name);
      RemovedMembers(front, name);
      forall x | x in Removed(front, name) ensures x.name != last.name {
        assert x in front;
      }
    }
  }

  lemma {:induction false} ChangesKeepNames(accounts: seq<Account>, changes: seq<Change>)
    requires UniqueNames(accounts)
    ensures UniqueNames(ApplyAll(accounts, changes))
  {
    hide UniqueNames, Apply;
    if changes != [] {
      ChangesKeepNames(accounts, changes[..|changes| - 1]);
      ChangeKeepsNames(ApplyAll(accounts, changes[..|changes| - 1]), changes[|changes| - 1]);
    }
  }

  lemma {:induction false} RunKeepsNames(s: State, run: seq<Event>)
    requires UniqueNames(s.accounts)
    ensures UniqueNames(After(s, run).accounts)
  {
    hide UniqueNames, Apply, ApplyAll, Marks, Usable, NextIdx;
    if run != [] {
      RunKeepsNames(s, run[..|run| - 1]);
      var before, e := After(s, run[..|run| - 1]), run[|run| - 1];
      match e {
        case Chat(call) => CallKeepsNames(before.accounts, before.idx, call);
        case Admin(change) => ChangeKeepsNames(before.accounts, change);
      }
    }
  }

  lemma CallKeepsNames(accounts: seq<Account>, idx: nat, call: Call)
    requires UniqueNames(accounts)
    ensures UniqueNames(Called(accounts, idx, call))
  {
    hide UniqueNames, ApplyAll, Marks, Usable, Asked;
    var usable := Usable(accounts, call.now);
    if usable != [] {
      ChangesKeepNames(accounts, Marks(usable, StartOf(idx, |usable|), call.replies, call.jsonMode, call.clock,
                                       Asked(accounts, call)));
    }
  }

  /** A call records nothing but uses and exhaustions, each at the moment of its attempt. */
  lemma {:induction false} MarksAre(usable: seq<Account>, start: nat, replies: Oracle, jsonMode: bool,
      clock: nat -> int, n: nat, since: int)
    requires start < |usable| && forall k: nat :: clock(k) >= since
    ensures forall c :: c in Marks(usable, start, replies, jsonMode, clock, n) ==> c.MarkUsed? && c.at >= since
  {
    hide Judge, Turn;
    if n > 0 {
      MarksAre(usable, start, replies, jsonMode, clock, n - 1, since);
    }
  }

  lemma {:induction false} ChangesKeepExhausted(accounts: seq<Account>, changes: seq<Change>, name: string, since: int)
    requires ExhaustedSince(accounts, name, since)
    requires forall c :: c in changes ==> !Revives(c, name) && (c.MarkUsed? ==> c.at >= since)
    ensures ExhaustedSince(ApplyAll(accounts, changes), name, since)
  {
    hide ExhaustedSince, Apply;
    if changes != [] {
      var front := changes[..|changes| - 1];
      ChangesKeepExhausted(accounts, front, name, since);
      ChangeKeepsExhausted(ApplyAll(accounts, front), changes[|changes| - 1], name, since);
    }
  }

  /** Nothing but re-enabling or adding the account again takes its exhaustion back. */
  lemma StepKeepsExhausted(s: State, e: Event, name: string, since: int)
    requires ExhaustedSince(s.accounts, name, since) && Sound(e) && From(e, since)
    requires e.Admin? ==> !Revives(e.change, name)
    ensures ExhaustedSince(Step(s, e).accounts, name, since)
  {
    hide ExhaustedSince, Apply, ApplyAll, Marks, Usable, NextIdx, Asked;
    match e
    case Admin(change) => ChangeKeepsExhausted(s.accounts, change, name, since);
    case Chat(call) =>
      var usable := Usable(s.accounts, call.now);
      if usable != [] {
        var start, n := StartOf(s.idx, |usable|), Asked(s.accounts, call);
        MarksAre(usable, start, call.replies, call.jsonMode, call.clock, n, since);
        ChangesKeepExhausted(s.accounts, Marks(usable, start, call.replies, call.jsonMode, call.clock, n), name, since);
      }
  }

  lemma {:induction false} RunKeepsExhausted(s: State, run: seq<Event>, name: string, since: int)
    requires ExhaustedSince(s.accounts, name, since)
    requires forall m :: 0 <= m < |run| ==> Sound(run[m]) && From(run[m], since)
    requires forall m :: 0 <= m < |run| && run[m].Admin? ==> !Revives(run[m].change, name)
    ensures ExhaustedSince(After(s, run).accounts, name, since)
  {
    hide ExhaustedSince, Step, Sound, From, Revives;
    if run != [] {
      RunKeepsExhausted(s, run[..|run| - 1], name, since);
      StepKeepsExhausted(After(s, run[..|run| - 1]), run[|run| - 1], name, since);
    }
  }

  lemma {:induction false} RunsFollow(s: State, a: seq<Event>, b: seq<Event>)
    ensures After(s, a + b) == After(After(s, a), b)
    decreases |b|
  {
    hide Step;
    if b == [] {
      assert a + b == a;
    } else {
      RunsFollow(s, a, b[..|b| - 1]);
      assert (a + b)[..|a + b| - 1] == a + b[..|b| - 1];
    }
  }

  /** The account of an attempt without success, or turned away for its limit, is exhausted when the call is over. */
  lemma CallExhausts(s: State, call: Call, k: nat)
    requires UniqueNames(s.accounts) && Sound(Chat(call)) && k < Asked(s.accounts, call)
    requires AtLimit(call.replies(k), call.jsonMode) || Unsuccessful(call.replies(k), call.jsonMode)
    ensures ExhaustedSince(Step(s, Chat(call)).accounts, Contacts(s.accounts, s.idx, call)[k], call.clock(k))
  {
    var usable := Usable(s.accounts, call.now);
    VerdictIs(call.replies(k), call.jsonMode);
    hide UniqueNames, ExhaustedSince, Judge, ApplyAll, Marks, Usable, NextIdx, TurnIndex;
    forall j: nat | k <= j ensures call.clock(j) >= call.clock(k) {
      ClockMoves(call, k, j);
    }
    TriedExhausted(s.accounts, usable, StartOf(s.idx, |usable|), call.replies, call.jsonMode, call.clock,
                   Asked(s.accounts, call), k, call.clock(k));
  }

  lemma {:induction false} ClockMoves(call: Call, k: nat, j: nat)
    requires Sound(Chat(call)) && k <= j
    ensures call.clock(k) <= call.clock(j)
    decreases j
  {
    if k < j {
      ClockMoves(call, k, j - 1);
      assert call.clock(j - 1) <= call.clock(j - 1 + 1);
    }
  }

  /** A call asks usable accounts only. */
  lemma ContactsAreUsable(accounts: seq<Account>, idx: nat, call: Call, name: string)
    requires name in Contacts(accounts, idx, call)
    ensures exists a :: a in Usable(accounts, call.now) && a.name == name
  {
    hide Usable, EndsAt, TurnIndex;
    var usable := Usable(accounts, call.now);
    var k :| 0 <= k < |Contacts(accounts, idx, call)| && Contacts(accounts, idx, call)[k] == name;
    assert Turn(usable, StartOf(idx, |usable|), k) in usable;
  }

  /** The account of attempt `k` of the call at position `i`. */
  function ContactOf(s: State, run: seq<Event>, i: nat, k: nat): string
    requires i < |run| && run[i].Chat? && k < Asked(After(s, run[..i]).accounts, run[i].call)
  {
    Contacts(After(s, run[..i]).accounts, After(s, run[..i]).idx, run[i].call)[k]
  }

  lemma Split(s: State, run: seq<Event>, i: nat, j: nat)
    requires i < j <= |run|
    ensures After(s, run[..j]) == After(Step(After(s, run[..i]), run[i]), run[i + 1..j])
  {
    hide Step;
    var first, rest := run[..i + 1], run[i + 1..j];
    assert first[..i] == run[..i] && first + rest == run[..j];
    RunsFollow(s, first, rest);
  }

  lemma NotAmongContacts(s: State, name: string, since: int, call: Call)
    requires ExhaustedSince(s.accounts, name, since) && Midnight(call.now) <= since
    ensures name !in Contacts(s.accounts, s.idx, call)
  {
    hide ExhaustedSince, Contacts, Usable, Midnight;
    if name in Contacts(s.accounts, s.idx, call) {
      ContactsAreUsable(s.accounts, s.idx, call, name);
      StillOut(s.accounts, name, since, call.now);
    }
  }

  /** What follows a call in a timed run happens after it. */
  lemma RestIsLater(run: seq<Event>, i: nat, j: nat, k: nat, rest: seq<Event>)
    requires Timed(run) && i < j <= |run| && run[i].Chat? && rest == run[i + 1..j]
    ensures forall m :: 0 <= m < |rest| ==> Sound(rest[m]) && From(rest[m], run[i].call.clock(k))
  {
    hide Sound, From;
    forall m | 0 <= m < |rest| ensures Sound(rest[m]) && From(rest[m], run[i].call.clock(k)) {
      assert rest[m] == run[i + 1 + m];
    }
  }

  /**
   * Main result: over every sequence of calls and admin changes, an account that was turned away for its limit, or
   * answered without success, is contacted by no later call before the next UTC midnight unless an admin re-enables
   * it or adds it again.
   */
  lemma ExhaustedNotContacted(s: State, run: seq<Event>, i: nat, k: nat, j: nat)
    requires UniqueNames(s.accounts) && Timed(run) && i < j < |run| && run[i].Chat? && run[j].Chat?
    requires k < Asked(After(s, run[..i]).accounts, run[i].call)
    requires var r, jsonMode := run[i].call.replies(k), run[i].call.jsonMode;
             AtLimit(r, jsonMode) || Unsuccessful(r, jsonMode)
    requires forall m :: i < m < j && run[m].Admin? ==> !Revives(run[m].change, ContactOf(s, run, i, k))
    requires Midnight(run[j].call.now) <= run[i].call.clock(k)
    ensures var later := After(s, run[..j]);
            ContactOf(s, run, i, k) !in Contacts(later.accounts, later.idx, run[j].call)
  {
    var before, rest, since := After(s, run[..i]), run[i + 1..j], run[i].call.clock(k);
    var name := ContactOf(s, run, i, k);
    assert name == Contacts(before.accounts, before.idx, run[i].call)[k] && run[i] == Chat(run[i].call);
    assert Sound(run[i]);
    assert forall m :: 0 <= m < |rest| ==> rest[m] == run[i + 1 + m];
    RestIsLater(run, i, j, k, rest);
    hide *;
    RunKeepsNames(s, run[..i]);
    CallExhausts(before, run[i].call, k);
    Split(s, run, i, j);
    RunKeepsExhausted(Step(before, run[i]), rest, name, since);
    NotAmongContacts(After(s, run[..j]), name, since, run[j].call);
  }
}
