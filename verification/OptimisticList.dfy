/** The optimistic e-mail list of the mobile app (apps/mobile/components/EmailListWithGestures.tsx). */
module OptimisticList {
  import opened Options
  import opened Sequences

  // A swipe removes a row at once and remembers it together with its index; the
  // asynchronous handler then resolves (the removal stands) or rejects (the row is
  // spliced back at the remembered index, clamped to the current length). Any number
  // of actions can be in flight and they settle in any order, so a run is an arbitrary
  // sequence of events.

  datatype Email = Email(id: string, row: string)

  /** What `pendingRef` holds once the state updater has found the row. */
  datatype Snapshot = Snapshot(email: Email, index: nat)

  datatype Status = InFlight | Confirmed | Rejected

  datatype Action = Action(snapshot: Option<Snapshot>, status: Status)

  datatype State = State(emails: seq<Email>, actions: seq<Action>)

  /** Actions are numbered in the order in which they are started. */
  datatype Event = Start(id: string) | Confirm(k: nat) | Reject(k: nat)

  /** The index of the first row with the given id, or -1. */
  function FindIndex(emails: seq<Email>, id: string): (index: int)
    ensures -1 <= index < |emails|
    ensures index >= 0 ==> emails[index].id == id
    ensures forall i :: 0 <= i < (if index < 0 then |emails| else index) ==> emails[i].id != id
  {
    if emails == [] then -1
    else if emails[0].id == id then 0
    else
      var rest := FindIndex(emails[1..], id);
      if rest < 0 then -1 else rest + 1
  }

  function RemoveAt(emails: seq<Email>, index: nat): seq<Email>
    requires index < |emails|
  {
    emails[..index] + emails[index + 1..]
  }

  function InsertionPoint(emails: seq<Email>, index: nat): (at: nat)
    ensures at <= |emails| && at <= index
    ensures at == index || at == |emails|
  {
    if index < |emails| then index else |emails|
  }

  function Reinsert(emails: seq<Email>, snapshot: Snapshot): seq<Email> {
    var at := InsertionPoint(emails, snapshot.index);
    emails[..at] + [snapshot.email] + emails[at..]
  }

  function StartStep(s: State, id: string): State {
    var index := FindIndex(s.emails, id);
    if index < 0 then
      State(s.emails, s.actions + [Action(None, InFlight)])
    else
      State(RemoveAt(s.emails, index), s.actions + [Action(Some(Snapshot(s.emails[index], index)), InFlight)])
  }

  /** A promise settles once: settling an action twice, or one that was never started, changes nothing. */
  predicate Settles(s: State, k: nat) {
    k < |s.actions| && s.actions[k].status == InFlight
  }

  function Step(s: State, event: Event): State {
    match event
    case Start(id) => StartStep(s, id)
    case Confirm(k) =>
      if !Settles(s, k) then s
      else s.(actions := s.actions[k := s.actions[k].(status := Confirmed)])
    case Reject(k) =>
      if !Settles(s, k) then s
      else
        State(if s.actions[k].snapshot.Some? then Reinsert(s.emails, s.actions[k].snapshot.value) else s.emails,
              s.actions[k := s.actions[k].(status := Rejected)])
  }

  function Run(s: State, events: seq<Event>): State
    decreases |events|
  {
    if events == [] then s else Run(Step(s, events[0]), events[1..])
  }

  lemma {:induction false} RunConcat(s: State, first: seq<Event>, second: seq<Event>)
    ensures Run(s, first + second) == Run(Run(s, first), second)
    decreases |first|
  {
    if first == [] {
      assert first + second == second;
    } else {
      assert (first + second)[1..] == first[1..] + second;
      RunConcat(Step(s, first[0]), first[1..], second);
    }
  }

  // ---------- Conservation: no e-mail is lost or duplicated ----------

  function Holding(action: Action, status: Status): multiset<Email> {
    if action.snapshot.Some? && action.status == status then multiset{action.snapshot.value.email} else multiset{}
  }

  /** The e-mails held by the actions that have the given status. */
  function Tally(actions: seq<Action>, status: Status): multiset<Email> {
    if actions == [] then multiset{} else Holding(actions[0], status) + Tally(actions[1..], status)
  }

  /** Visible rows, rows held for a possible rollback, and rows whose removal was confirmed. */
  function Accounted(s: State): multiset<Email> {
    multiset(s.emails) + Tally(s.actions, InFlight) + Tally(s.actions, Confirmed)
  }

  lemma {:induction false} TallyAppend(actions: seq<Action>, action: Action, status: Status)
    ensures Tally(actions + [action], status) == Tally(actions, status) + Holding(action, status)
  {
    if actions == [] {
      assert Tally([action], status) == Holding(action, status) + Tally([], status);
      assert [] + [action] == [action];
    } else {
      assert (actions + [action])[1..] == actions[1..] + [action];
      TallyAppend(actions[1..], action, status);
    }
  }

  lemma AddBoth<T>(h: multiset<T>, a: multiset<T>, b: multiset<T>, c: multiset<T>, d: multiset<T>)
    requires a + b == c + d
    ensures (h + a) + b == (h + c) + d
  {
    assert (h + a) + b == h + (a + b);
    assert (h + c) + d == h + (c + d);
  }

  lemma MoveOut<T>(visible: multiset<T>, held: multiset<T>, moved: multiset<T>, rest: multiset<T>)
    ensures (visible + moved) + held + rest == visible + (held + moved) + rest
  {
  }

  lemma SwapLast<T>(a: multiset<T>, b: multiset<T>, c: multiset<T>)
    ensures (a + b) + c == (c + b) + a
  {
  }

  lemma TallyCons(action: Action, rest: seq<Action>, status: Status)
    ensures Tally([action] + rest, status) == Holding(action, status) + Tally(rest, status)
  {
    assert ([action] + rest)[1..] == rest;
  }

  lemma {:induction false} TallyUpdate(actions: seq<Action>, k: nat, action: Action, status: Status)
    requires k < |actions|
    ensures Tally(actions[k := action], status) + Holding(actions[k], status)
         == Tally(actions, status) + Holding(action, status)
  {
    var head, rest := actions[0], actions[1..];
    assert actions == [head] + rest;
    TallyCons(head, rest, status);
    if k == 0 {
      assert actions[0 := action] == [action] + rest;
      TallyCons(action, rest, status);
      SwapLast(Holding(action, status), Tally(rest, status), Holding(head, status));
    } else {
      assert actions[k := action] == [head] + rest[k - 1 := action];
      TallyCons(head, rest[k - 1 := action], status);
      TallyUpdate(rest, k - 1, action, status);
      AddBoth(Holding(head, status), Tally(rest[k - 1 := action], status), Holding(actions[k], status),
              Tally(rest, status), Holding(action, status));
    }
  }

  lemma {:induction false} TallyContains(actions: seq<Action>, k: nat, status: Status)
    requires k < |actions|
    ensures Holding(actions[k], status) <= Tally(actions, status)
  {
    if k > 0 {
      TallyContains(actions[1..], k - 1, status);
    }
  }

  lemma RemoveAtMultiset(emails: seq<Email>, index: nat)
    requires index < |emails|
    ensures multiset(RemoveAt(emails, index)) + multiset{emails[index]} == multiset(emails)
  {
    assert emails == emails[..index] + ([emails[index]] + emails[index + 1..]);
  }

  lemma ReinsertMultiset(emails: seq<Email>, snapshot: Snapshot)
    ensures multiset(Reinsert(emails, snapshot)) == multiset(emails) + multiset{snapshot.email}
  {
    var at := InsertionPoint(emails, snapshot.index);
    assert emails == emails[..at] + emails[at..];
  }

  lemma RejectConserves(s: State, k: nat)
    requires Settles(s, k)
    ensures Accounted(Step(s, Reject(k))) == Accounted(s)
  {
    var action := s.actions[k].(status := Rejected);
    var t := Step(s, Reject(k));
    TallyUpdate(s.actions, k, action, InFlight);
    TallyUpdate(s.actions, k, action, Confirmed);
    assert Tally(t.actions, Confirmed) == Tally(t.actions, Confirmed) + Holding(s.actions[k], Confirmed);
    assert Tally(s.actions, Confirmed) == Tally(s.actions, Confirmed) + Holding(action, Confirmed);
    assert Tally(s.actions, InFlight) == Tally(s.actions, InFlight) + Holding(action, InFlight);
    if s.actions[k].snapshot.Some? {
      ReinsertMultiset(s.emails, s.actions[k].snapshot.value);
    }
    assert multiset(t.emails) == multiset(s.emails) + Holding(s.actions[k], InFlight);
    MoveOut(multiset(s.emails), Tally(t.actions, InFlight), Holding(s.actions[k], InFlight), Tally(s.actions, Confirmed));
  }

  lemma ConfirmConserves(s: State, k: nat)
    requires Settles(s, k)
    ensures Accounted(Step(s, Confirm(k))) == Accounted(s)
  {
    var action := s.actions[k].(status := Confirmed);
    var t := Step(s, Confirm(k));
    TallyUpdate(s.actions, k, action, InFlight);
    TallyUpdate(s.actions, k, action, Confirmed);
    assert Tally(t.actions, Confirmed) == Tally(t.actions, Confirmed) + Holding(s.actions[k], Confirmed);
    assert Tally(s.actions, InFlight) == Tally(s.actions, InFlight) + Holding(action, InFlight);
    assert Holding(s.actions[k], InFlight) == Holding(action, Confirmed);
  }

  lemma StartConserves(s: State, id: string)
    ensures Accounted(StartStep(s, id)) == Accounted(s)
  {
    var t := StartStep(s, id);
    var action := t.actions[|s.actions|];
    assert t.actions == s.actions + [action];
    TallyAppend(s.actions, action, InFlight);
    TallyAppend(s.actions, action, Confirmed);
    assert Tally(t.actions, Confirmed) == Tally(s.actions, Confirmed);
    var index := FindIndex(s.emails, id);
    if index >= 0 {
      RemoveAtMultiset(s.emails, index);
      MoveOut(multiset(t.emails), Tally(s.actions, InFlight), Holding(action, InFlight), Tally(s.actions, Confirmed));
    }
  }

  lemma StepConserves(s: State, event: Event)
    ensures Accounted(Step(s, event)) == Accounted(s)
  {
    match event
    case Start(id) => StartConserves(s, id);
    case Confirm(k) =>
      if Settles(s, k) {
        ConfirmConserves(s, k);
      }
    case Reject(k) =>
      if Settles(s, k) {
        RejectConserves(s, k);
      }
  }

  /** In every interleaving, every e-mail of the start state is visible, held or removed, exactly as often as before. */
  lemma {:induction false} RunConserves(s: State, events: seq<Event>)
    ensures Accounted(Run(s, events)) == Accounted(s)
    decreases |events|
  {
    if events != [] {
      StepConserves(s, events[0]);
      RunConserves(Step(s, events[0]), events[1..]);
    }
  }

  ghost predicate DistinctIds(emails: seq<Email>) {
    forall i, j :: 0 <= i < j < |emails| ==> emails[i].id != emails[j].id
  }

  lemma {:induction false} DistinctCount(emails: seq<Email>, email: Email)
    requires DistinctIds(emails)
    ensures multiset(emails)[email] <= 1
  {
    if emails != [] {
      assert emails == [emails[0]] + emails[1..];
      DistinctCount(emails[1..], email);
      assert forall j :: 0 <= j < |emails[1..]| ==> emails[1..][j] == emails[j + 1];
    }
  }

  /** An e-mail in the list and one in the multiset of the same list that share an id are the same e-mail. */
  lemma SameIdSameEmail(emails: seq<Email>, a: Email, b: Email)
    requires DistinctIds(emails) && a in multiset(emails) && b in multiset(emails) && a.id == b.id
    ensures a == b
  {
    var i :| 0 <= i < |emails| && emails[i] == a;
    var j :| 0 <= j < |emails| && emails[j] == b;
    assert !(i < j) && !(j < i);
  }

  predicate Taken(s: State, k: nat) {
    k < |s.actions| && s.actions[k].snapshot.Some? && s.actions[k].status != Rejected
  }

  predicate Shown(s: State, id: string) {
    exists i :: 0 <= i < |s.emails| && s.emails[i].id == id
  }

  lemma HeldIsNotShown(initial: seq<Email>, s: State, k: nat)
    requires DistinctIds(initial) && Accounted(s) == multiset(initial) && Taken(s, k)
    ensures !Shown(s, s.actions[k].snapshot.value.email.id)
  {
    var held := s.actions[k].snapshot.value.email;
    TallyContains(s.actions, k, s.actions[k].status);
    assert held in Holding(s.actions[k], s.actions[k].status);
    forall i | 0 <= i < |s.emails|
      ensures s.emails[i].id != held.id
    {
      var shown := s.emails[i];
      assert shown in multiset(s.emails);
      assert shown in multiset(initial) && held in multiset(initial);
      if shown.id == held.id {
        SameIdSameEmail(initial, shown, held);
        DistinctCount(initial, held);
      }
    }
  }

  ghost predicate Reachable(initial: seq<Email>, s: State) {
    exists events :: Run(State(initial, []), events) == s
  }

  lemma ReachableConserves(initial: seq<Email>, s: State)
    requires Reachable(initial, s)
    ensures Accounted(s) == multiset(initial)
  {
    var events :| Run(State(initial, []), events) == s;
    RunConserves(State(initial, []), events);
    assert Accounted(State(initial, [])) == multiset(initial);
  }

  /** No row is shown while a snapshot of it is held or after its removal was confirmed. */
  lemma RemovedIsNotVisible(initial: seq<Email>, s: State, k: nat)
    requires DistinctIds(initial) && Reachable(initial, s) && Taken(s, k)
    ensures !Shown(s, s.actions[k].snapshot.value.email.id)
  {
    ReachableConserves(initial, s);
    HeldIsNotShown(initial, s, k);
  }

  /** A second action on an e-mail already removed leaves the list alone and holds no snapshot. */
  lemma SecondActionHoldsNothing(initial: seq<Email>, s: State, k: nat)
    requires DistinctIds(initial) && Reachable(initial, s) && Taken(s, k)
    ensures Step(s, Start(s.actions[k].snapshot.value.email.id))
         == State(s.emails, s.actions + [Action(None, InFlight)])
  {
    RemovedIsNotVisible(initial, s, k);
  }

  lemma {:induction false} TallyMember(actions: seq<Action>, email: Email, status: Status) returns (k: nat)
    requires email in Tally(actions, status)
    ensures k < |actions| && actions[k].status == status && actions[k].snapshot.Some?
    ensures actions[k].snapshot.value.email == email
  {
    if email in Holding(actions[0], status) {
      k := 0;
    } else {
      var rest := TallyMember(actions[1..], email, status);
      k := rest + 1;
    }
  }

  /** Exactly then: a row of the start list is shown if and only if no action in flight and no confirmed one took it. */
  lemma ShownIffNotTaken(initial: seq<Email>, s: State, id: string)
    requires DistinctIds(initial) && Reachable(initial, s) && exists i :: 0 <= i < |initial| && initial[i].id == id
    ensures Shown(s, id) <==> !exists k: nat :: Taken(s, k) && s.actions[k].snapshot.value.email.id == id
  {
    ReachableConserves(initial, s);
    var i :| 0 <= i < |initial| && initial[i].id == id;
    var email := initial[i];
    assert email in Accounted(s);
    if email in multiset(s.emails) {
      var j :| 0 <= j < |s.emails| && s.emails[j] == email;
      forall k: nat | Taken(s, k)
        ensures s.actions[k].snapshot.value.email.id != id
      {
        HeldIsNotShown(initial, s, k);
      }
    } else {
      var k := TallyMember(s.actions, email, if email in Tally(s.actions, InFlight) then InFlight else Confirmed);
      HeldIsNotShown(initial, s, k);
    }
  }

  /** How an action ends, told by the events: as its first settlement says. */
  function FirstSettlement(events: seq<Event>, k: nat): Status {
    if events == [] then InFlight
    else if events[0] == Confirm(k) then Confirmed
    else if events[0] == Reject(k) then Rejected
    else FirstSettlement(events[1..], k)
  }

  lemma {:induction false} SettledStays(s: State, events: seq<Event>, k: nat)
    requires k < |s.actions| && s.actions[k].status != InFlight
    ensures k < |Run(s, events).actions| && Run(s, events).actions[k] == s.actions[k]
    decreases |events|
  {
    if events != [] {
      SettledStays(Step(s, events[0]), events[1..], k);
    }
  }

  /** In every interleaving the first settlement of an action decides how it ends, and no later one changes it. */
  lemma {:induction false} FirstSettlementDecides(s: State, events: seq<Event>, k: nat)
    requires Settles(s, k)
    ensures k < |Run(s, events).actions|
    ensures Run(s, events).actions[k] == s.actions[k].(status := FirstSettlement(events, k))
    decreases |events|
  {
    if events != [] {
      var t := Step(s, events[0]);
      if events[0] == Confirm(k) || events[0] == Reject(k) {
        SettledStays(t, events[1..], k);
      } else {
        assert t.actions[k] == s.actions[k];
        FirstSettlementDecides(t, events[1..], k);
      }
    }
  }

  // ---------- Nested rollbacks restore the list exactly ----------

  /** A run in which every removal is rejected, and removals started later are rejected earlier. */
  datatype Nesting = Done | Wrap(id: string, inner: Nesting, after: Nesting)

  function Starts(n: Nesting): nat {
    match n
    case Done => 0
    case Wrap(_, inner, after) => 1 + Starts(inner) + Starts(after)
  }

  function Bracket(first: Event, inner: seq<Event>, last: Event, rest: seq<Event>): seq<Event> {
    [first] + inner + [last] + rest
  }

  /** The events of the run, when the next action to be started has number `next`. */
  function Nested(n: Nesting, next: nat): seq<Event> {
    match n
    case Done => []
    case Wrap(id, inner, after) =>
      Bracket(Start(id), Nested(inner, next + 1), Reject(next), Nested(after, next + 1 + Starts(inner)))
  }

  /** Reinserting a row into the list it was taken from gives the list back. */
  lemma RemoveThenReinsert(emails: seq<Email>, index: nat)
    requires index < |emails|
    ensures Reinsert(RemoveAt(emails, index), Snapshot(emails[index], index)) == emails
  {
    var removed := RemoveAt(emails, index);
    assert InsertionPoint(removed, index) == index;
    assert removed[..index] == emails[..index];
    assert removed[index..] == emails[index + 1..];
  }

  lemma RunOne(s: State, event: Event)
    ensures Run(s, [event]) == Step(s, event)
  {
    assert Run(Step(s, event), []) == Step(s, event);
  }

  /** The same run, bracket by bracket. */
  function RunNested(s: State, n: Nesting): State
    decreases n
  {
    match n
    case Done => s
    case Wrap(id, inner, after) =>
      RunNested(Step(RunNested(Step(s, Start(id)), inner), Reject(|s.actions|)), after)
  }

  lemma RunBracket(s: State, first: Event, inner: seq<Event>, last: Event, rest: seq<Event>)
    ensures Run(s, Bracket(first, inner, last, rest)) == Run(Step(Run(Step(s, first), inner), last), rest)
  {
    RunConcat(s, [first] + inner + [last], rest);
    RunConcat(s, [first] + inner, [last]);
    RunOne(Run(s, [first] + inner), last);
    assert ([first] + inner)[1..] == inner;
  }

  /** The rows are back, and nothing has happened to the earlier actions. */
  ghost predicate Restored(s: State, t: State, started: nat) {
    && t.emails == s.emails
    && |t.actions| == |s.actions| + started
    && t.actions[..|s.actions|] == s.actions
  }

  lemma RestoredTwice(s: State, t: State, u: State, first: nat, second: nat)
    requires Restored(s, t, first) && Restored(t, u, second)
    ensures Restored(s, u, first + second)
  {
    assert u.actions[..|s.actions|] == u.actions[..|t.actions|][..|s.actions|];
  }

  /** Rejecting what was just started restores the rows, whatever happened to later actions meanwhile. */
  lemma UndoStart(s: State, id: string, s2: State, started: nat)
    requires Restored(Step(s, Start(id)), s2, started)
    ensures Restored(s, Step(s2, Reject(|s.actions|)), started + 1)
  {
    var next, s1 := |s.actions|, Step(s, Start(id));
    assert s2.actions[next] == s2.actions[..|s1.actions|][next] == s1.actions[next];
    var index := FindIndex(s.emails, id);
    if index >= 0 {
      RemoveThenReinsert(s.emails, index);
    }
    assert s2.actions[..next] == s2.actions[..|s1.actions|][..next] == s.actions;
  }

  lemma StartCounts(s: State, id: string)
    ensures |Step(s, Start(id)).actions| == |s.actions| + 1
  {
  }

  lemma {:induction false} BracketsRestore(s: State, n: Nesting)
    ensures Restored(s, RunNested(s, n), Starts(n))
    decreases n
  {
    match n
    case Done =>
    case Wrap(id, inner, after) =>
      var s1 := Step(s, Start(id));
      var s2 := RunNested(s1, inner);
      BracketsRestore(s1, inner);
      UndoStart(s, id, s2, Starts(inner));
      var s3 := Step(s2, Reject(|s.actions|));
      BracketsRestore(s3, after);
      RestoredTwice(s, s3, RunNested(s3, after), 1 + Starts(inner), Starts(after));
  }

  lemma {:induction false} RunBrackets(s: State, n: Nesting, next: nat)
    requires next == |s.actions|
    ensures Run(s, Nested(n, next)) == RunNested(s, n)
    decreases n
  {
    match n
    case Done =>
    case Wrap(id, inner, after) =>
      var s1 := Step(s, Start(id));
      var s2 := RunNested(s1, inner);
      var s3 := Step(s2, Reject(next));
      StartCounts(s, id);
      RunBrackets(s1, inner, next + 1);
      BracketsRestore(s1, inner);
      UndoStart(s, id, s2, Starts(inner));
      RunBrackets(s3, after, next + 1 + Starts(inner));
      RunBracket(s, Start(id), Nested(inner, next + 1), Reject(next), Nested(after, next + 1 + Starts(inner)));
  }

  /** Rejecting removals in the reverse order of their starts restores exactly the original sequence. */
  lemma {:induction false} NestedRollbackRestores(s: State, n: Nesting)
    ensures Restored(s, Run(s, Nested(n, |s.actions|)), Starts(n))
  {
    RunBrackets(s, n, |s.actions|);
    BracketsRestore(s, n);
  }

  // ---------- The order of untouched rows ----------

  function Untouched(emails: seq<Email>, touched: set<string>): seq<Email> {
    if emails == [] then []
    else (if emails[0].id in touched then [] else [emails[0]]) + Untouched(emails[1..], touched)
  }

  function NotIn(touched: set<string>): Email -> bool {
    (email: Email) => email.id !in touched
  }

  lemma {:induction false} UntouchedSelects(emails: seq<Email>, touched: set<string>)
    ensures IsSelection(emails, Untouched(emails, touched), NotIn(touched))
  {
    if emails == [] {
      SelectNothing(NotIn(touched));
    } else {
      UntouchedSelects(emails[1..], touched);
      SelectFirst(emails[0], emails[1..], Untouched(emails[1..], touched), NotIn(touched));
      assert [emails[0]] + emails[1..] == emails;
    }
  }

  lemma {:induction false} UntouchedConcat(a: seq<Email>, b: seq<Email>, touched: set<string>)
    ensures Untouched(a + b, touched) == Untouched(a, touched) + Untouched(b, touched)
  {
    if a == [] {
      assert a + b == b;
    } else {
      assert (a + b)[1..] == a[1..] + b && (a + b)[0] == a[0];
      UntouchedConcat(a[1..], b, touched);
      ConcatAssoc(if a[0].id in touched then [] else [a[0]], Untouched(a[1..], touched), Untouched(b, touched));
    }
  }

  lemma UntouchedAround(a: seq<Email>, email: Email, b: seq<Email>, touched: set<string>)
    requires email.id in touched
    ensures Untouched(a + [email] + b, touched) == Untouched(a + b, touched)
  {
    UntouchedConcat(a + [email], b, touched);
    UntouchedConcat(a, [email], touched);
    UntouchedConcat(a, b, touched);
    assert Untouched([email], touched) == [];
  }

  ghost predicate OnlyTouches(events: seq<Event>, touched: set<string>) {
    forall i :: 0 <= i < |events| && events[i].Start? ==> events[i].id in touched
  }

  ghost predicate HoldsOnly(actions: seq<Action>, touched: set<string>) {
    forall k :: 0 <= k < |actions| && actions[k].snapshot.Some? ==> actions[k].snapshot.value.email.id in touched
  }

  lemma StepKeepsUntouched(s: State, event: Event, touched: set<string>)
    requires HoldsOnly(s.actions, touched)
    requires event.Start? ==> event.id in touched
    ensures HoldsOnly(Step(s, event).actions, touched)
    ensures Untouched(Step(s, event).emails, touched) == Untouched(s.emails, touched)
  {
    match event
    case Start(id) =>
      var index := FindIndex(s.emails, id);
      if index >= 0 {
        UntouchedAround(s.emails[..index], s.emails[index], s.emails[index + 1..], touched);
        assert s.emails == s.emails[..index] + [s.emails[index]] + s.emails[index + 1..];
      }
    case Confirm(k) =>
    case Reject(k) =>
      if Settles(s, k) && s.actions[k].snapshot.Some? {
        var snapshot := s.actions[k].snapshot.value;
        var at := InsertionPoint(s.emails, snapshot.index);
        UntouchedAround(s.emails[..at], snapshot.email, s.emails[at..], touched);
        assert s.emails == s.emails[..at] + s.emails[at..];
      }
  }

  /** Under any interleaving, the rows that no action names stay, in their order. */
  lemma {:induction false} RunKeepsUntouched(s: State, events: seq<Event>, touched: set<string>)
    requires HoldsOnly(s.actions, touched) && OnlyTouches(events, touched)
    ensures Untouched(Run(s, events).emails, touched) == Untouched(s.emails, touched)
    decreases |events|
  {
    if events != [] {
      StepKeepsUntouched(s, events[0], touched);
      assert OnlyTouches(events[1..], touched) by {
        forall i | 0 <= i < |events[1..]| && events[1..][i].Start?
          ensures events[1..][i].id in touched
        {
          assert events[1..][i] == events[i + 1];
        }
      }
      RunKeepsUntouched(Step(s, events[0]), events[1..], touched);
    }
  }

  // ---------- Exactly when a rollback lands where the row belongs ----------

  /** Where an e-mail stands in the reference list; its length for a stranger. */
  function Position(order: seq<Email>, email: Email): (i: nat)
    ensures i <= |order|
    ensures i < |order| ==> order[i] == email
    ensures email in order ==> i < |order|
  {
    if order == [] || order[0] == email then 0 else 1 + Position(order[1..], email)
  }

  /** The visible rows appear in the order of the reference list. */
  ghost predicate InOrder(order: seq<Email>, visible: seq<Email>) {
    && (forall i :: 0 <= i < |visible| ==> visible[i] in order)
    && (forall i, j :: 0 <= i < j < |visible| ==> Position(order, visible[i]) < Position(order, visible[j]))
  }

  /** How many visible rows come before the e-mail in the reference list. */
  function Rank(order: seq<Email>, visible: seq<Email>, email: Email): (r: nat)
    requires email in order && forall i :: 0 <= i < |visible| ==> visible[i] in order
    ensures r <= |visible|
  {
    if visible == [] then 0
    else
      (if Position(order, visible[0]) < Position(order, email) then 1 else 0) + Rank(order, visible[1..], email)
  }

  lemma {:induction false} RankSplits(order: seq<Email>, visible: seq<Email>, email: Email)
    requires InOrder(order, visible) && email in order && email !in visible
    ensures forall i :: 0 <= i < |visible| ==>
              (i < Rank(order, visible, email) <==> Position(order, visible[i]) < Position(order, email))
  {
    if visible != [] {
      var rest := visible[1..];
      assert forall i :: 0 <= i < |rest| ==> rest[i] == visible[i + 1];
      RankSplits(order, rest, email);
      forall i | 0 <= i < |visible|
        ensures i < Rank(order, visible, email) <==> Position(order, visible[i]) < Position(order, email)
      {
        if i > 0 {
          assert visible[i] == rest[i - 1];
          assert Position(order, visible[0]) < Position(order, visible[i]);
        } else if Rank(order, rest, email) > 0 {
          assert Position(order, rest[0]) < Position(order, email);
          assert Position(order, visible[0]) < Position(order, visible[1]);
        }
      }
    }
  }

  /** What stands at a position once an e-mail is inserted. */
  function Placed(visible: seq<Email>, email: Email, at: nat, i: nat): Email
    requires at <= |visible| && i <= |visible|
  {
    if i < at then visible[i] else if i == at then email else visible[i - 1]
  }

  lemma PlacedInOrder(order: seq<Email>, visible: seq<Email>, email: Email, at: nat, i: nat, j: nat)
    requires InOrder(order, visible) && email in order && at <= |visible| && i < j <= |visible|
    requires forall k :: 0 <= k < at ==> Position(order, visible[k]) < Position(order, email)
    requires forall k :: at <= k < |visible| ==> Position(order, email) < Position(order, visible[k])
    ensures Position(order, Placed(visible, email, at, i)) < Position(order, Placed(visible, email, at, j))
  {
  }

  lemma InsertedAt(visible: seq<Email>, email: Email, at: nat, i: nat)
    requires at <= |visible| && i <= |visible|
    ensures (visible[..at] + [email] + visible[at..])[i] == Placed(visible, email, at, i)
  {
  }

  lemma InsertInOrder(order: seq<Email>, visible: seq<Email>, email: Email, at: nat)
    requires InOrder(order, visible) && email in order && at <= |visible|
    requires forall i :: 0 <= i < at ==> Position(order, visible[i]) < Position(order, email)
    requires forall i :: at <= i < |visible| ==> Position(order, email) < Position(order, visible[i])
    ensures InOrder(order, visible[..at] + [email] + visible[at..])
  {
    var result := visible[..at] + [email] + visible[at..];
    forall i | 0 <= i < |result|
      ensures result[i] in order
    {
      InsertedAt(visible, email, at, i);
    }
    forall i, j | 0 <= i < j < |result|
      ensures Position(order, result[i]) < Position(order, result[j])
    {
      InsertedAt(visible, email, at, i);
      InsertedAt(visible, email, at, j);
      PlacedInOrder(order, visible, email, at, i, j);
    }
  }

  lemma InOrderAfterReinsert(order: seq<Email>, visible: seq<Email>, snapshot: Snapshot)
    requires InOrder(order, visible) && snapshot.email in order && snapshot.email !in visible
    requires InsertionPoint(visible, snapshot.index) == Rank(order, visible, snapshot.email)
    ensures InOrder(order, Reinsert(visible, snapshot))
  {
    RankSplits(order, visible, snapshot.email);
    forall i | 0 <= i < |visible|
      ensures Position(order, visible[i]) != Position(order, snapshot.email)
    {
      PositionInjective(order, visible[i], snapshot.email);
    }
    InsertInOrder(order, visible, snapshot.email, InsertionPoint(visible, snapshot.index));
  }

  lemma PositionInjective(order: seq<Email>, a: Email, b: Email)
    requires a in order && b in order && a != b
    ensures Position(order, a) != Position(order, b)
  {
  }

  /** A rollback keeps the reference order if and only if the clamped index is the row's rank among the visible rows. */
  lemma ReinsertInOrderIff(order: seq<Email>, visible: seq<Email>, snapshot: Snapshot)
    requires InOrder(order, visible) && snapshot.email in order && snapshot.email !in visible
    ensures InOrder(order, Reinsert(visible, snapshot))
       <==> InsertionPoint(visible, snapshot.index) == Rank(order, visible, snapshot.email)
  {
    RankSplits(order, visible, snapshot.email);
    var at, rank := InsertionPoint(visible, snapshot.index), Rank(order, visible, snapshot.email);
    var result := Reinsert(visible, snapshot);
    if at == rank {
      InOrderAfterReinsert(order, visible, snapshot);
    } else if at < rank {
      assert result[at] == snapshot.email && result[at + 1] == visible[at];
      assert Position(order, visible[at]) < Position(order, snapshot.email);
    } else {
      assert result[rank] == visible[rank] && result[at] == snapshot.email;
      PositionInjective(order, visible[rank], snapshot.email);
    }
  }

  /** Which row stands at a position once one is removed. */
  function Left(index: nat, i: nat): nat {
    if i < index then i else i + 1
  }

  lemma RemoveKeepsOrder(order: seq<Email>, visible: seq<Email>, index: nat)
    requires InOrder(order, visible) && index < |visible|
    ensures InOrder(order, RemoveAt(visible, index)) && visible[index] !in RemoveAt(visible, index)
  {
    var removed := RemoveAt(visible, index);
    forall i | 0 <= i < |removed|
      ensures removed[i] == visible[Left(index, i)] && removed[i] != visible[index]
    {
      assert Position(order, visible[Left(index, i)]) != Position(order, visible[index]);
    }
    forall i, j | 0 <= i < j < |removed|
      ensures Position(order, removed[i]) < Position(order, removed[j])
    {
      assert Position(order, visible[Left(index, i)]) < Position(order, visible[Left(index, j)]);
    }
  }

  /** At the moment of removal the remembered index is the rank, so an immediate rollback would be right. */
  lemma StartKeepsOrder(order: seq<Email>, visible: seq<Email>, index: nat)
    requires InOrder(order, visible) && index < |visible|
    ensures InOrder(order, RemoveAt(visible, index))
    ensures visible[index] !in RemoveAt(visible, index)
    ensures Rank(order, RemoveAt(visible, index), visible[index]) == index
  {
    RemoveKeepsOrder(order, visible, index);
    var removed := RemoveAt(visible, index);
    RankSplits(order, removed, visible[index]);
    assert index < |removed| ==> removed[index] == visible[index + 1];
    assert 0 < index ==> removed[index - 1] == visible[index - 1];
  }

  /** A rollback is aligned when its clamped index is the rank of the row it puts back. */
  ghost predicate Aligned(order: seq<Email>, s: State, event: Event) {
    event.Reject? && Settles(s, event.k) && s.actions[event.k].snapshot.Some? ==>
      var snapshot := s.actions[event.k].snapshot.value;
      && snapshot.email in order
      && (forall i :: 0 <= i < |s.emails| ==> s.emails[i] in order)
      && InsertionPoint(s.emails, snapshot.index) == Rank(order, s.emails, snapshot.email)
  }

  ghost predicate AlignedRun(order: seq<Email>, s: State, events: seq<Event>)
    decreases |events|
  {
    events == [] || (Aligned(order, s, events[0]) && AlignedRun(order, Step(s, events[0]), events[1..]))
  }

  ghost predicate InOrderThroughout(order: seq<Email>, s: State, events: seq<Event>)
    decreases |events|
  {
    InOrder(order, s.emails) && (events == [] || InOrderThroughout(order, Step(s, events[0]), events[1..]))
  }

  lemma HeldIsHidden(order: seq<Email>, s: State, k: nat)
    requires DistinctIds(order) && Accounted(s) == multiset(order)
    requires Settles(s, k) && s.actions[k].snapshot.Some?
    ensures s.actions[k].snapshot.value.email in order
    ensures s.actions[k].snapshot.value.email !in s.emails
  {
    var email := s.actions[k].snapshot.value.email;
    TallyContains(s.actions, k, InFlight);
    assert email in Holding(s.actions[k], InFlight);
    assert email in multiset(order);
    DistinctCount(order, email);
    assert multiset(s.emails)[email] == 0;
  }

  lemma StepInOrderIff(order: seq<Email>, s: State, event: Event)
    requires DistinctIds(order) && Accounted(s) == multiset(order) && InOrder(order, s.emails)
    ensures InOrder(order, Step(s, event).emails) <==> Aligned(order, s, event)
  {
    match event
    case Start(id) =>
      var index := FindIndex(s.emails, id);
      if index >= 0 {
        StartKeepsOrder(order, s.emails, index);
      }
    case Confirm(k) =>
    case Reject(k) =>
      if Settles(s, k) && s.actions[k].snapshot.Some? {
        HeldIsHidden(order, s, k);
        ReinsertInOrderIff(order, s.emails, s.actions[k].snapshot.value);
      }
  }

  /** A run shows the rows in their reference order all along if and only if every rollback in it is aligned. */
  lemma {:induction false} InOrderIffAligned(order: seq<Email>, s: State, events: seq<Event>)
    requires DistinctIds(order) && Accounted(s) == multiset(order) && InOrder(order, s.emails)
    ensures InOrderThroughout(order, s, events) <==> AlignedRun(order, s, events)
    decreases |events|
  {
    if events != [] {
      StepConserves(s, events[0]);
      StepInOrderIff(order, s, events[0]);
      if InOrder(order, Step(s, events[0]).emails) {
        InOrderIffAligned(order, Step(s, events[0]), events[1..]);
      } else {
        assert !InOrderThroughout(order, Step(s, events[0]), events[1..]);
      }
    }
  }

  lemma {:induction false} ThroughoutAtEnd(order: seq<Email>, s: State, events: seq<Event>)
    requires InOrderThroughout(order, s, events)
    ensures InOrder(order, Run(s, events).emails)
    decreases |events|
  {
    if events != [] {
      ThroughoutAtEnd(order, Step(s, events[0]), events[1..]);
    }
  }

  function Without(order: seq<Email>, removed: multiset<Email>): seq<Email> {
    if order == [] then []
    else (if order[0] in removed then [] else [order[0]]) + Without(order[1..], removed)
  }

  lemma HeadComesFirst(order: seq<Email>, visible: seq<Email>)
    requires InOrder(order, visible) && order != [] && order[0] in visible
    ensures visible[0] == order[0] && order[0] !in visible[1..]
    ensures InOrder(order, visible[1..])
  {
    assert Position(order, order[0]) == 0;
    var i :| 0 <= i < |visible| && visible[i] == order[0];
    assert Position(order, visible[0]) <= Position(order, visible[i]);
    var rest := visible[1..];
    assert forall j :: 0 <= j < |rest| ==> rest[j] == visible[j + 1] && Position(order, visible[0]) < Position(order, rest[j]);
  }

  lemma DropHead(order: seq<Email>, visible: seq<Email>)
    requires InOrder(order, visible) && order != [] && order[0] !in visible
    ensures InOrder(order[1..], visible)
  {
    forall i | 0 <= i < |visible|
      ensures visible[i] in order[1..] && Position(order, visible[i]) == 1 + Position(order[1..], visible[i])
    {
      assert visible[i] in visible;
      assert order[0] != visible[i];
    }
  }

  lemma {:induction false} OrderDetermines(order: seq<Email>, visible: seq<Email>, removed: multiset<Email>)
    requires DistinctIds(order) && InOrder(order, visible)
    requires forall e :: e in order ==> (e in visible <==> e !in removed)
    ensures visible == Without(order, removed)
    decreases |order|
  {
    assert visible != [] ==> visible[0] in order;
    if order != [] {
      var head, rest := order[0], order[1..];
      assert forall j :: 0 <= j < |rest| ==> rest[j] == order[j + 1];
      assert head !in rest;
      assert head in order;
      if head in removed {
        DropHead(order, visible);
        OrderDetermines(rest, visible, removed);
      } else {
        HeadComesFirst(order, visible);
        DropHead(order, visible[1..]);
        assert visible == [head] + visible[1..];
        OrderDetermines(rest, visible[1..], removed);
      }
    }
  }

  /** When every rollback of a run is aligned and nothing is in flight any more, the list is the
      initial one without the confirmed removals, in its original order. */
  lemma AlignedRunRestores(initial: seq<Email>, events: seq<Event>)
    requires DistinctIds(initial)
    requires AlignedRun(initial, State(initial, []), events)
    requires Tally(Run(State(initial, []), events).actions, InFlight) == multiset{}
    ensures var t := Run(State(initial, []), events);
            t.emails == Without(initial, Tally(t.actions, Confirmed))
  {
    var s := State(initial, []);
    var t := Run(s, events);
    PositionsOfAll(initial);
    InOrderIffAligned(initial, s, events);
    ThroughoutAtEnd(initial, s, events);
    RunConserves(s, events);
    var confirmed := Tally(t.actions, Confirmed);
    forall e | e in initial
      ensures e in t.emails <==> e !in confirmed
    {
      DistinctCount(initial, e);
      assert multiset(initial)[e] == multiset(t.emails)[e] + confirmed[e];
      assert e in multiset(initial);
    }
    OrderDetermines(initial, t.emails, confirmed);
  }

  lemma PositionsOfAll(order: seq<Email>)
    requires DistinctIds(order)
    ensures InOrder(order, order)
    ensures forall i :: 0 <= i < |order| ==> Position(order, order[i]) == i
  {
    forall i | 0 <= i < |order|
      ensures Position(order, order[i]) == i
    {
      var at := Position(order, order[i]);
      assert !(at < i) && !(i < at);
    }
  }

  // ---------- What alignment means for the history of the list ----------

  /** How many of the first n rows of the reference list are not visible. */
  function HiddenAhead(order: seq<Email>, visible: seq<Email>, n: nat): nat
    requires n <= |order|
  {
    if n == 0 then 0 else HiddenAhead(order, visible, n - 1) + (if order[n - 1] in visible then 0 else 1)
  }

  predicate Places(order: seq<Email>) {
    forall i :: 0 <= i < |order| ==> Position(order, order[i]) == i
  }

  /** The visible rows among the first n are the ones at the front, and as many as are not hidden. */
  lemma {:induction false} VisibleAhead(order: seq<Email>, visible: seq<Email>, n: nat) returns (r: nat)
    requires InOrder(order, visible) && Places(order) && n <= |order|
    ensures r <= |visible| && r + HiddenAhead(order, visible, n) == n
    ensures forall k :: 0 <= k < |visible| ==> (k < r <==> Position(order, visible[k]) < n)
  {
    if n == 0 {
      r := 0;
    } else {
      r := VisibleAhead(order, visible, n - 1);
      if order[n - 1] in visible {
        var k :| 0 <= k < |visible| && visible[k] == order[n - 1];
        assert Position(order, visible[k]) == n - 1;
        assert r <= k;
        var first, own := Position(order, visible[r]), Position(order, visible[k]);
        assert r < k ==> first < own;
        assert k == r;
        r := r + 1;
      } else {
        forall k | 0 <= k < |visible|
          ensures Position(order, visible[k]) != n - 1
        {
          assert visible[k] in order && order[Position(order, visible[k])] == visible[k];
        }
      }
    }
  }

  lemma RankAndHidden(order: seq<Email>, visible: seq<Email>, email: Email)
    requires InOrder(order, visible) && Places(order) && email in order && email !in visible
    ensures Rank(order, visible, email) + HiddenAhead(order, visible, Position(order, email)) == Position(order, email)
  {
    var r := VisibleAhead(order, visible, Position(order, email));
    var rank := Rank(order, visible, email);
    RankSplits(order, visible, email);
    assert r < |visible| ==> (r < rank <==> Position(order, visible[r]) < Position(order, email));
    assert rank < |visible| ==> (rank < r <==> Position(order, visible[rank]) < Position(order, email));
  }

  lemma LastRankIff(order: seq<Email>, visible: seq<Email>, email: Email)
    requires InOrder(order, visible) && Places(order) && email in order && email !in visible
    ensures Rank(order, visible, email) == |visible| <==>
            forall i :: Position(order, email) < i < |order| ==> order[i] !in visible
  {
    var rank, n := Rank(order, visible, email), Position(order, email);
    RankSplits(order, visible, email);
    if rank == |visible| {
      forall i | n < i < |order|
        ensures order[i] !in visible
      {
        assert Position(order, order[i]) == i;
      }
    } else {
      PositionInjective(order, visible[rank], email);
      assert order[Position(order, visible[rank])] == visible[rank];
    }
  }

  lemma {:induction false} SnapshotStays(s: State, events: seq<Event>, k: nat)
    requires k < |s.actions|
    ensures k < |Run(s, events).actions| && Run(s, events).actions[k].snapshot == s.actions[k].snapshot
    decreases |events|
  {
    if events != [] {
      SnapshotStays(Step(s, events[0]), events[1..], k);
    }
  }

  lemma ClampedIff(order: seq<Email>, visible: seq<Email>, email: Email, index: nat)
    requires InOrder(order, visible) && Places(order) && email in order && email !in visible
    ensures InsertionPoint(visible, index) == Rank(order, visible, email) <==>
              || Rank(order, visible, email) == index
              || (Rank(order, visible, email) < index &&
                  forall i :: Position(order, email) < i < |order| ==> order[i] !in visible)
  {
    LastRankIff(order, visible, email);
  }

  /** In terms of the history: a rollback is aligned if and only if as many of the rows that belong in front are
      hidden now as when the removal started, or more of them are and no row that belongs behind is visible. */
  lemma {:induction false} AlignedIffHidden(order: seq<Email>, s: State, id: string, events: seq<Event>)
    requires DistinctIds(order) && Accounted(s) == multiset(order) && InOrder(order, s.emails)
    requires FindIndex(s.emails, id) >= 0
    requires var t := Run(Step(s, Start(id)), events); InOrder(order, t.emails) && Settles(t, |s.actions|)
    ensures var started := Step(s, Start(id));
            var t := Run(started, events);
            var n := Position(order, s.emails[FindIndex(s.emails, id)]);
            var before, now := HiddenAhead(order, started.emails, n), HiddenAhead(order, t.emails, n);
            Aligned(order, t, Reject(|s.actions|)) <==>
              now == before || (now > before && forall i :: n < i < |order| ==> order[i] !in t.emails)
  {
    var index, k := FindIndex(s.emails, id), |s.actions|;
    var email, started := s.emails[index], Step(s, Start(id));
    var t := Run(started, events);
    PositionsOfAll(order);
    StartKeepsOrder(order, s.emails, index);
    RankAndHidden(order, started.emails, email);
    SnapshotStays(started, events, k);
    assert t.actions[k].snapshot == Some(Snapshot(email, index));
    StepConserves(s, Start(id));
    RunConserves(started, events);
    HeldIsHidden(order, t, k);
    RankAndHidden(order, t.emails, email);
    ClampedIff(order, t.emails, email, index);
  }

  /** Confirming a removal that was started inside another one breaks exact restoration: rejecting the
      third row after the removal of the first was confirmed puts it behind the fourth. */
  lemma OverlapBreaksRestoration(a: Email, b: Email, c: Email, d: Email)
    requires DistinctIds([a, b, c, d])
    ensures Run(State([a, b, c, d], []), [Start(c.id), Start(a.id), Confirm(1), Reject(0)]).emails == [b, d, c]
    ensures Without([a, b, c, d], multiset{a}) == [b, c, d]
    ensures !AlignedRun([a, b, c, d], State([a, b, c, d], []), [Start(c.id), Start(a.id), Confirm(1), Reject(0)])
  {
    var all := [a, b, c, d];
    assert all[0].id != all[1].id && all[0].id != all[2].id && all[0].id != all[3].id;
    assert all[1].id != all[2].id && all[1].id != all[3].id && all[2].id != all[3].id;
    var s0, events := State(all, []), [Start(c.id), Start(a.id), Confirm(1), Reject(0)];
    var s1 := Step(s0, events[0]);
    assert FindIndex(all, c.id) == 2;
    assert s1.emails == [a, b, d];
    var s2 := Step(s1, events[1]);
    assert FindIndex(s1.emails, a.id) == 0;
    assert s2.emails == [b, d];
    var s3 := Step(s2, events[2]);
    var s4 := Step(s3, events[3]);
    assert s4.emails == [b, d, c];
    assert events[1..] == [Start(a.id), Confirm(1), Reject(0)];
    assert events[1..][1..] == [Confirm(1), Reject(0)];
    assert events[1..][1..][1..] == [Reject(0)];
    RunOne(s3, Reject(0));
    assert Run(s2, events[1..][1..]) == Run(s3, [Reject(0)]);
    assert Run(s0, events) == Run(s1, events[1..]) == Run(s2, events[1..][1..]);
    WithoutFirst(a, b, c, d);
    PositionsOfAll(all);
    assert Position(all, all[2]) == 2 && Position(all, all[3]) == 3;
    assert s4.emails[1] == all[3] && s4.emails[2] == all[2];
    assert !InOrder(all, s4.emails);
    InOrderIffAligned(all, s0, events);
    if InOrderThroughout(all, s0, events) {
      ThroughoutAtEnd(all, s0, events);
    }
  }

  lemma WithoutFirst(a: Email, b: Email, c: Email, d: Email)
    requires DistinctIds([a, b, c, d])
    ensures Without([a, b, c, d], multiset{a}) == [b, c, d]
  {
    var all, gone := [a, b, c, d], multiset{a};
    assert all[0].id != all[1].id && all[0].id != all[2].id && all[0].id != all[3].id;
    assert all[1..] == [b, c, d] && [b, c, d][1..] == [c, d] && [c, d][1..] == [d];
    assert Without([d], gone) == [d] + Without([], gone);
    assert Without([c, d], gone) == [c] + Without([d], gone);
  }

  // ---------- The component ----------

  class EmailList {
    var emails: seq<Email>
    var actions: seq<Action>

    ghost function Model(): State
      reads this
    {
      State(emails, actions)
    }

    constructor (initialEmails: seq<Email>)
      ensures Model() == State(initialEmails, [])
    {
      emails, actions := initialEmails, [];
    }

    /** Removes the row at once and remembers it; `handle` names the action when it settles. */
    method HandleAction(id: string) returns (handle: nat)
      modifies this
      ensures handle == |old(actions)| && |actions| == handle + 1
      ensures Model() == Step(old(Model()), Start(id))
      ensures (forall i :: 0 <= i < |old(emails)| ==> old(emails)[i].id != id) ==>
                emails == old(emails) && actions[handle] == Action(None, InFlight)
      ensures forall i :: 0 <= i < |old(emails)| && old(emails)[i].id == id
                          && (forall j :: 0 <= j < i ==> old(emails)[j].id != id) ==>
                && emails == old(emails)[..i] + old(emails)[i + 1..]
                && actions[handle] == Action(Some(Snapshot(old(emails)[i], i)), InFlight)
    {
      handle := |actions|;
      var pending: Option<Snapshot> := None;
      var index := 0;
      while index < |emails| && emails[index].id != id
        invariant index <= |emails|
        invariant forall i :: 0 <= i < index ==> emails[i].id != id
      {
        index := index + 1;
      }
      assert FindIndex(emails, id) == if index < |emails| then index else -1;
      if index < |emails| {
        pending := Some(Snapshot(emails[index], index));
        emails := emails[..index] + emails[index + 1..];
      }
      actions := actions + [Action(pending, InFlight)];
    }

    /** The awaited handler resolves: the optimistic removal stands. */
    method Resolve(handle: nat)
      requires handle < |actions| && actions[handle].status == InFlight
      modifies this
      ensures Model() == Step(old(Model()), Confirm(handle))
      ensures emails == old(emails) && actions == old(actions)[handle := old(actions)[handle].(status := Confirmed)]
    {
      actions := actions[handle := actions[handle].(status := Confirmed)];
    }

    /** The awaited handler rejects: the row, if one was taken, goes back. The haptic fires exactly then. */
    method Fail(handle: nat) returns (haptic: bool)
      requires handle < |actions| && actions[handle].status == InFlight
      modifies this
      ensures Model() == Step(old(Model()), Reject(handle))
      ensures actions == old(actions)[handle := old(actions)[handle].(status := Rejected)]
      ensures var snapshot := old(actions)[handle].snapshot;
              if snapshot.None? then emails == old(emails)
              else
                var at := if snapshot.value.index <= |old(emails)| then snapshot.value.index else |old(emails)|;
                emails == old(emails)[..at] + [snapshot.value.email] + old(emails)[at..]
      ensures haptic <==> |emails| == |old(emails)| + 1
    {
      var snapshot := actions[handle].snapshot;
      haptic := snapshot.Some?;
      if haptic {
        var insertAt := if snapshot.value.index < |emails| then snapshot.value.index else |emails|;
        emails := emails[..insertAt] + [snapshot.value.email] + emails[insertAt..];
      }
      actions := actions[handle := actions[handle].(status := Rejected)];
    }
  }
}
