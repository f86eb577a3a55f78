/** The undo-toast manager (apps/web/components/UndoToast.tsx) with the parent that owns its actions. */
module UndoToast {
  import opened Options

  // The manager keeps a table of running timers. An effect reconciles the table with the
  // actions of the render it belongs to; timers fire, and toasts are undone or dismissed,
  // at any moment in between, and the parent drops an action as soon as it is told. A
  // render and the effect that belongs to it are separate steps, so an effect can run
  // with actions that are no longer the parent's.

  datatype UndoAction = UndoAction(id: string, caption: string, duration: Option<nat>)

  const DEFAULT_DURATION: nat := 5000

  /** A timeout the runtime has been asked to run. */
  datatype Timer = Timer(id: string, delay: nat)

  /** `timers` is the component's table, `scheduled` the timeouts of the runtime; handles start at 1. */
  datatype Table = Table(timers: map<string, nat>, scheduled: map<nat, Timer>, next: nat)

  const EMPTY_TABLE := Table(map[], map[], 1)

  function Delay(action: UndoAction): nat {
    if action.duration.Some? then action.duration.value else DEFAULT_DURATION
  }

  function Ids(actions: seq<UndoAction>): set<string> {
    set i | 0 <= i < |actions| :: actions[i].id
  }

  /** The first loop of the effect: a timer for every action that has none. */
  function StartMissing(t: Table, actions: seq<UndoAction>): Table
    decreases |actions|
  {
    if actions == [] then t
    else if actions[0].id in t.timers then StartMissing(t, actions[1..])
    else
      var id := actions[0].id;
      StartMissing(Table(t.timers[id := t.next], t.scheduled[t.next := Timer(id, Delay(actions[0]))], t.next + 1),
                   actions[1..])
  }

  /** The second loop: timers of actions that are gone are cleared and forgotten. */
  function DropStale(t: Table, live: set<string>): Table {
    Table(map id | id in t.timers && id in live :: t.timers[id],
          t.scheduled - (set id | id in t.timers && id !in live :: t.timers[id]),
          t.next)
  }

  function Reconcile(t: Table, actions: seq<UndoAction>): Table {
    DropStale(StartMissing(t, actions), Ids(actions))
  }

  /** Undo and dismiss both clear the timer of the toast, if it still has one. */
  function Clear(t: Table, id: string): Table {
    if id !in t.timers then t
    else Table(t.timers - {id}, t.scheduled - {t.timers[id]}, t.next)
  }

  /** The timeout callback forgets its id before it reports the expiry. */
  function Fire(t: Table, handle: nat): Table
    requires handle in t.scheduled
  {
    Table(t.timers - {t.scheduled[handle].id}, t.scheduled - {handle}, t.next)
  }

  /** Unmounting clears every timer of the table. */
  function ClearAll(t: Table): Table {
    t.(scheduled := t.scheduled - (set id | id in t.timers :: t.timers[id]))
  }

  // ---------- The table and the runtime agree ----------

  /** Every pending timeout is the one the table lists for its id. */
  ghost predicate Listed(t: Table) {
    && (forall h :: h in t.scheduled ==> t.scheduled[h].id in t.timers && t.timers[t.scheduled[h].id] == h)
    && (forall h :: h in t.scheduled ==> h < t.next)
    && (forall id :: id in t.timers ==> t.timers[id] < t.next)
  }

  /** Every table entry is a pending timeout for its id. */
  ghost predicate Running(t: Table) {
    forall id :: id in t.timers ==> t.timers[id] in t.scheduled && t.scheduled[t.timers[id]].id == id
  }

  lemma {:induction false} StartMissingKeys(t: Table, actions: seq<UndoAction>)
    ensures StartMissing(t, actions).timers.Keys == t.timers.Keys + Ids(actions)
    ensures forall id :: id in t.timers ==> StartMissing(t, actions).timers[id] == t.timers[id]
    decreases |actions|
  {
    if actions != [] {
      var id := actions[0].id;
      var t1 := if id in t.timers then t
                else Table(t.timers[id := t.next], t.scheduled[t.next := Timer(id, Delay(actions[0]))], t.next + 1);
      StartMissingKeys(t1, actions[1..]);
      assert Ids(actions) == {id} + Ids(actions[1..]) by {
        assert forall i :: 0 <= i < |actions[1..]| ==> actions[1..][i] == actions[i + 1];
        forall x | x in Ids(actions)
          ensures x in {id} + Ids(actions[1..])
        {
          var i :| 0 <= i < |actions| && actions[i].id == x;
          assert i > 0 ==> actions[1..][i - 1].id == x;
        }
      }
    }
  }

  lemma {:induction false} StartMissingAgrees(t: Table, actions: seq<UndoAction>)
    requires Listed(t) && Running(t)
    ensures Listed(StartMissing(t, actions)) && Running(StartMissing(t, actions))
    ensures forall h :: h in t.scheduled ==>
              (h in StartMissing(t, actions).scheduled && StartMissing(t, actions).scheduled[h] == t.scheduled[h])
    decreases |actions|
  {
    if actions != [] {
      var id := actions[0].id;
      if id in t.timers {
        StartMissingAgrees(t, actions[1..]);
      } else {
        var t1 := Table(t.timers[id := t.next], t.scheduled[t.next := Timer(id, Delay(actions[0]))], t.next + 1);
        assert Listed(t1) && Running(t1);
        StartMissingAgrees(t1, actions[1..]);
      }
    }
  }

  lemma DropStaleAgrees(t: Table, live: set<string>)
    requires Listed(t) && Running(t)
    ensures Listed(DropStale(t, live)) && Running(DropStale(t, live))
  {
    var d := DropStale(t, live);
    forall h | h in d.scheduled
      ensures d.scheduled[h].id in d.timers && d.timers[d.scheduled[h].id] == h
    {
      assert t.timers[t.scheduled[h].id] == h;
    }
    forall id | id in d.timers
      ensures d.timers[id] in d.scheduled && d.scheduled[d.timers[id]].id == id
    {
      assert t.scheduled[t.timers[id]].id == id;
    }
  }

  /** After a reconciliation the table lists exactly the ids it was given, each with one pending timeout;
      timers that were already running are not restarted. */
  lemma ReconcileExact(t: Table, actions: seq<UndoAction>)
    requires Listed(t) && Running(t)
    ensures var r := Reconcile(t, actions);
            && r.timers.Keys == Ids(actions)
            && Listed(r) && Running(r)
            && (forall id :: id in t.timers && id in Ids(actions) ==>
                  r.timers[id] == t.timers[id] && r.scheduled[r.timers[id]] == t.scheduled[t.timers[id]])
            && (forall id :: id in t.timers && id !in Ids(actions) ==> t.timers[id] !in r.scheduled)
  {
    var m, r := StartMissing(t, actions), Reconcile(t, actions);
    StartMissingKeys(t, actions);
    StartMissingAgrees(t, actions);
    DropStaleAgrees(m, Ids(actions));
    assert r.timers.Keys == Ids(actions);
    forall id | id in t.timers && id !in Ids(actions)
      ensures t.timers[id] !in r.scheduled
    {
      assert m.timers[id] == t.timers[id];
    }
  }

  /** A new action waits for its own duration, or for five seconds. */
  lemma {:induction false} StartedDelay(t: Table, actions: seq<UndoAction>, k: nat)
    requires Listed(t) && Running(t)
    requires k < |actions| && actions[k].id !in t.timers
    requires forall i :: 0 <= i < k ==> actions[i].id != actions[k].id
    ensures var m := StartMissing(t, actions);
            && actions[k].id in m.timers && m.timers[actions[k].id] in m.scheduled
            && m.scheduled[m.timers[actions[k].id]].delay ==
                 match actions[k].duration { case Some(duration) => duration case None => 5000 }
    decreases |actions|
  {
    var id, rest := actions[0].id, actions[1..];
    var t1 := if id in t.timers then t
              else Table(t.timers[id := t.next], t.scheduled[t.next := Timer(id, Delay(actions[0]))], t.next + 1);
    assert Listed(t1) && Running(t1);
    if k > 0 {
      assert forall i :: 0 <= i < k - 1 ==> rest[i] == actions[i + 1];
      assert rest[k - 1] == actions[k];
      assert actions[0].id != actions[k].id;
      StartedDelay(t1, rest, k - 1);
    } else {
      StartMissingAgrees(t1, rest);
      StartMissingKeys(t1, rest);
      assert t1.scheduled[t.next] == Timer(id, Delay(actions[0]));
    }
  }

  lemma ClearAgrees(t: Table, id: string)
    requires Listed(t) && Running(t)
    ensures Listed(Clear(t, id)) && Running(Clear(t, id))
  {
    var c := Clear(t, id);
    forall x | x in c.timers
      ensures c.timers[x] in c.scheduled && c.scheduled[c.timers[x]].id == x
    {
      assert t.scheduled[t.timers[x]].id == x;
    }
  }

  lemma FireAgrees(t: Table, handle: nat)
    requires Listed(t) && Running(t) && handle in t.scheduled
    ensures Listed(Fire(t, handle)) && Running(Fire(t, handle))
  {
    var f, id := Fire(t, handle), t.scheduled[handle].id;
    forall h | h in f.scheduled
      ensures f.scheduled[h].id in f.timers && f.timers[f.scheduled[h].id] == h
    {
      assert t.timers[t.scheduled[h].id] == h && t.timers[id] == handle;
    }
    forall x | x in f.timers
      ensures f.timers[x] in f.scheduled && f.scheduled[f.timers[x]].id == x
    {
      assert t.scheduled[t.timers[x]].id == x;
    }
  }

  // ---------- What happens to one toast leaves the others alone ----------

  /** A toast has the same entry, timeout and delay before and after. */
  ghost predicate SameTimer(t: Table, r: Table, id: string) {
    && (id in t.timers <==> id in r.timers)
    && (id in t.timers && t.timers[id] in t.scheduled ==>
          && r.timers[id] == t.timers[id]
          && t.timers[id] in r.scheduled && r.scheduled[t.timers[id]] == t.scheduled[t.timers[id]])
  }

  /** A timeout ends its own toast, and every other toast goes on as it was. */
  lemma FireFrame(t: Table, handle: nat)
    requires Listed(t) && Running(t) && handle in t.scheduled
    ensures t.scheduled[handle].id !in Fire(t, handle).timers && handle !in Fire(t, handle).scheduled
    ensures forall id :: id != t.scheduled[handle].id ==> SameTimer(t, Fire(t, handle), id)
  {
    forall id | id != t.scheduled[handle].id
      ensures SameTimer(t, Fire(t, handle), id)
    {
      assert id in t.timers ==> t.scheduled[t.timers[id]].id == id;
    }
  }

  /** So do all toasts but the one that is undone or dismissed. */
  lemma ClearFrame(t: Table, id: string)
    requires Listed(t) && Running(t)
    ensures id !in Clear(t, id).timers && (forall h :: h in Clear(t, id).scheduled ==> t.scheduled[h].id != id)
    ensures forall x :: x != id ==> SameTimer(t, Clear(t, id), x)
  {
    forall x | x != id
      ensures SameTimer(t, Clear(t, id), x)
    {
      assert x in t.timers ==> t.scheduled[t.timers[x]].id == x;
      assert id in t.timers ==> t.scheduled[t.timers[id]].id == id;
    }
  }

  // ---------- The manager together with its parent ----------

  datatype Outcome = Expired(id: string) | Undone(id: string) | Dismissed(id: string)

  /** `rendered` holds the actions of a render whose effect has not run yet; `used` all ids ever added. */
  datatype State = State(
    table: Table, actions: seq<UndoAction>, rendered: Option<seq<UndoAction>>,
    history: seq<Outcome>, used: set<string>, mounted: bool)

  datatype Event =
    | Add(action: UndoAction)
    | ParentRemoves(id: string)
    | Render
    | Flush
    | Timeout(handle: nat)
    | Undo(id: string)
    | KeyboardUndo(id: string)
    | Dismiss(id: string)
    | Unmount

  const INITIAL_STATE := State(EMPTY_TABLE, [], None, [], {}, true)

  /** The parent forgets an action. */
  function Remove(actions: seq<UndoAction>, id: string): seq<UndoAction> {
    if actions == [] then []
    else (if actions[0].id == id then [] else [actions[0]]) + Remove(actions[1..], id)
  }

  function Close(s: State, table: Table, outcome: Outcome): State {
    s.(table := table, actions := Remove(s.actions, outcome.id), history := s.history + [outcome])
  }

  /** Ids are fresh, and only actions that were once listed can be undone or dismissed, perhaps late. The
      keyboard undoes an action in the parent alone: the manager's table learns of it with the next effect. */
  function Step(s: State, event: Event): State {
    match event
    case Add(action) =>
      if action.id in s.used then s
      else s.(actions := s.actions + [action], used := s.used + {action.id})
    case ParentRemoves(id) => s.(actions := Remove(s.actions, id))
    case Render => if s.mounted then s.(rendered := Some(s.actions)) else s
    case Flush =>
      if s.mounted && s.rendered.Some? then s.(table := Reconcile(s.table, s.rendered.value), rendered := None) else s
    case Timeout(handle) =>
      if handle in s.table.scheduled
      then Close(s, Fire(s.table, handle), Expired(s.table.scheduled[handle].id))
      else s
    case Undo(id) =>
      if s.mounted && id in s.used then Close(s, Clear(s.table, id), Undone(id)) else s
    case KeyboardUndo(id) =>
      if s.mounted && id in s.used then Close(s, s.table, Undone(id)) else s
    case Dismiss(id) =>
      if s.mounted && id in s.used then Close(s, Clear(s.table, id), Dismissed(id)) else s
    case Unmount =>
      if s.mounted then s.(table := ClearAll(s.table), rendered := None, mounted := false) else s
  }

  function Run(s: State, events: seq<Event>): State
    decreases |events|
  {
    if events == [] then s else Run(Step(s, events[0]), events[1..])
  }

  /** The ids whose toast has expired, was undone or was dismissed. */
  function Closed(s: State): set<string> {
    set i | 0 <= i < |s.history| :: s.history[i].id
  }

  /** Expiry comes at most once for an id, and never after an undo or a dismissal of it. */
  ghost predicate ExpiresOnce(history: seq<Outcome>) {
    forall i, j :: 0 <= i < j < |history| && history[j].Expired? ==> history[i].id != history[j].id
  }

  /** No timer runs for a closed toast, and the parent no longer lists it. */
  ghost predicate ClosedIsGone(s: State) {
    Closed(s) !! s.table.timers.Keys && Closed(s) !! Ids(s.actions)
  }

  ghost predicate Inv(s: State) {
    && Listed(s.table)
    && (s.mounted ==> Running(s.table))
    && Ids(s.actions) <= s.used && Closed(s) <= s.used
    && (s.rendered.Some? ==> s.mounted && Ids(s.rendered.value) <= s.used)
    && s.table.timers.Keys <= s.used
    && ClosedIsGone(s)
    && ExpiresOnce(s.history)
  }

  /** The effect that is about to run belongs to a render that lists no closed toast. */
  predicate Fresh(s: State) {
    s.rendered.Some? ==> Ids(s.rendered.value) !! Closed(s)
  }

  /** An effect is fresh, and no action is undone from the keyboard while its timer runs. */
  predicate Careful(s: State, event: Event) {
    && (event.Flush? ==> Fresh(s))
    && (event.KeyboardUndo? && s.mounted && event.id in s.used ==> event.id !in s.table.timers)
  }

  predicate CarefulRun(s: State, events: seq<Event>)
    decreases |events|
  {
    events == [] || (Careful(s, events[0]) && CarefulRun(Step(s, events[0]), events[1..]))
  }

  lemma {:induction false} RemoveIds(actions: seq<UndoAction>, id: string)
    ensures Ids(Remove(actions, id)) == Ids(actions) - {id}
  {
    if actions != [] {
      RemoveIds(actions[1..], id);
      IdsCons(actions[0], actions[1..]);
      IdsCons(actions[0], Remove(actions[1..], id));
      assert [actions[0]] + actions[1..] == actions;
      assert [] + Remove(actions[1..], id) == Remove(actions[1..], id);
    }
  }

  /** Removing leaves every other action in its place: it works piece by piece, and drops only what has the id. */
  lemma {:induction false} RemoveByPieces(first: seq<UndoAction>, second: seq<UndoAction>, action: UndoAction,
                                          id: string)
    ensures Remove(first + second, id) == Remove(first, id) + Remove(second, id)
    ensures Remove([action], id) == if action.id == id then [] else [action]
  {
    assert [action][1..] == [];
    if first == [] {
      assert first + second == second;
    } else {
      assert (first + second)[1..] == first[1..] + second;
      RemoveByPieces(first[1..], second, action, id);
    }
  }

  lemma IdsCons(action: UndoAction, rest: seq<UndoAction>)
    ensures Ids([action] + rest) == {action.id} + Ids(rest)
  {
    var all := [action] + rest;
    assert forall i :: 0 <= i < |rest| ==> all[i + 1] == rest[i];
    forall x | x in Ids(all)
      ensures x in {action.id} + Ids(rest)
    {
      var i :| 0 <= i < |all| && all[i].id == x;
      assert i > 0 ==> rest[i - 1].id == x;
    }
    assert all[0] == action;
  }

  lemma CloseExtends(s: State, table: Table, outcome: Outcome)
    ensures Closed(Close(s, table, outcome)) == Closed(s) + {outcome.id}
    ensures Ids(Close(s, table, outcome).actions) == Ids(s.actions) - {outcome.id}
  {
    var t := Close(s, table, outcome);
    RemoveIds(s.actions, outcome.id);
    forall x | x in Closed(t)
      ensures x in Closed(s) + {outcome.id}
    {
      var i :| 0 <= i < |t.history| && t.history[i].id == x;
      assert i < |s.history| ==> s.history[i].id == x;
    }
    forall x | x in Closed(s) + {outcome.id}
      ensures x in Closed(t)
    {
      if x in Closed(s) {
        var i :| 0 <= i < |s.history| && s.history[i].id == x;
        assert t.history[i].id == x;
      } else {
        assert t.history[|s.history|].id == x;
      }
    }
  }

  lemma AddIds(actions: seq<UndoAction>, action: UndoAction)
    ensures Ids(actions + [action]) == Ids(actions) + {action.id}
  {
    var all := actions + [action];
    forall x | x in Ids(actions) + {action.id}
      ensures x in Ids(all)
    {
      if x in Ids(actions) {
        var i :| 0 <= i < |actions| && actions[i].id == x;
        assert all[i].id == x;
      } else {
        assert all[|actions|].id == x;
      }
    }
  }

  lemma TimeoutInv(s: State, handle: nat)
    requires Inv(s) && handle in s.table.scheduled
    ensures Inv(Step(s, Timeout(handle)))
  {
    var id := s.table.scheduled[handle].id;
    var t := Step(s, Timeout(handle));
    CloseExtends(s, Fire(s.table, handle), Expired(id));
    if s.mounted {
      FireAgrees(s.table, handle);
    }
    assert id in s.table.timers.Keys;
    forall i, j | 0 <= i < j < |t.history| && t.history[j].Expired?
      ensures t.history[i].id != t.history[j].id
    {
      assert i < |s.history| && t.history[i] == s.history[i] && s.history[i].id in Closed(s);
      assert j < |s.history| ==> t.history[j] == s.history[j];
    }
  }

  lemma ClickInv(s: State, outcome: Outcome)
    requires Inv(s) && s.mounted && outcome.id in s.used && !outcome.Expired?
    ensures Inv(Close(s, Clear(s.table, outcome.id), outcome))
  {
    ClearAgrees(s.table, outcome.id);
    CloseExtends(s, Clear(s.table, outcome.id), outcome);
  }

  lemma StepInv(s: State, event: Event)
    requires Inv(s) && Careful(s, event)
    ensures Inv(Step(s, event))
  {
    match event
    case Add(action) => AddIds(s.actions, action);
    case ParentRemoves(id) => RemoveIds(s.actions, id);
    case Render =>
    case Flush =>
      if s.mounted && s.rendered.Some? {
        ReconcileExact(s.table, s.rendered.value);
      }
    case Timeout(handle) =>
      if handle in s.table.scheduled {
        TimeoutInv(s, handle);
      }
    case Undo(id) =>
      if s.mounted && id in s.used {
        ClickInv(s, Undone(id));
      }
    case KeyboardUndo(id) =>
      if s.mounted && id in s.used {
        ClickInv(s, Undone(id));
        assert Clear(s.table, id) == s.table;
      }
    case Dismiss(id) =>
      if s.mounted && id in s.used {
        ClickInv(s, Dismissed(id));
      }
    case Unmount =>
  }

  // ---------- A toast that nothing ends keeps its timer ----------

  /** The toast is neither closed through the manager, nor left out of an effect, nor unmounted. */
  predicate Spares(s: State, event: Event, id: string) {
    match event
    case Flush => s.mounted && s.rendered.Some? ==> id in Ids(s.rendered.value)
    case Timeout(handle) => handle in s.table.scheduled ==> s.table.scheduled[handle].id != id
    case Undo(x) => x != id
    case Dismiss(x) => x != id
    case Unmount => false
    case _ => true
  }

  predicate SparesRun(s: State, events: seq<Event>, id: string)
    decreases |events|
  {
    events == [] || (Spares(s, events[0], id) && SparesRun(Step(s, events[0]), events[1..], id))
  }

  ghost predicate HasTimer(t: Table, id: string, handle: nat, timer: Timer) {
    && id in t.timers && t.timers[id] == handle
    && handle in t.scheduled && t.scheduled[handle] == timer && timer.id == id
  }

  lemma StepKeepsTimer(s: State, event: Event, id: string, handle: nat, timer: Timer)
    requires Listed(s.table) && Running(s.table) && HasTimer(s.table, id, handle, timer) && Spares(s, event, id)
    ensures var t := Step(s, event).table; Listed(t) && Running(t) && HasTimer(t, id, handle, timer)
  {
    match event
    case Flush =>
      if s.mounted && s.rendered.Some? {
        ReconcileExact(s.table, s.rendered.value);
      }
    case Timeout(h) =>
      if h in s.table.scheduled {
        FireAgrees(s.table, h);
        FireFrame(s.table, h);
        assert SameTimer(s.table, Fire(s.table, h), id);
      }
    case Undo(x) =>
      ClearAgrees(s.table, x);
      ClearFrame(s.table, x);
      assert SameTimer(s.table, Clear(s.table, x), id);
    case Dismiss(x) =>
      ClearAgrees(s.table, x);
      ClearFrame(s.table, x);
      assert SameTimer(s.table, Clear(s.table, x), id);
    case _ =>
  }

  lemma {:induction false} RunInv(s: State, events: seq<Event>)
    requires Inv(s) && CarefulRun(s, events)
    ensures Inv(Run(s, events))
    decreases |events|
  {
    if events != [] {
      StepInv(s, events[0]);
      RunInv(Step(s, events[0]), events[1..]);
    }
  }

  /** In every careful run, each action expires at most once and never after it was undone or dismissed. */
  lemma ExpiresAtMostOnce(events: seq<Event>)
    requires CarefulRun(INITIAL_STATE, events)
    ensures ExpiresOnce(Run(INITIAL_STATE, events).history)
  {
    RunInv(INITIAL_STATE, events);
  }

  // ---------- Exactly when a step lets an action expire again ----------

  /** However a careful run goes on from here, no action expires twice, or after it was closed. */
  ghost predicate Safe(s: State) {
    forall events :: CarefulRun(s, events) ==> ExpiresOnce(Run(s, events).history)
  }

  lemma InvIsSafe(s: State)
    requires Inv(s)
    ensures Safe(s)
  {
    forall events | CarefulRun(s, events)
      ensures ExpiresOnce(Run(s, events).history)
    {
      RunInv(s, events);
    }
  }

  /** A pending timeout for a closed action can fire next. */
  lemma PendingIsUnsafe(s: State, handle: nat)
    requires handle in s.table.scheduled && s.table.scheduled[handle].id in Closed(s)
    ensures !Safe(s)
  {
    var id := s.table.scheduled[handle].id;
    var t := Step(s, Timeout(handle));
    var i :| 0 <= i < |s.history| && s.history[i].id == id;
    assert t.history[i].id == id && t.history[|s.history|] == Expired(id);
    assert [Timeout(handle)][1..] == [];
    assert Run(s, [Timeout(handle)]) == Run(t, []) == t;
    assert CarefulRun(t, []) && CarefulRun(s, [Timeout(handle)]);
  }

  /** An effect keeps every action from expiring again, in whatever comes, if and only if its render lists
      no closed action. */
  lemma FlushSafeIffFresh(s: State)
    requires Inv(s) && s.mounted && s.rendered.Some?
    ensures Safe(Step(s, Flush)) <==> Fresh(s)
  {
    var t := Step(s, Flush);
    ReconcileExact(s.table, s.rendered.value);
    if Fresh(s) {
      StepInv(s, Flush);
      InvIsSafe(t);
    } else {
      var id :| id in Ids(s.rendered.value) && id in Closed(s);
      assert Closed(t) == Closed(s) && id in t.table.timers;
      PendingIsUnsafe(t, t.table.timers[id]);
    }
  }

  /** An undo from the keyboard does so if and only if no timer runs for its action. */
  lemma KeyboardUndoSafeIff(s: State, id: string)
    requires Inv(s) && s.mounted && id in s.used
    ensures Safe(Step(s, KeyboardUndo(id))) <==> id !in s.table.timers
  {
    var t := Step(s, KeyboardUndo(id));
    CloseExtends(s, s.table, Undone(id));
    if id in s.table.timers {
      PendingIsUnsafe(t, s.table.timers[id]);
    } else {
      StepInv(s, KeyboardUndo(id));
      InvIsSafe(t);
    }
  }

  ghost predicate SafeThroughout(s: State, events: seq<Event>)
    decreases |events|
  {
    Safe(s) && (events == [] || SafeThroughout(Step(s, events[0]), events[1..]))
  }

  lemma StepSafeIff(s: State, event: Event)
    requires Inv(s)
    ensures Safe(Step(s, event)) <==> Careful(s, event)
  {
    if event.Flush? && s.rendered.Some? {
      FlushSafeIffFresh(s);
    } else if event.KeyboardUndo? && s.mounted && event.id in s.used {
      KeyboardUndoSafeIff(s, event.id);
    } else {
      StepInv(s, event);
      InvIsSafe(Step(s, event));
    }
  }

  /** In a run no state lets an action expire again if and only if the run is careful. */
  lemma {:induction false} SafeIffCareful(s: State, events: seq<Event>)
    requires Inv(s)
    ensures SafeThroughout(s, events) <==> CarefulRun(s, events)
    decreases |events|
  {
    InvIsSafe(s);
    if events != [] {
      var t := Step(s, events[0]);
      StepSafeIff(s, events[0]);
      if Careful(s, events[0]) {
        StepInv(s, events[0]);
        SafeIffCareful(t, events[1..]);
      } else {
        assert !SafeThroughout(t, events[1..]);
      }
    }
  }

  /** An effect that directly follows its render is fresh, and then the table lists exactly the parent's actions. */
  lemma PromptEffectIsFresh(s: State)
    requires Inv(s) && s.mounted
    ensures Fresh(Step(s, Render))
    ensures Step(Step(s, Render), Flush).table.timers.Keys == Ids(s.actions)
  {
    ReconcileExact(s.table, s.actions);
  }

  /** One toast is shown, and its timer runs. */
  function Shown(a: UndoAction): State {
    State(Table(map[a.id := 1], map[1 := Timer(a.id, Delay(a))], 2), [a], None, [], {a.id}, true)
  }

  lemma ShowOne(a: UndoAction)
    ensures Step(Step(Step(INITIAL_STATE, Add(a)), Render), Flush) == Shown(a)
  {
    var t := Shown(a).table;
    assert StartMissing(EMPTY_TABLE, [a]) == StartMissing(t, []) == t;
    assert Ids([a]) == {a.id} by { assert [a][0] == a; }
    assert Reconcile(EMPTY_TABLE, [a]) == t;
    assert [] + [a] == [a];
    assert {} + {a.id} == {a.id};
  }

  /** Its timer fires when the parent has rendered a second one, but before the effect. */
  function Fired(a: UndoAction, b: UndoAction): State {
    State(Table(map[], map[], 2), [b], Some([a, b]), [Expired(a.id)], {a.id, b.id}, true)
  }

  lemma FireEarly(a: UndoAction, b: UndoAction)
    requires a.id != b.id
    ensures Step(Step(Step(Shown(a), Add(b)), Render), Timeout(1)) == Fired(a, b)
  {
    assert [a] + [b] == [a, b] && {a.id} + {b.id} == {a.id, b.id};
    assert [a, b][1..] == [b] && [b][1..] == [] && [b] + [] == [b] && [] + [b] == [b];
    assert Remove([b], a.id) == [b] + Remove([], a.id) == [b];
    assert Remove([a, b], a.id) == [] + Remove([b], a.id);
    assert Fire(Shown(a).table, 1) == Fired(a, b).table;
  }

  lemma RestartsBoth(t: Table, a: UndoAction, b: UndoAction)
    requires a.id != b.id && t == Table(map[], map[], 2)
    ensures 2 in Reconcile(t, [a, b]).scheduled && Reconcile(t, [a, b]).scheduled[2] == Timer(a.id, Delay(a))
  {
    var t1 := Table(map[a.id := 2], map[2 := Timer(a.id, Delay(a))], 3);
    var t2 := Table(map[a.id := 2, b.id := 3], map[2 := Timer(a.id, Delay(a)), 3 := Timer(b.id, Delay(b))], 4);
    assert [a, b][1..] == [b] && [b][1..] == [];
    assert StartMissing(t1, [b]) == StartMissing(t2, []) == t2;
    assert StartMissing(t, [a, b]) == t2;
    assert [a, b][0].id in Ids([a, b]) && [a, b][1].id in Ids([a, b]);
  }

  /** After unmounting no timeout is pending, so nothing expires any more. */
  lemma {:induction false} UnmountSilences(s: State, events: seq<Event>)
    requires Listed(s.table) && s.mounted
    ensures Run(Step(s, Unmount), events).history == s.history
  {
    var u := Step(s, Unmount);
    assert u.table.scheduled == map[] by {
      forall h | h in s.table.scheduled
        ensures h !in u.table.scheduled
      {
        assert s.table.timers[s.table.scheduled[h].id] == h;
      }
    }
    SilentRun(u, events);
  }

  lemma {:induction false} SilentRun(s: State, events: seq<Event>)
    requires s.table.scheduled == map[] && !s.mounted
    ensures Run(s, events).history == s.history
    decreases |events|
  {
    if events != [] {
      SilentRun(Step(s, events[0]), events[1..]);
    }
  }

  // ---------- The component ----------

  class UndoToastManager {
    var timers: map<string, nat>
    var scheduled: map<nat, Timer>
    var next: nat

    ghost function Model(): Table
      reads this
    {
      Table(timers, scheduled, next)
    }

    ghost predicate Valid()
      reads this
    {
      Listed(Model()) && Running(Model())
    }

    constructor ()
      ensures Valid() && Model() == EMPTY_TABLE
    {
      timers, scheduled, next := map[], map[], 1;
    }

    /** The effect: start missing timers, then clear the timers of actions that are gone. */
    method RunEffect(actions: seq<UndoAction>)
      requires Valid()
      modifies this
      ensures Valid() && Model() == Reconcile(old(Model()), actions)
      ensures timers.Keys == Ids(actions)
      ensures forall id :: id in old(timers) && id in timers ==>
                timers[id] == old(timers)[id] && scheduled[timers[id]] == old(scheduled)[old(timers)[id]]
      ensures forall id :: id in old(timers) && id !in timers ==> old(timers)[id] !in scheduled
    {
      ReconcileExact(Model(), actions);
      StartTimers(actions);
      ClearStaleTimers(Ids(actions));
    }

    method StartTimers(actions: seq<UndoAction>)
      requires Valid()
      modifies this
      ensures Valid() && Model() == StartMissing(old(Model()), actions)
    {
      StartMissingAgrees(Model(), actions);
      var k := 0;
      while k < |actions|
        invariant k <= |actions|
        invariant StartMissing(Model(), actions[k..]) == StartMissing(old(Model()), actions)
      {
        var action := actions[k];
        assert actions[k..][0] == action && actions[k..][1..] == actions[k + 1..];
        if action.id !in timers {
          timers, scheduled, next :=
            timers[action.id := next], scheduled[next := Timer(action.id, Delay(action))], next + 1;
        }
        k := k + 1;
      }
    }

    /** Clears entry by entry; the entries not visited yet are still as they were. */
    method ClearStaleTimers(activeIds: set<string>)
      requires Valid()
      modifies this
      ensures Valid() && Model() == DropStale(old(Model()), activeIds)
    {
      DropStaleAgrees(Model(), activeIds);
      var entries := timers.Keys;
      while entries != {}
        invariant entries <= old(timers).Keys
        invariant next == old(next)
        invariant forall id :: id in timers <==> id in old(timers) && (id in activeIds || id in entries)
        invariant forall id :: id in timers ==> timers[id] == old(timers)[id]
        invariant forall h :: h in scheduled <==>
                    h in old(scheduled) && (old(scheduled)[h].id in activeIds || old(scheduled)[h].id in entries)
        invariant forall h :: h in scheduled ==> scheduled[h] == old(scheduled)[h]
        decreases entries
      {
        var id :| id in entries;
        entries := entries - {id};
        if id !in activeIds {
          scheduled := scheduled - {timers[id]};
          timers := timers - {id};
        }
      }
      var d := DropStale(old(Model()), activeIds);
      assert timers == d.timers;
      assert scheduled == d.scheduled;
    }

    /** The timeout callback; the result is the id reported to `onExpire`. */
    method OnTimeout(handle: nat) returns (id: string)
      requires Valid() && handle in scheduled
      modifies this
      ensures Valid() && Model() == Fire(old(Model()), handle)
      ensures id == old(scheduled)[handle].id && timers == old(timers) - {id} && scheduled == old(scheduled) - {handle}
      ensures forall x :: x != id ==> SameTimer(old(Model()), Model(), x)
    {
      FireAgrees(Model(), handle);
      FireFrame(Model(), handle);
      id := scheduled[handle].id;
      timers, scheduled := timers - {id}, scheduled - {handle};
    }

    /** The table part of `handleUndo` and `handleDismiss`. */
    method ClearTimer(id: string)
      requires Valid()
      modifies this
      ensures Valid() && Model() == Clear(old(Model()), id)
      ensures id !in timers && (forall h :: h in scheduled ==> scheduled[h].id != id)
      ensures forall x :: x != id ==> SameTimer(old(Model()), Model(), x)
    {
      ClearAgrees(Model(), id);
      ClearFrame(Model(), id);
      if id in timers {
        scheduled := scheduled - {timers[id]};
        timers := timers - {id};
      }
    }

    /** The unmount cleanup. */
    method CleanUp()
      requires Valid()
      modifies this`scheduled
      ensures Model() == ClearAll(old(Model())) && scheduled == map[]
    {
      var ids := timers.Keys;
      while ids != {}
        invariant ids <= timers.Keys
        invariant scheduled == old(scheduled) - (set id | id in timers && id !in ids :: timers[id])
        decreases ids
      {
        var id :| id in ids;
        ids := ids - {id};
        scheduled := scheduled - {timers[id]};
      }
      assert forall h :: h in old(scheduled) ==> timers[old(scheduled)[h].id] == h;
    }
  }
}
