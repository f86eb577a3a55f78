/** The undo toasts (apps/web/components/UndoToast.tsx) on a clock: how long a toast must last for its page. */
module UndoTiming {
  import opened Options
  import opened UndoToast

  // A timer fires no earlier than its delay after the effect that started it. The page
  // takes time as well: an expiry, an undo or a dismissal asks for a render, and the render
  // for its effect. `latency` bounds the time from the request to the effect. An effect may
  // still belong to a render that is out of date, and may then start a timer again; whether
  // that timer can fire is a race between its delay and the latency.

  datatype Timed = Timed(at: nat, event: Event)

  /** `due` tells from when on a timeout may fire. `unrendered` is the time of the first closing that no
      render has taken in yet, and `unflushed` that of the first one whose render waits for its effect. */
  datatype Clocked = Clocked(s: State, now: nat, due: map<nat, nat>, unrendered: Option<nat>, unflushed: Option<nat>)

  const START := Clocked(INITIAL_STATE, 0, map[], None, None)

  function Earlier(a: Option<nat>, b: Option<nat>): Option<nat> {
    if a.Some? then a else b
  }

  function Due(due: map<nat, nat>, scheduled: map<nat, Timer>, at: nat): map<nat, nat> {
    map h | h in scheduled :: if h in due then due[h] else at + scheduled[h].delay
  }

  function TimedStep(c: Clocked, e: Timed): Clocked {
    var t := Step(c.s, e.event);
    var closes := |t.history| > |c.s.history|;
    Clocked(t, e.at, Due(c.due, t.table.scheduled, e.at),
            if e.event.Render? then None else if closes then Earlier(c.unrendered, Some(e.at)) else c.unrendered,
            if e.event.Render? then Earlier(c.unflushed, c.unrendered) else if e.event.Flush? then None else c.unflushed)
  }

  function TimedRun(c: Clocked, events: seq<Timed>): Clocked
    decreases |events|
  {
    if events == [] then c else TimedRun(TimedStep(c, events[0]), events[1..])
  }

  /** The moment is not later than the latency after the time, if there is one. */
  predicate Within(at: nat, since: Option<nat>, latency: nat) {
    since.Some? ==> at <= since.value + latency
  }

  /** Time does not run backwards, timers are not early, and while the component is mounted no closing waits
      for its render and effect any longer than the latency. */
  predicate Possible(c: Clocked, e: Timed, latency: nat) {
    && c.now <= e.at
    && (e.event.Timeout? && e.event.handle in c.due ==> c.due[e.event.handle] <= e.at)
    && (c.s.mounted ==> Within(e.at, c.unrendered, latency) && Within(e.at, c.unflushed, latency))
  }

  predicate PossibleRun(c: Clocked, events: seq<Timed>, latency: nat)
    decreases |events|
  {
    events == [] || (Possible(c, events[0], latency) && PossibleRun(TimedStep(c, events[0]), events[1..], latency))
  }

  /** A page that renders and runs the effect within the latency is always possible, and nothing is overdue then. */
  lemma PromptPageCatchesUp(c: Clocked, at: nat, latency: nat)
    requires c.s.mounted && c.now <= at && Within(at, c.unrendered, latency) && Within(at, c.unflushed, latency)
    ensures var rendered := TimedStep(c, Timed(at, Render));
            && Possible(c, Timed(at, Render), latency) && Possible(rendered, Timed(at, Flush), latency)
            && TimedStep(rendered, Timed(at, Flush)).unrendered.None?
            && TimedStep(rendered, Timed(at, Flush)).unflushed.None?
  {
  }

  /** What an expiry must not follow: any closing of the same action, or just another expiry of it. */
  datatype Watch = Closings | Expiries

  predicate Counts(w: Watch, outcome: Outcome) {
    w.Closings? || outcome.Expired?
  }

  ghost predicate ExpiresOnceAfter(w: Watch, history: seq<Outcome>) {
    forall i, j :: 0 <= i < j < |history| && history[j].Expired? && Counts(w, history[i]) ==> history[i].id != history[j].id
  }

  function Watched(s: State, w: Watch): set<string> {
    set i | 0 <= i < |s.history| && Counts(w, s.history[i]) :: s.history[i].id
  }

  /** Toasts outlast the latency, and, where an undo is watched, none is undone from the keyboard so late that its
      timer can beat the effect. */
  predicate Unhurried(c: Clocked, e: Timed, latency: nat, w: Watch) {
    && (e.event.Add? ==> Delay(e.event.action) > latency)
    && (w.Closings? && e.event.KeyboardUndo? && e.event.id in c.s.table.timers && c.s.table.timers[e.event.id] in c.due ==>
          c.due[c.s.table.timers[e.event.id]] > e.at + latency)
  }

  predicate UnhurriedRun(c: Clocked, events: seq<Timed>, latency: nat, w: Watch)
    decreases |events|
  {
    events == [] || (Unhurried(c, events[0], latency, w) && UnhurriedRun(TimedStep(c, events[0]), events[1..], latency, w))
  }

  // ---------- What holds in every unhurried run, whether its effects are fresh or not ----------

  /** The part of the invariant that stale effects do not break. */
  ghost predicate Orderly(s: State, w: Watch) {
    && Listed(s.table)
    && (if s.mounted then Running(s.table) else s.table.scheduled == map[])
    && Ids(s.actions) <= s.used && Closed(s) <= s.used && s.table.timers.Keys <= s.used
    && (s.rendered.Some? ==> s.mounted && Ids(s.rendered.value) <= s.used)
    && Closed(s) !! Ids(s.actions)
    && ExpiresOnceAfter(w, s.history)
  }

  predicate Lasting(actions: seq<UndoAction>, latency: nat) {
    forall i :: 0 <= i < |actions| ==> Delay(actions[i]) > latency
  }

  ghost predicate Clocks(c: Clocked, latency: nat) {
    && c.due.Keys == c.s.table.scheduled.Keys
    && (c.unrendered.Some? ==> c.unrendered.value <= c.now)
    && (c.unflushed.Some? && c.unrendered.Some? ==> c.unflushed.value <= c.unrendered.value)
    && (c.unflushed.Some? ==> c.unflushed.value <= c.now)
    && Lasting(c.s.actions, latency)
    && (c.s.rendered.Some? ==> Lasting(c.s.rendered.value, latency))
  }

  /** The effect that will clear the timer with this due time comes before the timer can fire. */
  predicate Beaten(c: Clocked, id: string, due: nat, latency: nat) {
    || (c.unrendered.Some? && c.unrendered.value + latency < due)
    || (c.s.rendered.Some? && id !in Ids(c.s.rendered.value) && c.unflushed.Some? && c.unflushed.value + latency < due)
  }

  /** A render that still lists a closed action is out of date, and any timer of a closed action is beaten. */
  ghost predicate Covered(c: Clocked, latency: nat, w: Watch) {
    && (c.s.rendered.Some? && c.unrendered.None? ==> Ids(c.s.rendered.value) !! Closed(c.s))
    && forall h :: h in c.s.table.scheduled && c.s.table.scheduled[h].id in Watched(c.s, w) && h in c.due ==>
         Beaten(c, c.s.table.scheduled[h].id, c.due[h], latency)
  }

  ghost predicate TimedInv(c: Clocked, latency: nat, w: Watch) {
    Orderly(c.s, w) && Clocks(c, latency) && Covered(c, latency, w)
  }

  /** Closing an action whose timer is gone, or cannot fire before the effect that will clear it. */
  lemma CloseInv(c: Clocked, e: Timed, latency: nat, w: Watch, table: Table, outcome: Outcome)
    requires TimedInv(c, latency, w) && Possible(c, e, latency) && c.s.mounted && outcome.id in c.s.used
    requires Step(c.s, e.event) == Close(c.s, table, outcome) && !e.event.Render? && !e.event.Flush?
    requires Listed(table) && Running(table) && table.timers.Keys <= c.s.table.timers.Keys
    requires forall h :: h in table.scheduled ==> h in c.s.table.scheduled && table.scheduled[h] == c.s.table.scheduled[h]
    requires Counts(w, outcome) ==>
               forall h :: h in table.scheduled && table.scheduled[h].id == outcome.id ==> c.due[h] > e.at + latency
    requires outcome.Expired? ==> outcome.id !in Watched(c.s, w)
    ensures TimedInv(TimedStep(c, e), latency, w)
  {
    var t, d := Close(c.s, table, outcome), TimedStep(c, e);
    CloseExtends(c.s, table, outcome);
    WatchedAfter(c.s, table, outcome, w);
    ClosedOnce(c.s, table, outcome, w);
    KeepsLasting(c.s.actions, outcome.id, latency);
    forall h | h in t.table.scheduled && t.table.scheduled[h].id in Watched(t, w) && h in d.due
      ensures Beaten(d, t.table.scheduled[h].id, d.due[h], latency)
    {
      assert d.due[h] == c.due[h];
      if t.table.scheduled[h].id in Watched(c.s, w) {
        assert Beaten(c, t.table.scheduled[h].id, c.due[h], latency);
      }
    }
  }

  lemma WatchedIsClosed(s: State, id: string, w: Watch)
    requires id in Watched(s, w)
    ensures id in Closed(s)
  {
    var i :| 0 <= i < |s.history| && Counts(w, s.history[i]) && s.history[i].id == id;
    assert s.history[i].id in Closed(s);
  }

  lemma WatchedAfter(s: State, table: Table, outcome: Outcome, w: Watch)
    ensures Watched(Close(s, table, outcome), w) == Watched(s, w) + (if Counts(w, outcome) then {outcome.id} else {})
  {
    var t := Close(s, table, outcome);
    var n := |s.history|;
    assert t.history[n] == outcome && forall i :: 0 <= i < n ==> t.history[i] == s.history[i];
    forall x | x in Watched(s, w)
      ensures x in Watched(t, w)
    {
      var i :| 0 <= i < n && Counts(w, s.history[i]) && s.history[i].id == x;
      assert t.history[i].id == x;
    }
    assert Counts(w, outcome) ==> t.history[n].id in Watched(t, w);
  }

  lemma ClosedOnce(s: State, table: Table, outcome: Outcome, w: Watch)
    requires ExpiresOnceAfter(w, s.history) && (outcome.Expired? ==> outcome.id !in Watched(s, w))
    ensures ExpiresOnceAfter(w, Close(s, table, outcome).history)
  {
    var history := Close(s, table, outcome).history;
    forall i, j | 0 <= i < j < |history| && history[j].Expired? && Counts(w, history[i])
      ensures history[i].id != history[j].id
    {
      assert history[i] == s.history[i] && s.history[i].id in Watched(s, w);
      assert j < |s.history| ==> history[j] == s.history[j];
    }
  }

  lemma {:induction false} KeepsLasting(actions: seq<UndoAction>, id: string, latency: nat)
    requires Lasting(actions, latency)
    ensures Lasting(Remove(actions, id), latency)
  {
    if actions != [] {
      KeepsLasting(actions[1..], id, latency);
    }
  }

  lemma TimeoutKeeps(c: Clocked, e: Timed, latency: nat, w: Watch)
    requires TimedInv(c, latency, w) && Possible(c, e, latency)
    requires e.event.Timeout? && e.event.handle in c.s.table.scheduled
    ensures TimedInv(TimedStep(c, e), latency, w)
  {
    var h := e.event.handle;
    var id := c.s.table.scheduled[h].id;
    assert id in Watched(c.s, w) ==> Beaten(c, id, c.due[h], latency);
    FireAgrees(c.s.table, h);
    forall g | g in Fire(c.s.table, h).scheduled
      ensures Fire(c.s.table, h).scheduled[g].id != id
    {
      assert c.s.table.timers[c.s.table.scheduled[g].id] == g && c.s.table.timers[id] == h;
    }
    CloseInv(c, e, latency, w, Fire(c.s.table, h), Expired(id));
  }

  lemma ClickKeeps(c: Clocked, e: Timed, latency: nat, w: Watch, outcome: Outcome)
    requires TimedInv(c, latency, w) && Possible(c, e, latency) && c.s.mounted && outcome.id in c.s.used
    requires Step(c.s, e.event) == Close(c.s, Clear(c.s.table, outcome.id), outcome) && !e.event.Render? && !e.event.Flush?
    requires !outcome.Expired?
    ensures TimedInv(TimedStep(c, e), latency, w)
  {
    var table := Clear(c.s.table, outcome.id);
    ClearAgrees(c.s.table, outcome.id);
    forall h | h in table.scheduled
      ensures table.scheduled[h].id != outcome.id
    {
      assert c.s.table.timers[c.s.table.scheduled[h].id] == h;
      assert table.scheduled[h].id in table.timers;
    }
    CloseInv(c, e, latency, w, table, outcome);
  }

  lemma KeyboardKeeps(c: Clocked, e: Timed, latency: nat, w: Watch)
    requires TimedInv(c, latency, w) && Possible(c, e, latency) && Unhurried(c, e, latency, w)
    requires e.event.KeyboardUndo? && c.s.mounted && e.event.id in c.s.used
    ensures TimedInv(TimedStep(c, e), latency, w)
  {
    forall h | w.Closings? && h in c.s.table.scheduled && c.s.table.scheduled[h].id == e.event.id
      ensures c.due[h] > e.at + latency
    {
      assert c.s.table.timers[e.event.id] == h;
    }
    CloseInv(c, e, latency, w, c.s.table, Undone(e.event.id));
  }

  /** An effect starts timers for what it lists only, and each runs longer than the latency. */
  lemma {:induction false} StartedLast(t: Table, actions: seq<UndoAction>, latency: nat)
    requires Listed(t) && Running(t) && Lasting(actions, latency)
    ensures var r := StartMissing(t, actions).scheduled;
            forall h :: h in r ==> if h in t.scheduled then r[h] == t.scheduled[h] else r[h].delay > latency
    decreases |actions|
  {
    if actions != [] {
      var id := actions[0].id;
      var t1 := if id in t.timers then t
                else Table(t.timers[id := t.next], t.scheduled[t.next := Timer(id, Delay(actions[0]))], t.next + 1);
      StartMissingAgrees(t, actions[..1]);
      assert StartMissing(t, actions[..1]) == StartMissing(t1, actions[..1][1..]) == t1;
      StartedLast(t1, actions[1..], latency);
      assert t.next !in t.scheduled;
    }
  }

  lemma ReconciledLast(t: Table, actions: seq<UndoAction>, latency: nat)
    requires Listed(t) && Running(t) && Lasting(actions, latency)
    ensures var r := Reconcile(t, actions).scheduled;
            forall h :: h in r ==> if h in t.scheduled then r[h] == t.scheduled[h] else r[h].delay > latency
  {
    StartedLast(t, actions, latency);
  }

  lemma FlushKeeps(c: Clocked, e: Timed, latency: nat, w: Watch)
    requires TimedInv(c, latency, w) && Possible(c, e, latency) && e.event.Flush?
    ensures TimedInv(TimedStep(c, e), latency, w)
  {
    var d := TimedStep(c, e);
    if c.s.rendered.Some? {
      var listed := c.s.rendered.value;
      ReconcileExact(c.s.table, listed);
      ReconciledLast(c.s.table, listed, latency);
      assert Closed(d.s) == Closed(c.s) && Watched(d.s, w) == Watched(c.s, w);
      forall h | h in d.s.table.scheduled && d.s.table.scheduled[h].id in Watched(d.s, w) && h in d.due
        ensures Beaten(d, d.s.table.scheduled[h].id, d.due[h], latency)
      {
        var id := d.s.table.scheduled[h].id;
        assert id in d.s.table.timers && id in Ids(listed);
        WatchedIsClosed(c.s, id, w);
        assert c.unrendered.Some?;
        if h in c.s.table.scheduled {
          assert Beaten(c, id, c.due[h], latency);
        }
      }
    } else {
      assert d.s == c.s && d.due == c.due;
      forall h | h in d.s.table.scheduled && d.s.table.scheduled[h].id in Watched(d.s, w) && h in d.due
        ensures Beaten(d, d.s.table.scheduled[h].id, d.due[h], latency)
      {
        assert Beaten(c, d.s.table.scheduled[h].id, c.due[h], latency);
      }
    }
  }

  lemma RenderKeeps(c: Clocked, e: Timed, latency: nat, w: Watch)
    requires TimedInv(c, latency, w) && Possible(c, e, latency) && e.event.Render?
    ensures TimedInv(TimedStep(c, e), latency, w)
  {
    var d := TimedStep(c, e);
    assert d.due == c.due && Closed(d.s) == Closed(c.s) && Watched(d.s, w) == Watched(c.s, w);
    forall h | h in d.s.table.scheduled && d.s.table.scheduled[h].id in Watched(d.s, w) && h in d.due
      ensures Beaten(d, d.s.table.scheduled[h].id, d.due[h], latency)
    {
      assert Beaten(c, d.s.table.scheduled[h].id, c.due[h], latency);
    }
  }

  /** Steps that close nothing and leave timers, renders and deadlines alone. */
  lemma SameTimersCovered(c: Clocked, d: Clocked, latency: nat, w: Watch)
    requires Covered(c, latency, w) && d.s.table == c.s.table && d.due == c.due && d.s.rendered == c.s.rendered
    requires d.unrendered == c.unrendered && d.unflushed == c.unflushed && d.s.history == c.s.history
    ensures Covered(d, latency, w)
  {
    assert Closed(d.s) == Closed(c.s) && Watched(d.s, w) == Watched(c.s, w);
    forall h | h in d.s.table.scheduled && d.s.table.scheduled[h].id in Watched(d.s, w) && h in d.due
      ensures Beaten(d, d.s.table.scheduled[h].id, d.due[h], latency)
    {
      assert Beaten(c, d.s.table.scheduled[h].id, c.due[h], latency);
    }
  }

  lemma AddKeeps(c: Clocked, e: Timed, latency: nat, w: Watch)
    requires TimedInv(c, latency, w) && Possible(c, e, latency) && Unhurried(c, e, latency, w) && e.event.Add?
    ensures TimedInv(TimedStep(c, e), latency, w)
  {
    var d := TimedStep(c, e);
    AddIds(c.s.actions, e.event.action);
    assert d.due == c.due;
    SameTimersCovered(c, d, latency, w);
  }

  lemma ParentRemovesKeeps(c: Clocked, e: Timed, latency: nat, w: Watch)
    requires TimedInv(c, latency, w) && Possible(c, e, latency) && e.event.ParentRemoves?
    ensures TimedInv(TimedStep(c, e), latency, w)
  {
    var d := TimedStep(c, e);
    RemoveIds(c.s.actions, e.event.id);
    KeepsLasting(c.s.actions, e.event.id, latency);
    assert d.due == c.due;
    SameTimersCovered(c, d, latency, w);
  }

  /** Once unmounted, there is nothing left that could fire. */
  lemma UnmountKeeps(c: Clocked, e: Timed, latency: nat, w: Watch)
    requires TimedInv(c, latency, w) && Possible(c, e, latency) && e.event.Unmount? && c.s.mounted
    ensures TimedInv(TimedStep(c, e), latency, w)
  {
    var d := TimedStep(c, e);
    forall h | h in c.s.table.scheduled
      ensures h !in d.s.table.scheduled
    {
      assert c.s.table.timers[c.s.table.scheduled[h].id] == h;
    }
    assert d.s.table.scheduled == map[];
    assert Closed(d.s) == Closed(c.s) && Watched(d.s, w) == Watched(c.s, w);
  }

  lemma VoidKeeps(c: Clocked, e: Timed, latency: nat, w: Watch)
    requires TimedInv(c, latency, w) && Possible(c, e, latency) && !e.event.Render? && !e.event.Flush?
    requires Step(c.s, e.event) == c.s
    ensures TimedInv(TimedStep(c, e), latency, w)
  {
    var d := TimedStep(c, e);
    assert d.due == c.due;
    SameTimersCovered(c, d, latency, w);
  }

  lemma StepTimedInv(c: Clocked, e: Timed, latency: nat, w: Watch)
    requires TimedInv(c, latency, w) && Possible(c, e, latency) && Unhurried(c, e, latency, w)
    ensures TimedInv(TimedStep(c, e), latency, w)
  {
    var live := c.s.mounted;
    match e.event
    case Add(_) => AddKeeps(c, e, latency, w);
    case ParentRemoves(_) => ParentRemovesKeeps(c, e, latency, w);
    case Render => RenderKeeps(c, e, latency, w);
    case Flush => FlushKeeps(c, e, latency, w);
    case Timeout(h) =>
      if h in c.s.table.scheduled { TimeoutKeeps(c, e, latency, w); } else { VoidKeeps(c, e, latency, w); }
    case Undo(id) =>
      if live && id in c.s.used { ClickKeeps(c, e, latency, w, Undone(id)); } else { VoidKeeps(c, e, latency, w); }
    case KeyboardUndo(id) =>
      if live && id in c.s.used { KeyboardKeeps(c, e, latency, w); } else { VoidKeeps(c, e, latency, w); }
    case Dismiss(id) =>
      if live && id in c.s.used { ClickKeeps(c, e, latency, w, Dismissed(id)); } else { VoidKeeps(c, e, latency, w); }
    case Unmount =>
      if live { UnmountKeeps(c, e, latency, w); } else { VoidKeeps(c, e, latency, w); }
  }

  lemma {:induction false} RunTimedInv(c: Clocked, events: seq<Timed>, latency: nat, w: Watch)
    requires TimedInv(c, latency, w) && PossibleRun(c, events, latency) && UnhurriedRun(c, events, latency, w)
    ensures TimedInv(TimedRun(c, events), latency, w)
    decreases |events|
  {
    if events != [] {
      StepTimedInv(c, events[0], latency, w);
      RunTimedInv(TimedStep(c, events[0]), events[1..], latency, w);
    }
  }

  lemma StartInv(latency: nat, w: Watch)
    ensures TimedInv(START, latency, w)
  {
  }

  /** When toasts outlast the latency of the page, each action expires at most once and never after it was
      closed, even where effects run with renders that are out of date. */
  lemma LastingToastsExpireOnce(events: seq<Timed>, latency: nat)
    requires PossibleRun(START, events, latency) && UnhurriedRun(START, events, latency, Closings)
    ensures ExpiresOnce(TimedRun(START, events).s.history)
  {
    StartInv(latency, Closings);
    RunTimedInv(START, events, latency, Closings);
  }

  // ---------- Exactly how late an action can be undone from the keyboard ----------

  /** However an unhurried run goes on from here, no action expires twice, or after it was closed. */
  ghost predicate Calm(c: Clocked, latency: nat) {
    forall events :: PossibleRun(c, events, latency) && UnhurriedRun(c, events, latency, Closings) ==>
      ExpiresOnce(TimedRun(c, events).s.history)
  }

  lemma InvIsCalm(c: Clocked, latency: nat)
    requires TimedInv(c, latency, Closings)
    ensures Calm(c, latency)
  {
    forall events | PossibleRun(c, events, latency) && UnhurriedRun(c, events, latency, Closings)
      ensures ExpiresOnce(TimedRun(c, events).s.history)
    {
      RunTimedInv(c, events, latency, Closings);
    }
  }

  /** A timeout that is possible for a closed action. */
  lemma PossibleTimeoutDisturbs(c: Clocked, e: Timed, latency: nat)
    requires e.event.Timeout? && e.event.handle in c.s.table.scheduled
    requires c.s.table.scheduled[e.event.handle].id in Closed(c.s) && Possible(c, e, latency)
    ensures !Calm(c, latency)
  {
    var id := c.s.table.scheduled[e.event.handle].id;
    var history := TimedStep(c, e).s.history;
    var i :| 0 <= i < |c.s.history| && c.s.history[i].id == id;
    assert history[i].id == id && history[|c.s.history|] == Expired(id);
    assert [e][1..] == [];
    assert TimedRun(c, [e]) == TimedRun(TimedStep(c, e), []) == TimedStep(c, e);
    assert PossibleRun(TimedStep(c, e), [], latency) && PossibleRun(c, [e], latency);
    assert UnhurriedRun(TimedStep(c, e), [], latency, Closings) && UnhurriedRun(c, [e], latency, Closings);
  }

  /** While no closing waits for its render or effect, an undo from the keyboard is safe, in whatever comes, if and
      only if the timer of its action is due later than the latency after it. */
  lemma KeyboardUndoSafeIffEarly(c: Clocked, at: nat, id: string, latency: nat)
    requires TimedInv(c, latency, Closings) && c.s.mounted && c.unrendered.None? && c.unflushed.None?
    requires id in c.s.table.timers && c.now <= at
    ensures c.s.table.timers[id] in c.due
    ensures Calm(TimedStep(c, Timed(at, KeyboardUndo(id))), latency) <==> c.due[c.s.table.timers[id]] > at + latency
  {
    var h, e := c.s.table.timers[id], Timed(at, KeyboardUndo(id));
    var d := TimedStep(c, e);
    if c.due[h] > at + latency {
      StepTimedInv(c, e, latency, Closings);
      InvIsCalm(d, latency);
    } else {
      CloseExtends(c.s, c.s.table, Undone(id));
      assert d.due == c.due;
      PossibleTimeoutDisturbs(d, Timed(if c.due[h] > at then c.due[h] else at, Timeout(h)), latency);
    }
  }

  // ---------- How short a toast is too short ----------

  lemma RunCons(c: Clocked, e: Timed, rest: seq<Timed>, latency: nat)
    ensures TimedRun(c, [e] + rest) == TimedRun(TimedStep(c, e), rest)
    ensures PossibleRun(c, [e] + rest, latency) <==> Possible(c, e, latency) && PossibleRun(TimedStep(c, e), rest, latency)
  {
    assert ([e] + rest)[1..] == rest;
  }

  /** From one state the other is reached by these three events. */
  predicate Leads(c: Clocked, x: Timed, y: Timed, z: Timed, d: Clocked, latency: nat) {
    var c1 := TimedStep(c, x);
    var c2 := TimedStep(c1, y);
    Possible(c, x, latency) && Possible(c1, y, latency) && Possible(c2, z, latency) && TimedStep(c2, z) == d
  }

  lemma RunThree(c: Clocked, x: Timed, y: Timed, z: Timed, d: Clocked, rest: seq<Timed>, latency: nat)
    requires Leads(c, x, y, z, d, latency)
    ensures TimedRun(c, [x, y, z] + rest) == TimedRun(d, rest)
    ensures PossibleRun(c, [x, y, z] + rest, latency) <==> PossibleRun(d, rest, latency)
  {
    var c1 := TimedStep(c, x);
    RunCons(c, x, [y] + ([z] + rest), latency);
    RunCons(c1, y, [z] + rest, latency);
    RunCons(TimedStep(c1, y), z, rest, latency);
    assert [x, y, z] + rest == [x] + ([y] + ([z] + rest));
  }

  /** The first toast is shown, and its timer is due after its delay. */
  function ShownClock(a: UndoAction): Clocked {
    Clocked(Shown(a), 0, map[1 := Delay(a)], None, None)
  }

  lemma ShowOnClock(a: UndoAction, latency: nat)
    ensures Leads(START, Timed(0, Add(a)), Timed(0, Render), Timed(0, Flush), ShownClock(a), latency)
  {
    ShowOne(a);
    var c1 := TimedStep(START, Timed(0, Add(a)));
    var c2 := TimedStep(c1, Timed(0, Render));
    assert c2.due == map[];
    assert TimedStep(c2, Timed(0, Flush)).due == map[1 := Delay(a)];
  }

  /** The timer has fired at its time, behind the render that a second action asked for. */
  function FiredClock(a: UndoAction, b: UndoAction): Clocked {
    Clocked(Fired(a, b), Delay(a), map[], Some(Delay(a)), None)
  }

  lemma FireOnClock(a: UndoAction, b: UndoAction, latency: nat)
    requires a.id != b.id
    ensures var d := Delay(a);
            Leads(ShownClock(a), Timed(d, Add(b)), Timed(d, Render), Timed(d, Timeout(1)), FiredClock(a, b), latency)
  {
    FireEarly(a, b);
    var c1 := TimedStep(ShownClock(a), Timed(Delay(a), Add(b)));
    assert c1.due == ShownClock(a).due;
    var c2 := TimedStep(c1, Timed(Delay(a), Render));
    assert c2.due == ShownClock(a).due;
    assert TimedStep(c2, Timed(Delay(a), Timeout(1))).due == map[];
  }

  lemma RestartOnClock(a: UndoAction, b: UndoAction)
    requires a.id != b.id
    ensures var c := TimedStep(FiredClock(a, b), Timed(Delay(a), Flush));
            && c.now == Delay(a) && c.unrendered == Some(Delay(a)) && c.unflushed == None
            && 2 in c.due && c.due[2] == 2 * Delay(a)
            && Step(c.s, Timeout(2)).history == [Expired(a.id), Expired(a.id)]
  {
    RestartsBoth(Fired(a, b).table, a, b);
    assert [Expired(a.id)] + [Expired(a.id)] == [Expired(a.id), Expired(a.id)];
  }

  lemma FireAgain(a: UndoAction, b: UndoAction, latency: nat)
    requires a.id != b.id && Delay(a) <= latency
    ensures var c, rest := FiredClock(a, b), [Timed(Delay(a), Flush)] + ([Timed(2 * Delay(a), Timeout(2))] + []);
            PossibleRun(c, rest, latency) && TimedRun(c, rest).s.history == [Expired(a.id), Expired(a.id)]
  {
    var c, flush, fire := FiredClock(a, b), Timed(Delay(a), Flush), Timed(2 * Delay(a), Timeout(2));
    RestartOnClock(a, b);
    RunCons(c, flush, [fire] + [], latency);
    RunCons(TimedStep(c, flush), fire, [], latency);
  }

  /** The run: a second action is added when the first timer is due, the timer fires between the render and its
      effect, and the effect, which still lists the first action, starts the timer again. */
  function StaleRun(a: UndoAction, b: UndoAction): seq<Timed> {
    var d := Delay(a);
    [Timed(0, Add(a)), Timed(0, Render), Timed(0, Flush)] +
    ([Timed(d, Add(b)), Timed(d, Render), Timed(d, Timeout(1))] +
     ([Timed(d, Flush)] + ([Timed(2 * d, Timeout(2))] + [])))
  }

  /** If a toast lasts no longer than the latency, the restarted timer can fire before the render that its first
      expiry asked for, and the action expires twice. */
  lemma StaleEffectExpiresTwice(a: UndoAction, b: UndoAction, latency: nat)
    requires a.id != b.id && Delay(a) <= latency
    ensures PossibleRun(START, StaleRun(a, b), latency)
    ensures TimedRun(START, StaleRun(a, b)).s.history == [Expired(a.id), Expired(a.id)]
  {
    var d := Delay(a);
    var third := [Timed(d, Flush)] + ([Timed(2 * d, Timeout(2))] + []);
    FireAgain(a, b, latency);
    FireOnClock(a, b, latency);
    RunThree(ShownClock(a), Timed(d, Add(b)), Timed(d, Render), Timed(d, Timeout(1)), FiredClock(a, b), third, latency);
    ShowOnClock(a, latency);
    RunThree(START, Timed(0, Add(a)), Timed(0, Render), Timed(0, Flush), ShownClock(a),
             [Timed(d, Add(b)), Timed(d, Render), Timed(d, Timeout(1))] + third, latency);
  }

  predicate Uniform(events: seq<Timed>, delay: nat) {
    forall i :: 0 <= i < |events| && events[i].event.Add? ==> Delay(events[i].event.action) == delay
  }

  lemma {:induction false} UniformIsUnhurried(c: Clocked, events: seq<Timed>, delay: nat, latency: nat)
    requires Uniform(events, delay) && delay > latency
    ensures UnhurriedRun(c, events, latency, Expiries)
    decreases |events|
  {
    if events != [] {
      assert forall i :: 0 <= i < |events[1..]| ==> events[1..][i] == events[i + 1];
      UniformIsUnhurried(TimedStep(c, events[0]), events[1..], delay, latency);
    }
  }

  /** On a page with this latency, toasts of this delay expire at most once in every possible run, whenever anything
      is undone, if and only if the delay is longer than the latency. */
  lemma ExpiresOnceIffOutlasts(delay: nat, latency: nat)
    ensures (forall events :: PossibleRun(START, events, latency) && Uniform(events, delay) ==>
               ExpiresOnceAfter(Expiries, TimedRun(START, events).s.history))
       <==> delay > latency
  {
    if delay > latency {
      forall events | PossibleRun(START, events, latency) && Uniform(events, delay)
        ensures ExpiresOnceAfter(Expiries, TimedRun(START, events).s.history)
      {
        UniformIsUnhurried(START, events, delay, latency);
        StartInv(latency, Expiries);
        RunTimedInv(START, events, latency, Expiries);
      }
    } else {
      var a, b := UndoAction("a", "", Some(delay)), UndoAction("b", "", Some(delay));
      StaleEffectExpiresTwice(a, b, latency);
      StaleRunUniform(a, b);
      TwiceIsTooOften(TimedRun(START, StaleRun(a, b)).s.history, "a");
    }
  }

  lemma StaleRunUniform(a: UndoAction, b: UndoAction)
    requires Delay(a) == Delay(b)
    ensures Uniform(StaleRun(a, b), Delay(a))
  {
  }

  lemma TwiceIsTooOften(history: seq<Outcome>, id: string)
    requires history == [Expired(id), Expired(id)]
    ensures !ExpiresOnceAfter(Expiries, history)
  {
    assert history[0].id == history[1].id && history[1].Expired? && Counts(Expiries, history[0]);
  }

  /** An action undone from the keyboard within the latency before its timer is due can still expire. */
  lemma LateKeyStillExpires(a: UndoAction, at: nat, latency: nat)
    requires at <= Delay(a) <= at + latency
    ensures var c := TimedStep(ShownClock(a), Timed(at, KeyboardUndo(a.id)));
            && Possible(ShownClock(a), Timed(at, KeyboardUndo(a.id)), latency)
            && Possible(c, Timed(Delay(a), Timeout(1)), latency)
            && TimedStep(c, Timed(Delay(a), Timeout(1))).s.history == [Undone(a.id), Expired(a.id)]
  {
    var c := TimedStep(ShownClock(a), Timed(at, KeyboardUndo(a.id)));
    assert c.due == map[1 := Delay(a)];
    assert [] + [Undone(a.id)] == [Undone(a.id)];
    assert [Undone(a.id)] + [Expired(a.id)] == [Undone(a.id), Expired(a.id)];
  }

  // ---------- A toast that nothing ends expires when it is due ----------

  /** In every state of every run the table and the runtime agree, and every pending timeout has its due time. */
  ghost predicate Kept(c: Clocked) {
    && Listed(c.s.table)
    && (if c.s.mounted then Running(c.s.table) else c.s.table.scheduled == map[])
    && c.due.Keys == c.s.table.scheduled.Keys
  }

  lemma StepKept(c: Clocked, e: Timed)
    requires Kept(c)
    ensures Kept(TimedStep(c, e))
  {
    match e.event
    case Flush =>
      if c.s.mounted && c.s.rendered.Some? {
        ReconcileExact(c.s.table, c.s.rendered.value);
      }
    case Timeout(h) =>
      if h in c.s.table.scheduled {
        FireAgrees(c.s.table, h);
      }
    case Undo(id) => if c.s.mounted { ClearAgrees(c.s.table, id); }
    case Dismiss(id) => if c.s.mounted { ClearAgrees(c.s.table, id); }
    case Unmount =>
      assert forall h :: h in c.s.table.scheduled ==> c.s.table.timers[c.s.table.scheduled[h].id] == h;
    case _ =>
  }

  lemma {:induction false} RunKept(c: Clocked, events: seq<Timed>)
    requires Kept(c)
    ensures Kept(TimedRun(c, events))
    decreases |events|
  {
    if events != [] {
      StepKept(c, events[0]);
      RunKept(TimedStep(c, events[0]), events[1..]);
    }
  }

  predicate SparesTimed(c: Clocked, events: seq<Timed>, id: string)
    decreases |events|
  {
    events == [] || (Spares(c.s, events[0].event, id) && SparesTimed(TimedStep(c, events[0]), events[1..], id))
  }

  /** A toast that is neither closed, nor left out of an effect, nor unmounted keeps its one timeout, and the time
      it is due, through any run. */
  lemma {:induction false} SparedKeepsTimer(c: Clocked, events: seq<Timed>, id: string, handle: nat, timer: Timer)
    requires Kept(c) && HasTimer(c.s.table, id, handle, timer) && SparesTimed(c, events, id)
    ensures var t := TimedRun(c, events);
            HasTimer(t.s.table, id, handle, timer) && handle in c.due && handle in t.due && t.due[handle] == c.due[handle]
    decreases |events|
  {
    if events != [] {
      StepKeepsTimer(c.s, events[0].event, id, handle, timer);
      StepKept(c, events[0]);
      SparedKeepsTimer(TimedStep(c, events[0]), events[1..], id, handle, timer);
    }
  }

  /** An effect starts the timer of an action that has none, due after the action's own duration or five seconds. */
  lemma EffectStartsTimer(c: Clocked, at: nat, actions: seq<UndoAction>, k: nat)
    requires Kept(c) && c.s.mounted && c.s.rendered == Some(actions) && k < |actions|
    requires actions[k].id !in c.s.table.timers && forall i :: 0 <= i < k ==> actions[i].id != actions[k].id
    ensures var d, id := TimedStep(c, Timed(at, Flush)), actions[k].id;
            var delay := match actions[k].duration { case Some(duration) => duration case None => 5000 };
            && id in d.s.table.timers && d.s.table.timers[id] in d.due
            && HasTimer(d.s.table, id, d.s.table.timers[id], Timer(id, delay))
            && d.due[d.s.table.timers[id]] == at + delay
  {
    var t, id := c.s.table, actions[k].id;
    var m, r := StartMissing(t, actions), Reconcile(t, actions);
    StartedDelay(t, actions, k);
    StartMissingAgrees(t, actions);
    ReconcileExact(t, actions);
    assert id in Ids(actions);
    var h := m.timers[id];
    assert h !in t.scheduled by {
      assert forall g :: g in t.scheduled ==> m.scheduled[g] == t.scheduled[g] && t.scheduled[g].id in t.timers;
    }
    assert h in r.scheduled && r.scheduled[h] == m.scheduled[h];
  }

  /** Whatever has happened before, a toast that an effect starts expires when its own duration, or five seconds,
      have passed: until then nothing that spares it moves its timeout, and the timeout reports this toast. */
  lemma ToastExpiresWhenDue(before: seq<Timed>, at: nat, actions: seq<UndoAction>, k: nat, events: seq<Timed>)
    requires var c := TimedRun(START, before);
             && c.s.mounted && c.s.rendered == Some(actions) && k < |actions| && actions[k].id !in c.s.table.timers
             && SparesTimed(TimedStep(c, Timed(at, Flush)), events, actions[k].id)
    requires forall i :: 0 <= i < k ==> actions[i].id != actions[k].id
    ensures var d, id := TimedStep(TimedRun(START, before), Timed(at, Flush)), actions[k].id;
            && id in d.s.table.timers
            && var h, t := d.s.table.timers[id], TimedRun(d, events);
            && h in t.due && t.due[h] == at + match actions[k].duration { case Some(duration) => duration case None => 5000 }
            && Step(t.s, Timeout(h)).history == t.s.history + [Expired(id)]
            && id !in Step(t.s, Timeout(h)).table.timers && id !in Ids(Step(t.s, Timeout(h)).actions)
  {
    var c, id := TimedRun(START, before), actions[k].id;
    RunKept(START, before);
    EffectStartsTimer(c, at, actions, k);
    var d := TimedStep(c, Timed(at, Flush));
    StepKept(c, Timed(at, Flush));
    var h := d.s.table.timers[id];
    SparedKeepsTimer(d, events, id, h, d.s.table.scheduled[h]);
    var t := TimedRun(d, events);
    CloseExtends(t.s, Fire(t.s.table, h), Expired(id));
  }
}
