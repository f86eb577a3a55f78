/** The analytics dashboard and its selection (apps/web/components/InboxHeatmapView.tsx): whose data it shows. */
module InboxSelection {
  import opened Options
  import opened InboxHeatmap

  // Choosing a period or the comparison changes the selection at once; the effect that
  // aborts the old request and starts the new one comes after the next render. Answers are
  // taken to depend on what the request asked for.

  datatype Query = Query(period: string, compare: bool)

  /** `asked` holds the query of every request, in the order of their starts. */
  datatype View = View(base: State, selected: Query, asked: seq<Query>)

  datatype Action =
    | Select(query: Query)
    | Effect
    | Network(event: Event)
    | Unmount

  /** The component as it is mounted, before its first effect. */
  function Mounted(selected: Query): View {
    View(INITIAL_STATE, selected, [])
  }

  /** The effect runs when the selection is not the one of the last effect, and at first. */
  predicate EffectDue(v: View) {
    v.asked == [] || v.asked[|v.asked| - 1] != v.selected
  }

  function Act(v: View, action: Action): (r: View)
    requires Wired(v.base)
    ensures Wired(r.base)
  {
    match action
    case Select(query) => v.(selected := query)
    case Effect =>
      if !EffectDue(v) then v
      else
        var cleaned := if v.asked == [] then v.base else Step(v.base, Cleanup);
        View(Step(cleaned, Fetch), v.selected, v.asked + [v.selected])
    case Network(event) => if event.Fetch? || event.Cleanup? then v else v.(base := Step(v.base, event))
    case Unmount => v.(base := Step(v.base, Cleanup))
  }

  function Perform(v: View, actions: seq<Action>): (r: View)
    requires Wired(v.base)
    ensures Wired(r.base)
    decreases |actions|
  {
    if actions == [] then v else Perform(Act(v, actions[0]), actions[1..])
  }

  /** The calls of a request bring what its query asks for. */
  predicate Answers(v: View, event: Event, source: Query -> Data) {
    match event
    case HeatmapArrives(k, days) => k < |v.asked| ==> days == source(v.asked[k]).heatmapData
    case HourlyArrives(k, hourly) =>
      k < |v.asked| ==>
        var data := source(v.asked[k]);
        hourly == Hourly(data.hourlyData, data.peakHours, data.bestSendHours)
    case StatsArrives(k, stats) =>
      k < |v.asked| ==>
        var data := source(v.asked[k]);
        stats == Stats(data.metrics, data.compare)
    case _ => true
  }

  predicate TruePerformance(v: View, actions: seq<Action>, source: Query -> Data)
    requires Wired(v.base)
    decreases |actions|
  {
    actions == [] ||
    ((actions[0].Network? ==> Answers(v, actions[0].event, source)) &&
     TruePerformance(Act(v, actions[0]), actions[1..], source))
  }

  /** What has arrived for a request is what its query asks for. */
  predicate Fills(r: Request, data: Data) {
    && (r.heatmap.Fulfilled? ==> r.heatmap.value == data.heatmapData)
    && (r.hourly.Fulfilled? ==> r.hourly.value == Hourly(data.hourlyData, data.peakHours, data.bestSendHours))
    && (r.stats.Fulfilled? ==> r.stats.value == Stats(data.metrics, data.compare))
  }

  ghost predicate ViewInv(v: View, source: Query -> Data) {
    && Wired(v.base) && Consistent(v.base)
    && |v.asked| == |v.base.requests|
    && forall k :: 0 <= k < |v.asked| ==> Fills(v.base.requests[k], source(v.asked[k]))
  }

  lemma NetworkKeeps(v: View, event: Event, source: Query -> Data)
    requires ViewInv(v, source) && !event.Fetch? && !event.Cleanup? && Answers(v, event, source)
    ensures ViewInv(v.(base := Step(v.base, event)), source)
  {
    StepConsistent(v.base, event);
    var t := Step(v.base, event);
    assert |t.requests| == |v.base.requests|;
    forall k | 0 <= k < |v.asked|
      ensures Fills(t.requests[k], source(v.asked[k]))
    {
      assert Fills(v.base.requests[k], source(v.asked[k]));
    }
  }

  lemma CleanupKeeps(v: View, source: Query -> Data)
    requires ViewInv(v, source)
    ensures ViewInv(v.(base := Step(v.base, Cleanup)), source)
  {
    StepConsistent(v.base, Cleanup);
    forall k | 0 <= k < |v.asked|
      ensures Fills(Step(v.base, Cleanup).requests[k], source(v.asked[k]))
    {
      assert Fills(v.base.requests[k], source(v.asked[k]));
    }
  }

  lemma FetchKeeps(v: View, source: Query -> Data)
    requires ViewInv(v, source)
    ensures ViewInv(View(Step(v.base, Fetch), v.selected, v.asked + [v.selected]), source)
  {
    StepConsistent(v.base, Fetch);
    var t := Step(v.base, Fetch);
    forall k | 0 <= k < |v.asked| + 1
      ensures Fills(t.requests[k], source((v.asked + [v.selected])[k]))
    {
      assert k < |v.asked| ==> Fills(v.base.requests[k], source(v.asked[k]));
    }
  }

  lemma ActKeeps(v: View, action: Action, source: Query -> Data)
    requires ViewInv(v, source) && (action.Network? ==> Answers(v, action.event, source))
    ensures ViewInv(Act(v, action), source)
  {
    match action
    case Select(_) =>
    case Effect =>
      if EffectDue(v) {
        if v.asked != [] {
          CleanupKeeps(v, source);
          FetchKeeps(v.(base := Step(v.base, Cleanup)), source);
        } else {
          FetchKeeps(v, source);
        }
      }
    case Network(event) =>
      if !event.Fetch? && !event.Cleanup? {
        NetworkKeeps(v, event, source);
      }
    case Unmount => CleanupKeeps(v, source);
  }

  lemma {:induction false} PerformKeeps(v: View, actions: seq<Action>, source: Query -> Data)
    requires ViewInv(v, source) && TruePerformance(v, actions, source)
    ensures ViewInv(Perform(v, actions), source)
    decreases |actions|
  {
    if actions != [] {
      ActKeeps(v, actions[0], source);
      PerformKeeps(Act(v, actions[0]), actions[1..], source);
    }
  }

  lemma CompleteFills(r: Request, data: Data)
    requires Complete(r) && Fills(r, data)
    ensures DataOf(r) == data
  {
  }

  /** In every run, however selections, effects and answers interleave, a loaded dashboard shows what the last effect
      asked for, and so, where different queries have different data, it shows what is selected if and only if no
      effect is due. */
  lemma LoadedMatchesSelectionIff(selected: Query, actions: seq<Action>, source: Query -> Data)
    requires TruePerformance(Mounted(selected), actions, source)
    requires forall p, q :: source(p) == source(q) ==> p == q
    ensures var v := Perform(Mounted(selected), actions);
            !v.base.dashboard.loading && v.base.dashboard.error.None? ==>
              && v.asked != [] && v.base.dashboard.data == source(v.asked[|v.asked| - 1])
              && (v.base.dashboard.data == source(v.selected) <==> !EffectDue(v))
  {
    PerformKeeps(Mounted(selected), actions, source);
    var v := Perform(Mounted(selected), actions);
    if !v.base.dashboard.loading && v.base.dashboard.error.None? {
      var k := |v.asked| - 1;
      assert Complete(v.base.requests[k]) && v.base.dashboard.data == DataOf(v.base.requests[k]);
      CompleteFills(v.base.requests[k], source(v.asked[k]));
    }
  }

  // ---------- A selection gets shown ----------

  function Networks(events: seq<Event>): seq<Action> {
    if events == [] then [] else [Network(events[0])] + Networks(events[1..])
  }

  lemma {:induction false} PerformNetworks(v: View, events: seq<Event>)
    requires Wired(v.base) && !Supersedes(events)
    ensures Perform(v, Networks(events)) == v.(base := Run(v.base, events))
    decreases |events|
  {
    if events != [] {
      SupersedesTail(events);
      assert Networks(events)[1..] == Networks(events[1..]);
      PerformNetworks(v.(base := Step(v.base, events[0])), events[1..]);
    }
  }

  /** The component when a query has just been selected and its effect has run. */
  function Asked(v: View, query: Query): (r: View)
    requires Wired(v.base)
    ensures Wired(r.base)
  {
    Act(Act(v, Select(query)), Effect)
  }

  /** An effect that is due asks for what is selected, and shows that it loads. */
  lemma EffectAsks(v: View, query: Query, source: Query -> Data)
    requires ViewInv(v, source) && EffectDue(v.(selected := query))
    ensures var t, k := Asked(v, query), |v.asked|;
            && t.asked == v.asked + [query] && t.selected == query && !EffectDue(t)
            && ShowsOutcome(t.base, k, v.base.dashboard.data) && t.base.requests[k] == NEW_REQUEST
  {
    StepConsistent(v.base, Cleanup);
    StepConsistent(Step(v.base, Cleanup), Fetch);
    StepConsistent(v.base, Fetch);
  }

  /** Whatever went on before, when a newly selected query is asked for and its three calls are answered, without a
      failure before and in whatever order among the answers to older requests, the dashboard shows its data. */
  lemma SelectionGetsShown(selected: Query, before: seq<Action>, query: Query, heard: seq<Event>, source: Query -> Data)
    requires TruePerformance(Mounted(selected), before, source) && !Supersedes(heard)
    requires var v := Perform(Mounted(selected), before);
             EffectDue(v.(selected := query)) && TruePerformance(Asked(v, query), Networks(heard), source)
    requires var k := |Perform(Mounted(selected), before).asked|;
             && FirstFailure(heard, k, {}).None? && FirstDays(heard, k).Fulfilled?
             && FirstHourly(heard, k).Fulfilled? && FirstStats(heard, k).Fulfilled?
    ensures var v := Perform(Mounted(selected), before);
            Perform(Asked(v, query), Networks(heard) + [Network(Resume(|v.asked|))]).base.dashboard
              == Dashboard(false, None, source(query))
  {
    var v := Perform(Mounted(selected), before);
    var t, k := Asked(v, query), |v.asked|;
    PerformKeeps(Mounted(selected), before, source);
    EffectAsks(v, query, source);
    ActKeeps(v.(selected := query), Effect, source);
    PerformKeeps(t, Networks(heard), source);
    PerformNetworks(t, heard);
    var u := Perform(t, Networks(heard));
    TurnShowsOutcome(t.base, heard, k, v.base.dashboard.data);
    RunHears(t.base, heard, k);
    CompleteFills(u.base.requests[k], source(query));
    PerformConcat(t, Networks(heard), Network(Resume(k)));
  }

  lemma {:induction false} PerformConcat(v: View, actions: seq<Action>, last: Action)
    requires Wired(v.base)
    ensures Perform(v, actions + [last]) == Act(Perform(v, actions), last)
    decreases |actions|
  {
    if actions == [] {
      assert [] + [last] == [last] && [last][1..] == [];
    } else {
      assert (actions + [last])[1..] == actions[1..] + [last];
      PerformConcat(Act(v, actions[0]), actions[1..], last);
    }
  }
}
