/** The analytics dashboard loader (apps/web/components/InboxHeatmapView.tsx). */
module InboxHeatmap {
  import opened Options

  // `fetchData` aborts the previous request, starts three calls in parallel and, once all
  // of them succeeded or one of them failed, writes the dashboard unless its own request
  // was aborted meanwhile. The calls of all requests may settle in any order, and the
  // effect cleanup (a changed period, or unmounting) may come at any point.

  datatype Day = Day(date: string, sent: nat, received: nat)
  datatype Bucket = Bucket(hour: nat, sent: nat, received: nat)
  datatype Metrics = Metrics(payload: string)
  datatype Compare = Compare(payload: string)

  datatype Hourly = Hourly(buckets: seq<Bucket>, peakHours: seq<nat>, bestSendHours: seq<nat>)
  datatype Stats = Stats(metrics: Metrics, compare: Option<Compare>)

  /** One of the three calls of a request. */
  datatype Call<+T> = Pending | Fulfilled(value: T) | Failed

  datatype Endpoint = HeatmapCall | HourlyCall | StatsCall

  /** The combined promise fails with the first failure and otherwise waits for all three calls. */
  datatype Request = Request(
    heatmap: Call<seq<Day>>, hourly: Call<Hourly>, stats: Call<Stats>,
    failure: Option<string>, resumed: bool, aborted: bool)

  datatype Data = Data(
    heatmapData: seq<Day>, hourlyData: seq<Bucket>, peakHours: seq<nat>, bestSendHours: seq<nat>,
    metrics: Metrics, compare: Option<Compare>)

  datatype Dashboard = Dashboard(loading: bool, error: Option<string>, data: Data)

  /** Requests are numbered in start order; `abortRef` names the request whose controller it holds. */
  datatype State = State(dashboard: Dashboard, requests: seq<Request>, abortRef: Option<nat>)

  datatype Event =
    | Fetch
    | Cleanup
    | HeatmapArrives(k: nat, days: seq<Day>)
    | HourlyArrives(k: nat, hourly: Hourly)
    | StatsArrives(k: nat, stats: Stats)
    | CallFails(k: nat, endpoint: Endpoint, message: string)
    | Resume(k: nat)

  const DEFAULT_DATA := Data([], [], [], [], Metrics("default"), None)
  const INITIAL_STATE := State(Dashboard(true, None, DEFAULT_DATA), [], None)
  const NEW_REQUEST := Request(Pending, Pending, Pending, None, false, false)

  predicate Complete(r: Request) {
    r.heatmap.Fulfilled? && r.hourly.Fulfilled? && r.stats.Fulfilled?
  }

  /** The six fields that one request brings. */
  function DataOf(r: Request): Data
    requires Complete(r)
  {
    Data(r.heatmap.value, r.hourly.value.buckets, r.hourly.value.peakHours, r.hourly.value.bestSendHours,
         r.stats.value.metrics, r.stats.value.compare)
  }

  function FailCall(r: Request, endpoint: Endpoint, message: string): Request {
    var failure := if r.failure.Some? then r.failure else Some(message);
    match endpoint
    case HeatmapCall => if r.heatmap.Pending? then r.(heatmap := Failed, failure := failure) else r
    case HourlyCall => if r.hourly.Pending? then r.(hourly := Failed, failure := failure) else r
    case StatsCall => if r.stats.Pending? then r.(stats := Failed, failure := failure) else r
  }

  /** How the calls of a request move; each call settles once. */
  function Settle(r: Request, event: Event): Request {
    match event
    case HeatmapArrives(_, days) => if r.heatmap.Pending? then r.(heatmap := Fulfilled(days)) else r
    case HourlyArrives(_, hourly) => if r.hourly.Pending? then r.(hourly := Fulfilled(hourly)) else r
    case StatsArrives(_, stats) => if r.stats.Pending? then r.(stats := Fulfilled(stats)) else r
    case CallFails(_, endpoint, message) => FailCall(r, endpoint, message)
    case _ => r
  }

  /** The request has its combined outcome but has not acted on it yet. */
  predicate CanResume(s: State, k: nat) {
    && k < |s.requests|
    && !s.requests[k].resumed
    && (s.requests[k].failure.Some? || Complete(s.requests[k]))
  }

  function Abort(s: State): State
    requires Wired(s)
  {
    if s.abortRef.None? then s
    else
      var k := s.abortRef.value;
      s.(requests := s.requests[k := s.requests[k].(aborted := true)])
  }

  function ResumeStep(s: State, k: nat): State
    requires CanResume(s, k)
  {
    var r := s.requests[k];
    var s' := s.(requests := s.requests[k := r.(resumed := true)]);
    if r.aborted then s'
    else if r.failure.Some? then s'.(dashboard := s.dashboard.(loading := false, error := r.failure))
    else s'.(dashboard := Dashboard(false, None, DataOf(r)))
  }

  /** `abortRef` is either empty or names a started request. */
  predicate Wired(s: State) {
    s.abortRef.Some? ==> s.abortRef.value < |s.requests|
  }

  function Step(s: State, event: Event): (t: State)
    requires Wired(s)
    ensures Wired(t)
  {
    match event
    case Fetch =>
      State(s.dashboard.(loading := true, error := None), Abort(s).requests + [NEW_REQUEST], Some(|s.requests|))
    case Cleanup => Abort(s)
    case Resume(k) => if CanResume(s, k) then ResumeStep(s, k) else s
    case _ =>
      if event.k < |s.requests| then s.(requests := s.requests[event.k := Settle(s.requests[event.k], event)]) else s
  }

  function Run(s: State, events: seq<Event>): (t: State)
    requires Wired(s)
    ensures Wired(t)
    decreases |events|
  {
    if events == [] then s else Run(Step(s, events[0]), events[1..])
  }

  // ---------- What holds in every state of every run ----------

  predicate Latest(s: State, k: nat) {
    k + 1 == |s.requests|
  }

  /** At most one controller is not aborted, and it belongs to the latest request. */
  ghost predicate OnlyLatestLive(s: State) {
    && s.abortRef == (if s.requests == [] then None else Some(|s.requests| - 1))
    && forall k :: 0 <= k < |s.requests| && !s.requests[k].aborted ==> Latest(s, k)
  }

  /** The six fields were never mixed from two requests. */
  ghost predicate FromOneRequest(s: State) {
    || s.dashboard.data == DEFAULT_DATA
    || exists k :: 0 <= k < |s.requests| && Complete(s.requests[k]) && s.dashboard.data == DataOf(s.requests[k])
  }

  /** Whenever the dashboard claims to be loaded, it shows the latest request. */
  ghost predicate ShowsLatest(s: State) {
    !s.dashboard.loading && s.dashboard.error.None? ==>
      && s.requests != []
      && Complete(s.requests[|s.requests| - 1])
      && s.dashboard.data == DataOf(s.requests[|s.requests| - 1])
  }

  ghost predicate Consistent(s: State) {
    OnlyLatestLive(s) && FromOneRequest(s) && ShowsLatest(s)
  }

  /** Completed requests keep their data through any step, so a shown request stays shown. */
  lemma StepKeepsComplete(s: State, event: Event, k: nat)
    requires Wired(s) && k < |s.requests| && Complete(s.requests[k])
    ensures k < |Step(s, event).requests|
    ensures Complete(Step(s, event).requests[k]) && DataOf(Step(s, event).requests[k]) == DataOf(s.requests[k])
  {
  }

  lemma StepOnlyLatestLive(s: State, event: Event)
    requires Wired(s) && OnlyLatestLive(s)
    ensures OnlyLatestLive(Step(s, event))
  {
    assert forall k :: 0 <= k < |s.requests| ==> Abort(s).requests[k].aborted;
  }

  lemma StepFromOneRequest(s: State, event: Event)
    requires Wired(s) && FromOneRequest(s)
    ensures FromOneRequest(Step(s, event))
  {
    var t := Step(s, event);
    if t.dashboard.data != s.dashboard.data {
      assert Complete(t.requests[event.k]) && t.dashboard.data == DataOf(t.requests[event.k]);
    } else if s.dashboard.data != DEFAULT_DATA {
      var k :| 0 <= k < |s.requests| && Complete(s.requests[k]) && s.dashboard.data == DataOf(s.requests[k]);
      StepKeepsComplete(s, event, k);
    }
  }

  lemma StepShowsLatest(s: State, event: Event)
    requires Wired(s) && OnlyLatestLive(s) && ShowsLatest(s)
    ensures ShowsLatest(Step(s, event))
  {
    if !s.dashboard.loading && s.dashboard.error.None? {
      StepKeepsComplete(s, event, |s.requests| - 1);
    }
  }

  lemma StepConsistent(s: State, event: Event)
    requires Wired(s) && Consistent(s)
    ensures Consistent(Step(s, event))
  {
    StepOnlyLatestLive(s, event);
    StepFromOneRequest(s, event);
    StepShowsLatest(s, event);
  }

  /** For every order of fetches, cleanups and responses: one live controller at most, no mixed data,
      and a loaded dashboard shows exactly the most recently started request. */
  lemma {:induction false} RunConsistent(s: State, events: seq<Event>)
    requires Wired(s) && Consistent(s)
    ensures Consistent(Run(s, events))
    decreases |events|
  {
    if events != [] {
      StepConsistent(s, events[0]);
      RunConsistent(Step(s, events[0]), events[1..]);
    }
  }

  lemma LoadedShowsLatest(events: seq<Event>)
    ensures var t := Run(INITIAL_STATE, events);
            !t.dashboard.loading && t.dashboard.error.None? ==>
              && t.requests != []
              && Complete(t.requests[|t.requests| - 1])
              && t.dashboard == Dashboard(false, None, DataOf(t.requests[|t.requests| - 1]))
  {
    RunConsistent(INITIAL_STATE, events);
  }

  /** A step changes the dashboard only by starting a request or by the latest, un-aborted request resuming. */
  lemma OnlyLatestWrites(events: seq<Event>, event: Event)
    ensures var s := Run(INITIAL_STATE, events);
            Step(s, event).dashboard != s.dashboard ==>
              || event.Fetch?
              || (event.Resume? && Latest(s, event.k) && !s.requests[event.k].aborted)
  {
    RunConsistent(INITIAL_STATE, events);
  }

  // ---------- When a request is aborted, and what it then shows ----------

  ghost predicate Supersedes(events: seq<Event>) {
    exists i :: 0 <= i < |events| && (events[i].Fetch? || events[i].Cleanup?)
  }

  lemma SupersedesTail(events: seq<Event>)
    requires events != []
    ensures Supersedes(events) <==> events[0].Fetch? || events[0].Cleanup? || Supersedes(events[1..])
  {
    assert events == [events[0]] + events[1..];
    if Supersedes(events[1..]) {
      var i :| 0 <= i < |events[1..]| && (events[1..][i].Fetch? || events[1..][i].Cleanup?);
      assert events[i + 1] == events[1..][i];
    }
  }

  lemma {:induction false} AbortedForever(s: State, events: seq<Event>, k: nat)
    requires Wired(s) && k < |s.requests| && s.requests[k].aborted
    ensures k < |Run(s, events).requests| && Run(s, events).requests[k].aborted
    decreases |events|
  {
    if events != [] {
      AbortedForever(Step(s, events[0]), events[1..], k);
    }
  }

  /** The latest request gets aborted exactly when a later fetch or a cleanup follows it. */
  lemma {:induction false} AbortedIffSuperseded(s: State, events: seq<Event>)
    requires Wired(s) && OnlyLatestLive(s) && s.requests != [] && !s.requests[|s.requests| - 1].aborted
    ensures |s.requests| <= |Run(s, events).requests|
    ensures Run(s, events).requests[|s.requests| - 1].aborted <==> Supersedes(events)
    decreases |events|
  {
    if events != [] {
      SupersedesTail(events);
      var t, k := Step(s, events[0]), |s.requests| - 1;
      if events[0].Fetch? || events[0].Cleanup? {
        AbortedForever(t, events[1..], k);
      } else {
        assert OnlyLatestLive(t);
        AbortedIffSuperseded(t, events[1..]);
      }
    }
  }

  /** The dashboard while request k is the latest one and not aborted: loading until the request has acted
      on its combined outcome, and then showing that outcome, or the older data next to the failure. */
  ghost predicate ShowsOutcome(s: State, k: nat, older: Data) {
    && Latest(s, k)
    && s.abortRef == Some(k)
    && !s.requests[k].aborted
    && (forall j :: 0 <= j < k ==> s.requests[j].aborted)
    && (if !s.requests[k].resumed then s.dashboard == Dashboard(true, None, older)
        else if s.requests[k].failure.Some? then s.dashboard == Dashboard(false, s.requests[k].failure, older)
        else Complete(s.requests[k]) && s.dashboard == Dashboard(false, None, DataOf(s.requests[k])))
  }

  /** An outcome stands: after the first failure, or after all three answers, no call changes it. */
  lemma OutcomeStands(r: Request, event: Event)
    ensures r.failure.Some? ==> Settle(r, event).failure == r.failure
    ensures Complete(r) ==> Settle(r, event) == r
  {
  }

  lemma StepShowsOutcome(s: State, event: Event, k: nat, older: Data)
    requires ShowsOutcome(s, k, older) && !event.Fetch? && !event.Cleanup?
    ensures ShowsOutcome(Step(s, event), k, older)
    ensures s.requests[k].resumed ==> Step(s, event).requests[k].resumed
    ensures CanResume(s, k) && event == Resume(k) ==> Step(s, event).requests[k].resumed
  {
    OutcomeStands(s.requests[k], event);
  }

  lemma {:induction false} RunShowsOutcome(s: State, events: seq<Event>, k: nat, older: Data)
    requires ShowsOutcome(s, k, older) && !Supersedes(events)
    ensures ShowsOutcome(Run(s, events), k, older)
    ensures s.requests[k].resumed ==> Run(s, events).requests[k].resumed
    decreases |events|
  {
    if events != [] {
      SupersedesTail(events);
      StepShowsOutcome(s, events[0], k, older);
      RunShowsOutcome(Step(s, events[0]), events[1..], k, older);
    }
  }

  /** A request acts on its outcome in a run when its continuation gets its turn with the outcome at hand. */
  ghost predicate GetsItsTurn(s: State, events: seq<Event>, k: nat)
    requires Wired(s)
    decreases |events|
  {
    events != [] && ((events[0] == Resume(k) && CanResume(s, k)) || GetsItsTurn(Step(s, events[0]), events[1..], k))
  }

  lemma {:induction false} TurnResumes(s: State, events: seq<Event>, k: nat, older: Data)
    requires ShowsOutcome(s, k, older) && !s.requests[k].resumed && !Supersedes(events)
    ensures ShowsOutcome(Run(s, events), k, older)
    ensures Run(s, events).requests[k].resumed <==> GetsItsTurn(s, events, k)
    decreases |events|
  {
    if events != [] {
      SupersedesTail(events);
      StepShowsOutcome(s, events[0], k, older);
      var t := Step(s, events[0]);
      if t.requests[k].resumed {
        RunShowsOutcome(t, events[1..], k, older);
      } else {
        TurnResumes(t, events[1..], k, older);
      }
    }
  }

  /** A request that nothing supersedes is shown: whatever went on before it, and however the answers of old
      and new requests interleave behind it, the dashboard keeps loading exactly until the request gets its
      turn, and from then on shows the data of this request, or its first failure next to the older data. */
  lemma LatestOutcomeShown(before: seq<Event>, after: seq<Event>)
    requires !Supersedes(after)
    ensures var s := Run(INITIAL_STATE, before);
            var k, started := |s.requests|, Step(s, Fetch);
            var t := Run(started, after);
            && Latest(t, k)
            && (!GetsItsTurn(started, after, k) ==> t.dashboard == Dashboard(true, None, s.dashboard.data))
            && (GetsItsTurn(started, after, k) ==>
                  if t.requests[k].failure.Some?
                  then t.dashboard == Dashboard(false, t.requests[k].failure, s.dashboard.data)
                  else Complete(t.requests[k]) && t.dashboard == Dashboard(false, None, DataOf(t.requests[k])))
  {
    RunConsistent(INITIAL_STATE, before);
    var s := Run(INITIAL_STATE, before);
    StepOnlyLatestLive(s, Fetch);
    TurnResumes(Step(s, Fetch), after, |s.requests|, s.dashboard.data);
  }

  // ---------- The same, told by the events alone ----------

  /** The call of request k that an event settles, unless it was settled before. */
  function Answers(event: Event, k: nat): Option<Endpoint> {
    match event
    case HeatmapArrives(j, _) => if j == k then Some(HeatmapCall) else None
    case HourlyArrives(j, _) => if j == k then Some(HourlyCall) else None
    case StatsArrives(j, _) => if j == k then Some(StatsCall) else None
    case CallFails(j, endpoint, _) => if j == k then Some(endpoint) else None
    case _ => None
  }

  /** The message of the first failure on a call of request k that has no answer yet. */
  function FirstFailure(events: seq<Event>, k: nat, answered: set<Endpoint>): Option<string> {
    if events == [] then None
    else
      var endpoint := Answers(events[0], k);
      if endpoint.None? || endpoint.value in answered then FirstFailure(events[1..], k, answered)
      else if events[0].CallFails? then Some(events[0].message)
      else FirstFailure(events[1..], k, answered + {endpoint.value})
  }

  /** The first answer that each call of request k gets. */
  function FirstDays(events: seq<Event>, k: nat): Call<seq<Day>> {
    if events == [] then Pending
    else if Answers(events[0], k) != Some(HeatmapCall) then FirstDays(events[1..], k)
    else if events[0].HeatmapArrives? then Fulfilled(events[0].days)
    else Failed
  }

  function FirstHourly(events: seq<Event>, k: nat): Call<Hourly> {
    if events == [] then Pending
    else if Answers(events[0], k) != Some(HourlyCall) then FirstHourly(events[1..], k)
    else if events[0].HourlyArrives? then Fulfilled(events[0].hourly)
    else Failed
  }

  function FirstStats(events: seq<Event>, k: nat): Call<Stats> {
    if events == [] then Pending
    else if Answers(events[0], k) != Some(StatsCall) then FirstStats(events[1..], k)
    else if events[0].StatsArrives? then Fulfilled(events[0].stats)
    else Failed
  }

  function Fetches(events: seq<Event>): nat {
    if events == [] then 0 else (if events[0].Fetch? then 1 else 0) + Fetches(events[1..])
  }

  /** Requests are numbered by the fetches before them. */
  lemma {:induction false} RequestNumber(s: State, events: seq<Event>)
    requires Wired(s)
    ensures |Run(s, events).requests| == |s.requests| + Fetches(events)
    decreases |events|
  {
    if events != [] {
      RequestNumber(Step(s, events[0]), events[1..]);
    }
  }

  function Answered(r: Request): set<Endpoint> {
    (if r.heatmap.Pending? then {} else {HeatmapCall}) +
    (if r.hourly.Pending? then {} else {HourlyCall}) +
    (if r.stats.Pending? then {} else {StatsCall})
  }

  /** What a request has heard from its calls. */
  ghost predicate Heard(r: Request, t: Request, events: seq<Event>, k: nat) {
    && t.heatmap == (if r.heatmap.Pending? then FirstDays(events, k) else r.heatmap)
    && t.hourly == (if r.hourly.Pending? then FirstHourly(events, k) else r.hourly)
    && t.stats == (if r.stats.Pending? then FirstStats(events, k) else r.stats)
    && t.failure == (if r.failure.Some? then r.failure else FirstFailure(events, k, Answered(r)))
  }

  /** One event for a request: void, or the first answer of one of its calls. */
  ghost predicate Hears(r: Request, u: Request, event: Event, k: nat) {
    if Answers(event, k).None? || Answers(event, k).value in Answered(r)
    then u.(resumed := r.resumed, aborted := r.aborted) == r
    else u == Settle(r, event) && Answered(u) == Answered(r) + {Answers(event, k).value}
  }

  lemma SettleHears(r: Request, event: Event, k: nat)
    requires Answers(event, k).Some?
    ensures Hears(r, Settle(r, event), event, k)
  {
  }

  lemma StepHears(s: State, event: Event, k: nat)
    requires Wired(s) && k < |s.requests|
    ensures k < |Step(s, event).requests| && Hears(s.requests[k], Step(s, event).requests[k], event, k)
  {
    if Answers(event, k).Some? {
      assert event.k == k;
      SettleHears(s.requests[k], event, k);
    } else {
      var r, u := s.requests[k], Step(s, event).requests[k];
      assert u == r.(resumed := u.resumed, aborted := u.aborted);
    }
  }

  lemma HeardCalls(r: Request, u: Request, t: Request, event: Event, rest: seq<Event>, k: nat)
    requires Hears(r, u, event, k) && Heard(u, t, rest, k)
    ensures t.heatmap == (if r.heatmap.Pending? then FirstDays([event] + rest, k) else r.heatmap)
    ensures t.hourly == (if r.hourly.Pending? then FirstHourly([event] + rest, k) else r.hourly)
    ensures t.stats == (if r.stats.Pending? then FirstStats([event] + rest, k) else r.stats)
  {
    assert ([event] + rest)[1..] == rest;
  }

  lemma HeardFailure(r: Request, u: Request, t: Request, event: Event, rest: seq<Event>, k: nat)
    requires Hears(r, u, event, k) && Heard(u, t, rest, k)
    ensures t.failure == (if r.failure.Some? then r.failure else FirstFailure([event] + rest, k, Answered(r)))
  {
    assert ([event] + rest)[1..] == rest;
    assert Answers(event, k).None? || Answers(event, k).value in Answered(r) ==> Answered(u) == Answered(r);
  }

  lemma {:induction false} RunHears(s: State, events: seq<Event>, k: nat)
    requires Wired(s) && k < |s.requests|
    ensures k < |Run(s, events).requests| && Heard(s.requests[k], Run(s, events).requests[k], events, k)
    decreases |events|
  {
    if events != [] {
      StepHears(s, events[0], k);
      var u := Step(s, events[0]);
      RunHears(u, events[1..], k);
      assert events == [events[0]] + events[1..];
      HeardCalls(s.requests[k], u.requests[k], Run(s, events).requests[k], events[0], events[1..], k);
      HeardFailure(s.requests[k], u.requests[k], Run(s, events).requests[k], events[0], events[1..], k);
    }
  }

  /** What the dashboard shows of request k after these events and its turn: its first failure beside the older
      data, the three first answers together, or, while a call is open and none has failed, that it loads. */
  function Outcome(events: seq<Event>, k: nat, older: Data): Dashboard {
    var days, hourly, stats := FirstDays(events, k), FirstHourly(events, k), FirstStats(events, k);
    var failure := FirstFailure(events, k, {});
    if failure.Some? then Dashboard(false, failure, older)
    else if days.Fulfilled? && hourly.Fulfilled? && stats.Fulfilled? then
      Dashboard(false, None,
                Data(days.value, hourly.value.buckets, hourly.value.peakHours, hourly.value.bestSendHours,
                     stats.value.metrics, stats.value.compare))
    else Dashboard(true, None, older)
  }

  lemma TurnShowsOutcome(started: State, heard: seq<Event>, k: nat, older: Data)
    requires ShowsOutcome(started, k, older) && started.requests[k] == NEW_REQUEST && !Supersedes(heard)
    ensures var t := Step(Run(started, heard), Resume(k));
            && ShowsOutcome(t, k, older) && t.dashboard == Outcome(heard, k, older)
            && (!t.dashboard.loading ==> t.requests[k].resumed)
  {
    RunShowsOutcome(started, heard, k, older);
    RunHears(started, heard, k);
    StepShowsOutcome(Run(started, heard), Resume(k), k, older);
  }

  lemma {:induction false} ActedOnStays(s: State, events: seq<Event>, k: nat, older: Data)
    requires ShowsOutcome(s, k, older) && s.requests[k].resumed && !Supersedes(events)
    ensures Run(s, events).dashboard == s.dashboard
    decreases |events|
  {
    if events != [] {
      SupersedesTail(events);
      StepShowsOutcome(s, events[0], k, older);
      OutcomeStands(s.requests[k], events[0]);
      ActedOnStays(Step(s, events[0]), events[1..], k, older);
    }
  }

  /** Told by the events alone: whatever went on before, a request that nothing supersedes shows at its turn the
      message of its first failure, or the data of its three answers, and that stands whatever arrives later. */
  lemma {:induction false} OutcomeFromEvents(before: seq<Event>, heard: seq<Event>, later: seq<Event>)
    requires !Supersedes(heard) && !Supersedes(later)
    ensures var s, k := Run(INITIAL_STATE, before), Fetches(before);
            var older := s.dashboard.data;
            var t := Step(Run(Step(s, Fetch), heard), Resume(k));
            && t.dashboard == Outcome(heard, k, older)
            && (!Outcome(heard, k, older).loading ==> Run(t, later).dashboard == Outcome(heard, k, older))
  {
    RunConsistent(INITIAL_STATE, before);
    RequestNumber(INITIAL_STATE, before);
    var s, k := Run(INITIAL_STATE, before), Fetches(before);
    var started, older := Step(s, Fetch), s.dashboard.data;
    StepOnlyLatestLive(s, Fetch);
    TurnShowsOutcome(started, heard, k, older);
    if !Outcome(heard, k, older).loading {
      ActedOnStays(Step(Run(started, heard), Resume(k)), later, k, older);
    }
  }

  ghost predicate NoFetch(events: seq<Event>) {
    forall i :: 0 <= i < |events| ==> !events[i].Fetch?
  }

  ghost predicate AllAborted(s: State) {
    forall k :: 0 <= k < |s.requests| ==> s.requests[k].aborted
  }

  lemma {:induction false} AllAbortedFrozen(s: State, events: seq<Event>)
    requires Wired(s) && AllAborted(s) && NoFetch(events)
    ensures Run(s, events).dashboard == s.dashboard
    decreases |events|
  {
    if events != [] {
      assert forall i :: 0 <= i < |events[1..]| ==> events[1..][i] == events[i + 1];
      AllAbortedFrozen(Step(s, events[0]), events[1..]);
    }
  }

  /** After unmounting (a cleanup that no fetch follows) no late response touches the dashboard. */
  lemma UnmountedFrozen(before: seq<Event>, after: seq<Event>)
    requires NoFetch(after)
    ensures var s := Run(INITIAL_STATE, before);
            Run(Step(s, Cleanup), after).dashboard == s.dashboard
  {
    RunConsistent(INITIAL_STATE, before);
    AllAbortedFrozen(Step(Run(INITIAL_STATE, before), Cleanup), after);
  }

  // ---------- The component ----------

  class InboxHeatmapView {
    var dashboard: Dashboard
    var requests: seq<Request>
    var abortRef: Option<nat>

    ghost function Model(): State
      reads this
    {
      State(dashboard, requests, abortRef)
    }

    ghost predicate Valid()
      reads this
    {
      Wired(Model()) && Consistent(Model())
    }

    constructor ()
      ensures Valid() && Model() == INITIAL_STATE
    {
      dashboard := Dashboard(true, None, DEFAULT_DATA);
      requests, abortRef := [], None;
    }

    /** The effect cleanup: abort whatever `abortRef` holds. */
    method CleanUp()
      requires Valid()
      modifies this`requests
      ensures Valid() && Model() == Step(old(Model()), Cleanup)
      ensures AllAborted(Model()) && dashboard == old(dashboard)
    {
      StepConsistent(Model(), Cleanup);
      if abortRef.Some? {
        requests := requests[abortRef.value := requests[abortRef.value].(aborted := true)];
      }
    }

    /** `fetchData` up to its await; the result is the number of the request. */
    method FetchData() returns (k: nat)
      requires Valid()
      modifies this
      ensures Valid() && Model() == Step(old(Model()), Fetch)
      ensures k == |old(requests)| && Latest(Model(), k) && requests[k] == NEW_REQUEST && abortRef == Some(k)
      ensures forall j :: 0 <= j < k ==> requests[j].aborted
      ensures dashboard.loading && dashboard.error == None && dashboard.data == old(dashboard.data)
    {
      StepConsistent(Model(), Fetch);
      if abortRef.Some? {
        requests := requests[abortRef.value := requests[abortRef.value].(aborted := true)];
      }
      k := |requests|;
      requests, abortRef := requests + [NEW_REQUEST], Some(k);
      dashboard := dashboard.(loading := true, error := None);
    }

    /** `fetchData` after its await, on the success path and in the catch block. */
    method Continue(k: nat)
      requires Valid() && CanResume(Model(), k)
      modifies this
      ensures Valid() && Model() == Step(old(Model()), Resume(k))
      ensures !Latest(Model(), k) || old(requests)[k].aborted ==> dashboard == old(dashboard)
      ensures !old(requests)[k].aborted && old(requests)[k].failure.Some? ==>
                && dashboard.error == old(requests)[k].failure && !dashboard.loading
                && dashboard.data == old(dashboard.data)
      ensures !old(requests)[k].aborted && old(requests)[k].failure.None? ==>
                && dashboard.error == None && !dashboard.loading
                && dashboard.data.heatmapData == old(requests)[k].heatmap.value
                && dashboard.data.hourlyData == old(requests)[k].hourly.value.buckets
                && dashboard.data.peakHours == old(requests)[k].hourly.value.peakHours
                && dashboard.data.bestSendHours == old(requests)[k].hourly.value.bestSendHours
                && dashboard.data.metrics == old(requests)[k].stats.value.metrics
                && dashboard.data.compare == old(requests)[k].stats.value.compare
    {
      StepConsistent(Model(), Resume(k));
      var r := requests[k];
      requests := requests[k := r.(resumed := true)];
      if r.aborted {
        return;
      }
      if r.failure.Some? {
        dashboard := dashboard.(loading := false, error := r.failure);
      } else {
        dashboard := Dashboard(false, None,
          Data(r.heatmap.value, r.hourly.value.buckets, r.hourly.value.peakHours, r.hourly.value.bestSendHours,
               r.stats.value.metrics, r.stats.value.compare));
      }
    }
  }
}
