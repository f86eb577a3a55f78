/** What the mobile auth store shows after each operation, and how long a message stays (apps/mobile/lib/store.ts). */
module AuthOutcome {
  import opened Options
  import opened MobileAuth

  // ---------- One operation in any interleaving, told by its own events ----------

  predicate Addresses(event: Event, k: nat) {
    !event.Begin? && !event.ClearError? && event.k == k
  }

  /** Other operations begin, move and end as they like. */
  predicate Elsewhere(events: seq<Event>, k: nat) {
    forall i :: 0 <= i < |events| ==> !Addresses(events[i], k)
  }

  lemma {:induction false} OthersLeave(s: State, events: seq<Event>, k: nat)
    requires k < |s.ops| && Elsewhere(events, k)
    ensures k < |Run(s, events).ops| && Run(s, events).ops[k] == s.ops[k]
    decreases |events|
  {
    if events != [] {
      StepMovesOne(s, events[0], k);
      assert forall i :: 0 <= i < |events[1..]| ==> events[1..][i] == events[i + 1];
      OthersLeave(Step(s, events[0]), events[1..], k);
    }
  }

  /** A pause in which the other operations move, and then the event. */
  function After(s: State, pause: seq<Event>, event: Event): State {
    Step(Run(s, pause), event)
  }

  /** What a pause leaves of an operation, and that it is still there for the event that follows. */
  lemma Waits(s: State, k: nat, phase: Phase, pause: seq<Event>)
    requires k < |s.ops| && s.ops[k] == phase && Elsewhere(pause, k)
    ensures k < |Run(s, pause).ops| && Run(s, pause).ops[k] == phase
  {
    OthersLeave(s, pause, k);
  }

  lemma Starts(s: State, operation: Operation)
    ensures var t := Step(s, Begin(operation));
            && |t.ops| == |s.ops| + 1
            && t.user == s.user && t.isAuthenticated == s.isAuthenticated && t.token == s.token
            && t.isLoading == (if operation.Logout? then s.isLoading else true)
            && t.error == (if operation.Logout? then s.error else None)
  {
  }

  /** A refused login or registration shows the message of the refusal, stops loading, and signs nobody out. */
  lemma RefusedShowsMessage(s: State, pause: seq<Event>, message: string)
    requires Elsewhere(pause, |s.ops|)
    ensures var k := |s.ops|;
            var before := Run(Step(s, Begin(LoginOrRegister)), pause);
            var t := Step(before, RequestFails(k, message));
            && t.error == Some(message) && !t.isLoading && k < |t.ops| && t.ops[k].Done?
            && t.user == before.user && t.isAuthenticated == before.isAuthenticated && t.token == before.token
  {
    Waits(Step(s, Begin(LoginOrRegister)), |s.ops|, AwaitingResponse, pause);
  }

  lemma AnswerIsKept(s: State, k: nat, pause: seq<Event>, token: string, user: User)
    requires k < |s.ops| && s.ops[k] == AwaitingResponse && Elsewhere(pause, k)
    ensures var t := After(s, pause, Responds(k, token, user)); k < |t.ops| && t.ops[k] == ToStore(token, user)
  {
    Waits(s, k, AwaitingResponse, pause);
  }

  lemma WriteIsKept(s: State, k: nat, pause: seq<Event>, token: string, user: User)
    requires k < |s.ops| && s.ops[k] == ToStore(token, user) && Elsewhere(pause, k)
    ensures var t := After(s, pause, TokenWritten(k));
            k < |t.ops| && t.ops[k] == Stored(user) && t.token == Some(token)
  {
    Waits(s, k, ToStore(token, user), pause);
  }

  lemma StoredIsShown(s: State, k: nat, pause: seq<Event>, user: User)
    requires k < |s.ops| && s.ops[k] == Stored(user) && Elsewhere(pause, k)
    ensures var before, t := Run(s, pause), After(s, pause, Resume(k));
            && t.user == Some(user) && t.isAuthenticated && !t.isLoading && k < |t.ops| && t.ops[k].Done?
            && t.error == before.error && t.token == before.token
  {
    Waits(s, k, Stored(user), pause);
  }

  /** The same when the token cannot be stored: the answer is dropped and the message is shown. */
  lemma UnstoredShowsMessage(s: State, first: seq<Event>, second: seq<Event>,
                             token: string, user: User, message: string)
    requires Elsewhere(first, |s.ops|) && Elsewhere(second, |s.ops|)
    ensures var k := |s.ops|;
            var before := Run(After(Step(s, Begin(LoginOrRegister)), first, Responds(k, token, user)), second);
            var t := Step(before, TokenWriteFails(k, message));
            && t.error == Some(message) && !t.isLoading && k < |t.ops| && t.ops[k].Done?
            && t.user == before.user && t.isAuthenticated == before.isAuthenticated && t.token == before.token
  {
    var k := |s.ops|;
    AnswerIsKept(Step(s, Begin(LoginOrRegister)), k, first, token, user);
    Waits(After(Step(s, Begin(LoginOrRegister)), first, Responds(k, token, user)), k, ToStore(token, user), second);
  }

  /** A login or registration that is answered stores the answer's token, and then shows the answer's user. */
  lemma AnsweredShowsUser(s: State, first: seq<Event>, second: seq<Event>, third: seq<Event>, token: string, user: User)
    requires Elsewhere(first, |s.ops|) && Elsewhere(second, |s.ops|) && Elsewhere(third, |s.ops|)
    ensures var k := |s.ops|;
            var answered := After(Step(s, Begin(LoginOrRegister)), first, Responds(k, token, user));
            var stored := After(answered, second, TokenWritten(k));
            var t := After(stored, third, Resume(k));
            && stored.token == Some(token)
            && t.user == Some(user) && t.isAuthenticated && !t.isLoading && k < |t.ops| && t.ops[k].Done?
            && t.error == Run(stored, third).error && t.token == Run(stored, third).token
  {
    var k := |s.ops|;
    AnswerIsKept(Step(s, Begin(LoginOrRegister)), k, first, token, user);
    var answered := After(Step(s, Begin(LoginOrRegister)), first, Responds(k, token, user));
    WriteIsKept(answered, k, second, token, user);
    StoredIsShown(After(answered, second, TokenWritten(k)), k, third, user);
  }

  /** A check that finds no token, or cannot read it, signs out and stops loading. */
  lemma MissingTokenSignsOut(s: State, first: seq<Event>, second: seq<Event>, readable: bool)
    requires Elsewhere(first, |s.ops|) && Elsewhere(second, |s.ops|)
    requires readable ==> !HasToken(Run(Step(s, Begin(CheckAuth)), first).token)
    ensures var k := |s.ops|;
            var begun := Step(s, Begin(CheckAuth));
            var read := After(begun, first, if readable then TokenRead(k) else TokenReadFails(k));
            var before := Run(read, second);
            var t := Step(before, Resume(k));
            && t.user == None && !t.isAuthenticated && !t.isLoading && k < |t.ops| && t.ops[k].Done?
            && t.error == before.error && t.token == before.token
  {
    var k := |s.ops|;
    Waits(Step(s, Begin(CheckAuth)), k, AwaitingToken, first);
    var read := After(Step(s, Begin(CheckAuth)), first, if readable then TokenRead(k) else TokenReadFails(k));
    Waits(read, k, TokenChecked(false), second);
  }

  /** A check that finds a token and reads it again to send it. */
  function Sends(s: State, first: seq<Event>, second: seq<Event>, third: seq<Event>, readable: bool): State {
    var k := |s.ops|;
    var resumed := After(After(Step(s, Begin(CheckAuth)), first, TokenRead(k)), second, Resume(k));
    After(resumed, third, if readable then TokenRead(k) else TokenReadFails(k))
  }

  predicate FindsToken(s: State, first: seq<Event>) {
    HasToken(Run(Step(s, Begin(CheckAuth)), first).token)
  }

  /** It sends the token that is stored at the second reading, if there is one and it can be read. */
  lemma SentToken(s: State, first: seq<Event>, second: seq<Event>, third: seq<Event>, readable: bool)
    requires Elsewhere(first, |s.ops|) && Elsewhere(second, |s.ops|) && Elsewhere(third, |s.ops|)
    requires FindsToken(s, first)
    ensures var k := |s.ops|;
            var resumed := After(After(Step(s, Begin(CheckAuth)), first, TokenRead(k)), second, Resume(k));
            var stored := Run(resumed, third).token;
            var t := Sends(s, first, second, third, readable);
            k < |t.ops| && t.ops[k] == AwaitingMe(if readable && HasToken(stored) then stored else None)
  {
    var k := |s.ops|;
    Waits(Step(s, Begin(CheckAuth)), k, AwaitingToken, first);
    var read := After(Step(s, Begin(CheckAuth)), first, TokenRead(k));
    Waits(read, k, TokenChecked(true), second);
    Waits(After(read, second, Resume(k)), k, AskingMe, third);
  }

  /** A check whose request carries a token and is answered shows the answer's user. */
  lemma CheckShowsUser(s: State, first: seq<Event>, second: seq<Event>, third: seq<Event>, fourth: seq<Event>,
                       user: User)
    requires Elsewhere(first, |s.ops|) && Elsewhere(second, |s.ops|) && Elsewhere(third, |s.ops|)
    requires Elsewhere(fourth, |s.ops|) && FindsToken(s, first)
    requires var k := |s.ops|;
             HasToken(Run(After(After(Step(s, Begin(CheckAuth)), first, TokenRead(k)), second, Resume(k)), third).token)
    ensures var k := |s.ops|;
            var before := Run(Sends(s, first, second, third, true), fourth);
            var t := Step(before, MeSucceeds(k, user));
            && t.user == Some(user) && t.isAuthenticated && !t.isLoading && k < |t.ops| && t.ops[k].Done?
            && t.error == before.error && t.token == before.token
  {
    var k := |s.ops|;
    SentToken(s, first, second, third, true);
    var sent := Sends(s, first, second, third, true);
    Waits(sent, k, sent.ops[k], fourth);
  }

  /** A check whose request is refused deletes the token, signs out and stops loading. */
  lemma RefusedCheckSignsOut(s: State, k: nat, first: seq<Event>, second: seq<Event>, third: seq<Event>)
    requires k < |s.ops| && s.ops[k].AwaitingMe?
    requires Elsewhere(first, k) && Elsewhere(second, k) && Elsewhere(third, k)
    ensures var refused := After(s, first, MeFails(k));
            var deleted := After(refused, second, TokenDeleted(k));
            var before := Run(deleted, third);
            var t := Step(before, Resume(k));
            && refused.user == Run(s, first).user && refused.isLoading == Run(s, first).isLoading
            && deleted.token == None
            && t.user == None && !t.isAuthenticated && !t.isLoading && k < |t.ops| && t.ops[k].Done?
            && t.error == before.error && t.token == before.token
  {
    Waits(s, k, s.ops[k], first);
    var refused := After(s, first, MeFails(k));
    Waits(refused, k, ToClear, second);
    Waits(After(refused, second, TokenDeleted(k)), k, Cleared(false), third);
  }

  /** A logout deletes the token, then signs out and clears the message; it does not touch the loading flag. */
  lemma LogoutSignsOut(s: State, first: seq<Event>, second: seq<Event>)
    requires Elsewhere(first, |s.ops|) && Elsewhere(second, |s.ops|)
    ensures var k := |s.ops|;
            var deleted := After(Step(s, Begin(Logout)), first, TokenDeleted(k));
            var before := Run(deleted, second);
            var t := Step(before, Resume(k));
            && deleted.token == None
            && t.user == None && !t.isAuthenticated && t.error == None && k < |t.ops| && t.ops[k].Done?
            && t.isLoading == before.isLoading && t.token == before.token
  {
    var k := |s.ops|;
    Waits(Step(s, Begin(Logout)), k, LoggingOut, first);
    Waits(After(Step(s, Begin(Logout)), first, TokenDeleted(k)), k, Cleared(true), second);
  }

  /** A deletion that fails ends the operation there, and nothing that is shown changes. */
  lemma LostDeletionChangesNothing(s: State, k: nat)
    requires k < |s.ops| && Deletes(s.ops[k])
    ensures Step(s, TokenDeleteFails(k)) == s.(ops := s.ops[k := Done])
  {
  }

  // ---------- How long a message stays ----------

  /** A start, a failure, a completed logout or a dismissal changes the error. */
  predicate Touches(s: State, event: Event) {
    match event
    case Begin(operation) => !operation.Logout?
    case ClearError => true
    case RequestFails(k, _) => k < |s.ops| && s.ops[k].AwaitingResponse?
    case TokenWriteFails(k, _) => k < |s.ops| && s.ops[k].ToStore?
    case Resume(k) => k < |s.ops| && s.ops[k] == Cleared(true)
    case _ => false
  }

  predicate Untouched(s: State, events: seq<Event>)
    decreases |events|
  {
    events == [] || (!Touches(s, events[0]) && Untouched(Step(s, events[0]), events[1..]))
  }

  /** The message of a failure; nothing else shows one. */
  function MessageOf(event: Event): Option<string> {
    if event.RequestFails? || event.TokenWriteFails? then Some(event.message) else None
  }

  lemma StepError(s: State, event: Event)
    ensures Step(s, event).error == if Touches(s, event) then MessageOf(event) else s.error
  {
  }

  lemma {:induction false} UntouchedKeepsError(s: State, events: seq<Event>)
    requires Untouched(s, events)
    ensures Run(s, events).error == s.error
    decreases |events|
  {
    if events != [] {
      StepError(s, events[0]);
      UntouchedKeepsError(Step(s, events[0]), events[1..]);
    }
  }

  /** The last start, failure, completed logout or dismissal decides the error: a failure shows its message until
      the next of them, and every other one of them clears it. */
  lemma LastTouchDecidesError(s: State, before: seq<Event>, event: Event, after: seq<Event>)
    requires Touches(Run(s, before), event) && Untouched(Step(Run(s, before), event), after)
    ensures Run(s, before + ([event] + after)).error == MessageOf(event)
  {
    var t := Run(s, before);
    RunConcat(s, before, [event] + after);
    RunCons(t, event, after);
    StepError(t, event);
    UntouchedKeepsError(Step(t, event), after);
  }

  // ---------- Whose name is shown ----------

  /** An answered request for the user, a stored token, a missing or a deleted one change the user. */
  predicate Decides(s: State, event: Event) {
    match event
    case MeSucceeds(k, _) => k < |s.ops| && s.ops[k].AwaitingMe? && s.ops[k].sent.Some?
    case Resume(k) =>
      k < |s.ops| && (s.ops[k] == TokenChecked(false) || s.ops[k].Cleared? || s.ops[k].Stored?)
    case _ => false
  }

  function DecidedUser(s: State, event: Event): Option<User>
    requires Decides(s, event)
  {
    if event.MeSucceeds? then Some(event.user)
    else if s.ops[event.k].Stored? then Some(s.ops[event.k].user)
    else None
  }

  predicate Undecided(s: State, events: seq<Event>)
    decreases |events|
  {
    events == [] || (!Decides(s, events[0]) && Undecided(Step(s, events[0]), events[1..]))
  }

  lemma StepUser(s: State, event: Event)
    ensures Step(s, event).user == if Decides(s, event) then DecidedUser(s, event) else s.user
  {
  }

  lemma {:induction false} UndecidedKeepsUser(s: State, events: seq<Event>)
    requires Undecided(s, events)
    ensures Run(s, events).user == s.user
    decreases |events|
  {
    if events != [] {
      StepUser(s, events[0]);
      UndecidedKeepsUser(Step(s, events[0]), events[1..]);
    }
  }

  /** The last completed check, login or logout decides the user. */
  lemma LastDecisionShowsUser(s: State, before: seq<Event>, event: Event, after: seq<Event>)
    requires Decides(Run(s, before), event) && Undecided(Step(Run(s, before), event), after)
    ensures Run(s, before + ([event] + after)).user == DecidedUser(Run(s, before), event)
  {
    var t := Run(s, before);
    RunConcat(s, before, [event] + after);
    RunCons(t, event, after);
    StepUser(t, event);
    UndecidedKeepsUser(Step(t, event), after);
  }

  // ---------- When an idle store still shows that it loads ----------

  predicate BeginsLoading(event: Event) {
    event.Begin? && !event.operation.Logout?
  }

  predicate NothingBegun(events: seq<Event>) {
    forall i :: 0 <= i < |events| ==> !BeginsLoading(events[i])
  }

  /** A check whose token deletion fails: it ends without a last word. */
  predicate DeletionLost(s: State, event: Event) {
    event.TokenDeleteFails? && event.k < |s.ops| && s.ops[event.k].ToClear?
  }

  /** The last check, login or registration to begin was a check that lost its token deletion. */
  predicate LastLost(s: State, events: seq<Event>)
    decreases |events|
  {
    && events != []
    && ((DeletionLost(s, events[0]) && NothingBegun(events[1..])) || LastLost(Step(s, events[0]), events[1..]))
  }

  /** A logout, from its start to its end. */
  predicate IsLogout(phase: Phase) {
    phase.LoggingOut? || phase == Cleared(true)
  }

  /** While a check, login or registration is under way the store loads; otherwise it loads only if it is stuck. */
  predicate LoadsRightly(s: State, stuck: bool) {
    && (forall k :: 0 <= k < |s.ops| && !s.ops[k].Done? && !IsLogout(s.ops[k]) ==> s.isLoading && !stuck)
    && ((forall k :: 0 <= k < |s.ops| ==> s.ops[k].Done? || IsLogout(s.ops[k])) ==> s.isLoading == stuck)
  }

  function StillStuck(s: State, event: Event, stuck: bool): bool {
    if BeginsLoading(event) then false else if DeletionLost(s, event) then true else stuck
  }

  lemma BeginLoadsRightly(s: State, event: Event, stuck: bool)
    requires LoadsRightly(s, stuck) && (event.Begin? ==> Idle(s)) && (event.Begin? || event.ClearError?)
    ensures LoadsRightly(Step(s, event), StillStuck(s, event, stuck))
  {
    var t := Step(s, event);
    if BeginsLoading(event) {
      assert !t.ops[|s.ops|].Done? && !IsLogout(t.ops[|s.ops|]);
    } else if event.Begin? {
      assert s.isLoading == stuck;
    }
  }

  /** What the operation that an event moves does to the flag. */
  lemma OwnLoading(s: State, event: Event, stuck: bool)
    requires !event.Begin? && !event.ClearError? && event.k < |s.ops| && !s.ops[event.k].Done?
    requires if IsLogout(s.ops[event.k]) then s.isLoading == stuck else s.isLoading && !stuck
    ensures var t := Step(s, event);
            var phase := t.ops[event.k];
            && |t.ops| == |s.ops|
            && t.isLoading == (StillStuck(s, event, stuck) || !(phase.Done? || IsLogout(phase)))
            && (phase.Done? || IsLogout(phase) || !StillStuck(s, event, stuck))
  {
  }

  lemma AnswerLoadsRightly(s: State, event: Event, stuck: bool)
    requires LoadsRightly(s, stuck) && AtMostOneActive(s) && !event.Begin? && !event.ClearError?
    ensures LoadsRightly(Step(s, event), StillStuck(s, event, stuck))
  {
    var k := event.k;
    var t, still := Step(s, event), StillStuck(s, event, stuck);
    if k < |s.ops| && !s.ops[k].Done? {
      assert forall j :: 0 <= j < |s.ops| && j != k ==> s.ops[j].Done?;
      OwnLoading(s, event, stuck);
      forall j | 0 <= j < |s.ops| && j != k
        ensures t.ops[j].Done?
      {
        DoneStaysDone(s, event, j);
      }
    } else {
      assert t == s;
    }
  }

  lemma {:induction false} RunLoadsRightly(s: State, events: seq<Event>, stuck: bool)
    requires LoadsRightly(s, stuck) && AtMostOneActive(s) && SerialRun(s, events)
    ensures LoadsRightly(Run(s, events), (stuck && NothingBegun(events)) || LastLost(s, events))
    decreases |events|
  {
    if events != [] {
      var event, rest := events[0], events[1..];
      if event.Begin? || event.ClearError? {
        BeginLoadsRightly(s, event, stuck);
      } else {
        AnswerLoadsRightly(s, event, stuck);
      }
      StepAtMostOne(s, event);
      assert NothingBegun(events) <==> !BeginsLoading(event) && NothingBegun(rest);
      RunLoadsRightly(Step(s, event), rest, StillStuck(s, event, stuck));
    }
  }

  /** When operations never overlap, an idle store shows that it loads if and only if no check, login or
      registration has begun yet, or the last one to begin was a check that could not delete its token. */
  lemma IdleLoadsIff(token: Option<string>, events: seq<Event>)
    requires SerialRun(InitialState(token), events) && Idle(Run(InitialState(token), events))
    ensures Run(InitialState(token), events).isLoading <==>
            NothingBegun(events) || LastLost(InitialState(token), events)
  {
    RunLoadsRightly(InitialState(token), events, true);
  }
}
