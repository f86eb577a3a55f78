/** The mobile auth store (apps/mobile/lib/store.ts) with the token cell behind it (apps/mobile/lib/api.ts). */
module MobileAuth {
  import opened Options

  // `checkAuth`, `login`, `register` and `logout` are asynchronous: each is cut at its
  // awaits into atomic segments, and the segments of any number of operations interleave
  // freely. Reading, writing and deleting the token are steps of their own, and each can
  // fail.

  datatype User = User(id: string, email: string, name: string, role: string, accountId: string)

  /** Where an operation is suspended; the first four phases belong to `checkAuth`, which reads the token twice:
      once to see whether there is one, and once, inside `me()`, to send it. */
  datatype Phase =
    | AwaitingToken
    | TokenChecked(present: bool)
    | AskingMe
    | AwaitingMe(sent: Option<string>)
    | ToClear
    | Cleared(logout: bool)
    | LoggingOut
    | AwaitingResponse
    | ToStore(token: string, user: User)
    | Stored(user: User)
    | Done

  datatype State = State(
    user: Option<User>, isAuthenticated: bool, isLoading: bool, error: Option<string>,
    token: Option<string>, ops: seq<Phase>)

  /** `login` and `register` take the same steps. */
  datatype Operation = CheckAuth | LoginOrRegister | Logout

  datatype Event =
    | Begin(operation: Operation)
    | ClearError
    | TokenRead(k: nat)
    | TokenReadFails(k: nat)
    | MeSucceeds(k: nat, user: User)
    | MeFails(k: nat)
    | TokenDeleted(k: nat)
    | TokenDeleteFails(k: nat)
    | Responds(k: nat, token: string, user: User)
    | RequestFails(k: nat, message: string)
    | TokenWritten(k: nat)
    | TokenWriteFails(k: nat, message: string)
    | Resume(k: nat)

  const INITIAL_OPS: seq<Phase> := []

  /** The store as created, with whatever token an earlier session left. */
  function InitialState(token: Option<string>): State {
    State(None, false, true, None, token, INITIAL_OPS)
  }

  /** `hasToken`: a stored, non-empty token. */
  predicate HasToken(token: Option<string>) {
    token.Some? && |token.value| > 0
  }

  function BeginStep(s: State, operation: Operation): State {
    match operation
    case CheckAuth => s.(isLoading := true, error := None, ops := s.ops + [AwaitingToken])
    case LoginOrRegister => s.(isLoading := true, error := None, ops := s.ops + [AwaitingResponse])
    case Logout => s.(ops := s.ops + [LoggingOut])
  }

  /** The segment after an await that needs no outside answer: a checked token, a deleted one or a stored one. */
  function ResumeStep(s: State, k: nat): State
    requires k < |s.ops|
  {
    match s.ops[k]
    case TokenChecked(true) => s.(ops := s.ops[k := AskingMe])
    case TokenChecked(false) => s.(user := None, isAuthenticated := false, isLoading := false, ops := s.ops[k := Done])
    case Cleared(false) => s.(user := None, isAuthenticated := false, isLoading := false, ops := s.ops[k := Done])
    case Cleared(true) => s.(user := None, isAuthenticated := false, error := None, ops := s.ops[k := Done])
    case Stored(user) => s.(user := Some(user), isAuthenticated := true, isLoading := false, ops := s.ops[k := Done])
    case _ => s
  }

  function Fails(s: State, k: nat, message: string): State
    requires k < |s.ops|
  {
    s.(error := Some(message), isLoading := false, ops := s.ops[k := Done])
  }

  /** The token that a request carries: an empty one is left out like a missing one. */
  function Carried(token: Option<string>): Option<string> {
    if HasToken(token) then token else None
  }

  /** An answer moves the operation that waits for it; any other event is void. The server refuses a request for
      the user that carries no token. */
  function Answer(s: State, event: Event): State
    requires !event.Begin? && !event.ClearError? && event.k < |s.ops|
  {
    var k := event.k;
    match (event, s.ops[k])
    case (TokenRead(_), AwaitingToken) => s.(ops := s.ops[k := TokenChecked(HasToken(s.token))])
    case (TokenReadFails(_), AwaitingToken) => s.(ops := s.ops[k := TokenChecked(false)])
    case (TokenRead(_), AskingMe) => s.(ops := s.ops[k := AwaitingMe(Carried(s.token))])
    case (TokenReadFails(_), AskingMe) => s.(ops := s.ops[k := AwaitingMe(None)])
    case (MeSucceeds(_, user), AwaitingMe(Some(_))) =>
      s.(user := Some(user), isAuthenticated := true, isLoading := false, ops := s.ops[k := Done])
    case (MeFails(_), AwaitingMe(_)) => s.(ops := s.ops[k := ToClear])
    case (TokenDeleted(_), ToClear) => s.(token := None, ops := s.ops[k := Cleared(false)])
    case (TokenDeleted(_), LoggingOut) => s.(token := None, ops := s.ops[k := Cleared(true)])
    case (TokenDeleteFails(_), ToClear) => s.(ops := s.ops[k := Done])
    case (TokenDeleteFails(_), LoggingOut) => s.(ops := s.ops[k := Done])
    case (Responds(_, token, user), AwaitingResponse) => s.(ops := s.ops[k := ToStore(token, user)])
    case (RequestFails(_, message), AwaitingResponse) => Fails(s, k, message)
    case (TokenWritten(_), ToStore(token, user)) => s.(token := Some(token), ops := s.ops[k := Stored(user)])
    case (TokenWriteFails(_, message), ToStore(_, _)) => Fails(s, k, message)
    case (Resume(_), _) => ResumeStep(s, k)
    case _ => s
  }

  function Step(s: State, event: Event): State {
    match event
    case Begin(operation) => BeginStep(s, operation)
    case ClearError => s.(error := None)
    case _ => if event.k < |s.ops| then Answer(s, event) else s
  }

  function Run(s: State, events: seq<Event>): State
    decreases |events|
  {
    if events == [] then s else Run(Step(s, events[0]), events[1..])
  }

  lemma {:induction false} RunConcat(s: State, first: seq<Event>, second: seq<Event>)
    ensures Run(s, first + second) == Run(Run(s, first), second)
    decreases |first|
  {
    if first == [] {
      assert first + second == second;
    } else {
      assert (first + second)[1..] == first[1..] + second;
      RunConcat(Step(s, first[0]), first[1..], second);
    }
  }

  // ---------- In every interleaving: authenticated exactly when there is a user ----------

  predicate FlagMatchesUser(s: State) {
    s.isAuthenticated <==> s.user.Some?
  }

  lemma {:induction false} RunFlagMatchesUser(s: State, events: seq<Event>)
    requires FlagMatchesUser(s)
    ensures FlagMatchesUser(Run(s, events))
    decreases |events|
  {
    if events != [] {
      assert FlagMatchesUser(Step(s, events[0]));
      RunFlagMatchesUser(Step(s, events[0]), events[1..]);
    }
  }

  lemma AuthenticatedIffUser(token: Option<string>, events: seq<Event>)
    ensures var t := Run(InitialState(token), events);
            t.isAuthenticated <==> t.user.Some?
  {
    RunFlagMatchesUser(InitialState(token), events);
  }

  // ---------- When an authenticated state has a token ----------

  predicate Idle(s: State) {
    forall k :: 0 <= k < |s.ops| ==> s.ops[k].Done?
  }

  /** The operation may set `isAuthenticated` relying on a token it has sent or written. */
  predicate Relies(phase: Phase) {
    (phase.AwaitingMe? && phase.sent.Some?) || phase.Stored?
  }

  /** The operation is about to delete the token. */
  predicate Deletes(phase: Phase) {
    phase.ToClear? || phase.LoggingOut?
  }

  predicate OthersRely(s: State, k: nat) {
    exists j :: 0 <= j < |s.ops| && j != k && Relies(s.ops[j])
  }

  /** Authenticated with nothing left to do, but without a usable token. */
  predicate Stranded(s: State) {
    Idle(s) && s.isAuthenticated && !HasToken(s.token)
  }

  ghost predicate Sound(s: State) {
    && (forall k :: 0 <= k < |s.ops| && Relies(s.ops[k]) ==> HasToken(s.token))
    && (s.isAuthenticated && !HasToken(s.token) ==> exists k :: 0 <= k < |s.ops| && s.ops[k].Cleared?)
  }

  /** The server issues non-empty tokens, and no token is deleted while another operation relies on it. */
  predicate Careful(s: State, event: Event) {
    && (event.Responds? ==> |event.token| > 0)
    && (event.TokenDeleted? && event.k < |s.ops| && Deletes(s.ops[event.k]) ==> !OthersRely(s, event.k))
  }

  predicate CarefulRun(s: State, events: seq<Event>)
    decreases |events|
  {
    events == [] || (Careful(s, events[0]) && CarefulRun(Step(s, events[0]), events[1..]))
  }

  /** Tokens that answers have brought in are non-empty. */
  predicate RealTokens(s: State) {
    forall k :: 0 <= k < |s.ops| && s.ops[k].ToStore? ==> |s.ops[k].token| > 0
  }

  lemma StepRealTokens(s: State, event: Event)
    requires RealTokens(s) && (event.Responds? ==> |event.token| > 0)
    ensures RealTokens(Step(s, event))
  {
  }

  /** Which operation an event moves, and that it leaves all others alone. */
  lemma StepMovesOne(s: State, event: Event, j: nat)
    requires j < |s.ops| && (event.Begin? || event.ClearError? || event.k != j)
    ensures j < |Step(s, event).ops| && Step(s, event).ops[j] == s.ops[j]
  {
  }

  lemma StepRelies(s: State, event: Event, k: nat)
    requires Sound(s) && RealTokens(s) && Careful(s, event)
    requires k < |Step(s, event).ops| && Relies(Step(s, event).ops[k])
    ensures HasToken(Step(s, event).token)
  {
    if event.Begin? || event.ClearError? {
      StepMovesOne(s, event, k);
    } else if event.k != k {
      StepMovesOne(s, event, k);
      OthersKeepToken(s, event, k);
    } else {
      OwnStepRelies(s, event);
    }
  }

  /** An operation that relies on the token did so before, reads it now, or has just written it. */
  lemma OwnStepRelies(s: State, event: Event)
    requires Sound(s) && RealTokens(s) && !event.Begin? && !event.ClearError?
    requires event.k < |s.ops| && Relies(Step(s, event).ops[event.k])
    ensures HasToken(Step(s, event).token)
  {
  }

  /** A careful step of another operation leaves a token that is relied on usable. */
  lemma OthersKeepToken(s: State, event: Event, k: nat)
    requires Sound(s) && RealTokens(s) && Careful(s, event) && !event.Begin? && !event.ClearError?
    requires k < |s.ops| && event.k != k && Relies(s.ops[k])
    ensures HasToken(Step(s, event).token)
  {
    assert HasToken(s.token);
  }

  lemma StepKeepsCleared(s: State, event: Event, k: nat)
    requires k < |s.ops| && s.ops[k].Cleared?
    ensures var t := Step(s, event); k < |t.ops| && (t.ops[k].Cleared? || !t.isAuthenticated)
  {
  }

  lemma StepSound(s: State, event: Event)
    requires Sound(s) && RealTokens(s) && Careful(s, event)
    ensures Sound(Step(s, event))
  {
    var t := Step(s, event);
    forall k | 0 <= k < |t.ops| && Relies(t.ops[k])
      ensures HasToken(t.token)
    {
      StepRelies(s, event, k);
    }
    if s.isAuthenticated && !HasToken(s.token) {
      var k :| 0 <= k < |s.ops| && s.ops[k].Cleared?;
      StepKeepsCleared(s, event, k);
    } else if t.isAuthenticated && !HasToken(t.token) {
      assert event.TokenDeleted? && t.ops[event.k].Cleared?;
    }
  }

  lemma {:induction false} RunSound(s: State, events: seq<Event>)
    requires Sound(s) && RealTokens(s) && CarefulRun(s, events)
    ensures Sound(Run(s, events)) && RealTokens(Run(s, events))
    decreases |events|
  {
    if events != [] {
      StepSound(s, events[0]);
      StepRealTokens(s, events[0]);
      RunSound(Step(s, events[0]), events[1..]);
    }
  }

  lemma SoundNotStranded(s: State)
    requires Sound(s)
    ensures !Stranded(s)
  {
  }

  /** Operations may overlap in any way: as long as no token is deleted under an operation that relies on it,
      every idle authenticated state has a stored token. */
  lemma CarefulRunHasToken(token: Option<string>, events: seq<Event>)
    requires CarefulRun(InitialState(token), events)
    ensures var t := Run(InitialState(token), events);
            Idle(t) && t.isAuthenticated ==> HasToken(t.token)
  {
    RunSound(InitialState(token), events);
    SoundNotStranded(Run(InitialState(token), events));
  }

  // ---------- Operations that never overlap ----------

  predicate SerialRun(s: State, events: seq<Event>)
    decreases |events|
  {
    events == [] || ((events[0].Begin? ==> Idle(s)) && SerialRun(Step(s, events[0]), events[1..]))
  }

  predicate AtMostOneActive(s: State) {
    forall j, k :: 0 <= j < k < |s.ops| ==> s.ops[j].Done? || s.ops[k].Done?
  }

  predicate NonEmptyTokens(events: seq<Event>) {
    forall i :: 0 <= i < |events| && events[i].Responds? ==> |events[i].token| > 0
  }

  lemma DoneStaysDone(s: State, event: Event, k: nat)
    requires k < |s.ops| && s.ops[k].Done?
    ensures k < |Step(s, event).ops| && Step(s, event).ops[k].Done?
  {
  }

  lemma StepAtMostOne(s: State, event: Event)
    requires AtMostOneActive(s) && (event.Begin? ==> Idle(s))
    ensures AtMostOneActive(Step(s, event))
  {
    var t := Step(s, event);
    forall j, k | 0 <= j < k < |t.ops|
      ensures t.ops[j].Done? || t.ops[k].Done?
    {
      if s.ops[j].Done? {
        DoneStaysDone(s, event, j);
      } else if k < |s.ops| {
        DoneStaysDone(s, event, k);
      }
    }
  }

  lemma {:induction false} SerialIsCareful(s: State, events: seq<Event>)
    requires AtMostOneActive(s) && SerialRun(s, events) && NonEmptyTokens(events)
    ensures CarefulRun(s, events)
    decreases |events|
  {
    if events != [] {
      StepAtMostOne(s, events[0]);
      assert forall i :: 0 <= i < |events[1..]| ==> events[1..][i] == events[i + 1];
      SerialIsCareful(Step(s, events[0]), events[1..]);
    }
  }

  /** When operations never overlap, every idle authenticated state has a stored token. */
  lemma SerialRunHasToken(token: Option<string>, events: seq<Event>)
    requires SerialRun(InitialState(token), events) && NonEmptyTokens(events)
    ensures var t := Run(InitialState(token), events);
            Idle(t) && t.isAuthenticated ==> HasToken(t.token)
  {
    SerialIsCareful(InitialState(token), events);
    CarefulRunHasToken(token, events);
  }

  // ---------- A careless deletion can always end badly ----------

  /** Events that start nothing and delete no token, */
  predicate Quiet(events: seq<Event>) {
    forall i :: 0 <= i < |events| ==>
      !events[i].Begin? && !events[i].TokenDeleted? && (events[i].Responds? ==> |events[i].token| > 0)
  }

  /** ... and those that bring in nothing either. */
  predicate Still(events: seq<Event>) {
    forall i :: 0 <= i < |events| ==>
      var e := events[i];
      !e.Begin? && !e.TokenDeleted? && !e.Responds? && !e.MeSucceeds? && !e.TokenWritten?
  }

  /** The event that moves an operation towards its end without storing a token, and the phase it leads to. */
  function Exit(phase: Phase, k: nat): (Event, Phase)
    requires !phase.Done?
  {
    match phase
    case AwaitingToken => (TokenReadFails(k), TokenChecked(false))
    case TokenChecked(true) => (Resume(k), AskingMe)
    case TokenChecked(false) => (Resume(k), Done)
    case AskingMe => (TokenReadFails(k), AwaitingMe(None))
    case AwaitingMe(_) => (MeFails(k), ToClear)
    case ToClear => (TokenDeleteFails(k), Done)
    case LoggingOut => (TokenDeleteFails(k), Done)
    case Cleared(_) => (Resume(k), Done)
    case AwaitingResponse => (RequestFails(k, ""), Done)
    case ToStore(_, _) => (TokenWriteFails(k, ""), Done)
    case Stored(_) => (Resume(k), Done)
  }

  function StepsLeft(phase: Phase): nat {
    match phase
    case Done => 0
    case TokenChecked(true) => 4
    case AskingMe => 3
    case AwaitingMe(_) => 2
    case AwaitingToken => 2
    case _ => 1
  }

  function Drain(phase: Phase, k: nat): seq<Event>
    decreases StepsLeft(phase)
  {
    if phase.Done? then [] else [Exit(phase, k).0] + Drain(Exit(phase, k).1, k)
  }

  lemma RunCons(s: State, event: Event, rest: seq<Event>)
    ensures Run(s, [event] + rest) == Run(Step(s, event), rest)
  {
    assert ([event] + rest)[1..] == rest;
  }

  lemma ExitMoves(s: State, k: nat)
    requires k < |s.ops| && !s.ops[k].Done?
    ensures var (event, phase) := Exit(s.ops[k], k);
            var t := Step(s, event);
            t.ops == s.ops[k := phase] && t.token == s.token && StepsLeft(phase) < StepsLeft(s.ops[k])
  {
  }

  lemma {:induction false} DrainEnds(s: State, k: nat)
    requires k < |s.ops|
    ensures var t := Run(s, Drain(s.ops[k], k));
            t.token == s.token && t.ops == s.ops[k := Done]
    ensures Still(Drain(s.ops[k], k))
    decreases StepsLeft(s.ops[k])
  {
    if !s.ops[k].Done? {
      var (event, phase) := Exit(s.ops[k], k);
      var t := Step(s, event);
      ExitMoves(s, k);
      DrainEnds(t, k);
      RunCons(s, event, Drain(phase, k));
      assert t.ops[k := Done] == s.ops[k := Done];
    }
  }

  lemma StillConcat(a: seq<Event>, b: seq<Event>)
    requires Still(a) && Still(b)
    ensures Still(a + b)
  {
  }

  /** Drains the operations numbered n and higher, except the one with number j. */
  lemma {:induction false} DrainOthers(s: State, n: nat, j: nat) returns (events: seq<Event>)
    requires n <= |s.ops| && j < |s.ops|
    requires forall k :: 0 <= k < n && k != j ==> s.ops[k].Done?
    ensures Still(events)
    ensures var t := Run(s, events);
            && t.token == s.token && |t.ops| == |s.ops| && t.ops[j] == s.ops[j]
            && forall k :: 0 <= k < |t.ops| && k != j ==> t.ops[k].Done?
    decreases |s.ops| - n
  {
    if n == |s.ops| {
      events := [];
    } else if n == j {
      events := DrainOthers(s, n + 1, j);
    } else {
      DrainEnds(s, n);
      var first := Drain(s.ops[n], n);
      var rest := DrainOthers(Run(s, first), n + 1, j);
      StillConcat(first, rest);
      RunConcat(s, first, rest);
      events := first + rest;
    }
  }

  /** The event by which an operation that relies on the token shows its user. */
  function Success(phase: Phase, j: nat, user: User): Event {
    if phase.AwaitingMe? then MeSucceeds(j, user) else Resume(j)
  }

  /** Once all other operations are done, one that relies on the token can still show its user. */
  lemma DrainAndSucceed(s: State, j: nat, user: User) returns (drain: seq<Event>)
    requires j < |s.ops| && Relies(s.ops[j]) && (s.ops[j].Stored? ==> user == s.ops[j].user)
    ensures Still(drain)
    ensures var mid := Run(s, drain);
            && mid.token == s.token && j < |mid.ops| && mid.ops[j] == s.ops[j]
            && Run(s, drain + [Success(s.ops[j], j, user)]) == Step(mid, Success(s.ops[j], j, user))
    ensures var t := Run(s, drain + [Success(s.ops[j], j, user)]);
            t.token == s.token && Idle(t) && t.isAuthenticated && t.user == Some(user)
  {
    drain := DrainOthers(s, 0, j);
    var mid, event := Run(s, drain), Success(s.ops[j], j, user);
    RunConcat(s, drain, [event]);
    RunCons(mid, event, []);
    assert [event] + [] == [event];
    forall k | 0 <= k < |mid.ops| && k != j
      ensures Step(mid, event).ops[k].Done?
    {
      StepMovesOne(mid, event, k);
    }
  }

  lemma CarelessDeletionStrands(s: State, k: nat) returns (events: seq<Event>)
    requires k < |s.ops| && Deletes(s.ops[k]) && OthersRely(s, k)
    ensures Quiet(events) && Stranded(Run(Step(s, TokenDeleted(k)), events))
  {
    var t := Step(s, TokenDeleted(k));
    var j :| 0 <= j < |s.ops| && j != k && Relies(s.ops[j]);
    var user := if s.ops[j].Stored? then s.ops[j].user else User("", "", "", "", "");
    var drain := DrainAndSucceed(t, j, user);
    events := drain + [Success(t.ops[j], j, user)];
  }

  lemma {:induction false} QuietIsCareful(s: State, events: seq<Event>)
    requires Quiet(events)
    ensures CarefulRun(s, events)
    decreases |events|
  {
    if events != [] {
      assert forall i :: 0 <= i < |events[1..]| ==> events[1..][i] == events[i + 1];
      QuietIsCareful(Step(s, events[0]), events[1..]);
    }
  }

  /** However a careful run goes on from here, with new operations, deletions and answers in any order,
      it does not end authenticated without a token. */
  ghost predicate Harmless(s: State) {
    forall events :: CarefulRun(s, events) ==> !Stranded(Run(s, events))
  }

  lemma SoundIsHarmless(s: State)
    requires Sound(s) && RealTokens(s)
    ensures Harmless(s)
  {
    forall events | CarefulRun(s, events)
      ensures !Stranded(Run(s, events))
    {
      RunSound(s, events);
      SoundNotStranded(Run(s, events));
    }
  }

  /** Deleting the token is harmless if and only if none of the other operations relies on it. */
  lemma DeletionHarmlessIff(s: State, k: nat)
    requires Sound(s) && RealTokens(s) && k < |s.ops| && Deletes(s.ops[k])
    ensures Harmless(Step(s, TokenDeleted(k))) <==> !OthersRely(s, k)
  {
    var t := Step(s, TokenDeleted(k));
    if OthersRely(s, k) {
      var events := CarelessDeletionStrands(s, k);
      QuietIsCareful(t, events);
    } else {
      StepSound(s, TokenDeleted(k));
      StepRealTokens(s, TokenDeleted(k));
      SoundIsHarmless(t);
    }
  }

  ghost predicate HarmlessThroughout(s: State, events: seq<Event>)
    decreases |events|
  {
    Harmless(s) && (events == [] || HarmlessThroughout(Step(s, events[0]), events[1..]))
  }

  lemma StepHarmlessIff(s: State, event: Event)
    requires Sound(s) && RealTokens(s) && (event.Responds? ==> |event.token| > 0)
    ensures Harmless(Step(s, event)) <==> Careful(s, event)
  {
    if event.TokenDeleted? && event.k < |s.ops| && Deletes(s.ops[event.k]) {
      DeletionHarmlessIff(s, event.k);
    } else {
      StepSound(s, event);
      StepRealTokens(s, event);
      SoundIsHarmless(Step(s, event));
    }
  }

  /** A run in which the server issues real tokens is harmless all along if and only if it is careful. */
  lemma {:induction false} HarmlessIffCareful(s: State, events: seq<Event>)
    requires Sound(s) && RealTokens(s) && NonEmptyTokens(events)
    ensures HarmlessThroughout(s, events) <==> CarefulRun(s, events)
    decreases |events|
  {
    SoundIsHarmless(s);
    if events != [] {
      var t := Step(s, events[0]);
      StepHarmlessIff(s, events[0]);
      assert forall i :: 0 <= i < |events[1..]| ==> events[1..][i] == events[i + 1];
      if Careful(s, events[0]) {
        StepSound(s, events[0]);
        StepRealTokens(s, events[0]);
        HarmlessIffCareful(t, events[1..]);
      } else {
        assert !HarmlessThroughout(t, events[1..]);
      }
    }
  }

  lemma RunTwo(s: State, first: Event, second: Event, rest: seq<Event>)
    ensures Run(s, [first, second] + rest) == Run(Step(Step(s, first), second), rest)
  {
    RunCons(s, first, [second] + rest);
    RunCons(Step(s, first), second, rest);
    assert [first] + ([second] + rest) == [first, second] + rest;
  }

  const EXPIRED_CHECK: seq<Event> :=
    [Begin(CheckAuth), TokenRead(0)] + ([Resume(0), TokenRead(0)] + ([MeFails(0)] + []))

  lemma CheckSends(saved: string, rest: seq<Event>)
    requires |saved| > 0
    ensures Run(InitialState(Some(saved)), [Begin(CheckAuth), TokenRead(0)] + ([Resume(0), TokenRead(0)] + rest))
         == Run(State(None, false, true, None, Some(saved), [AwaitingMe(Some(saved))]), rest)
  {
    var s := InitialState(Some(saved));
    RunTwo(s, Begin(CheckAuth), TokenRead(0), [Resume(0), TokenRead(0)] + rest);
    var t := Step(Step(s, Begin(CheckAuth)), TokenRead(0));
    assert t.ops == [TokenChecked(true)];
    RunTwo(t, Resume(0), TokenRead(0), rest);
    assert Step(Step(t, Resume(0)), TokenRead(0)).ops == [AwaitingMe(Some(saved))];
  }

  lemma ExpiredCheckClears(saved: string)
    requires |saved| > 0
    ensures Run(InitialState(Some(saved)), EXPIRED_CHECK) == State(None, false, true, None, Some(saved), [ToClear])
  {
    CheckSends(saved, [MeFails(0)] + []);
    var t := State(None, false, true, None, Some(saved), [AwaitingMe(Some(saved))]);
    RunCons(t, MeFails(0), []);
    assert Step(t, MeFails(0)).ops == [ToClear];
  }

  function SlippedLogin(issued: string, user: User): seq<Event> {
    [Begin(LoginOrRegister), Responds(1, issued, user)] +
    ([TokenWritten(1), TokenDeleted(0)] + ([Resume(0), Resume(1)] + []))
  }

  lemma LoginAnswered(s: State, issued: string, user: User)
    requires s.ops == [ToClear]
    ensures Step(Step(s, Begin(LoginOrRegister)), Responds(1, issued, user))
         == s.(isLoading := true, error := None, ops := [ToClear, ToStore(issued, user)])
  {
    assert Step(s, Begin(LoginOrRegister)).ops == [ToClear, AwaitingResponse];
  }

  lemma WrittenThenDeleted(s: State, issued: string, user: User)
    requires s.ops == [ToClear, ToStore(issued, user)]
    ensures Step(Step(s, TokenWritten(1)), TokenDeleted(0)) == s.(token := None, ops := [Cleared(false), Stored(user)])
  {
    assert Step(s, TokenWritten(1)).ops == [ToClear, Stored(user)];
  }

  lemma BothFinish(s: State, user: User)
    requires s.token == None && s.ops == [Cleared(false), Stored(user)]
    ensures Stranded(Step(Step(s, Resume(0)), Resume(1)))
  {
    assert Step(s, Resume(0)).ops == [Done, Stored(user)];
  }

  lemma SlippedLoginStrands(s: State, issued: string, user: User)
    requires s.ops == [ToClear]
    ensures Stranded(Run(s, SlippedLogin(issued, user)))
  {
    RunTwo(s, Begin(LoginOrRegister), Responds(1, issued, user),
           [TokenWritten(1), TokenDeleted(0)] + ([Resume(0), Resume(1)] + []));
    LoginAnswered(s, issued, user);
    var t := s.(isLoading := true, error := None, ops := [ToClear, ToStore(issued, user)]);
    RunTwo(t, TokenWritten(1), TokenDeleted(0), [Resume(0), Resume(1)] + []);
    WrittenThenDeleted(t, issued, user);
    var u := t.(token := None, ops := [Cleared(false), Stored(user)]);
    RunTwo(u, Resume(0), Resume(1), []);
    BothFinish(u, user);
  }

  /** `checkAuth` with an expired token overlaps a successful `login`: the login's token is deleted
      after it was written, and the login still reports success. */
  lemma OverlapStrands(saved: string, issued: string, user: User)
    requires |saved| > 0
    ensures Stranded(Run(InitialState(Some(saved)), EXPIRED_CHECK + SlippedLogin(issued, user)))
  {
    ExpiredCheckClears(saved);
    RunConcat(InitialState(Some(saved)), EXPIRED_CHECK, SlippedLogin(issued, user));
    SlippedLoginStrands(Run(InitialState(Some(saved)), EXPIRED_CHECK), issued, user);
  }

  // ---------- The token cell and the store ----------

  /** The secure store's entry for the token; a failing store operation leaves it as it is. */
  class TokenCell {
    var token: Option<string>

    constructor (saved: Option<string>)
      ensures token == saved
    {
      token := saved;
    }

    /** `getToken`: a read that fails counts as no token. */
    method GetToken(readable: bool) returns (value: Option<string>)
      ensures value == if readable then token else None
    {
      value := if readable then token else None;
    }

    method SetToken(value: string)
      modifies this
      ensures token == Some(value) && (HasToken(token) <==> value != "")
    {
      token := Some(value);
    }

    method ClearToken()
      modifies this
      ensures !HasToken(token) && token == None
    {
      token := None;
    }

    method HasStoredToken(readable: bool) returns (present: bool)
      ensures present <==> readable && HasToken(token)
    {
      var value := GetToken(readable);
      present := value.Some? && |value.value| > 0;
    }
  }

  class AuthStore {
    var user: Option<User>
    var isAuthenticated: bool
    var isLoading: bool
    var error: Option<string>
    var ops: seq<Phase>
    const cell: TokenCell

    ghost function Model(): State
      reads this, cell
    {
      State(user, isAuthenticated, isLoading, error, cell.token, ops)
    }

    ghost predicate Valid()
      reads this
    {
      isAuthenticated <==> user.Some?
    }

    constructor (cell: TokenCell)
      ensures this.cell == cell && Valid() && Model() == InitialState(cell.token)
    {
      user, isAuthenticated, isLoading, error, ops := None, false, true, None, INITIAL_OPS;
      this.cell := cell;
    }

    /** The first segment of an action; the result is the number of the operation. */
    method Start(operation: Operation) returns (k: nat)
      requires Valid()
      modifies this
      ensures Valid() && Model() == Step(old(Model()), Begin(operation)) && k == |old(ops)| && |ops| == k + 1
      ensures user == old(user) && isAuthenticated == old(isAuthenticated)
      ensures operation.Logout? ==> isLoading == old(isLoading) && error == old(error) && ops[k].LoggingOut?
      ensures !operation.Logout? ==> isLoading && error == None
      ensures operation.CheckAuth? ==> ops[k].AwaitingToken?
      ensures operation.LoginOrRegister? ==> ops[k].AwaitingResponse?
    {
      k := |ops|;
      match operation {
        case CheckAuth =>
          isLoading, error := true, None;
          ops := ops + [AwaitingToken];
        case LoginOrRegister =>
          isLoading, error := true, None;
          ops := ops + [AwaitingResponse];
        case Logout =>
          ops := ops + [LoggingOut];
      }
    }

    method DismissError()
      requires Valid()
      modifies this
      ensures Valid() && Model() == Step(old(Model()), ClearError)
      ensures error == None && user == old(user) && isLoading == old(isLoading) && ops == old(ops)
    {
      error := None;
    }

    /** `checkAuth` asks for the token and goes on with the answer up to its next await. */
    method ReadToken(k: nat, readable: bool)
      requires Valid() && k < |ops| && ops[k].AwaitingToken?
      modifies this
      ensures Valid()
      ensures Model() == Step(old(Model()), if readable then TokenRead(k) else TokenReadFails(k))
      ensures ops == old(ops)[k := TokenChecked(readable && HasToken(cell.token))]
      ensures user == old(user) && isLoading == old(isLoading) && error == old(error)
    {
      var tokenExists := cell.HasStoredToken(readable);
      ops := ops[k := TokenChecked(tokenExists)];
    }

    /** `authApi.me()` asks for the token again and sends its request, with the token if there is one. */
    method SendMe(k: nat, readable: bool)
      requires Valid() && k < |ops| && ops[k].AskingMe?
      modifies this
      ensures Valid()
      ensures Model() == Step(old(Model()), if readable then TokenRead(k) else TokenReadFails(k))
      ensures ops == old(ops)[k := AwaitingMe(if readable && HasToken(cell.token) then cell.token else None)]
      ensures user == old(user) && isLoading == old(isLoading) && error == old(error)
    {
      var token := cell.GetToken(readable);
      ops := ops[k := AwaitingMe(if token.Some? && |token.value| > 0 then token else None)];
    }

    /** `authApi.me()` settles. */
    method MeSettles(k: nat, answer: Option<User>)
      requires Valid() && k < |ops| && ops[k].AwaitingMe? && (answer.Some? ==> ops[k].sent.Some?)
      modifies this
      ensures Valid()
      ensures Model() == Step(old(Model()), if answer.Some? then MeSucceeds(k, answer.value) else MeFails(k))
      ensures answer.Some? ==> user == answer && isAuthenticated && !isLoading && ops == old(ops)[k := Done]
      ensures answer.None? ==> user == old(user) && isLoading == old(isLoading) && ops == old(ops)[k := ToClear]
      ensures error == old(error)
    {
      if answer.Some? {
        user, isAuthenticated, isLoading := answer, true, false;
        ops := ops[k := Done];
      } else {
        ops := ops[k := ToClear];
      }
    }

    /** `clearToken()` runs, in `checkAuth` after a failed `me()` or in `logout`. */
    method DeleteToken(k: nat, works: bool)
      requires Valid() && k < |ops| && Deletes(ops[k])
      modifies this, cell
      ensures Valid()
      ensures Model() == Step(old(Model()), if works then TokenDeleted(k) else TokenDeleteFails(k))
      ensures cell.token == if works then None else old(cell.token)
      ensures ops == old(ops)[k := if works then Cleared(old(ops)[k].LoggingOut?) else Done]
      ensures user == old(user) && isLoading == old(isLoading) && error == old(error)
    {
      if works {
        cell.ClearToken();
        ops := ops[k := Cleared(ops[k].LoggingOut?)];
      } else {
        ops := ops[k := Done];
      }
    }

    /** The login or register request is answered. */
    method ResponseArrives(k: nat, token: string, account: User)
      requires Valid() && k < |ops| && ops[k].AwaitingResponse?
      modifies this
      ensures Valid() && Model() == Step(old(Model()), Responds(k, token, account))
      ensures ops == old(ops)[k := ToStore(token, account)]
      ensures user == old(user) && isLoading == old(isLoading) && error == old(error)
    {
      ops := ops[k := ToStore(token, account)];
    }

    /** `setToken()` runs inside `authApi.login` or `authApi.register`. */
    method WriteToken(k: nat, works: bool, message: string)
      requires Valid() && k < |ops| && ops[k].ToStore?
      modifies this, cell
      ensures Valid()
      ensures Model() == Step(old(Model()), if works then TokenWritten(k) else TokenWriteFails(k, message))
      ensures works ==> cell.token == Some(old(ops)[k].token) && ops == old(ops)[k := Stored(old(ops)[k].user)]
      ensures works ==> error == old(error) && isLoading == old(isLoading)
      ensures !works ==> error == Some(message) && !isLoading && ops == old(ops)[k := Done]
      ensures !works ==> cell.token == old(cell.token)
      ensures user == old(user)
    {
      if works {
        cell.SetToken(ops[k].token);
        ops := ops[k := Stored(ops[k].user)];
      } else {
        error, isLoading := Some(message), false;
        ops := ops[k := Done];
      }
    }

    method RequestRejects(k: nat, message: string)
      requires Valid() && k < |ops| && ops[k].AwaitingResponse?
      modifies this
      ensures Valid() && Model() == Step(old(Model()), RequestFails(k, message))
      ensures error == Some(message) && !isLoading && ops == old(ops)[k := Done] && user == old(user)
    {
      error, isLoading := Some(message), false;
      ops := ops[k := Done];
    }

    /** The last segment: `set` after a token was found missing, deleted or stored. */
    method Continue(k: nat)
      requires Valid() && k < |ops|
      modifies this
      ensures Valid() && Model() == Step(old(Model()), Resume(k))
      ensures old(ops)[k] == TokenChecked(true) ==> ops == old(ops)[k := AskingMe] && user == old(user)
      ensures old(ops)[k] == TokenChecked(false) || old(ops)[k].Cleared? || old(ops)[k].Stored? ==>
                && ops == old(ops)[k := Done]
                && user == (if old(ops)[k].Stored? then Some(old(ops)[k].user) else None)
                && isLoading == (old(ops)[k] == Cleared(true) && old(isLoading))
                && error == (if old(ops)[k] == Cleared(true) then None else old(error))
    {
      match ops[k] {
        case TokenChecked(present) =>
          if present {
            ops := ops[k := AskingMe];
          } else {
            user, isAuthenticated, isLoading := None, false, false;
            ops := ops[k := Done];
          }
        case Cleared(logout) =>
          user, isAuthenticated := None, false;
          if logout {
            error := None;
          } else {
            isLoading := false;
          }
          ops := ops[k := Done];
        case Stored(account) =>
          user, isAuthenticated, isLoading := Some(account), true, false;
          ops := ops[k := Done];
        case _ =>
      }
    }
  }
}
