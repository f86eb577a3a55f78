/** Whose token the mobile app keeps (apps/mobile/lib/store.ts, apps/mobile/lib/api.ts): the shown user's, or not. */
module TokenOwner {
  import opened Options
  import opened MobileAuth

  // Every token has an owner, and the server is honest: it answers a login with the owner
  // of the token it issues, and a request for the user with the owner of the token sent.

  predicate Honest(s: State, event: Event, owner: string -> User) {
    && (event.Responds? ==> event.user == owner(event.token))
    && (event.MeSucceeds? && event.k < |s.ops| && s.ops[event.k].AwaitingMe? && s.ops[event.k].sent.Some? ==>
          event.user == owner(s.ops[event.k].sent.value))
  }

  predicate HonestRun(s: State, events: seq<Event>, owner: string -> User)
    decreases |events|
  {
    events == [] || (Honest(s, events[0], owner) && HonestRun(Step(s, events[0]), events[1..], owner))
  }

  predicate Owns(user: User, token: Option<string>, owner: string -> User) {
    token.Some? && user == owner(token.value)
  }

  /** The user that an operation is about to show: of the token it wrote, or of the one it sent. */
  function Promise(phase: Phase, owner: string -> User): Option<User> {
    if phase.Stored? then Some(phase.user)
    else if phase.AwaitingMe? && phase.sent.Some? then Some(owner(phase.sent.value))
    else None
  }

  /** Some other operation is about to show a user that does not own this token. */
  ghost predicate OtherPromises(s: State, k: nat, token: Option<string>, owner: string -> User) {
    exists j :: 0 <= j < |s.ops| && j != k
                && Promise(s.ops[j], owner).Some? && !Owns(Promise(s.ops[j], owner).value, token, owner)
  }

  /** What an operation that changes the stored token leaves there. */
  function Leaves(s: State, event: Event): Option<Option<string>> {
    if event.TokenWritten? && event.k < |s.ops| && s.ops[event.k].ToStore? then Some(Some(s.ops[event.k].token))
    else if event.TokenDeleted? && event.k < |s.ops| && Deletes(s.ops[event.k]) then Some(None)
    else None
  }

  /** A write or a deletion leaves what every other operation is about to show the owner of. */
  ghost predicate Orderly(s: State, event: Event, owner: string -> User) {
    Leaves(s, event).Some? ==> !OtherPromises(s, event.k, Leaves(s, event).value, owner)
  }

  ghost predicate OrderlyRun(s: State, events: seq<Event>, owner: string -> User)
    decreases |events|
  {
    events == [] || (Orderly(s, events[0], owner) && OrderlyRun(Step(s, events[0]), events[1..], owner))
  }

  // ---------- What orderly steps keep ----------

  predicate PhaseOwned(phase: Phase, token: Option<string>, owner: string -> User) {
    && (phase.ToStore? ==> phase.user == owner(phase.token))
    && (Promise(phase, owner).Some? ==> Owns(Promise(phase, owner).value, token, owner))
  }

  /** A user that does not own the stored token is shown only until a pending operation shows what it did. */
  predicate Pending(phase: Phase) {
    phase.Stored? || phase.Cleared?
  }

  ghost predicate Owned(s: State, owner: string -> User) {
    && (forall k :: 0 <= k < |s.ops| ==> PhaseOwned(s.ops[k], s.token, owner))
    && (s.user.Some? && !Owns(s.user.value, s.token, owner) ==> exists k :: 0 <= k < |s.ops| && Pending(s.ops[k]))
  }

  lemma BeginOwned(s: State, event: Event, owner: string -> User)
    requires Owned(s, owner) && (event.Begin? || event.ClearError?)
    ensures Owned(Step(s, event), owner)
  {
    var t := Step(s, event);
    if s.user.Some? && !Owns(s.user.value, s.token, owner) {
      var k :| 0 <= k < |s.ops| && Pending(s.ops[k]);
      assert t.ops[k] == s.ops[k];
    }
  }

  /** An operation that only checks or deletes promises nothing, */
  lemma PromisesNothing(s: State, event: Event, owner: string -> User)
    requires !event.Begin? && !event.ClearError? && event.k < |s.ops| && Honest(s, event, owner)
    requires !(s.ops[event.k].AskingMe? || s.ops[event.k].AwaitingMe? || s.ops[event.k].ToStore? || s.ops[event.k].Stored?)
    ensures var t := Step(s, event); |t.ops| == |s.ops| && PhaseOwned(t.ops[event.k], t.token, owner)
  {
  }

  /** ... and one that sends or stores a token keeps its promise in order. */
  lemma KeepsPromise(s: State, event: Event, owner: string -> User)
    requires !event.Begin? && !event.ClearError? && event.k < |s.ops| && Honest(s, event, owner)
    requires s.ops[event.k].AskingMe? || s.ops[event.k].AwaitingMe? || s.ops[event.k].ToStore? || s.ops[event.k].Stored?
    requires PhaseOwned(s.ops[event.k], s.token, owner)
    ensures var t := Step(s, event); |t.ops| == |s.ops| && PhaseOwned(t.ops[event.k], t.token, owner)
  {
  }

  lemma OwnPhaseOwned(s: State, event: Event, owner: string -> User)
    requires !event.Begin? && !event.ClearError? && event.k < |s.ops| && Honest(s, event, owner)
    requires PhaseOwned(s.ops[event.k], s.token, owner)
    ensures var t := Step(s, event); |t.ops| == |s.ops| && PhaseOwned(t.ops[event.k], t.token, owner)
  {
    if s.ops[event.k].AskingMe? || s.ops[event.k].AwaitingMe? || s.ops[event.k].ToStore? || s.ops[event.k].Stored? {
      KeepsPromise(s, event, owner);
    } else {
      PromisesNothing(s, event, owner);
    }
  }

  lemma OthersOwned(s: State, event: Event, j: nat, owner: string -> User)
    requires Owned(s, owner) && Orderly(s, event, owner) && !event.Begin? && !event.ClearError?
    requires event.k < |s.ops| && j < |s.ops| && j != event.k
    ensures PhaseOwned(s.ops[j], Step(s, event).token, owner)
  {
    assert PhaseOwned(s.ops[j], s.token, owner);
    TokenAfter(s, event);
  }

  /** Only a write and a deletion change the token, and they leave what is said. */
  lemma TokenAfter(s: State, event: Event)
    ensures Step(s, event).token == if Leaves(s, event).Some? then Leaves(s, event).value else s.token
  {
  }

  /** A step that changes the token, or that hides who is shown, is pending; one that shows a user shows an owner. */
  lemma ShownOrPending(s: State, event: Event, owner: string -> User)
    requires !event.Begin? && !event.ClearError? && event.k < |s.ops| && Honest(s, event, owner)
    requires PhaseOwned(s.ops[event.k], s.token, owner)
    ensures var t := Step(s, event);
            || (t.user == s.user && t.token == s.token && (Pending(s.ops[event.k]) ==> t.ops[event.k] == s.ops[event.k]))
            || (|t.ops| == |s.ops| && Pending(t.ops[event.k]))
            || t.user.None? || Owns(t.user.value, t.token, owner)
  {
  }

  lemma StepOwned(s: State, event: Event, owner: string -> User)
    requires Owned(s, owner) && Honest(s, event, owner) && Orderly(s, event, owner)
    ensures Owned(Step(s, event), owner)
  {
    if event.Begin? || event.ClearError? {
      BeginOwned(s, event, owner);
    } else if event.k < |s.ops| {
      var t := Step(s, event);
      OwnPhaseOwned(s, event, owner);
      forall j | 0 <= j < |s.ops| && j != event.k
        ensures t.ops[j] == s.ops[j] && PhaseOwned(t.ops[j], t.token, owner)
      {
        StepMovesOne(s, event, j);
        OthersOwned(s, event, j, owner);
      }
      ShownOrPending(s, event, owner);
      if t.user.Some? && !Owns(t.user.value, t.token, owner) && !Pending(t.ops[event.k]) {
        var k :| 0 <= k < |s.ops| && Pending(s.ops[k]);
        assert Pending(t.ops[k]);
      }
    }
  }

  // ---------- Exactly when a step lets the wrong user be shown ----------

  predicate ShowsOwner(s: State, owner: string -> User) {
    Idle(s) && s.user.Some? ==> Owns(s.user.value, s.token, owner)
  }

  /** However an orderly run with an honest server goes on from here, an idle state shows the owner or nobody. */
  ghost predicate Trusted(s: State, owner: string -> User) {
    forall events :: OrderlyRun(s, events, owner) && HonestRun(s, events, owner) ==> ShowsOwner(Run(s, events), owner)
  }

  lemma {:induction false} RunOwned(s: State, events: seq<Event>, owner: string -> User)
    requires Owned(s, owner) && OrderlyRun(s, events, owner) && HonestRun(s, events, owner)
    ensures Owned(Run(s, events), owner)
    decreases |events|
  {
    if events != [] {
      StepOwned(s, events[0], owner);
      RunOwned(Step(s, events[0]), events[1..], owner);
    }
  }

  lemma OwnedIsTrusted(s: State, owner: string -> User)
    requires Owned(s, owner)
    ensures Trusted(s, owner)
  {
    forall events | OrderlyRun(s, events, owner) && HonestRun(s, events, owner)
      ensures ShowsOwner(Run(s, events), owner)
    {
      RunOwned(s, events, owner);
    }
  }

  /** Events that bring in nothing and change no token are orderly and honest, and so is one more after them. */
  lemma {:induction false} StillThenOne(s: State, still: seq<Event>, event: Event, owner: string -> User)
    requires Still(still)
    requires Honest(Run(s, still), event, owner) && !event.TokenWritten? && !event.TokenDeleted?
    ensures OrderlyRun(s, still + [event], owner) && HonestRun(s, still + [event], owner)
    decreases |still|
  {
    if still == [] {
      assert [] + [event] == [event];
    } else {
      assert (still + [event])[1..] == still[1..] + [event];
      assert forall i :: 0 <= i < |still[1..]| ==> still[1..][i] == still[i + 1];
      StillThenOne(Step(s, still[0]), still[1..], event, owner);
    }
  }

  /** An operation that is about to show a user who does not own the stored token can be the last one. */
  lemma BrokenPromise(s: State, j: nat, owner: string -> User)
    requires j < |s.ops| && Promise(s.ops[j], owner).Some?
    requires !Owns(Promise(s.ops[j], owner).value, s.token, owner)
    ensures !Trusted(s, owner)
  {
    var user := Promise(s.ops[j], owner).value;
    var drain := DrainAndSucceed(s, j, user);
    StillThenOne(s, drain, Success(s.ops[j], j, user), owner);
    assert !ShowsOwner(Run(s, drain + [Success(s.ops[j], j, user)]), owner);
  }

  /** A step keeps the wrong user from being shown, in whatever comes, if and only if it is orderly. */
  lemma TrustedIffOrderly(s: State, event: Event, owner: string -> User)
    requires Owned(s, owner) && Honest(s, event, owner)
    ensures Trusted(Step(s, event), owner) <==> Orderly(s, event, owner)
  {
    if Orderly(s, event, owner) {
      StepOwned(s, event, owner);
      OwnedIsTrusted(Step(s, event), owner);
    } else {
      TokenAfter(s, event);
      var j :| 0 <= j < |s.ops| && j != event.k && Promise(s.ops[j], owner).Some?
               && !Owns(Promise(s.ops[j], owner).value, Leaves(s, event).value, owner);
      StepMovesOne(s, event, j);
      BrokenPromise(Step(s, event), j, owner);
    }
  }

  ghost predicate TrustedThroughout(s: State, events: seq<Event>, owner: string -> User)
    decreases |events|
  {
    Trusted(s, owner) && (events == [] || TrustedThroughout(Step(s, events[0]), events[1..], owner))
  }

  /** With an honest server, a run reaches only states from which the wrong user is never shown, if and only if no
      write or deletion in it leaves something else than another operation is about to show the owner of. */
  lemma {:induction false} RunTrustedIffOrderly(s: State, events: seq<Event>, owner: string -> User)
    requires Owned(s, owner) && HonestRun(s, events, owner)
    ensures TrustedThroughout(s, events, owner) <==> OrderlyRun(s, events, owner)
    decreases |events|
  {
    OwnedIsTrusted(s, owner);
    if events != [] {
      var t := Step(s, events[0]);
      TrustedIffOrderly(s, events[0], owner);
      if Orderly(s, events[0], owner) {
        StepOwned(s, events[0], owner);
        RunTrustedIffOrderly(t, events[1..], owner);
      } else {
        assert !TrustedThroughout(t, events[1..], owner);
      }
    }
  }

  lemma InitiallyOwned(token: Option<string>, owner: string -> User)
    ensures Owned(InitialState(token), owner)
  {
  }

  // ---------- Operations that never overlap, and two that do ----------

  lemma {:induction false} SerialIsOrderly(s: State, events: seq<Event>, owner: string -> User)
    requires AtMostOneActive(s) && SerialRun(s, events)
    ensures OrderlyRun(s, events, owner)
    decreases |events|
  {
    if events != [] {
      StepAtMostOne(s, events[0]);
      SerialIsOrderly(Step(s, events[0]), events[1..], owner);
    }
  }

  /** When operations never overlap and the server is honest, every idle state that shows a user has a
      stored token, and it is this user's token. */
  lemma SerialRunShowsOwner(token: Option<string>, events: seq<Event>, owner: string -> User)
    requires SerialRun(InitialState(token), events) && HonestRun(InitialState(token), events, owner)
    ensures var t := Run(InitialState(token), events);
            Idle(t) && t.user.Some? ==> Owns(t.user.value, t.token, owner)
  {
    SerialIsOrderly(InitialState(token), events, owner);
    InitiallyOwned(token, owner);
    RunOwned(InitialState(token), events, owner);
  }

  function CrossedLogins(first: string, second: string, owner: string -> User): seq<Event> {
    [Begin(LoginOrRegister), Begin(LoginOrRegister)] +
    ([Responds(0, first, owner(first)), Responds(1, second, owner(second))] +
     ([TokenWritten(0), TokenWritten(1)] + ([Resume(1), Resume(0)] + [])))
  }

  /** Two logins whose last steps cross leave one user on the screen and the other one's token in the store,
      although the server is honest and no token is deleted. */
  lemma OverlapMixesUsers(first: string, second: string, owner: string -> User)
    requires |first| > 0 && |second| > 0 && owner(first) != owner(second)
    ensures var t := Run(InitialState(None), CrossedLogins(first, second, owner));
            Idle(t) && t.user == Some(owner(first)) && t.token == Some(second)
            && !Owns(t.user.value, t.token, owner)
  {
    var s0 := InitialState(None);
    var tail3 := [Resume(1), Resume(0)] + [];
    var tail2 := [TokenWritten(0), TokenWritten(1)] + tail3;
    var tail1 := [Responds(0, first, owner(first)), Responds(1, second, owner(second))] + tail2;
    RunTwo(s0, Begin(LoginOrRegister), Begin(LoginOrRegister), tail1);
    var s1 := Step(Step(s0, Begin(LoginOrRegister)), Begin(LoginOrRegister));
    assert s1.ops == [AwaitingResponse, AwaitingResponse];
    RunTwo(s1, Responds(0, first, owner(first)), Responds(1, second, owner(second)), tail2);
    BothAnswered(s1, first, second, owner);
    var s2 := s1.(ops := [ToStore(first, owner(first)), ToStore(second, owner(second))]);
    RunTwo(s2, TokenWritten(0), TokenWritten(1), tail3);
    BothWritten(s2, first, second, owner);
    var s3 := s2.(token := Some(second), ops := [Stored(owner(first)), Stored(owner(second))]);
    RunTwo(s3, Resume(1), Resume(0), []);
    BothShown(s3, owner(first), owner(second));
  }

  lemma BothAnswered(s: State, first: string, second: string, owner: string -> User)
    requires s.ops == [AwaitingResponse, AwaitingResponse]
    ensures Step(Step(s, Responds(0, first, owner(first))), Responds(1, second, owner(second)))
         == s.(ops := [ToStore(first, owner(first)), ToStore(second, owner(second))])
  {
    assert Step(s, Responds(0, first, owner(first))).ops == [ToStore(first, owner(first)), AwaitingResponse];
  }

  lemma BothWritten(s: State, first: string, second: string, owner: string -> User)
    requires s.ops == [ToStore(first, owner(first)), ToStore(second, owner(second))]
    ensures Step(Step(s, TokenWritten(0)), TokenWritten(1))
         == s.(token := Some(second), ops := [Stored(owner(first)), Stored(owner(second))])
  {
    assert Step(s, TokenWritten(0)).ops == [Stored(owner(first)), ToStore(second, owner(second))];
  }

  lemma BothShown(s: State, a: User, b: User)
    requires s.ops == [Stored(a), Stored(b)]
    ensures var t := Step(Step(s, Resume(1)), Resume(0)); t.user == Some(a) && t.token == s.token && Idle(t)
  {
    assert Step(s, Resume(1)).ops == [Stored(a), Done];
  }

  /** A request for the user that was sent with the saved token and is answered after a login wrote a new one. */
  function SlowAnswer(issued: string, saved: string, owner: string -> User): seq<Event> {
    [Begin(LoginOrRegister), Responds(1, issued, owner(issued))] +
    ([TokenWritten(1), Resume(1)] + ([MeSucceeds(0, owner(saved))] + []))
  }

  /** It leaves the old user on the screen and the new one's token in the store, with an honest server. */
  lemma SlowAnswerMixesUsers(saved: string, issued: string, owner: string -> User)
    requires |saved| > 0 && |issued| > 0 && owner(saved) != owner(issued)
    ensures var check := [Begin(CheckAuth), TokenRead(0)] + ([Resume(0), TokenRead(0)] + SlowAnswer(issued, saved, owner));
            var t := Run(InitialState(Some(saved)), check);
            Idle(t) && t.user == Some(owner(saved)) && t.token == Some(issued)
            && !Owns(t.user.value, t.token, owner)
  {
    CheckSends(saved, SlowAnswer(issued, saved, owner));
    var s := State(None, false, true, None, Some(saved), [AwaitingMe(Some(saved))]);
    RunTwo(s, Begin(LoginOrRegister), Responds(1, issued, owner(issued)),
           [TokenWritten(1), Resume(1)] + ([MeSucceeds(0, owner(saved))] + []));
    LoginBeside(s, issued, owner);
    var t := s.(isLoading := true, error := None, ops := [AwaitingMe(Some(saved)), ToStore(issued, owner(issued))]);
    RunTwo(t, TokenWritten(1), Resume(1), [MeSucceeds(0, owner(saved))] + []);
    WrittenBeside(t, saved, issued, owner(issued));
    var u := t.(user := Some(owner(issued)), isAuthenticated := true, isLoading := false, token := Some(issued),
                ops := [AwaitingMe(Some(saved)), Done]);
    RunCons(u, MeSucceeds(0, owner(saved)), []);
    assert Step(u, MeSucceeds(0, owner(saved))).ops == [Done, Done];
  }

  lemma LoginBeside(s: State, issued: string, owner: string -> User)
    requires |s.ops| == 1
    ensures Step(Step(s, Begin(LoginOrRegister)), Responds(1, issued, owner(issued)))
         == s.(isLoading := true, error := None, ops := [s.ops[0], ToStore(issued, owner(issued))])
  {
    assert Step(s, Begin(LoginOrRegister)).ops == [s.ops[0], AwaitingResponse];
  }

  lemma WrittenBeside(s: State, saved: string, issued: string, user: User)
    requires s.ops == [AwaitingMe(Some(saved)), ToStore(issued, user)]
    ensures Step(Step(s, TokenWritten(1)), Resume(1))
         == s.(user := Some(user), isAuthenticated := true, isLoading := false, token := Some(issued),
               ops := [AwaitingMe(Some(saved)), Done])
  {
    assert Step(s, TokenWritten(1)).ops == [AwaitingMe(Some(saved)), Stored(user)];
  }
}
