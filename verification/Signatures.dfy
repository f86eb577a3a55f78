/** The signature manager (apps/web/components/SignatureManager.tsx), with its state and its stored copy. */
module Signatures {
  import opened Options
  import opened Sequences

  // Signatures are objects, and deleting the default signature promotes the first
  // remaining one by assigning to that object, which the previous list still shares.

  datatype SigData = SigData(id: string, name: string, html: string, isDefault: bool)

  /** `stored` is empty when nothing was saved or the saved text does not parse. */
  datatype State = State(signatures: seq<SigData>, stored: Option<seq<SigData>>)

  datatype Event =
    | Create(id: string, name: string, html: string)
    | Update(id: string, name: string, html: string)
    | Delete(id: string)
    | SetDefault(id: string)

  function Load(stored: Option<seq<SigData>>): seq<SigData> {
    if stored.Some? then stored.value else []
  }

  function Created(sigs: seq<SigData>, id: string, name: string, html: string): seq<SigData> {
    sigs + [SigData(id, if name == "" then "Untitled Signature" else name, html, sigs == [])]
  }

  function Edited(sig: SigData, id: string, name: string, html: string): SigData {
    if sig.id == id then sig.(name := name, html := html) else sig
  }

  function Updated(sigs: seq<SigData>, id: string, name: string, html: string): seq<SigData> {
    if sigs == [] then [] else [Edited(sigs[0], id, name, html)] + Updated(sigs[1..], id, name, html)
  }

  function Without(sigs: seq<SigData>, id: string): seq<SigData> {
    if sigs == [] then [] else (if sigs[0].id == id then [] else [sigs[0]]) + Without(sigs[1..], id)
  }

  predicate SomeDefault(sigs: seq<SigData>) {
    exists i :: 0 <= i < |sigs| && sigs[i].isDefault
  }

  function PromoteFirst(sigs: seq<SigData>): seq<SigData> {
    if sigs != [] && !SomeDefault(sigs) then sigs[0 := sigs[0].(isDefault := true)] else sigs
  }

  function Deleted(sigs: seq<SigData>, id: string): seq<SigData> {
    PromoteFirst(Without(sigs, id))
  }

  function WithDefault(sigs: seq<SigData>, id: string): seq<SigData> {
    if sigs == [] then [] else [sigs[0].(isDefault := sigs[0].id == id)] + WithDefault(sigs[1..], id)
  }

  /** `persist` replaces the state and the stored copy together. */
  function Persist(sigs: seq<SigData>): State {
    State(sigs, Some(sigs))
  }

  /** Saving an edit does nothing when no signature is being edited. */
  function Step(s: State, event: Event): State {
    match event
    case Create(id, name, html) => Persist(Created(s.signatures, id, name, html))
    case Update(id, name, html) => if id == "" then s else Persist(Updated(s.signatures, id, name, html))
    case Delete(id) => Persist(Deleted(s.signatures, id))
    case SetDefault(id) => Persist(WithDefault(s.signatures, id))
  }

  function Run(s: State, events: seq<Event>): State
    decreases |events|
  {
    if events == [] then s else Run(Step(s, events[0]), events[1..])
  }

  /** `useDefaultSignature`: the first default of the stored copy, else its first entry, else nothing. */
  function UseDefault(stored: Option<seq<SigData>>): Option<SigData> {
    var sigs := Load(stored);
    var k := FirstDefault(sigs);
    if k < |sigs| then Some(sigs[k]) else if sigs != [] then Some(sigs[0]) else None
  }

  function FirstDefault(sigs: seq<SigData>): (k: nat)
    ensures k <= |sigs|
    ensures k < |sigs| ==> sigs[k].isDefault
    ensures forall i :: 0 <= i < k ==> !sigs[i].isDefault
  {
    if sigs == [] then 0 else if sigs[0].isDefault then 0 else 1 + FirstDefault(sigs[1..])
  }

  // ---------- One default, and a faithful stored copy ----------

  function Defaults(sigs: seq<SigData>): nat {
    if sigs == [] then 0 else (if sigs[0].isDefault then 1 else 0) + Defaults(sigs[1..])
  }

  function Occurrences(sigs: seq<SigData>, id: string): nat {
    if sigs == [] then 0 else (if sigs[0].id == id then 1 else 0) + Occurrences(sigs[1..], id)
  }

  predicate OneDefault(sigs: seq<SigData>) {
    sigs != [] ==> Defaults(sigs) == 1
  }

  predicate DistinctIds(sigs: seq<SigData>) {
    forall i, j :: 0 <= i < j < |sigs| ==> sigs[i].id != sigs[j].id
  }

  predicate Listed(sigs: seq<SigData>, id: string) {
    exists i :: 0 <= i < |sigs| && sigs[i].id == id
  }

  predicate Inv(s: State) {
    OneDefault(s.signatures) && DistinctIds(s.signatures) && Load(s.stored) == s.signatures
  }

  /** New ids are fresh, and only a listed signature is made the default, if any is listed. */
  predicate Allowed(s: State, event: Event) {
    && (event.Create? ==> !Listed(s.signatures, event.id))
    && (event.SetDefault? ==> s.signatures == [] || Listed(s.signatures, event.id))
  }

  predicate AllowedRun(s: State, events: seq<Event>)
    decreases |events|
  {
    events == [] || (Allowed(s, events[0]) && AllowedRun(Step(s, events[0]), events[1..]))
  }

  /** Creating appends one signature with the id, the text, and the name or a stand-in, which is the default exactly
      when it is the first. */
  lemma CreateAppends(sigs: seq<SigData>, id: string, name: string, html: string)
    ensures var r := Created(sigs, id, name, html);
            && |r| == |sigs| + 1 && r[..|sigs|] == sigs
            && r[|sigs|].id == id && r[|sigs|].html == html && (r[|sigs|].isDefault <==> |sigs| == 0)
            && r[|sigs|].name == (if |name| > 0 then name else "Untitled Signature")
  {
  }

  lemma {:induction false} CreateDefaults(sigs: seq<SigData>, sig: SigData)
    ensures Defaults(sigs + [sig]) == Defaults(sigs) + (if sig.isDefault then 1 else 0)
  {
    if sigs == [] {
      assert [] + [sig] == [sig] && [sig][1..] == [];
    } else {
      assert (sigs + [sig])[1..] == sigs[1..] + [sig];
      CreateDefaults(sigs[1..], sig);
    }
  }

  /** Editing gives the signature with the id the new name and text, and changes neither an id nor a default nor any
      other signature. */
  lemma {:induction false} UpdateKeeps(sigs: seq<SigData>, id: string, name: string, html: string)
    ensures |Updated(sigs, id, name, html)| == |sigs|
    ensures forall i :: 0 <= i < |sigs| ==>
              var before, after := sigs[i], Updated(sigs, id, name, html)[i];
              && after.id == before.id && after.isDefault == before.isDefault
              && after.name == (if before.id == id then name else before.name)
              && after.html == (if before.id == id then html else before.html)
    ensures Defaults(Updated(sigs, id, name, html)) == Defaults(sigs)
  {
    if sigs != [] {
      UpdateKeeps(sigs[1..], id, name, html);
    }
  }

  lemma {:induction false} UpdatedOneByOne(sigs: seq<SigData>, id: string, name: string, html: string)
    ensures |Updated(sigs, id, name, html)| == |sigs|
    ensures forall i :: 0 <= i < |sigs| ==> Updated(sigs, id, name, html)[i] == Edited(sigs[i], id, name, html)
  {
    if sigs != [] {
      UpdatedOneByOne(sigs[1..], id, name, html);
    }
  }

  lemma {:induction false} WithoutMembers(sigs: seq<SigData>, id: string)
    ensures forall sig :: sig in Without(sigs, id) <==> sig in sigs && sig.id != id
  {
    if sigs != [] {
      WithoutMembers(sigs[1..], id);
      assert sigs == [sigs[0]] + sigs[1..];
    }
  }

  function Other(id: string): SigData -> bool {
    (sig: SigData) => sig.id != id
  }

  /** Deleting keeps all signatures with another id, in their order. */
  lemma {:induction false} WithoutSelects(sigs: seq<SigData>, id: string)
    ensures IsSelection(sigs, Without(sigs, id), Other(id))
  {
    if sigs == [] {
      SelectNothing(Other(id));
    } else {
      WithoutSelects(sigs[1..], id);
      SelectFirst(sigs[0], sigs[1..], Without(sigs[1..], id), Other(id));
      assert [sigs[0]] + sigs[1..] == sigs;
    }
  }

  lemma {:induction false} WithoutDefaults(sigs: seq<SigData>, id: string)
    ensures Defaults(Without(sigs, id)) <= Defaults(sigs)
  {
    if sigs != [] {
      var rest := Without(sigs[1..], id);
      WithoutDefaults(sigs[1..], id);
      assert [] + rest == rest && ([sigs[0]] + rest)[1..] == rest;
    }
  }

  lemma {:induction false} WithoutDistinct(sigs: seq<SigData>, id: string)
    requires DistinctIds(sigs)
    ensures DistinctIds(Without(sigs, id))
  {
    if sigs != [] {
      assert forall i :: 0 <= i < |sigs[1..]| ==> sigs[1..][i] == sigs[i + 1];
      WithoutDistinct(sigs[1..], id);
      WithoutMembers(sigs[1..], id);
      var rest := Without(sigs[1..], id);
      forall i | 0 <= i < |rest|
        ensures rest[i].id != sigs[0].id
      {
        assert rest[i] in sigs[1..];
      }
    }
  }

  /** Deleting filters out one id and neither reorders nor adds a default. */
  lemma WithoutKeeps(sigs: seq<SigData>, id: string)
    requires DistinctIds(sigs)
    ensures DistinctIds(Without(sigs, id)) && Defaults(Without(sigs, id)) <= Defaults(sigs)
    ensures forall sig :: sig in Without(sigs, id) <==> sig in sigs && sig.id != id
  {
    WithoutMembers(sigs, id);
    WithoutDefaults(sigs, id);
    WithoutDistinct(sigs, id);
  }

  lemma {:induction false} NoDefaultsIff(sigs: seq<SigData>)
    ensures Defaults(sigs) == 0 <==> !SomeDefault(sigs)
  {
    if sigs != [] {
      NoDefaultsIff(sigs[1..]);
      assert forall i :: 0 <= i < |sigs[1..]| ==> sigs[1..][i] == sigs[i + 1];
      assert SomeDefault(sigs) <==> sigs[0].isDefault || SomeDefault(sigs[1..]) by {
        if SomeDefault(sigs[1..]) {
          var i :| 0 <= i < |sigs[1..]| && sigs[1..][i].isDefault;
          assert sigs[i + 1].isDefault;
        }
      }
    }
  }

  lemma PromoteOne(sigs: seq<SigData>)
    requires Defaults(sigs) <= 1 && DistinctIds(sigs)
    ensures OneDefault(PromoteFirst(sigs)) && DistinctIds(PromoteFirst(sigs))
  {
    NoDefaultsIff(sigs);
    if sigs != [] && !SomeDefault(sigs) {
      assert PromoteFirst(sigs)[1..] == sigs[1..];
    }
  }

  /** Making an id the default leaves as many defaults as there are signatures with that id. */
  lemma {:induction false} DefaultsAreOccurrences(sigs: seq<SigData>, id: string)
    ensures Defaults(WithDefault(sigs, id)) == Occurrences(sigs, id)
    ensures |WithDefault(sigs, id)| == |sigs|
    ensures forall i :: 0 <= i < |sigs| ==> WithDefault(sigs, id)[i] == sigs[i].(isDefault := sigs[i].id == id)
  {
    if sigs != [] {
      DefaultsAreOccurrences(sigs[1..], id);
    }
  }

  lemma {:induction false} OccursIffListed(sigs: seq<SigData>, id: string)
    requires DistinctIds(sigs)
    ensures Occurrences(sigs, id) == if Listed(sigs, id) then 1 else 0
  {
    if sigs != [] {
      assert forall i :: 0 <= i < |sigs[1..]| ==> sigs[1..][i] == sigs[i + 1];
      OccursIffListed(sigs[1..], id);
      assert Listed(sigs, id) <==> sigs[0].id == id || Listed(sigs[1..], id) by {
        if Listed(sigs[1..], id) {
          var i :| 0 <= i < |sigs[1..]| && sigs[1..][i].id == id;
          assert sigs[i + 1].id == id;
        }
      }
      assert sigs[0].id == id ==> !Listed(sigs[1..], id);
    }
  }

  /** Set-default leaves one default if and only if the id is a listed one. */
  lemma SetDefaultIffListed(sigs: seq<SigData>, id: string)
    requires DistinctIds(sigs) && sigs != []
    ensures OneDefault(WithDefault(sigs, id)) <==> Listed(sigs, id)
  {
    DefaultsAreOccurrences(sigs, id);
    OccursIffListed(sigs, id);
  }

  lemma StepInv(s: State, event: Event)
    requires Inv(s) && Allowed(s, event)
    ensures Inv(Step(s, event))
  {
    match event
    case Create(id, name, html) => CreateDefaults(s.signatures, Created(s.signatures, id, name, html)[|s.signatures|]);
    case Update(id, name, html) => UpdateKeeps(s.signatures, id, name, html);
    case Delete(id) => DeleteInv(s, id);
    case SetDefault(id) => SetDefaultInv(s, id);
  }

  lemma DeleteInv(s: State, id: string)
    requires Inv(s)
    ensures Inv(Step(s, Delete(id)))
  {
    WithoutKeeps(s.signatures, id);
    PromoteOne(Without(s.signatures, id));
  }

  lemma SetDefaultInv(s: State, id: string)
    requires Inv(s) && Allowed(s, SetDefault(id))
    ensures Inv(Step(s, SetDefault(id)))
  {
    DefaultsAreOccurrences(s.signatures, id);
    OccursIffListed(s.signatures, id);
  }

  /** Over every run a non-empty list has exactly one default and the stored copy is the list. */
  lemma {:induction false} RunInv(s: State, events: seq<Event>)
    requires Inv(s) && AllowedRun(s, events)
    ensures Inv(Run(s, events))
    decreases |events|
  {
    if events != [] {
      StepInv(s, events[0]);
      RunInv(Step(s, events[0]), events[1..]);
    }
  }

  // ---------- Exactly which events break the rule of the one default ----------

  /** However an allowed run goes on from here, a non-empty list has one default and the stored copy is the list. */
  ghost predicate Sound(s: State) {
    forall events :: AllowedRun(s, events) ==>
      OneDefault(Run(s, events).signatures) && Load(Run(s, events).stored) == Run(s, events).signatures
  }

  lemma InvIsSound(s: State)
    requires Inv(s)
    ensures Sound(s)
  {
    forall events | AllowedRun(s, events)
      ensures OneDefault(Run(s, events).signatures) && Load(Run(s, events).stored) == Run(s, events).signatures
    {
      RunInv(s, events);
    }
  }

  lemma OccursTwice(sigs: seq<SigData>, sig: SigData)
    requires Listed(sigs, sig.id)
    ensures Occurrences(sigs + [sig], sig.id) >= 2
  {
    OccurrencesAppend(sigs, sig);
    ListedOccurs(sigs, sig.id);
  }

  lemma {:induction false} OccurrencesAppend(sigs: seq<SigData>, sig: SigData)
    ensures Occurrences(sigs + [sig], sig.id) == Occurrences(sigs, sig.id) + 1
  {
    if sigs == [] {
      assert [] + [sig] == [sig] && [sig][1..] == [];
    } else {
      assert (sigs + [sig])[1..] == sigs[1..] + [sig] && (sigs + [sig])[0] == sigs[0];
      OccurrencesAppend(sigs[1..], sig);
    }
  }

  lemma {:induction false} ListedOccurs(sigs: seq<SigData>, id: string)
    requires Listed(sigs, id)
    ensures Occurrences(sigs, id) >= 1
  {
    if sigs[0].id != id {
      var i :| 0 <= i < |sigs| && sigs[i].id == id;
      assert sigs[1..][i - 1].id == id;
      ListedOccurs(sigs[1..], id);
    }
  }

  /** With an id listed twice, making it the default makes two. */
  lemma TwiceIsUnsound(s: State, id: string)
    requires Occurrences(s.signatures, id) >= 2 && Listed(s.signatures, id)
    ensures !Sound(s)
  {
    var event := SetDefault(id);
    var t := Step(s, event);
    DefaultsAreOccurrences(s.signatures, id);
    assert [event][1..] == [];
    assert Run(s, [event]) == Run(t, []) == t;
    assert AllowedRun(t, []) && AllowedRun(s, [event]);
  }

  lemma NowhereIsUnsound(s: State)
    requires !OneDefault(s.signatures)
    ensures !Sound(s)
  {
    assert Run(s, []) == s && AllowedRun(s, []);
  }

  /** A step keeps the rule, in whatever comes, if and only if it does not create a listed id and does not make an
      unlisted one the default of a non-empty list. */
  lemma SoundIffAllowed(s: State, event: Event)
    requires Inv(s)
    ensures Sound(Step(s, event)) <==> Allowed(s, event)
  {
    var t := Step(s, event);
    if Allowed(s, event) {
      StepInv(s, event);
      InvIsSound(t);
    } else if event.Create? {
      var sig := t.signatures[|s.signatures|];
      OccursTwice(s.signatures, sig);
      assert t.signatures == s.signatures + [sig];
      TwiceIsUnsound(t, event.id);
    } else {
      SetDefaultIffListed(s.signatures, event.id);
      NowhereIsUnsound(t);
    }
  }

  ghost predicate SoundThroughout(s: State, events: seq<Event>)
    decreases |events|
  {
    Sound(s) && (events == [] || SoundThroughout(Step(s, events[0]), events[1..]))
  }

  /** A run reaches only states from which the rule is kept if and only if it is allowed. */
  lemma {:induction false} RunSoundIffAllowed(s: State, events: seq<Event>)
    requires Inv(s)
    ensures SoundThroughout(s, events) <==> AllowedRun(s, events)
    decreases |events|
  {
    InvIsSound(s);
    if events != [] {
      var t := Step(s, events[0]);
      SoundIffAllowed(s, events[0]);
      if Allowed(s, events[0]) {
        StepInv(s, events[0]);
        RunSoundIffAllowed(t, events[1..]);
      } else {
        assert !SoundThroughout(t, events[1..]);
      }
    }
  }

  // ---------- What the hook finds ----------

  lemma {:induction false} TwoDefaults(sigs: seq<SigData>, i: nat, j: nat)
    requires i < j < |sigs| && sigs[i].isDefault && sigs[j].isDefault
    ensures Defaults(sigs) >= 2
  {
    if i > 0 {
      TwoDefaults(sigs[1..], i - 1, j - 1);
    } else {
      NoDefaultsIff(sigs[1..]);
      assert sigs[1..][j - 1].isDefault;
    }
  }

  lemma OnlyOne(sigs: seq<SigData>, i: nat, j: nat)
    requires Defaults(sigs) == 1 && i < |sigs| && j < |sigs| && sigs[i].isDefault && sigs[j].isDefault
    ensures i == j
  {
    if i < j {
      TwoDefaults(sigs, i, j);
    } else if j < i {
      TwoDefaults(sigs, j, i);
    }
  }

  /** The hook finds the one default signature, and nothing only for an empty list. */
  lemma UseDefaultFindsIt(s: State)
    requires Inv(s)
    ensures var found := UseDefault(s.stored);
            && (found.None? <==> s.signatures == [])
            && (found.Some? ==>
                  && found.value.isDefault
                  && found.value in s.signatures
                  && forall i :: 0 <= i < |s.signatures| && s.signatures[i].isDefault ==> s.signatures[i] == found.value)
  {
    var sigs := s.signatures;
    NoDefaultsIff(sigs);
    if sigs != [] {
      var k := FirstDefault(sigs);
      forall i | 0 <= i < |sigs| && sigs[i].isDefault
        ensures sigs[i] == sigs[k]
      {
        OnlyOne(sigs, i, k);
      }
    }
  }

  /** For any stored list: the first default of several, else the first signature, and nothing only for none. */
  lemma UseDefaultFallsBack(stored: Option<seq<SigData>>, i: nat)
    requires stored.Some? && i < |stored.value|
    ensures UseDefault(stored).Some?
    ensures stored.value[i].isDefault && (forall j :: 0 <= j < i ==> !stored.value[j].isDefault) ==>
              UseDefault(stored) == Some(stored.value[i])
    ensures !SomeDefault(stored.value) ==> UseDefault(stored) == Some(stored.value[0])
    ensures UseDefault(None) == None && UseDefault(Some([])) == None
  {
    var k := FirstDefault(stored.value);
    assert k < |stored.value| ==> stored.value[k].isDefault;
  }

  lemma DefaultAfterRun(stored: Option<seq<SigData>>, events: seq<Event>)
    requires Inv(State(Load(stored), stored)) && AllowedRun(State(Load(stored), stored), events)
    ensures var t := Run(State(Load(stored), stored), events);
            t.signatures != [] ==> UseDefault(t.stored).Some? && UseDefault(t.stored).value.isDefault
  {
    RunInv(State(Load(stored), stored), events);
    UseDefaultFindsIt(Run(State(Load(stored), stored), events));
  }

  /** Deleting another signature keeps the default; deleting the default makes the first one left the default. */
  lemma DeleteDefault(sigs: seq<SigData>, id: string)
    requires DistinctIds(sigs) && Defaults(sigs) == 1 && Without(sigs, id) != []
    ensures var k := FirstDefault(sigs);
            k < |sigs| && UseDefault(Some(Deleted(sigs, id))) ==
              Some(if sigs[k].id != id then sigs[k] else Without(sigs, id)[0].(isDefault := true))
  {
    var k := FirstDefault(sigs);
    NoDefaultsIff(sigs);
    WithoutKeeps(sigs, id);
    if sigs[k].id != id {
      DefaultKept(sigs, id, k);
    } else {
      DefaultGone(sigs, id, k);
    }
  }

  lemma DefaultKept(sigs: seq<SigData>, id: string, k: nat)
    requires DistinctIds(sigs) && Defaults(sigs) == 1 && k < |sigs| && sigs[k].isDefault && sigs[k].id != id
    ensures var kept := Without(sigs, id);
            SomeDefault(kept) && FirstDefault(kept) < |kept| && kept[FirstDefault(kept)] == sigs[k]
  {
    var kept := Without(sigs, id);
    WithoutMembers(sigs, id);
    assert sigs[k] in kept;
    var j :| 0 <= j < |kept| && kept[j] == sigs[k];
    var f := FirstDefault(kept);
    assert kept[f] in kept;
    assert kept[f] in sigs;
    var i :| 0 <= i < |sigs| && sigs[i] == kept[f];
    OnlyOne(sigs, i, k);
  }

  lemma DefaultGone(sigs: seq<SigData>, id: string, k: nat)
    requires DistinctIds(sigs) && Defaults(sigs) == 1 && k < |sigs| && sigs[k].isDefault && sigs[k].id == id
    ensures !SomeDefault(Without(sigs, id))
  {
    var kept := Without(sigs, id);
    WithoutMembers(sigs, id);
    forall j | 0 <= j < |kept|
      ensures !kept[j].isDefault
    {
      assert kept[j] in kept;
      assert kept[j] in sigs;
      var i :| 0 <= i < |sigs| && sigs[i] == kept[j];
      if kept[j].isDefault {
        OnlyOne(sigs, i, k);
      }
    }
  }

  // ---------- The component ----------

  class Signature {
    const id: string
    const name: string
    const html: string
    var isDefault: bool

    constructor (data: SigData)
      ensures Data() == data
      ensures id == data.id && name == data.name && html == data.html && isDefault == data.isDefault
    {
      id, name, html, isDefault := data.id, data.name, data.html, data.isDefault;
    }

    function Data(): SigData
      reads this
    {
      SigData(id, name, html, isDefault)
    }
  }

  /** The objects show exactly these values, and no object is listed twice. */
  ghost predicate Shows(objects: seq<Signature>, data: seq<SigData>)
    reads objects
  {
    && |objects| == |data|
    && (forall i :: 0 <= i < |objects| ==> objects[i].Data() == data[i])
    && (forall i, j :: 0 <= i < j < |objects| ==> objects[i] != objects[j])
  }

  lemma {:induction false} WithoutAppend(sigs: seq<SigData>, sig: SigData, id: string)
    ensures Without(sigs + [sig], id) == Without(sigs, id) + (if sig.id == id then [] else [sig])
  {
    if sigs == [] {
      assert [] + [sig] == [sig] && [sig][1..] == [];
    } else {
      assert (sigs + [sig])[1..] == sigs[1..] + [sig] && (sigs + [sig])[0] == sigs[0];
      WithoutAppend(sigs[1..], sig, id);
      ConcatAssoc(if sigs[0].id == id then [] else [sigs[0]], Without(sigs[1..], id), if sig.id == id then [] else [sig]);
    }
  }

  class SignatureManager {
    var signatures: seq<Signature>
    var stored: Option<seq<SigData>>
    ghost var contents: seq<SigData>

    ghost function Model(): State
      reads this
    {
      State(contents, stored)
    }

    ghost predicate Valid()
      reads this, signatures
    {
      Shows(signatures, contents)
    }

    /** Mounting loads the stored copy. */
    constructor (saved: Option<seq<SigData>>)
      ensures Valid() && Model() == State(Load(saved), saved)
      ensures fresh(signatures) && stored == saved && contents == (if saved.Some? then saved.value else [])
    {
      signatures, stored, contents := [], saved, [];
      new;
      var data := Load(saved);
      var loaded: seq<Signature> := [];
      while |loaded| < |data|
        invariant |loaded| <= |data| && Shows(loaded, data[..|loaded|]) && fresh(loaded)
        invariant signatures == [] && stored == saved
      {
        var sig := new Signature(data[|loaded|]);
        loaded := loaded + [sig];
      }
      assert data[..|loaded|] == data;
      signatures, contents := loaded, data;
    }

    method HandleCreate(id: string, name: string, html: string)
      requires Valid()
      modifies this
      ensures Valid() && Model() == Step(old(Model()), Create(id, name, html))
      ensures |signatures| == |old(signatures)| + 1 && signatures[..|old(signatures)|] == old(signatures)
      ensures var sig := signatures[|old(signatures)|];
              && fresh(sig) && sig.id == id && sig.html == html
              && sig.name == (if name == "" then "Untitled Signature" else name)
              && (sig.isDefault <==> old(signatures) == [])
      ensures |contents| == |signatures| && contents[..|old(contents)|] == old(contents) && stored == Some(contents)
    {
      var sig := new Signature(SigData(id, if name == "" then "Untitled Signature" else name, html, |signatures| == 0));
      var data := ReadData(signatures, contents);
      Persist(signatures + [sig], data + [sig.Data()]);
    }

    /** Only the edited signature becomes a new object; the others are shared with the old list. */
    method HandleUpdate(id: string, name: string, html: string)
      requires Valid()
      modifies this
      ensures Valid() && Model() == Step(old(Model()), Update(id, name, html))
      ensures |signatures| == |old(signatures)| && |contents| == |old(contents)|
      ensures forall i :: 0 <= i < |signatures| ==>
                if old(signatures)[i].id == id && id != "" then fresh(signatures[i])
                else signatures[i] == old(signatures)[i]
      ensures forall i :: 0 <= i < |contents| ==>
                contents[i] == if old(contents)[i].id == id && id != ""
                               then SigData(id, name, html, old(contents)[i].isDefault) else old(contents)[i]
      ensures stored == if id == "" then old(stored) else Some(contents)
    {
      if id == "" {
        return;
      }
      ghost var data := Updated(contents, id, name, html);
      UpdateKeeps(contents, id, name, html);
      var edited := EditAll(signatures, contents, id, name, html);
      Store(edited, data);
    }

    /** Filters the list and, when no default is left, sets the flag of the first remaining object in place.
        No other object changes, and no object at all when a default is left. */
    method HandleDelete(id: string)
      requires Valid()
      modifies this, signatures
      ensures Valid() && Model() == Step(old(Model()), Delete(id))
      ensures forall s :: s in old(signatures) && (signatures == [] || s != signatures[0]) ==> s.isDefault == old(s.isDefault)
      ensures SomeDefault(Without(old(contents), id)) ==> forall s :: s in old(signatures) ==> s.isDefault == old(s.isDefault)
      ensures forall s :: s in signatures <==> s in old(signatures) && s.id != id
      ensures signatures != [] && !SomeDefault(Without(old(contents), id)) ==> signatures[0].isDefault
      ensures stored == Some(contents)
    {
      ghost var data := Without(contents, id);
      var updated := FilterOut(signatures, contents, id);
      var anyDefault := SomeIsDefault(updated, data);
      if |updated| > 0 && !anyDefault {
        updated[0].isDefault := true;
      }
      Store(updated, PromoteFirst(data));
    }

    /** Serialising the list writes what its objects show. */
    method Store(objects: seq<Signature>, ghost shown: seq<SigData>)
      requires Shows(objects, shown)
      modifies this
      ensures Valid() && signatures == objects && contents == shown && stored == Some(shown)
    {
      var copy := ReadData(objects, shown);
      Persist(objects, copy);
    }

    static method FilterOut(objects: seq<Signature>, ghost shown: seq<SigData>, id: string) returns (kept: seq<Signature>)
      requires Shows(objects, shown)
      ensures Shows(kept, Without(shown, id))
      ensures forall s :: s in kept <==> s in objects && s.id != id
    {
      kept := [];
      for k := 0 to |objects|
        invariant Shows(kept, Without(shown[..k], id))
        invariant forall s :: s in kept <==> s in objects[..k] && s.id != id
      {
        var s := objects[k];
        assert shown[..k + 1] == shown[..k] + [shown[k]];
        WithoutAppend(shown[..k], shown[k], id);
        assert objects[..k + 1] == objects[..k] + [s];
        assert forall i :: 0 <= i < |kept| ==> kept[i] in kept && kept[i] != s;
        if s.id != id {
          kept := kept + [s];
        }
      }
      assert shown[..|objects|] == shown && objects[..|objects|] == objects;
    }

    static method SomeIsDefault(objects: seq<Signature>, ghost shown: seq<SigData>) returns (found: bool)
      requires Shows(objects, shown)
      ensures found <==> SomeDefault(shown)
    {
      found := false;
      for k := 0 to |objects|
        invariant found <==> exists i :: 0 <= i < k && shown[i].isDefault
      {
        assert objects[k].Data() == shown[k];
        found := found || objects[k].isDefault;
      }
    }

    method HandleSetDefault(id: string)
      requires Valid()
      modifies this
      ensures Valid() && Model() == Step(old(Model()), SetDefault(id))
      ensures fresh(signatures) && |contents| == |old(contents)| && stored == Some(contents)
      ensures forall i :: 0 <= i < |contents| ==>
                var sig := old(contents)[i]; contents[i] == SigData(sig.id, sig.name, sig.html, sig.id == id)
    {
      ghost var data := WithDefault(contents, id);
      DefaultsAreOccurrences(contents, id);
      var mapped := MarkAll(signatures, contents, id);
      Store(mapped, data);
    }

    static method EditAll(objects: seq<Signature>, ghost shown: seq<SigData>, id: string, name: string, html: string)
      returns (edited: seq<Signature>)
      requires Shows(objects, shown)
      ensures Shows(edited, Updated(shown, id, name, html)) && |edited| == |objects|
      ensures forall i :: 0 <= i < |edited| ==> (if objects[i].id == id then fresh(edited[i]) else edited[i] == objects[i])
    {
      UpdatedOneByOne(shown, id, name, html);
      edited := [];
      ghost var data := Updated(shown, id, name, html);
      for k := 0 to |objects|
        invariant |edited| == k
        invariant forall i :: 0 <= i < k ==> edited[i].Data() == data[i]
        invariant forall i :: 0 <= i < k ==> (if objects[i].id == id then fresh(edited[i]) else edited[i] == objects[i])
        invariant forall i, j :: 0 <= i < j < k ==> edited[i] != edited[j]
      {
        var s := EditOne(objects[k], id, name, html);
        edited := edited + [s];
      }
    }

    static method EditOne(sig: Signature, id: string, name: string, html: string) returns (s: Signature)
      ensures s.Data() == Edited(sig.Data(), id, name, html)
      ensures if sig.id == id then fresh(s) else s == sig
    {
      s := sig;
      if s.id == id {
        s := new Signature(SigData(s.id, name, html, s.isDefault));
      }
    }

    static method MarkAll(objects: seq<Signature>, ghost shown: seq<SigData>, id: string)
      returns (marked: seq<Signature>)
      requires Shows(objects, shown)
      ensures Shows(marked, WithDefault(shown, id)) && fresh(marked) && |marked| == |objects|
    {
      DefaultsAreOccurrences(shown, id);
      marked := [];
      ghost var data := WithDefault(shown, id);
      for k := 0 to |objects|
        invariant |marked| == k && fresh(marked)
        invariant forall i :: 0 <= i < k ==> marked[i].Data() == data[i]
        invariant forall i, j :: 0 <= i < j < k ==> marked[i] != marked[j]
      {
        var s := MarkOne(objects[k], id);
        marked := marked + [s];
      }
    }

    static method MarkOne(sig: Signature, id: string) returns (s: Signature)
      ensures fresh(s) && s.Data() == sig.Data().(isDefault := sig.id == id)
    {
      s := new Signature(SigData(sig.id, sig.name, sig.html, sig.id == id));
    }

    /** What serialising the list writes. */
    static method ReadData(objects: seq<Signature>, ghost shown: seq<SigData>) returns (data: seq<SigData>)
      requires Shows(objects, shown)
      ensures data == shown
    {
      data := [];
      while |data| < |objects|
        invariant |data| <= |objects| && data == shown[..|data|]
      {
        data := data + [objects[|data|].Data()];
      }
    }

    method Persist(objects: seq<Signature>, data: seq<SigData>)
      requires Shows(objects, data)
      modifies this
      ensures Valid() && signatures == objects && Model() == State(data, Some(data))
    {
      signatures, contents := objects, data;
      stored := Some(data);
    }
  }
}
