/**
 Merging the people of a shared draft (apps/web/components/CollaborativeDraftView.tsx):
 participants known to the API, the current user, and the people that are live right now.
 */
module Collaborators {
  import opened Options
  import opened OrderedMap
  import opened Sequences

  datatype Role = Owner | Editor | Viewer

  datatype Collaborator = Collaborator(
    userId: string, name: string, avatarUrl: Option<string>, cursorColor: string, isOnline: bool, role: Role)

  datatype CurrentUser = CurrentUser(
    userId: string, name: string, avatarUrl: Option<string>, cursorColor: Option<string>)

  const DEFAULT_COLOR := "#3b82f6"

  function Ids(people: seq<Collaborator>): (ids: seq<string>)
    ensures |ids| == |people|
    ensures forall i :: 0 <= i < |people| ==> ids[i] == people[i].userId
  {
    if people == [] then [] else [people[0].userId] + Ids(people[1..])
  }

  function OfId(people: seq<Collaborator>, id: string): seq<Collaborator> {
    if people == [] then []
    else (if people[0].userId == id then [people[0]] else []) + OfId(people[1..], id)
  }

  function OwnEntry(user: CurrentUser): Collaborator {
    Collaborator(user.userId, user.name, user.avatarUrl,
                 if user.cursorColor.Some? then user.cursorColor.value else DEFAULT_COLOR, true, Owner)
  }

  /** The live entry `lc` laid over what is known already. */
  function Overlay(known: Option<Collaborator>, lc: Collaborator): Collaborator {
    if known.None? then lc
    else known.value.(isOnline := true,
                      cursorColor := if lc.cursorColor != "" then lc.cursorColor else known.value.cursorColor)
  }

  function Last(people: seq<Collaborator>): Option<Collaborator> {
    if people == [] then None else Some(people[|people| - 1])
  }

  /** What is known about an id after the API participants: the last entry with that id, offline. */
  function FromApi(api: seq<Collaborator>, id: string): Option<Collaborator> {
    var last := Last(OfId(api, id));
    if last.None? then None else Some(last.value.(isOnline := false))
  }

  function FromUser(known: Option<Collaborator>, user: CurrentUser): Collaborator {
    if known.None? then OwnEntry(user) else known.value.(isOnline := true)
  }

  /** ... and after the current user. */
  function Base(api: seq<Collaborator>, user: CurrentUser, id: string): Option<Collaborator> {
    if id == user.userId then Some(FromUser(FromApi(api, id), user)) else FromApi(api, id)
  }

  function OverlayAll(known: Option<Collaborator>, live: seq<Collaborator>): Option<Collaborator> {
    if live == [] then known
    else Some(Overlay(OverlayAll(known, live[..|live| - 1]), live[|live| - 1]))
  }

  /** What the merge knows about an id, if it occurs in any source. */
  function Merged(api: seq<Collaborator>, live: seq<Collaborator>, user: CurrentUser, id: string): Option<Collaborator> {
    OverlayAll(Base(api, user, id), OfId(live, id))
  }

  lemma {:induction false} OfIdAppend(people: seq<Collaborator>, person: Collaborator, id: string)
    ensures OfId(people + [person], id) == OfId(people, id) + (if person.userId == id then [person] else [])
  {
    if people == [] {
      assert [] + [person] == [person] && [person][1..] == [];
    } else {
      assert (people + [person])[1..] == people[1..] + [person] && (people + [person])[0] == people[0];
      OfIdAppend(people[1..], person, id);
      ConcatAssoc(if people[0].userId == id then [people[0]] else [], OfId(people[1..], id),
                  if person.userId == id then [person] else []);
    }
  }

  lemma {:induction false} OfIdMembers(people: seq<Collaborator>, id: string)
    ensures forall p :: p in OfId(people, id) <==> p in people && p.userId == id
    ensures OfId(people, id) == [] <==> id !in Ids(people)
  {
    if people != [] {
      OfIdMembers(people[1..], id);
      assert people == [people[0]] + people[1..];
      assert Ids(people) == [people[0].userId] + Ids(people[1..]);
    }
  }

  function HasId(id: string): Collaborator -> bool {
    (p: Collaborator) => p.userId == id
  }

  /** All entries with an id, in their order. */
  lemma {:induction false} OfIdSelects(people: seq<Collaborator>, id: string)
    ensures IsSelection(people, OfId(people, id), HasId(id))
  {
    if people == [] {
      SelectNothing(HasId(id));
    } else {
      OfIdSelects(people[1..], id);
      SelectFirst(people[0], people[1..], OfId(people[1..], id), HasId(id));
      assert [people[0]] + people[1..] == people;
    }
  }

  lemma IdsAppend(people: seq<Collaborator>, person: Collaborator)
    ensures Ids(people + [person]) == Ids(people) + [person.userId]
  {
  }

  // ---------- The method ----------

  /** What the map says about an id. */
  function Lookup(m: JsMap<string, Collaborator>, id: string): Option<Collaborator> {
    if id in m.values then Some(m.values[id]) else None
  }

  lemma LookupSet(m: JsMap<string, Collaborator>, id: string, person: Collaborator, x: string)
    ensures Lookup(Set(m, id, person), x) == if x == id then Some(person) else Lookup(m, x)
  {
  }

  lemma KeysSet(m: JsMap<string, Collaborator>, ids: seq<string>, id: string, person: Collaborator)
    requires WellFormed(m) && m.keys == FirstSeen(ids)
    ensures WellFormed(Set(m, id, person)) && Set(m, id, person).keys == FirstSeen(ids + [id])
  {
    FirstSeenAppend(ids, id);
  }

  /** The map after the API participants: their ids in first-seen order, each with its last entry. */
  ghost predicate HoldsApi(m: JsMap<string, Collaborator>, api: seq<Collaborator>) {
    WellFormed(m) && m.keys == FirstSeen(Ids(api)) && forall id: string :: Lookup(m, id) == FromApi(api, id)
  }

  /** The map after the current user and the live people. */
  ghost predicate HoldsAll(m: JsMap<string, Collaborator>, api: seq<Collaborator>, live: seq<Collaborator>,
                           user: CurrentUser) {
    && WellFormed(m) && m.keys == FirstSeen(Ids(api) + [user.userId] + Ids(live))
    && forall id: string :: Lookup(m, id) == Merged(api, live, user, id)
  }

  lemma FromApiAppend(api: seq<Collaborator>, p: Collaborator, x: string)
    ensures FromApi(api + [p], x) == if x == p.userId then Some(p.(isOnline := false)) else FromApi(api, x)
  {
    OfIdAppend(api, p, x);
    assert x != p.userId ==> OfId(api, x) + [] == OfId(api, x);
  }

  lemma AddParticipant(m: JsMap<string, Collaborator>, api: seq<Collaborator>, p: Collaborator)
    requires HoldsApi(m, api)
    ensures HoldsApi(Set(m, p.userId, p.(isOnline := false)), api + [p])
  {
    IdsAppend(api, p);
    KeysSet(m, Ids(api), p.userId, p.(isOnline := false));
    forall x: string
      ensures Lookup(Set(m, p.userId, p.(isOnline := false)), x) == FromApi(api + [p], x)
    {
      FromApiAppend(api, p, x);
      LookupSet(m, p.userId, p.(isOnline := false), x);
    }
  }

  lemma AddUser(m: JsMap<string, Collaborator>, api: seq<Collaborator>, user: CurrentUser)
    requires HoldsApi(m, api)
    ensures HoldsAll(Set(m, user.userId, FromUser(Lookup(m, user.userId), user)), api, [], user)
  {
    var person := FromUser(Lookup(m, user.userId), user);
    KeysSet(m, Ids(api), user.userId, person);
    assert Ids(api) + [user.userId] + Ids([]) == Ids(api) + [user.userId];
    forall x: string
      ensures Lookup(Set(m, user.userId, person), x) == Merged(api, [], user, x)
    {
      LookupSet(m, user.userId, person, x);
      assert Merged(api, [], user, x) == Base(api, user, x);
    }
  }

  lemma MergedAppend(api: seq<Collaborator>, live: seq<Collaborator>, lc: Collaborator, user: CurrentUser, x: string)
    ensures Merged(api, live + [lc], user, x) ==
            if x == lc.userId then Some(Overlay(Merged(api, live, user, x), lc)) else Merged(api, live, user, x)
  {
    OfIdAppend(live, lc, x);
    if x == lc.userId {
      var mine := OfId(live, x) + [lc];
      assert mine[..|mine| - 1] == OfId(live, x);
    } else {
      assert OfId(live, x) + [] == OfId(live, x);
    }
  }

  lemma AddLive(m: JsMap<string, Collaborator>, api: seq<Collaborator>, live: seq<Collaborator>,
                user: CurrentUser, lc: Collaborator)
    requires HoldsAll(m, api, live, user)
    ensures HoldsAll(Set(m, lc.userId, Overlay(Lookup(m, lc.userId), lc)), api, live + [lc], user)
  {
    var person := Overlay(Lookup(m, lc.userId), lc);
    var ids := Ids(api) + [user.userId] + Ids(live);
    IdsAppend(live, lc);
    KeysSet(m, ids, lc.userId, person);
    assert ids + [lc.userId] == Ids(api) + [user.userId] + Ids(live + [lc]);
    forall x: string
      ensures Lookup(Set(m, lc.userId, person), x) == Merged(api, live + [lc], user, x)
    {
      LookupSet(m, lc.userId, person, x);
      MergedAppend(api, live, lc, user, x);
    }
  }

  /** Every id of the three sources exactly once, in first-seen order, with everything known about it. */
  method MergeCollaborators(api: seq<Collaborator>, live: seq<Collaborator>, user: CurrentUser)
    returns (merged: seq<Collaborator>)
    ensures var ids := FirstSeen(Ids(api) + [user.userId] + Ids(live));
            && |merged| == |ids|
            && forall i :: 0 <= i < |ids| ==> Merged(api, live, user, ids[i]) == Some(merged[i])
  {
    var m := MergeApi(api);
    AddUser(m, api, user);
    if user.userId !in m.values {
      m := Set(m, user.userId, OwnEntry(user));
    } else {
      m := Set(m, user.userId, m.values[user.userId].(isOnline := true));
    }
    m := MergeLive(m, api, live, user);
    merged := Values(m);
    assert forall i :: 0 <= i < |merged| ==> Lookup(m, m.keys[i]) == Some(merged[i]);
  }

  method MergeApi(api: seq<Collaborator>) returns (m: JsMap<string, Collaborator>)
    ensures HoldsApi(m, api)
  {
    m := JsMap([], map[]);
    for k := 0 to |api|
      invariant HoldsApi(m, api[..k])
    {
      var p := api[k];
      AddParticipant(m, api[..k], p);
      assert api[..k + 1] == api[..k] + [p];
      m := Set(m, p.userId, p.(isOnline := false));
    }
    assert api[..|api|] == api;
  }

  method MergeLive(start: JsMap<string, Collaborator>, ghost api: seq<Collaborator>, live: seq<Collaborator>,
                   ghost user: CurrentUser)
    returns (m: JsMap<string, Collaborator>)
    requires HoldsAll(start, api, [], user)
    ensures HoldsAll(m, api, live, user)
  {
    m := start;
    for k := 0 to |live|
      invariant HoldsAll(m, api, live[..k], user)
    {
      assert live[..k + 1] == live[..k] + [live[k]];
      m := LayOver(m, api, live[..k], user, live[k]);
    }
    assert live[..|live|] == live;
  }

  method LayOver(m: JsMap<string, Collaborator>, ghost api: seq<Collaborator>, ghost seen: seq<Collaborator>,
                 ghost user: CurrentUser, lc: Collaborator)
    returns (r: JsMap<string, Collaborator>)
    requires HoldsAll(m, api, seen, user)
    ensures HoldsAll(r, api, seen + [lc], user)
  {
    AddLive(m, api, seen, user, lc);
    if lc.userId in m.values {
      var existing := m.values[lc.userId];
      var color := if lc.cursorColor != "" then lc.cursorColor else existing.cursorColor;
      r := Set(m, lc.userId, existing.(isOnline := true, cursorColor := color));
    } else {
      r := Set(m, lc.userId, lc);
    }
  }

  /** `Array.from(m.values())`. */
  method Values(m: JsMap<string, Collaborator>) returns (values: seq<Collaborator>)
    requires WellFormed(m)
    ensures |values| == |m.keys|
    ensures forall i :: 0 <= i < |values| ==> Lookup(m, m.keys[i]) == Some(values[i])
  {
    var entries := Entries(m);
    values := [];
    while |values| < |entries|
      invariant |values| <= |entries|
      invariant forall i :: 0 <= i < |values| ==> values[i] == entries[i].1
    {
      values := values + [entries[|values|].1];
    }
  }

  // ---------- What is known about each person ----------

  /** The last colour that is set, or the colour known before. */
  function LastColor(known: string, live: seq<Collaborator>): string {
    if live == [] then known
    else if live[|live| - 1].cursorColor != "" then live[|live| - 1].cursorColor
    else LastColor(known, live[..|live| - 1])
  }

  /** No entry from the i-th on sets a colour. */
  predicate Colorless(live: seq<Collaborator>, i: nat) {
    forall j :: i <= j < |live| ==> live[j].cursorColor == ""
  }

  lemma {:induction false} LastColorIs(known: string, live: seq<Collaborator>, i: nat)
    requires i <= |live| && Colorless(live, i) && (i == 0 || live[i - 1].cursorColor != "")
    ensures LastColor(known, live) == if i == 0 then known else live[i - 1].cursorColor
    decreases |live|
  {
    if i < |live| {
      assert live[|live| - 1].cursorColor == "";
      LastColorIs(known, live[..|live| - 1], i);
    }
  }

  lemma {:induction false} OverlayKnown(known: Collaborator, live: seq<Collaborator>)
    ensures OverlayAll(Some(known), live) ==
            Some(known.(isOnline := known.isOnline || live != [], cursorColor := LastColor(known.cursorColor, live)))
  {
    if live != [] {
      OverlayKnown(known, live[..|live| - 1]);
    }
  }

  lemma {:induction false} OverlayUnknown(live: seq<Collaborator>)
    requires live != []
    ensures OverlayAll(None, live) == OverlayAll(Some(live[0]), live[1..])
  {
    if |live| == 1 {
      assert OverlayAll(None, live[..0]) == None;
    } else {
      OverlayUnknown(live[..|live| - 1]);
      assert live[..|live| - 1][1..] == live[1..][..|live[1..]| - 1];
    }
  }

  /** A person listed by the API keeps name, avatar and role of their last entry there, and is online
      exactly when they are the current user or appear in the live list. */
  lemma ApiPerson(api: seq<Collaborator>, live: seq<Collaborator>, user: CurrentUser, id: string)
    requires id in Ids(api)
    ensures OfId(api, id) != [] && Merged(api, live, user, id).Some?
    ensures var entry, p := Last(OfId(api, id)).value, Merged(api, live, user, id).value;
            && p.userId == entry.userId && p.name == entry.name && p.avatarUrl == entry.avatarUrl && p.role == entry.role
            && (p.isOnline <==> id == user.userId || id in Ids(live))
            && p.cursorColor == LastColor(entry.cursorColor, OfId(live, id))
  {
    OfIdMembers(api, id);
    OfIdMembers(live, id);
    OverlayKnown(Base(api, user, id).value, OfId(live, id));
  }

  /** The current user, when the API does not list them, is an online owner with their own name and picture, and with
      the last colour that a live entry sets, or else their own, or else blue. */
  lemma UserNotListed(api: seq<Collaborator>, live: seq<Collaborator>, user: CurrentUser)
    requires user.userId !in Ids(api)
    ensures var merged := Merged(api, live, user, user.userId);
            && merged.Some?
            && merged.value.userId == user.userId && merged.value.name == user.name
            && merged.value.avatarUrl == user.avatarUrl
            && merged.value.isOnline && merged.value.role == Owner
            && var own := if user.cursorColor.Some? then user.cursorColor.value else "#3b82f6";
            && merged.value.cursorColor == LastColor(own, OfId(live, user.userId))
  {
    OfIdMembers(api, user.userId);
    OverlayKnown(OwnEntry(user), OfId(live, user.userId));
  }

  /** A person known only from the live list is taken as first listed there; a repeated one is online. */
  lemma {:induction false} LiveOnlyPerson(api: seq<Collaborator>, live: seq<Collaborator>, user: CurrentUser, id: string)
    requires id !in Ids(api) && id != user.userId
    ensures Merged(api, live, user, id).Some? <==> id in Ids(live)
    ensures id in Ids(live) ==>
              var mine := OfId(live, id);
              && mine != []
              && Merged(api, live, user, id) ==
                 Some(mine[0].(isOnline := mine[0].isOnline || |mine| > 1,
                               cursorColor := LastColor(mine[0].cursorColor, mine[1..])))
  {
    OfIdMembers(api, id);
    OfIdMembers(live, id);
    var mine := OfId(live, id);
    if mine != [] {
      OverlayUnknown(mine);
      OverlayKnown(mine[0], mine[1..]);
    }
  }

  /** The merged list names exactly the ids of the three sources. */
  lemma MergedIds(api: seq<Collaborator>, live: seq<Collaborator>, user: CurrentUser, id: string)
    ensures Merged(api, live, user, id).Some? <==> id in Ids(api) || id == user.userId || id in Ids(live)
    ensures Merged(api, live, user, id).Some? ==> Merged(api, live, user, id).value.userId == id
  {
    OfIdMembers(api, id);
    OfIdMembers(live, id);
    if id in Ids(api) {
      ApiPerson(api, live, user, id);
    } else if id == user.userId {
      UserNotListed(api, live, user);
    } else {
      LiveOnlyPerson(api, live, user, id);
      var mine := OfId(live, id);
      assert mine != [] ==> mine[0] in mine;
    }
  }
}
