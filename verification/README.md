# Verified models of AlecRae's client-side algorithms

This project models, in Dafny 4.11, the algorithms that the AlecRae clients and scripts carry out
themselves, and proves what they guarantee over every input, every interleaving or every run. `dafny verify dfyconfig.toml`
checks everything. Each module models one component; `Options`, `Sequences`, `Text`, `Regex`,
`OrderedMap` and `StableSort` hold what several of them share; what a filter keeps is stated through
`Sequences.IsSelection`, which says that order and multiplicity are those of the elements kept.

## Asynchronous client protocols

Each is a state machine whose runs are arbitrary sequences of events, together with a class that
updates its fields as the component does; every method of the class is proved to take exactly the
step of the machine that is named in its contract.

- **OptimisticList** (mobile e-mail list). A swipe removes a row, remembers it with its index, and
  puts it back, clamped, if the awaited handler rejects. Nothing is ever lost or duplicated; rollbacks
  nested like brackets restore the list exactly; and a run keeps the rows in their original order all
  along *if and only if* the clamped index of every rollback is the rank of its row. In terms of the
  history, that is so when as many of the rows that belong in front are hidden at the rollback as at the
  removal, or more of them are and none that belongs behind is visible. A four-row run shows how
  confirming an inner removal breaks exact restoration.
- **InboxHeatmap** (analytics dashboard). Three calls per request settle separately and in any order.
  At most one controller is live and it is the latest one's; a loaded dashboard shows all six fields of
  exactly the latest request. A request that nothing supersedes does get shown: the dashboard loads
  exactly until the request has its turn, and then keeps its data or its first failure. What that is
  follows from the events alone: the first failure on a call without an answer, or the three answers.
- **InboxSelection** (the same with the chosen period and comparison). A loaded dashboard shows what is
  selected *if and only if* no effect is due: between a choice and its effect it shows the old data. Once
  the effect has run and the answers are in, it shows the data of the choice.
- **UndoToast** (undo timers). A render and the effect that belongs to it are separate steps. A step
  lets some action expire again, or after it was closed, *if and only if* it is an effect whose render
  lists a closed action, or an undo from the keyboard while the timer of its action runs; so a run is
  safe throughout exactly when it has neither.
- **UndoTiming** (the same on a clock). Timers are not early, and the page takes up to some latency
  from a closing to the effect of the render that it asks for. Toasts of one delay expire at most once
  in every possible run, out-of-date effects and keyboard undos included, *if and only if* the delay is
  longer than the latency.
  The inbox page gives its toasts five seconds, so a double expiry takes a page that does not render
  for five seconds, or a caller of the component that asks for a very short toast. With nothing else
  pending, an action undone from the keyboard stays closed *if and only if* its timer is due later than
  the latency after the undo. A toast that nothing ends keeps its timeout through every run and expires
  when it is due.
- **MobileAuth** (auth store with its token cell). Every await is a point where other operations
  interleave and where the secure store or the network can fail. `isAuthenticated` always agrees with
  `user`. Idle authenticated states have a token in every run where no token is deleted under an
  operation that relies on it, and so in every run without overlap. To rely on a token is to have sent
  it in the request for the user, or to have stored it without having said so; a token that was only
  checked is read again. A deletion is harmless, whatever careful run follows, *if and only if* no
  other operation relies on the token; `checkAuth` overlapping `login` is the counterexample.
- **AuthOutcome** (what the auth store shows). Told by its own events, with any others in between, each
  operation shows what it should when it ends; the error is the message of the last failure until the
  next start, failure, completed logout or dismissal; and without overlap an idle store loads *if and
  only if* nothing has begun, or the last to begin was a check that could not delete its token.
- **TokenOwner** (whose token it is). With an honest server the shown user owns the stored token in
  every idle state to come *if and only if* no write or deletion of the token leaves something that
  another operation, about to show its user, does not answer for. Runs without overlap are of this
  kind; two logins whose last steps cross are not, nor is a slow answer to the request for the user.
- **Signatures** (signature manager). Signatures are objects, and deleting the default one promotes
  the first remaining object in place; the frame of that assignment is part of the contract. Over
  every run with fresh ids and listed defaults a non-empty list has exactly one default, the stored
  copy equals the list, and the hook finds that default; the two restrictions are exactly what the
  rule needs.

## Parsers, printers and canonical forms

- **QueryCsv**: the CSV writer against a reader for section 2 of RFC 4180 with line-feed records. The
  export reads back, field by field, *if and only if* the column names are plain, for any cells. With a reader that
  takes a final line feed as the end of the last record, single-column tables whose last cell is empty
  fail as well; with one that takes CR LF besides LF, so do tables in which an unquoted carriage
  return ends a record in front of another one. Both conditions are exact.
- **FrontMatter**: the reader against a printer of the form used under `apps/changelog/content`. Reading
  back gives the record and exactly the body, *if and only if* the values are trimmed and on one line.
- **RouteAudit**: path normalisation prints the canonical form of the segments; the static runs are the
  only decomposition into maximal static blocks; wiring depends on the first run alone, which is what
  the script promises *if and only if* the path has a single run.
- **DomainSchema**: the domain expression against a definition by dot-separated labels.
- **Changelog**: three-pass HTML escaping against one-pass substitution, with a decoder; and the
  grouping of releases by version.
- **StampSyntax, DocsStamp**: the stamp writer against the expression that looks for a stamp. Fixing makes a
  document comply *if and only if* the clock shows a four-digit year.

## Ordering, merging and allocation

- **QuerySort**: the comparator is a consistent order *if and only if* the column does not hold both
  `null` and a missing value, and no string collates between two numbers that collate against their
  numeric order, as "5" does between 10 and 9; then a click leaves the stable sorted rows in the
  displayed direction.
- **Collaborators**: the three-source merge, in terms of the ids and of what each source says.
- **Networking**: the /20 layout is aligned, inside the /16 and disjoint *if and only if* there are at
  most eight zones; eight zones tile it.

## Where code and documentation differ

- The header of `scripts/audit-route-coverage.ts` (lines 12-18) says that all static runs must appear,
  in order, in one file. The code (lines 315-329) checks no order, and its second stage accepts a file
  with the first run alone. `RouteAudit.HeaderExampleFails` takes the header's own path and a page that
  refers to its first run only. The audit does what the header says, for every corpus, exactly for
  paths with a single run (`RouteAudit.KeepsItsPromiseIff`, where "in order" means one behind the
  other), and without the order exactly for paths whose first run contains all others
  (`RouteAudit.AsksForAllRunsIff`).
- `scripts/check-docs.ts` (line 12) says that `--fix` normalises stamps; the year is written without padding
  (line 31), so this is true for four-digit years only (`DocsStamp.FixCompliesIffFourDigits`).
- The domain expression in `apps/api/src/types.ts` (line 141) bounds every label but the last, although
  section 2.3.4 of RFC 1035 limits each label to 63 octets (`DomainSchema.LabelLimitIffLast`,
  `DomainSchema.LongTopLabelAccepted`).
- `EmailQueryConsole.tsx` line 251 returns 1 for every absent first argument, so `null` and
  `undefined` each compare as greater than the other (`QuerySort.ConsistentIffOneAbsentKind`).

## How the models abstract

- A React state update is one atomic step, and an awaited call is a step that may come at any later
  time, succeed or fail. Answers and clocks are inputs; time orders events in `UndoTiming` only.
- Characters stand for UTF-16 code units; strings are sequences of them.
- `Array.prototype.sort` is used through its specification: a permutation, and for a consistent
  comparator sorted and stable. `StableSort` shows that such a result exists and is unique.
- `localeCompare` orders strings by an arbitrary key; numbers are reals.
- `StampSyntax` and `DocsStamp` are proved for every syntax that is like the one of the script in the
  respects the proofs use; `StampSyntax.DocsSyntaxIsLikeDocs` shows that the script's own one is.

## Model

| member | source | states |
|---|---|---|
| OptimisticList.RunConserves | apps/mobile/components/EmailListWithGestures.tsx:44-79 | In every interleaving of starts, confirmations and rejections, visible rows, held snapshots and confirmed removals together are the same multiset as at the start. |
| OptimisticList.RemovedIsNotVisible | apps/mobile/components/EmailListWithGestures.tsx:48-58 | From unique ids, no visible row shares its id with a held or confirmed snapshot. |
| OptimisticList.ShownIffNotTaken | apps/mobile/components/EmailListWithGestures.tsx:44-79 | From unique ids, a row of the initial list is visible in a reachable state if and only if no action in flight and no confirmed one took it. |
| OptimisticList.FirstSettlementDecides | apps/mobile/components/EmailListWithGestures.tsx:60-76 | In every interleaving an action ends as its first settlement says, with the snapshot it took, and no later event changes that. |
| OptimisticList.SecondActionHoldsNothing | apps/mobile/components/EmailListWithGestures.tsx:49-51 | From unique ids, acting again on a removed e-mail changes no row and holds no snapshot. |
| OptimisticList.NestedRollbackRestores | apps/mobile/components/EmailListWithGestures.tsx:60-76 | Any removals rejected in reverse order of starting, nested to any depth and from any state, restore exactly the original sequence. |
| OptimisticList.RunKeepsUntouched | apps/mobile/components/EmailListWithGestures.tsx:44-79 | In every interleaving the rows that no action names stay, in their relative order. |
| OptimisticList.UntouchedSelects | apps/mobile/components/EmailListWithGestures.tsx:44-79 | What is compared there are the rows that no action names, in order and with their multiplicity. |
| OptimisticList.InsertionPoint | apps/mobile/components/EmailListWithGestures.tsx:70 | The reinsertion index is in range and is the remembered index unless that is past the end. |
| OptimisticList.StartKeepsOrder | apps/mobile/components/EmailListWithGestures.tsx:50-57 | At the moment of removal the remembered index is the rank of the row among those left, and the order is kept. |
| OptimisticList.ReinsertInOrderIff | apps/mobile/components/EmailListWithGestures.tsx:68-73 | A rollback keeps the reference order if and only if the clamped index is the rank of its row among the visible ones. |
| OptimisticList.InOrderIffAligned | apps/mobile/components/EmailListWithGestures.tsx:44-79 | A run shows the rows in their original order in every state if and only if every rollback in it is aligned. |
| OptimisticList.AlignedRunRestores | apps/mobile/components/EmailListWithGestures.tsx:44-79 | With aligned rollbacks and nothing in flight, the list is the initial one without the confirmed removals, in order. |
| OptimisticList.AlignedIffHidden | apps/mobile/components/EmailListWithGestures.tsx:44-79 | Where the visible rows are in their order at a removal and at its rollback, whatever happened in between, the rollback is aligned if and only if as many of the rows that belong in front are hidden as at the removal, or more of them are and no row that belongs behind is visible. |
| OptimisticList.OverlapBreaksRestoration | apps/mobile/components/EmailListWithGestures.tsx:60-76 | A concrete run in which a confirmed inner removal makes the outer rollback land behind its place. |
| OptimisticList.EmailList.HandleAction | apps/mobile/components/EmailListWithGestures.tsx:45-58 | The update removes the first row with the id and nothing else, remembers it with its index, and starts the next action; without such a row the list stays. |
| OptimisticList.EmailList.Resolve | apps/mobile/components/EmailListWithGestures.tsx:60-62 | A resolved handler leaves the list as it is and settles its own action alone. |
| OptimisticList.EmailList.Fail | apps/mobile/components/EmailListWithGestures.tsx:63-75 | A rejected handler splices its snapshot in at the remembered index, or at the end of a shorter list, and the haptic fires exactly when a row came back. |
| InboxHeatmap.RunConsistent | apps/web/components/InboxHeatmapView.tsx:127-183 | Every run keeps: at most one live controller and it is the latest, data never mixed from two requests, and a loaded dashboard shows the latest request. |
| InboxHeatmap.LoadedShowsLatest | apps/web/components/InboxHeatmapView.tsx:149-166 | In every run from the initial state, loaded without error means all six fields are those of the most recently started request. |
| InboxHeatmap.OnlyLatestWrites | apps/web/components/InboxHeatmapView.tsx:146-171 | A step changes the dashboard only by starting a request or by the latest un-aborted one resuming. |
| InboxHeatmap.AbortedIffSuperseded | apps/web/components/InboxHeatmapView.tsx:131-134 | Over any events, the latest request is aborted exactly when a later fetch or cleanup is among them. |
| InboxHeatmap.LatestOutcomeShown | apps/web/components/InboxHeatmapView.tsx:129-172 | After any run and a new request, and for every continuation without a fetch or cleanup: the dashboard loads exactly until the request gets its turn with its outcome at hand, and then keeps that request's data, or its first failure next to the older data. |
| InboxHeatmap.OutcomeFromEvents | apps/web/components/InboxHeatmapView.tsx:129-172 | Told by the events alone: a request that nothing supersedes shows at its turn the message of the first failure on a call that had no answer yet, with loading ended and the older data kept, or else the first answers of its three calls without an error, or, before either is there, that it loads; and what is shown stands whatever arrives later. |
| InboxHeatmap.UnmountedFrozen | apps/web/components/InboxHeatmapView.tsx:177-183 | After a cleanup that no fetch follows, no late response changes the dashboard. |
| InboxSelection.LoadedMatchesSelectionIff | apps/web/components/InboxHeatmapView.tsx:123-191 | However selections, effects and answers interleave, a loaded dashboard shows what the last effect asked for, and shows what is selected if and only if no effect is due. |
| InboxSelection.SelectionGetsShown | apps/web/components/InboxHeatmapView.tsx:127-191 | Whatever went on before, when the effect of a new selection has run and its three calls are answered without a failure, in whatever order among older answers, the dashboard shows the data of that selection. |
| InboxHeatmap.InboxHeatmapView.FetchData | apps/web/components/InboxHeatmapView.tsx:129-136 | Aborts every earlier request, puts the new one behind `abortRef`, and shows loading without an error over the older data. |
| InboxHeatmap.InboxHeatmapView.CleanUp | apps/web/components/InboxHeatmapView.tsx:180-182 | Afterwards no controller is live; the dashboard is as before. |
| InboxHeatmap.InboxHeatmapView.Continue | apps/web/components/InboxHeatmapView.tsx:146-171 | After the await an aborted request writes nothing, a failed one its message and the end of loading, and a complete one each of its six fields without an error. |
| UndoToast.ReconcileExact | apps/web/components/UndoToast.tsx:106-124 | After a reconciliation the table lists exactly the given ids with one pending timeout each, running timers keep handle and delay, and timers of dropped ids are cleared. |
| UndoToast.StartedDelay | apps/web/components/UndoToast.tsx:107-115 | A new action waits for its own duration, or for 5000 milliseconds. |
| UndoToast.FireFrame | apps/web/components/UndoToast.tsx:109-112 | A timeout ends the entry and the timeout of its own toast and leaves entry, timeout and delay of every other toast. |
| UndoToast.ClearFrame | apps/web/components/UndoToast.tsx:134-154 | Undo and dismiss do the same for the toast they name. |
| UndoToast.RemoveByPieces | apps/web/app/(dashboard)/inbox/page.tsx:255-257 | The parent forgets the actions with an id and keeps all others in their order. |
| UndoToast.ExpiresAtMostOnce | apps/web/components/UndoToast.tsx:106-157 | In every run without out-of-date effects and without keyboard undos of running timers, each action expires at most once and never after an undo or dismissal. |
| UndoToast.FlushSafeIffFresh | apps/web/components/UndoToast.tsx:106-124 | From the state an effect leaves, no careful run lets an action expire again or after it was closed, if and only if the render of the effect lists no closed action. |
| UndoToast.KeyboardUndoSafeIff | apps/web/app/(dashboard)/inbox/page.tsx:660-666 | The same holds of an undo from the keyboard if and only if no timer runs for its action. |
| UndoToast.SafeIffCareful | apps/web/components/UndoToast.tsx:106-157 | A run reaches only states from which no action can expire again if and only if all its effects are fresh and no keyboard undo meets a running timer. |
| UndoToast.PromptEffectIsFresh | apps/web/components/UndoToast.tsx:106-124 | An effect that directly follows its render is fresh and makes the table agree with the parent. |
| UndoTiming.LastingToastsExpireOnce | apps/web/components/UndoToast.tsx:106-157 | On a clock, with toasts that outlast the latency of the page and no keyboard undo within the latency of the due time, each action expires at most once and never after it was closed, in every run, out-of-date effects included. |
| UndoTiming.ExpiresOnceIffOutlasts | apps/web/components/UndoToast.tsx:107-115 | Toasts of one delay expire at most once in every possible run on a page with some latency, keyboard undos at any time included, if and only if the delay is longer than the latency. |
| UndoTiming.StaleEffectExpiresTwice | apps/web/components/UndoToast.tsx:107-115 | A concrete run for every delay within the latency: the timer fires between a render and its effect, the effect starts it again, and it fires again before the render that the first expiry asked for. |
| UndoTiming.KeyboardUndoSafeIffEarly | apps/web/app/(dashboard)/inbox/page.tsx:660-666 | While no closing waits for its render or effect, no unhurried run lets an action expire again or after it was closed behind an undo from the keyboard, if and only if the timer of the action is due later than the latency after it. |
| UndoTiming.LateKeyStillExpires | apps/web/app/(dashboard)/inbox/page.tsx:660-666 | An action undone from the keyboard within the latency before its timer is due can still expire. |
| UndoTiming.PromptPageCatchesUp | apps/web/components/UndoToast.tsx:106-124 | A page that renders and runs its effect within the latency makes a possible run, after which no closing waits for either. |
| UndoTiming.SparedKeepsTimer | apps/web/components/UndoToast.tsx:106-157 | In any run a toast that is neither undone, dismissed nor expired, nor left out of an effect, nor unmounted keeps its one pending timeout with the same due time. |
| UndoTiming.ToastExpiresWhenDue | apps/web/components/UndoToast.tsx:107-115 | Whatever happened before, a toast that an effect starts is due when its own duration, or five seconds, have passed, stays so through every run that spares it, and its timeout then reports this toast and ends it. |
| UndoToast.UnmountSilences | apps/web/components/UndoToast.tsx:126-132 | In every mounted state whose pending timeouts are the listed ones, out-of-date effects or not, no event after unmounting adds an outcome. |
| UndoToast.UndoToastManager.RunEffect | apps/web/components/UndoToast.tsx:106-124 | The two loops reconcile the table: its keys are then exactly the live ids, running timers keep handle and delay, and those of dropped ids are cleared. |
| UndoToast.UndoToastManager.OnTimeout | apps/web/components/UndoToast.tsx:109-112 | The callback reports the id of its timeout after the table forgot this id alone; every other toast keeps its timer. |
| UndoToast.UndoToastManager.ClearTimer | apps/web/components/UndoToast.tsx:134-154 | Undo and dismiss leave neither a table entry nor a pending timeout for the id; every other toast keeps its timer. |
| UndoToast.UndoToastManager.CleanUp | apps/web/components/UndoToast.tsx:126-132 | No timeout is pending after unmounting. |
| MobileAuth.AuthenticatedIffUser | apps/mobile/lib/store.ts:41-96 | In every state of every interleaving `isAuthenticated` holds exactly when `user` is set. |
| MobileAuth.CarefulRunHasToken | apps/mobile/lib/store.ts:41-92 | With overlapping operations, idle authenticated states have a token as long as no token is deleted while another operation relies on it. |
| MobileAuth.SerialRunHasToken | apps/mobile/lib/store.ts:41-92 | When operations never overlap, every idle authenticated state has a stored token. |
| MobileAuth.DeletionHarmlessIff | apps/mobile/lib/store.ts:48-54 | After a deletion no careful run, with new operations and further deletions, ends authenticated without a token, if and only if no other operation has sent the token and waits for its user, or has stored a token and not yet said so. |
| MobileAuth.HarmlessIffCareful | apps/mobile/lib/store.ts:41-92 | A run with real tokens reaches only states from which no careful run ends badly if and only if no token is deleted while another operation has sent or just stored it. |
| MobileAuth.OverlapStrands | apps/mobile/lib/store.ts:41-72 | A concrete overlap of `checkAuth` and `login` ends authenticated without a token. |
| TokenOwner.TrustedIffOrderly | apps/mobile/lib/store.ts:41-92 | With an honest server, no orderly run behind a step ends with a user shown who does not own the stored token, if and only if the step does not write or delete the token under another operation that is about to show somebody who does not own what is left. |
| TokenOwner.RunTrustedIffOrderly | apps/mobile/lib/store.ts:41-92 | A run with an honest server reaches only states from which the wrong user is never shown if and only if all its writes and deletions are orderly. |
| TokenOwner.SerialRunShowsOwner | apps/mobile/lib/store.ts:41-92 | When operations never overlap and the server is honest, the stored token of every idle state that shows a user is this user's. |
| TokenOwner.OverlapMixesUsers | apps/mobile/lib/store.ts:57-65 | Two logins whose last steps cross end with one user shown and the other one's token stored, with an honest server. |
| TokenOwner.SlowAnswerMixesUsers | apps/mobile/lib/api.ts:143-165 | A request for the user that was sent with the old token and is answered after a login leaves the old user shown and the new token stored, with an honest server. |
| AuthOutcome.RefusedShowsMessage | apps/mobile/lib/store.ts:57-70 | In any interleaving, a refused login or registration ends with the message of the refusal as the error and without loading, and leaves user and token as they are. |
| AuthOutcome.UnstoredShowsMessage | apps/mobile/lib/store.ts:57-70 | The same when the answer arrives and its token cannot be stored. |
| AuthOutcome.AnsweredShowsUser | apps/mobile/lib/store.ts:57-65 | In any interleaving, an answered login or registration stores the token of the answer and then shows its user, authenticated and without loading. |
| AuthOutcome.MissingTokenSignsOut | apps/mobile/lib/store.ts:41-47 | A check that finds no token, or cannot read it, signs out and ends loading. |
| AuthOutcome.CheckShowsUser | apps/mobile/lib/store.ts:41-50 | A check whose request carries a token and is answered shows the user of the answer and ends loading. |
| AuthOutcome.RefusedCheckSignsOut | apps/mobile/lib/store.ts:51-54 | A check whose request is refused keeps user and loading until the token is deleted, and then signs out and ends loading. |
| AuthOutcome.LogoutSignsOut | apps/mobile/lib/store.ts:89-92 | A logout deletes the token, then signs out and clears the error, and does not touch the loading flag. |
| AuthOutcome.LastTouchDecidesError | apps/mobile/lib/store.ts:41-96 | In every run the last start, failure, completed logout or dismissal decides the error: the message of a failure stays until the next of them, and each of the others leaves none. |
| AuthOutcome.LastDecisionShowsUser | apps/mobile/lib/store.ts:41-92 | In every run the shown user is the one that the last completed check, login or registration showed, or nobody after a completed sign-out. |
| AuthOutcome.IdleLoadsIff | apps/mobile/lib/store.ts:36-92 | When operations never overlap, an idle store shows that it loads if and only if no check, login or registration has begun, or the last one to begin was a check whose token deletion failed. |
| MobileAuth.TokenCell.HasStoredToken | apps/mobile/lib/api.ts:120-139 | True exactly for a readable, non-empty token; a failing read counts as no token. |
| MobileAuth.TokenCell.SetToken | apps/mobile/lib/api.ts:128-130 | Stores the token; it is usable unless empty. |
| MobileAuth.TokenCell.ClearToken | apps/mobile/lib/api.ts:132-134 | Afterwards there is no token. |
| MobileAuth.AuthStore.Start | apps/mobile/lib/store.ts:41-91 | The first segment of an action starts the next operation; a check, login or registration also shows loading without an error, a logout shows nothing new. |
| MobileAuth.AuthStore.ReadToken | apps/mobile/lib/store.ts:43-48 | `checkAuth` goes on with what the token cell says, also when reading fails. |
| MobileAuth.AuthStore.SendMe | apps/mobile/lib/api.ts:143-156 | `me()` reads the token again, and its request carries the token that is stored then, if it is readable and not empty. |
| MobileAuth.AuthStore.MeSettles | apps/mobile/lib/store.ts:48-52 | An answer to `me()` shows its user, authenticated and without loading; a failure changes nothing that is shown and leads to the deletion of the token. |
| MobileAuth.AuthStore.DeleteToken | apps/mobile/lib/store.ts:51-53 | Deleting changes cell and store together, and a failing deletion leaves the token. |
| MobileAuth.AuthStore.ResponseArrives | apps/mobile/lib/api.ts:171-177 | An answered login or register goes on to store its token before it reports success. |
| MobileAuth.AuthStore.WriteToken | apps/mobile/lib/api.ts:176 | Storing puts the token of the answer into the cell and nothing on display; a failing write leaves the cell, shows its message as the error and ends loading. |
| MobileAuth.AuthStore.RequestRejects | apps/mobile/lib/store.ts:66-70 | A failed request shows its message as the error, ends loading and the operation, and leaves the user. |
| MobileAuth.AuthStore.Continue | apps/mobile/lib/store.ts:44-92 | The last segment shows the user of a stored token, or nobody; it ends loading except after a logout, which clears the error instead. |
| MobileAuth.AuthStore.DismissError | apps/mobile/lib/store.ts:94-96 | Clears the error and nothing else. |
| Signatures.RunInv | apps/web/components/SignatureManager.tsx:52-95 | Over every run with fresh ids and listed defaults, a non-empty list has exactly one default, ids stay unique, and the stored copy is the list. |
| Signatures.SoundIffAllowed | apps/web/components/SignatureManager.tsx:57-95 | No allowed run behind a step has a non-empty list without exactly one default, or an unfaithful stored copy, if and only if the step neither creates a listed id nor makes an unlisted one the default of a non-empty list. |
| Signatures.RunSoundIffAllowed | apps/web/components/SignatureManager.tsx:57-95 | A run reaches only states from which the rule is kept if and only if all its steps are such. |
| Signatures.SetDefaultIffListed | apps/web/components/SignatureManager.tsx:91-95 | Set-default leaves exactly one default if and only if the id is listed. |
| Signatures.DefaultsAreOccurrences | apps/web/components/SignatureManager.tsx:91-95 | Set-default leaves as many defaults as there are signatures with that id, and changes only the flags. |
| Signatures.CreateAppends | apps/web/components/SignatureManager.tsx:57-65 | Creating appends one signature with the id, the text, and the name or "Untitled Signature", which is the default exactly when it is the first. |
| Signatures.UpdateKeeps | apps/web/components/SignatureManager.tsx:70-80 | An edit gives the signature with the id the new name as its name and the new text as its text, and keeps its id and flag, every other signature, their number and the defaults. |
| Signatures.WithoutKeeps | apps/web/components/SignatureManager.tsx:82-83 | Deleting keeps exactly the signatures with other ids. |
| Signatures.WithoutSelects | apps/web/components/SignatureManager.tsx:82-83 | ... in their order. |
| Signatures.DeleteDefault | apps/web/components/SignatureManager.tsx:82-89 | Deleting another signature keeps the default; deleting the default makes the first remaining one the default. |
| Signatures.UseDefaultFindsIt | apps/web/components/SignatureManager.tsx:258-268 | The hook finds the one default of the list, and nothing only for an empty list. |
| Signatures.UseDefaultFallsBack | apps/web/components/SignatureManager.tsx:258-268 | For any stored list the hook gives the first default, else the first signature, and nothing only without any. |
| Signatures.DefaultAfterRun | apps/web/components/SignatureManager.tsx:52-95 | After every allowed run of a non-empty list the hook finds a default. |
| Signatures.SignatureManager.constructor | apps/web/components/SignatureManager.tsx:42-50 | Mounting loads the stored copy into fresh objects. |
| Signatures.SignatureManager.HandleCreate | apps/web/components/SignatureManager.tsx:57-68 | Appends one object with the id, the text, and the name or "Untitled Signature", default exactly when it is the first; keeps the others, and stores the list that is shown. |
| Signatures.SignatureManager.HandleUpdate | apps/web/components/SignatureManager.tsx:70-80 | The edited signature becomes a new object with the new name and text and its old id and flag; all others are the old objects, the stored copy shows the same, and without an edited id nothing happens. |
| Signatures.SignatureManager.HandleDelete | apps/web/components/SignatureManager.tsx:82-89 | Keeps exactly the old objects with other ids, promotes in place only the first remaining one, only when no default is left, changes no other object, and stores the list that is shown. |
| Signatures.SignatureManager.HandleSetDefault | apps/web/components/SignatureManager.tsx:91-95 | All objects are new copies with id, name and text as before and the flag set on the id alone; the old ones are untouched, and the stored copy shows the same. |
| QueryCsv.ExportReadsBack | apps/web/components/EmailQueryConsole.tsx:162-176 | With at least one plain column name, reading the export gives the header and one record for each row with a field for each column in order: the text of a present value, and an empty field for a null or missing one. |
| QueryCsv.ExportReadsBackIff | apps/web/components/EmailQueryConsole.tsx:162-176 | The export reads back if and only if no column name contains a comma, a quote or a line feed. |
| QueryCsv.ExportReadsBackClosingIff | apps/web/components/EmailQueryConsole.tsx:162-176 | With a reader that takes a final line feed as the end of the last record, the export reads back if and only if the column names are plain and not a single column has an empty cell in the last row. |
| QueryCsv.ExportReadsBackCrLfIff | apps/web/components/EmailQueryConsole.tsx:162-176 | With a reader that takes CR LF besides LF, the export reads back if and only if the column names are plain and neither the header nor any row but the last ends in an unquoted carriage return. |
| QueryCsv.WriterIsShortest | apps/web/components/EmailQueryConsole.tsx:165-176 | No text that reads as the same records, with either kind of record ends, is shorter than the one written with full escaping. |
| QuerySort.ConsistentIffSortsProperly | apps/web/components/EmailQueryConsole.tsx:247-260 | For every column the comparator is a total preorder if and only if the column does not hold both null and missing values, and no string collates between two numbers that collate against their numeric order, or alike. |
| QuerySort.ConsistentIffOneAbsentKind | apps/web/components/EmailQueryConsole.tsx:247-260 | In particular, for present values of one kind, if and only if the column does not hold both null and missing values. |
| QuerySort.RowsConsistentIff | apps/web/components/EmailQueryConsole.tsx:236-262 | The same for the rows: the comparator is a total preorder on them if and only if they do not mix nulls with missing values in the column and no string there collates between two such numbers. |
| QuerySort.MixedColumnCycles | apps/web/components/EmailQueryConsole.tsx:254-259 | 9 before 10 before "5" before 9: an instance of such a column, on which the comparator runs in a circle. |
| QuerySort.ClickSortsColumn | apps/web/components/EmailQueryConsole.tsx:236-269 | Every column with a consistent comparator, mixed ones included, becomes a stable permutation in the displayed direction with absent values last both ways. |
| QuerySort.QueryConsole.HandleSortChange | apps/web/components/EmailQueryConsole.tsx:236-269 | A click on the sorted column reverses the direction and any other click shows ascending; the rows are sorted by the displayed column and direction, with absent values last where the column sorts properly; without a result no rows appear. |
| QuerySort.ClicksAlternate | apps/web/components/EmailQueryConsole.tsx:238-243 | Clicking a column that was not the sorted one shows ascending after an odd number of clicks and descending after an even one. |
| StableSort.JsSortUnique | apps/web/components/EmailQueryConsole.tsx:247 | For a consistent comparator the specification of the sort determines its result. |
| StableSort.Sort | apps/web/components/EmailQueryConsole.tsx:247 | The specification of the sort can be met for every comparator. |
| FrontMatter.ParseFrontMatter | apps/changelog/app/page.tsx:20-50 | The function with its loop over lines computes the specified reading of every source. |
| FrontMatter.FoundIffDelimited | apps/changelog/app/page.tsx:21 | Front matter is found exactly in delimited sources, and the shortest one is taken. |
| FrontMatter.UnmatchedIsBody | apps/changelog/app/page.tsx:22-27 | A source that is not delimited is returned whole as the body with default fields. |
| FrontMatter.ParseLineIff | apps/changelog/app/page.tsx:32-33 | A line is read if and only if it is a key of letters and underscores, a colon, white space and a rest on one line, and it gives the key and the trimmed rest. |
| FrontMatter.LastLineWins | apps/changelog/app/page.tsx:30-34 | A key has the value of the last line that gives it, and none if no line does. |
| FrontMatter.FieldsOrDefaults | apps/changelog/app/page.tsx:35-48 | Each field has the value of its own key, or its own default when the key is missing. |
| FrontMatter.TypesAreNamed | apps/changelog/app/page.tsx:36-40 | The types are the trimmed pieces of the list that name one of the five types, in their order, each as often, and all others are dropped. |
| FrontMatter.StripsOnce | apps/changelog/app/page.tsx:37 | At most one bracket is dropped at each end of the list. |
| FrontMatter.PrintReadsBack | apps/changelog/app/page.tsx:20-50 | Printing clean fields before any body, dashed lines included, and reading gives the same record and exactly that body. |
| FrontMatter.PrintReadsBackIff | apps/changelog/app/page.tsx:20-50 | A printed record reads back if and only if its values are trimmed and on one line. |
| FrontMatter.ParsedIsClean | apps/changelog/app/page.tsx:31-47 | Whatever the source, the values read are trimmed and on one line. |
| RouteAudit.NormalizeIsCanonical | scripts/audit-route-coverage.ts:76-79 | The normalised path is the printed form of all non-empty segments of the parts. |
| RouteAudit.NormalizeKeepsSegments | scripts/audit-route-coverage.ts:76-79 | Splitting the normalised path gives exactly the segments of the parts. |
| RouteAudit.NormalizeEqualIff | scripts/audit-route-coverage.ts:76-79 | Two lists of parts normalise alike if and only if they have the same segments. |
| RouteAudit.NormalizeIdempotent | scripts/audit-route-coverage.ts:76-79 | Normalising a normalised path changes nothing. |
| RouteAudit.NormalizePartsFirst | scripts/audit-route-coverage.ts:76-79 | Normalising each part first never changes the result of joining them. |
| RouteAudit.RunsIffDecompose | scripts/audit-route-coverage.ts:82-98 | A list of blocks is the list of runs if and only if the blocks are non-empty, static, and separated by at least one parameter. |
| RouteAudit.RunsAreStatics | scripts/audit-route-coverage.ts:82-98 | The runs put together are the static segments of the path in order. |
| RouteAudit.ComputeStaticRuns | scripts/audit-route-coverage.ts:82-98 | The loop of the source prints each run of the path in order, and "/" for a path that has none. |
| RouteAudit.WiredIffFirstRun | scripts/audit-route-coverage.ts:314-330 | An endpoint is wired if and only if some file contains its first run. |
| RouteAudit.PromiseIsStronger | scripts/audit-route-coverage.ts:12-18 | A file with all runs one behind the other has them all, and an endpoint with a file that has them all is wired. |
| RouteAudit.AsksForAllRunsIff | scripts/audit-route-coverage.ts:12-18 | For every corpus wiring means one file with all runs, if and only if the first run of the path contains all its other runs. |
| RouteAudit.KeepsItsPromiseIff | scripts/audit-route-coverage.ts:12-18 | For every corpus wiring means one file with all runs in order, if and only if the path has a single run. |
| RouteAudit.HeaderExampleFails | scripts/audit-route-coverage.ts:12-18 | The path of the header's example is wired by a page that refers to its first run only. |
| RouteAudit.MatchedFilesExact | scripts/audit-route-coverage.ts:316-328 | A file is listed exactly when it has all runs, or when no file has and it has the first. |
| RouteAudit.MatchedFilesInOrder | scripts/audit-route-coverage.ts:316-328 | The files are listed in the order of the corpus, each as often as it is there: those with all runs, or, when there is none, those with the first run. |
| RouteAudit.AddingFilesKeepsWired | scripts/audit-route-coverage.ts:316-330 | Adding files never unwires an endpoint. |
| RouteAudit.StatusMeaning | scripts/audit-route-coverage.ts:332-335 | Unwired means no first run is mentioned anywhere; wired means there are endpoints and all first runs are. |
| RouteAudit.MatchEndpoint | scripts/audit-route-coverage.ts:315-329 | Sets the flag and the file list of one endpoint in the two stages, and never resets them. |
| RouteAudit.AuditRouteFile | scripts/audit-route-coverage.ts:314-335 | After both loops every endpoint carries its verdict, and count and status follow from the verdicts. |
| DomainSchema.DomainReIffLabels | apps/api/src/types.ts:140-143 | The expression accepts exactly the strings with at least two labels, host labels of 1 to 63 characters before a final one of at least two letters. |
| DomainSchema.AddDomainAccepts | apps/api/src/types.ts:135-144 | The schema accepts an input if and only if its trimmed form has at most 253 characters and proper labels. |
| DomainSchema.AddDomainValue | apps/api/src/types.ts:135-144 | The stored value is the trimmed input with every capital letter in lower case and every other character as it is. |
| DomainSchema.AddDomainIdempotent | apps/api/src/types.ts:135-144 | The stored value is lower-case and trimmed, is accepted again, and is stored as it is. |
| DomainSchema.AddDomainIgnoresCase | apps/api/src/types.ts:127-134 | The case of the input changes neither acceptance nor the stored value. |
| DomainSchema.LabelLimitIffLast | apps/api/src/types.ts:140-143 | All labels of a stored domain have at most 63 characters if and only if the last one does. |
| DomainSchema.LongTopLabelAccepted | apps/api/src/types.ts:140-143 | A top-level label of 64 letters is accepted. |
| Text.TrimSpec | apps/api/src/types.ts:137 | Trimming cuts out a trimmed middle part, and all it cuts off is white space. |
| Text.SpaceCodes | apps/api/src/types.ts:137 | White space and line terminators are the code points that sections 12.2 and 12.3 of ECMA-262 list. |
| Regex.RepeatOfClass | apps/api/src/types.ts:141 | A counted repetition of a character class matches the strings over the class with a length in range. |
| Changelog.ThreePassesAreOne | apps/changelog/app/changelog-list.tsx:64-68 | The three sequential passes equal one simultaneous substitution of every character. |
| Changelog.NoAngleBrackets | apps/changelog/app/changelog-list.tsx:64-68 | The escaped text contains no raw angle bracket. |
| Changelog.EscapeRoundTrip | apps/changelog/app/changelog-list.tsx:64-68 | A single-pass decoder gives every text back. |
| Changelog.EscapeInjective | apps/changelog/app/changelog-list.tsx:64-68 | Different texts are escaped differently. |
| Changelog.AmpersandLastIff | apps/changelog/app/changelog-list.tsx:64-68 | Replacing the ampersand last gives the same result exactly for texts without angle brackets. |
| Changelog.VersionGroups | apps/changelog/app/changelog-list.tsx:183-194 | One group per version in first-seen order, each with exactly its releases in their order. |
| Changelog.OfVersionExact | apps/changelog/app/changelog-list.tsx:183-194 | The groups are non-empty and hold exactly the releases of their version. |
| Changelog.OfVersionSelects | apps/changelog/app/changelog-list.tsx:183-194 | A group lists its releases in the order in which they are visible, each as often. |
| StampSyntax.DocsSyntaxIsLikeDocs | scripts/check-docs.ts:23-26 | The syntax of the two expressions has all properties that the proofs use. |
| StampSyntax.StampAtIffMatch | scripts/check-docs.ts:23 | A greedy scanner recognises a stamp at a position exactly when the expression matches there. |
| StampSyntax.TestStamp | scripts/check-docs.ts:66 | The search returns whether the expression matches somewhere in the document. |
| StampSyntax.ExistingLineIffPhrase | scripts/check-docs.ts:26 | The line expression matches exactly the single lines that contain the phrase. |
| DocsStamp.FirstLikeIsFirstMatch | scripts/check-docs.ts:50-51 | The line scan finds the leftmost match of the expression, and none only if there is none. |
| DocsStamp.StampChangesOnly | scripts/check-docs.ts:47-56 | Only the first stamp-like line is replaced; without one, a footer follows the right-trimmed text. |
| DocsStamp.ScriptWrites | scripts/check-docs.ts:47-56 | What the script writes, to the letter: the canonical line, and the footer that carries it. |
| DocsStamp.FixCompliesIff | scripts/check-docs.ts:47-56 | The fixed document complies if and only if the time that was written matches. |
| DocsStamp.StampTellsTime | scripts/check-docs.ts:28-34 | Read as numbers, the fields of the written stamp are year, month, day, hour and minute of the clock, at their places and with their separators. |
| DocsStamp.TimeFitsIffFourDigits | scripts/check-docs.ts:28-34 | The written time has the required form if and only if the year has four digits. |
| DocsStamp.FixCompliesIffFourDigits | scripts/check-docs.ts:28-56 | Fixing a document without a stamp makes it comply if and only if the clock shows a four-digit year. |
| DocsStamp.FixedDocsStayFixed | scripts/check-docs.ts:64-74 | With a four-digit year every document complies after the fix, a second fix changes nothing, and complying documents are never rewritten. |
| DocsStamp.FixedFilesPass | scripts/check-docs.ts:58-91 | After a fix pass over all files the check reports nothing, and a second pass leaves all files as they are. |
| DocsStamp.ViolationsSelect | scripts/check-docs.ts:64-74 | The documents that are reported are those of the list without a stamp, in its order, each as often. |
| DocsStamp.DocsCheck.Check | scripts/check-docs.ts:58-91 | The pass without `--fix` reports exactly these. |
| DocsStamp.DocsCheck.Fix | scripts/check-docs.ts:58-79 | The pass with `--fix` writes the stamp into exactly the listed documents without one; all other files are as they were. |
| Regex.StarIsGreedy | scripts/check-docs.ts:23 | A star before an expression that can wait may take everything. |
| Collaborators.MergeCollaborators | apps/web/components/CollaborativeDraftView.tsx:199-246 | The result has one entry for every id of the three sources in first-seen order, with everything known about that id. |
| Collaborators.MergedIds | apps/web/components/CollaborativeDraftView.tsx:199-246 | Something is known about exactly the ids of the three sources, and it carries that id. |
| Collaborators.ApiPerson | apps/web/components/CollaborativeDraftView.tsx:206-241 | A person listed by the API keeps name, avatar and role of their last entry, and is online exactly when they are the current user or live. |
| Collaborators.UserNotListed | apps/web/components/CollaborativeDraftView.tsx:211-223 | The current user, when not listed, is online and an owner, with their own id, name and picture, and with the last colour that a live entry sets, or else their own, or else `#3b82f6`. |
| Collaborators.LastColorIs | apps/web/components/CollaborativeDraftView.tsx:232-238 | The last non-empty colour of the live entries wins, and without one the known colour stays. |
| Collaborators.OfIdSelects | apps/web/components/CollaborativeDraftView.tsx:207-209 | What a source says about an id are its entries with that id, in their order. |
| Collaborators.LiveOnlyPerson | apps/web/components/CollaborativeDraftView.tsx:232-243 | A person known only from the live list appears as first listed there, and is online for certain only when repeated. |
| OrderedMap.FirstSeenSpec | apps/web/components/CollaborativeDraftView.tsx:204-245 | First-seen order lists every key once, ordered by first appearance. |
| Networking.BuildNetwork | infrastructure/pulumi/networking.ts:36-140 | The loops fail exactly without zones outside prod; otherwise every NAT index is valid and in prod selects the NAT in the same-index public subnet. |
| Networking.BlockAddresses | infrastructure/pulumi/networking.ts:36-68 | A block written `a.b.c.0/20` covers exactly the addresses that begin with a.b and whose third number is one of the sixteen from c on; the VPC consists of all that begin with a.b. |
| Networking.SoundIffEightZones | infrastructure/pulumi/networking.ts:36-68 | All blocks are aligned, inside the /16 and pairwise disjoint (section 3.1 of RFC 4632) if and only if there are at most eight zones. |
| Networking.NineZonesCollide | infrastructure/pulumi/networking.ts:36-68 | From nine zones on, the ninth public block is the first private one and the ninth private block lies behind the /16. |
| Networking.EightZonesTile | infrastructure/pulumi/networking.ts:36-68 | With eight zones every address of the /16 lies in exactly one block. |
| Networking.FewerZonesLeaveGaps | infrastructure/pulumi/networking.ts:36-68 | With fewer zones some address of the /16 is in no block. |

## Left out

- `apps/api/src/server.ts`: route mounting is decided by a library that is not in the repository.
- The parsing of the server source for mounts and endpoints, the scan for user-interface files, the regression mode and the report of the route audit: endpoints and files are given sequences.
- The rest of `renderMarkdown` after escaping: a chain of presentation expressions without an independent meaning to prove.
- The filters, the search and the "new" badge of the changelog list, and the sorting of the loaded releases by date: short facts about library calls.
- Reading the changelog directory and the documents, and the exemption lists of `scripts/check-docs.ts`: the texts and the list of documents are given.
- The server-side export that the CSV writer is the fallback for, and the download of the result.
- Cells that are neither numbers nor strings, and `NaN`, in the sorted table; the collation rules of `localeCompare`.
- Rendering, animation, haptics other than whether they fire, gesture handling, focus, and the progress bar of a toast.
- The text of local storage: the stored signatures are the value that was saved, or nothing when it does not parse. A stored copy that violates the invariant already is outside the runs that are considered.
- The bodies of HTTP requests and answers, and the other stores of the mobile app.
- Pulumi resources other than subnets, NAT gateways and private routes.
- Snooze presets, the mini calendar, focus-timer formatting, swipe thresholds and skeleton widths: short single-function facts.
- QuerySort.ClickSortsColumn: says nothing about columns for which the comparator is inconsistent (QuerySort.ConsistentIffSortsProperly), because the language leaves the result of the sort to the implementation there.
- UndoToast.ExpiresAtMostOnce: needs a careful run, because exactly without one it is false of the code (UndoToast.SafeIffCareful); an id that was used before is not added again.
- MobileAuth.CarefulRunHasToken: needs that no token is deleted under an operation that relies on it, because exactly without this it is false of the code (MobileAuth.HarmlessIffCareful), and that issued tokens are not empty. The server is taken to refuse a request for the user that carries no token, as `apps/api/src/routes/auth.ts` lines 677-679 do.
- Signatures.RunInv: needs fresh ids and listed defaults; ids come from the clock and a random number, which nothing in the code forces to be fresh.
- DocsStamp.DocsCheck.Fix: takes each file from a list without repetitions, as a directory scan gives it.
- OptimisticList: the update that fills the snapshot is one atomic step with the start of the action; a runtime that delayed it past the rejection would roll nothing back.
