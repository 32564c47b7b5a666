# Spacewave: verified models of five cores

This project models, in Dafny, five parts of the repository and proves what they promise.

**The Resource generation protocol** (`spacewave_resource/server.py`, `spacewave_resource/client.py`).
A server keeps, for each client generation, a forest of resources with a children index, a pending flag for each
resource, permanent tombstones and the last control ID. A client keeps reference-counted incarnations of resource IDs
and two control counters. Adopt and Release controls travel one way over a FIFO queue; acknowledgements and
ResourceReleased notices travel back over another.
`ResourceForest` and `ResourceGeneration` say what each server section does to a generation as a value,
`ResourceWalk` relates the in-place sweeps to those values, and `ResourceServer` holds the classes whose methods
mutate the fields, each tied to its value function through `State()`. `ResourceClientSpec` and `ResourceClient` do the
same for the client. `ResourceProtocol` joins the two ends into one step relation. `ResourceFate` says what a queue of
controls will do to a resource, `ResourceAgreement` proves what every step keeps, and `ResourceRuns` and
`ResourceEndurance` state the results for whole runs, of any length and in any interleaving. `ResourceWindows` proves
exactly when the two ends stop agreeing, and `ResourceWitness` gives the runs that get there. `ResourceAnswers` says
what each call, release task and response of the client comes to: what is handed out, queued, awaited and gone.

The main results for whole runs, and where the code parts from its intent:

- What an open client holds is live, about to be adopted or about to be revoked, or the end of the stream or its failure
  is on its way, in every state of every run without a misleading reference (`JointAgreement`). While the server still
  reads the generation's controls neither is on its way, so that one of the first three holds (`EndingKept`).
  A reference misleads when its Adopt is queued ahead of a Release of the same ID that is still owed, in the window
  between retiring the last reference and enqueueing its Release, and the ID is alive and not about to die anyway;
  referencing the root or a dead ID there is harmless. With no control ID left it misleads when the ID is dead, or about
  to die of its own Release, and nothing tells the client (`MisleadsMeans`): the call raises, but its table entry stays.
  `ReferenceSafeIff` proves, for any queue, that a step is safe in every future exactly unless it misleads, and
  `AgreementForever` that the invariant behind this is the weakest one.
- Nothing adopted is forgotten, whatever is referenced when, unless the client failed: an adopted resource is held, or
  its Release is queued or owed, in every state of every run without a forgetful release (`NothingForgotten`). So once
  closing has sent its Releases and the server has taken every control, nothing but the root is left adopted
  (`CloseDrains`), and nothing else when the client is closed (`ClosedLeavesRoot`). Only exhaustion makes a release
  forgetful: with no control ID left, the last reference of an adopted resource is retired and no Release is sent
  (`ForgetsMeans`, `ResumeForgets`, `CloseForgets`). `ReleaseSafeIff` proves that a step is safe in every future exactly
  unless it forgets. A client that failed has dropped its controls; its resources stand until the server tears the
  generation down, and neither statement speaks of them.
- Both failures are real. Every generation that can construct one resource reaches a state in which referencing it
  again misleads, in five steps (`OvertakingIsReached`), and states with no control ID left in which a reference
  misleads and a release forgets (`ExhaustionIsReached`, `ForgettingIsReached`).
- A generation whose client names only IDs that it gave out never fails of its own accord (`NeverFailsByItself`).
- The order of both queues, the exactly-once settlement and at most one Release for each incarnation hold in every
  run, with no such condition. That a retired incarnation which was not revoked does send its Release, or still owes
  it, holds until a Release finds no control ID, and no longer (`AccountedKept`, `OneRelease`).

**The wire codec** (`identity/identity.pb.go`). `Wire` is the Protocol Buffers encoding (Encoding, sections "Base 128
Varints", "Length-Delimited Records", "Groups" and "Last One Wins") that the generated code relies on through a library
that is not part of the repository. `Identity` gives the messages Entity, EntityKeypairSet, EntityKeypair, Keypair and
`peer.Signature` as functions, and `IdentityCodec` runs them in place: decode loops over message objects, and encoders
that fill a presized array from its end backwards. A message reads back as written exactly when its unknown bytes hold
unknown fields only, and decoding never produces any other kind. `WireFormat` and `IdentityFields` say what the bytes
mean apart from any codec: the value of a varint, the extent of a field, groups included, and what each field of each
message is read into.

**The signed keypair set** (`identity/entity-keypair-set.go`). `KeypairSets` models appending and verification over any
signature scheme whose signatures carry and verify with their own public key.

**The shared tab store and the tab order of a document** (`app/BrowserShellTabsStore.ts`, `app/ShellTabContext.tsx`).
`TabStore` models storage as one snapshot, a mutation as one atomic section under the Web Lock, and any number of
documents whose views follow storage events that may be late, repeated or reordered. Two results part from what one
might expect: a commit with an empty ID or name, or past the safe integers, can never be read again, and a commit is
readable exactly when that does not happen (`TransitionValidIff`, `BadCommitIsFinal`); and the search for a fresh tab
ID makes up to |records| + 2 tries, the last of them exactly when the IDs in use are the suffixed candidates and the
first, plain ID tried is one of those (`LastTryIff`). Over a whole run, with commits, events and reads interleaved at
will, a document that was sent the last commit at any point ends up showing what is stored, exactly when that commit is
readable or its own (`ConvergesInRun`).

**Two algorithms** (`app/ShellGridLayout.tsx`, `app/alarm/alarm-view.ts`). `GridLayout` models `reconcileModelWithTabs`
and `Alarms` models `linkedAlarms`.

Preconditions that come from Go rather than from the functions modelled: an encoded message is shorter than 2^64 bytes,
and a keypair record handed to `AppendKeypair` holds no hand-made unknown bytes (the field is private and only decoding
writes it, and what decoding writes is always well formed, see `DecodedEntityKeypair`).

## Model

| member | source | states |
|---|---|---|
| `ResourceForest.ExactCascade` | spacewave_resource/server.py:454-482 | A release removes exactly the target (unless it is retained) and what hangs below it through pending children, each once, every child before its ancestors |
| `ResourceForest.TeardownIsComplete` | spacewave_resource/server.py:521-537 | Teardown removes every live resource once, orphaned adopted subtrees included, children before their ancestors |
| `ResourceGeneration.OpenedValid` | spacewave_resource/server.py:183-193 | A new generation satisfies the forest invariant and knows only its root |
| `ResourceGeneration.ConstructChildValid` | spacewave_resource/server.py:361-384 | Constructing under a live parent with a fresh ID keeps the forest invariant and adds exactly that ID |
| `ResourceGeneration.BatchIsClosed` | spacewave_resource/server.py:454-482 | The batch of a release takes every pending child of a removed resource along and never the root |
| `ResourceGeneration.RemovalSettles` | spacewave_resource/server.py:484-510 | After a batch is settled every tombstone has exactly one settlement |
| `ResourceGeneration.ReleaseValid` | spacewave_resource/server.py:416-452 | A release of any ID by anyone keeps the forest invariant: exact index, pending resources attached, tombstones disjoint from the living, one settlement for each tombstone |
| `ResourceGeneration.AdoptValid` | spacewave_resource/server.py:260-277 | Adopting keeps the forest invariant and constructs nothing |
| `ResourceGeneration.ApplyControlValid` | spacewave_resource/server.py:232-258 | An accepted control keeps the forest invariant and the set of known IDs |
| `ResourceGeneration.TeardownValid` | spacewave_resource/server.py:516-542 | Teardown keeps the invariant, leaves nothing live and closes the generation |
| `ResourceGeneration.NoticesExact` | spacewave_resource/server.py:443-451 | A notice is sent for each removed resource, for the target only when asked, and for nothing else |
| `ResourceGeneration.ReleaseAnnounces` | spacewave_resource/server.py:443-451 | A release queues one notice for each Resource it removed, the target's only on request, and for a Resource only behind all that hung below it |
| `ResourceProtocol.RevokeAnnounces` | spacewave_resource/server.py:386-414 | The same for a handler's release, target included |
| `ResourceProtocol.ConsumeAnnounces` | spacewave_resource/server.py:232-258 | And for a Release from the client, silent on its target, with its acknowledgement behind the notices |
| `ResourceGeneration.ReleaseAnswers` | spacewave_resource/server.py:416-452 | Not found exactly for an ID never constructed; released exactly if the ID was live; caller removed exactly if the caller's route was open on one of the Resources that went |
| `ResourceGeneration.ControlAcceptedIff` | spacewave_resource/server.py:232-277 | Accepted exactly: the next control, if it releases a known ID, or adopts one while the generation stands, or releases anything once it closes |
| `ResourceGeneration.ConstructMeans` | spacewave_resource/server.py:361-384 | A new child is pending under its parent, in the forest and in the index, without routes; nothing else moves |
| `ResourceGeneration.ReleaseJoins` | spacewave_resource/server.py:484-510 | Each settlement of a release joins the routes open on its Resource, all but the caller's |
| `ResourceGeneration.TeardownJoins` | spacewave_resource/server.py:516-542 | The same for teardown |
| `ResourceRuns.SettlesAfterRoutes` | spacewave_resource/server.py:305-350 | In every state of every run, what the next step settles has had exactly those routes joined that the run opened on it and did not close since, the caller's left out |
| `ResourceServer.Generation.RemovePending` | spacewave_resource/server.py:459-463 | The recursive sweep in place removes the post-order of the pending children, lowest ID first |
| `ResourceServer.Generation.RemoveOne` | spacewave_resource/server.py:465-477 | Removing one resource in place: its pending subtree, then itself, out of the forest, the index and into the tombstones |
| `ResourceServer.Generation.RemoveLocked` | spacewave_resource/server.py:454-482 | The list of removed resources and all four fields after the sweep, target retained or not |
| `ResourceServer.Generation.SettleRemoved` | spacewave_resource/server.py:484-510 | Each removed resource is settled once, in order, having joined all its routes but the caller |
| `ResourceServer.Generation.NotifyRemoved` | spacewave_resource/server.py:443-451 | The notices are queued in the order of removal, which is that of `ResourceGeneration.ReleaseAnnounces` |
| `ResourceServer.Generation.ReleaseOwned` | spacewave_resource/server.py:416-452 | The whole release section in place, with its outcome: closing, already dead, not found, released, caller removed |
| `ResourceServer.Generation.Adopt` | spacewave_resource/server.py:260-277 | The adopt section in place: a live resource becomes adopted, a dead one is answered with a notice, an unknown one fails |
| `ResourceServer.Generation.Apply` | spacewave_resource/server.py:232-258 | A control is refused unless its ID is the last one plus 1; otherwise it is applied and acknowledged |
| `ResourceServer.Generation.Construct` | spacewave_resource/server.py:361-384 | A pending child is entered in the forest and in its parent's index entry |
| `ResourceServer.Generation.RemoveTree` | spacewave_resource/server.py:525-534 | The recursive teardown of one tree in place, skipping what was visited |
| `ResourceServer.Generation.ReleaseGenerationOwned` | spacewave_resource/server.py:516-542 | The whole teardown section in place: removal, settlement, closing flag, stream end; a second teardown changes nothing |
| `ResourceServer.Server.AllocateId` | spacewave_resource/server.py:563-567 | The counter moves on even when the ID space is exhausted; every ID returned is new |
| `ResourceServer.Server.OpenClient` | spacewave_resource/server.py:183-193 | A new generation gets two fresh IDs; no ID is shared between generations |
| `ResourceServer.Server.ConstructChild` | spacewave_resource/server.py:361-384 | The new ID was held by no generation, and IDs stay disjoint between generations |
| `ResourceServer.Server.FindResource` | spacewave_resource/server.py:569-578 | The answer is the only generation that holds the ID, in whatever order they are searched |
| `ResourceServer.Server.ApplyControl` | spacewave_resource/server.py:217-258 | A control changes its own generation only, as it would alone, and keeps the server's invariant |
| `ResourceServer.Server.AddRoute` | spacewave_resource/server.py:305-309 | A route that opens changes its own generation only, and keeps the server's invariant |
| `ResourceServer.Server.DropRoute` | spacewave_resource/server.py:348-350 | The same for a route that ends |
| `ResourceServer.Server.ReleaseResource` | spacewave_resource/server.py:386-414 | A handler's release changes its own generation only, and keeps the server's invariant |
| `ResourceServer.Server.ReleaseGeneration` | spacewave_resource/server.py:512-542 | A torn down generation leaves the table; the others are untouched |
| `ResourceServer.Server.Close` | spacewave_resource/server.py:544-550 | Every generation is torn down and none can be opened afterwards |
| `ResourceClientSpec.CreateReferenceKeeps` | spacewave_resource/client.py:178-194 | Referencing keeps the table, the counters and the accounting of Releases, also when control IDs run out |
| `ResourceAnswers.ReferenceOutcome` | spacewave_resource/client.py:178-194 | When a reference is refused, for each error exactly: not live, ID zero, a first use with no control ID left; and what that leaves behind, a table entry in the last case only |
| `ResourceAnswers.ReferenceHandsOut` | spacewave_resource/client.py:178-194 | What is handed out is a new reference, live, not released and among those of the table's incarnation; the older ones stay as they were, and only a first use queues an Adopt |
| `ResourceAnswers.CloneHandsOut` | spacewave_resource/client.py:75-78 | A clone is refused exactly for a reference that is not live, and is otherwise a new reference to the same incarnation |
| `ResourceAnswers.ReferencesAreNew` | spacewave_resource/client.py:178-194 | So in every state of every run |
| `ResourceAnswers.ReleaseMarks` | spacewave_resource/client.py:86-94 | Releasing marks its reference alone and asks for its task once, however often it is called |
| `ResourceClientSpec.RetireKeeps` | spacewave_resource/client.py:357-377 | A retired incarnation loses its references, its table entry and its waiters, and owes nothing yet |
| `ResourceAnswers.RetireTakes` | spacewave_resource/client.py:357-377 | Retiring takes the incarnation's references, its own waiters and its own table entry, never another's |
| `ResourceAnswers.ReleaseTaskRuns` | spacewave_resource/client.py:301-316 | A release task drops its own reference only; the last one of a live incarnation retires it, and its Release is sent at once or owed until the routes have closed |
| `ResourceAnswers.ReleaseTaskResumes` | spacewave_resource/client.py:306-316 | The task that comes back sends what it owes, and nothing after a failure or at exhaustion |
| `ResourceClientSpec.RunReleaseKeeps` | spacewave_resource/client.py:301-316 | A release task keeps the client's invariant whether or not it suspends on routes |
| `ResourceClientSpec.ResumeReleaseKeeps` | spacewave_resource/client.py:306-316 | The suspended half of a release task sends the Release it owes |
| `ResourceClientSpec.AcknowledgeKeeps` | spacewave_resource/client.py:281-299 | An expected acknowledgement leaves exactly the later controls pending |
| `ResourceClientSpec.HandleKeeps` | spacewave_resource/client.py:249-264 | Every response keeps the client's invariant, protocol errors included |
| `ResourceAnswers.ResponseMeans` | spacewave_resource/client.py:222-299 | An expected acknowledgement frees its own waiter; a notice retires what is held under its ID, or does nothing; the end is expected only when closing with nobody waiting; all else fails the client |
| `ResourceAnswers.FailingTakesAll` | spacewave_resource/client.py:379-405 | A client that fails holds, awaits and queues nothing, and exactly the references in use are released with it |
| `ResourceClientSpec.RetireGenerationKeeps` | spacewave_resource/client.py:379-405 | Failing the generation ends every incarnation and drops every pending control |
| `ResourceClientSpec.BeginCloseKeeps` | spacewave_resource/client.py:415-433 | Closing ends every live incarnation, and each of them owes one Release |
| `ResourceClientSpec.CloseReleaseKeeps` | spacewave_resource/client.py:433-442 | Closing sends each owed Release once, by ascending resource ID |
| `ResourceAnswers.ClosingOwes` | spacewave_resource/client.py:415-433 | Closing releases every reference in use and owes a Release for each incarnation it held, by ascending ID; it queues nothing yet |
| `ResourceAnswers.CloseSendsInOrder` | spacewave_resource/client.py:433-442 | In every run those Releases are queued with consecutive control IDs by ascending resource ID, as many as there are control IDs left |
| `ResourceClient.ResourceClient.EnqueueControl` | spacewave_resource/client.py:266-280 | The next control ID, its waiter, its pending mark and its place in the queue; refused when failed or exhausted |
| `ResourceClient.ResourceClient.CreateResourceReference` | spacewave_resource/client.py:178-194 | The reference of `ResourceAnswers.ReferenceHandsOut` in place, with the table entry and the Adopt of a first use, and every error case |
| `ResourceClient.ResourceClient.CloneReference` | spacewave_resource/client.py:75-78 | The clone of `ResourceAnswers.CloneHandsOut` in place |
| `ResourceClient.ResourceClient.Release` | spacewave_resource/client.py:86-94 | A reference is released at most once |
| `ResourceClient.ResourceClient.ReleaseReference` | spacewave_resource/client.py:301-316 | The last reference retires its incarnation and sends its Release, or waits for routes first |
| `ResourceClient.ResourceClient.RetireState` | spacewave_resource/client.py:357-377 | Waiters of the incarnation's controls complete, its own table entry goes, its references are marked released |
| `ResourceClient.ResourceClient.AcknowledgeControl` | spacewave_resource/client.py:282-299 | Accepted exactly when it is the acked ID plus 1, issued and pending |
| `ResourceClient.ResourceClient.HandleResponse` | spacewave_resource/client.py:222-264 | One response in place, errors failing the generation |
| `ResourceClient.ResourceClient.RetireGeneration` | spacewave_resource/client.py:379-405 | Failing in place: table, incarnations, references, waiters, queue |
| `ResourceClient.ResourceClient.CloseBegins` | spacewave_resource/client.py:415-433 | The first half of closing in place |
| `ResourceClient.ResourceClient.CloseReleases` | spacewave_resource/client.py:433-442 | The Releases of closing, in the order of resource IDs |
| `ResourceClient.ResourceClient.FinishControls` | spacewave_resource/client.py:460-470 | The end marker is queued once; discarding empties the queue |
| `ResourceProtocol.BaseKept` | spacewave_resource/server.py:217-258 | Every step of either end keeps both ends' invariants, both queue orders and the finality of notices |
| `ResourceProtocol.ConsumeKeepsOrder` | spacewave_resource/server.py:232-258 | The next queued control carries the server's last ID plus 1 |
| `ResourceProtocol.ReceiveKeepsOrder` | spacewave_resource/client.py:281-299 | The next queued acknowledgement is the one the client expects |
| `ResourceProtocol.AckFollowsNotices` | spacewave_resource/server.py:232-258 | In the step that applies a control its acknowledgement is queued behind the notices that step causes, and nothing else is |
| `ResourceProtocol.EndingKept` | spacewave_resource/server.py:195-230 | While the client is live, the server reads its controls and the generation stands exactly as long as neither the end of the stream nor a failure is queued; a closed or failed client has nothing queued |
| `ResourceFate.SteeredIsApplied` | spacewave_resource/server.py:232-277 | What one control does to the forest: exactly its target and what hangs below it through pending children go, or its target is adopted |
| `ResourceFate.SameFate` | spacewave_resource/server.py:416-452 | What two forests share meets the same end under one queue of controls, however they differ elsewhere: revocations and constructions change the fate of nothing else |
| `ResourceFate.AdoptedFate` | spacewave_resource/server.py:232-277 | An adopted resource dies of nothing but its own Release, and unheard exactly if no Adopt of it stands behind the first one |
| `ResourceFate.UpheldStands` | spacewave_resource/server.py:416-482 | A resource, pending ones included, outlives a queue of controls exactly if no Release of it is queued, nor, ahead of its first Adopt, one of what it hangs below through pending resources |
| `ResourceFate.SilentByQueue` | spacewave_resource/server.py:416-452 | And it dies unheard exactly if its first Release finds it standing and no Adopt of it follows |
| `ResourceAgreement.ToldKept` | spacewave_resource/client.py:178-194 | What the client holds will not die unheard: that survives every step of either end but a misleading reference |
| `ResourceAgreement.KeptKept` | spacewave_resource/client.py:301-316 | What will stand adopted is held, or its Release is owed: that survives every step but a release that finds no control ID left |
| `ResourceAgreement.ToldMeans` | spacewave_resource/client.py:249-264 | The first invariant implies that what an open client holds is live, about to be adopted or about to be revoked, or the end or failure of the stream is queued |
| `ResourceAgreement.KeptMeans` | spacewave_resource/client.py:301-316 | The second implies, for a client that has not failed, that an adopted resource is held, or its Release is queued or owed |
| `ResourceAgreement.FateAfterControl` | spacewave_resource/server.py:232-258 | Consuming a control changes the fate of no ID: what was to stand, to stand adopted or to die unheard still is, and nothing else |
| `ResourceAgreement.RunIsWaitThenResume` | spacewave_resource/client.py:301-316 | Releasing without open routes is the same as waiting for routes and resuming at once |
| `ResourceRuns.OrderingSafety` | spacewave_resource/client.py:266-299 | No run reaches the unexpected control ID error or the unexpected or unknown acknowledgement errors; both queues hold exactly the IDs between the counters |
| `ResourceRuns.JointAgreement` | spacewave_resource/client.py:178-316 | In every state of a run without a misleading reference an ID held by an open client is live, about to be adopted or about to be revoked, or the end of the stream or its failure is queued: teardown and refused controls included |
| `ResourceRuns.NothingForgotten` | spacewave_resource/client.py:178-316 | In every state of a run in which no Release that is still wanted lacks a control ID, and in which the client has not failed, an adopted resource is held, or its Release is queued or owed, also when IDs are referenced again inside the release window, after the end of the controls and after closing |
| `ResourceRuns.CloseDrains` | spacewave_resource/client.py:407-458 | Once closing has sent its Releases, unless the client failed, nothing but the root is adopted without a Release queued: nothing at all when the server has taken the queue |
| `ResourceRuns.ClosedLeavesRoot` | spacewave_resource/client.py:444-458 | When the end marker has been taken, or the client is closed, nothing but the root is left adopted |
| `ResourceWindows.RunStaysFit` | spacewave_resource/server.py:217-258 | Every run of a client that names known IDs only, while it runs, meets the hypotheses of the exact results below |
| `ResourceWindows.AgreementForever` | spacewave_resource/client.py:178-316 | The first invariant holds exactly if every future without a misleading reference agrees |
| `ResourceWindows.NoLeakForever` | spacewave_resource/client.py:178-316 | The second holds exactly if no future without a forgetful release leaks |
| `ResourceWindows.ReferenceSafeIff` | spacewave_resource/client.py:178-194 | From every state that meets the invariant, whatever is queued: a step keeps agreement in every such future exactly unless it misleads |
| `ResourceWindows.MisleadsMeans` | spacewave_resource/client.py:178-194 | When a reference misleads, as its caller sees it: short of exhaustion for a living ID, pending or adopted, that owes a Release and that no queued Release takes down, at exhaustion for one about to die unanswered or dead untold, and never for the root |
| `ResourceWindows.ReleaseSafeIff` | spacewave_resource/client.py:301-316 | From every state that meets the invariant a step keeps leaks away in every thrifty future exactly unless it forgets; closing included |
| `ResourceWindows.WantedMeans` | spacewave_resource/client.py:266-316 | An ID will stand adopted, as its caller can read off the queue, exactly if nothing queued takes it down and its last control is not a Release; for an adopted one, if it is not the root and no Release of it is queued |
| `ResourceWindows.ForgetsMeans` | spacewave_resource/client.py:266-316 | When a release forgets: at exhaustion, for the last reference of a resource due to stand adopted whose Release no other incarnation owes |
| `ResourceWindows.ResumeForgets` | spacewave_resource/client.py:306-316 | The same for a release that comes back from closing its routes, unless the ID was referenced anew |
| `ResourceWindows.CloseForgets` | spacewave_resource/client.py:433-442 | And for closing: it forgets exactly if one of its Releases lies past the last control ID, for an ID due to stand adopted that no Release sent ahead names |
| `ResourceWindows.ForgottenAtOnce` | spacewave_resource/client.py:266-316 | Such a release leaks in the very next state, and any other does not |
| `ResourceWindows.MisleadingExactly` | spacewave_resource/client.py:178-194 | In every running state that a run from the opening reaches without misleading, with a client that names known IDs, the next step is safe for agreement exactly unless it misleads |
| `ResourceWindows.ForgettingExactly` | spacewave_resource/client.py:301-316 | And in every running state that one reaches without forgetting, misled or not, the next step is safe against leaks exactly unless it forgets |
| `ResourceWitness.OvertakingIsReached` | spacewave_resource/client.py:301-316 | From every opening that can construct one resource five unobjectionable steps lead to a drained queue and a reference that misleads |
| `ResourceWitness.ExhaustionIsReached` | spacewave_resource/client.py:266-280 | And an unobjectionable run leads to the last control ID, a dead resource of which nothing tells, and a reference to it that misleads |
| `ResourceWitness.ForgettingIsReached` | spacewave_resource/client.py:266-316 | And one to the last control ID and a last reference whose release forgets |
| `ResourceRuns.DeadStaysDead` | spacewave_resource/server.py:454-482 | Tombstones and settlements are permanent over every continuation of every run |
| `ResourceRuns.ExactlyOnce` | spacewave_resource/server.py:484-542 | Over any run that ends in teardown every constructed resource is settled exactly once |
| `ResourceRuns.SettlesChildFirst` | spacewave_resource/server.py:454-542 | In every state of every run the next step settles exactly the resources it ends, each ahead of all its ancestors among them, adopted or pending |
| `ResourceRuns.AccountedKept` | spacewave_resource/client.py:301-316 | A retired incarnation stays accounted for, as sent, revoked or owing, over every step exactly unless that step finds no control ID for a Release |
| `ResourceRuns.OneRelease` | spacewave_resource/client.py:301-316 | Under any interleaving an incarnation sends one Release, or none if it was revoked first; the Releases still queued are the last ones sent, in order |
| `ResourceRuns.UnreleasedIsLive` | spacewave_resource/client.py:357-405 | In every run a reference that is not released belongs to a live incarnation in the table: revocation, closing and failure mark every reference they end |
| `ResourceEndurance.NeverFailsByItself` | spacewave_resource/server.py:217-258 | In every run in which the client names only IDs of its generation, the server refuses no control and the client no response |
| `ResourceEndurance.KnownControlIsAccepted` | spacewave_resource/server.py:232-277 | A control with the next ID that names a known resource is always accepted |
| `ResourceEndurance.EndFindsNoWaiters` | spacewave_resource/client.py:222-247 | When the end of the stream arrives, every control was acknowledged before it |
| `ResourceRuns.PendingExact` | spacewave_resource/client.py:266-299 | In every run the pending control IDs are exactly those after the acknowledged one, and only those have waiters |
| `Wire.VarintRoundTrip` | identity/identity.pb.go:2027 | Every 64-bit value reads back from its varint, whatever follows it |
| `WireFormat.VarintMeans` | identity/identity.pb.go:1329-1371 | The varint of n is the sum of its 7-bit groups, lowest first, marks every byte but the last, and is the shortest that does |
| `WireFormat.ReadVarintMeans` | identity/identity.pb.go:2028 | A varint is read exactly if it ends within ten bytes, as that sum modulo 2^64, the shortest or not |
| `WireFormat.ReadBytesMeans` | identity/identity.pb.go:2046 | A record is read exactly if its length and that many bytes are there |
| `WireFormat.SkipTakesField` | identity/identity.pb.go:2093-2105 | Skipping takes exactly one field of any of the five kinds, groups within groups included |
| `WireFormat.SkipRefuses` | identity/identity.pb.go:2093-2105 | It fails for what is no field: no tag, wire types 6 and 7, an end of a group that was not begun, a payload cut short |
| `WireFormat.TagDecides` | identity/identity.pb.go:2024-2105 | A known field is read as its kind and refused under another wire type; number zero and the end of a group are refused |
| `WireFormat.UnknownIsKept` | identity/identity.pb.go:2093-2106 | An unknown field of any kind is kept whole |
| `Wire.SkipLocal` | identity/identity.pb.go:2093-2105 | Skipping a field, nested groups included, looks at nothing past its end |
| `Wire.NextFieldLocal` | identity/identity.pb.go:2024-2105 | Reading one field looks at nothing past its end |
| `Wire.ParseConcat` | identity/identity.pb.go:2021-2116 | Parsing a message followed by more bytes is parsing each and joining, or failing where the second part fails |
| `Wire.ParsePrint` | identity/identity.pb.go:1329-1371 | Parsing undoes printing, for every list of printable fields |
| `Wire.UnknownShare` | identity/identity.pb.go:2093-2106 | A decode keeps as unknown no more than it read, and all of it exactly when it knew none of the fields |
| `Wire.DecodeConcat` | identity/identity.pb.go:2021-2182 | Decoding is a stream action: decoding a then b is decoding b into the result of decoding a |
| `Wire.MessageRoundTrip` | identity/identity.pb.go:1329-1371 | Known fields ahead of unknown bytes decode to the message exactly when the unknown bytes hold only unknown fields and the known ones build it |
| `Identity.KeypairRoundTrip` | identity/identity.pb.go:1536-1568 | A keypair reads back as written exactly when its unknown bytes are unknown fields |
| `Identity.SignatureRoundTrip` | net/peer/peer.pb.go:323-350 | The same for a signature, negative hash types included |
| `Identity.EntityKeypairRoundTrip` | identity/identity.pb.go:1442-1474 | The same for an entity keypair, its nested keypair included |
| `Identity.KeypairSetRoundTrip` | identity/identity.pb.go:1391-1422 | The same for a set with repeated fields; nil signatures read back as empty ones |
| `Identity.EntityRoundTrip` | identity/identity.pb.go:1329-1371 | The same for an entity with its nested set |
| `Identity.EntityCodec` | identity/identity.pb.go:555-580 | What is read back is EqualVT to what was written exactly when all unknown bytes, nested ones included, are unknown fields |
| `Identity.EqualIsNormal` | identity/identity.pb.go:555-608 | EqualVT is equality once nil signatures are filled in |
| `Identity.DecodedEntityKeypair` | identity/identity.pb.go:2184-2260 | Whatever is decoded is well formed, so it can be written and read again |
| `Identity.ReencodeEntity` | identity/identity.pb.go:2021-2116 | Writing a decoded entity and reading it again gives the same entity, whatever bytes it came from |
| `Identity.ReencodeEntityKeypair` | identity/identity.pb.go:2184-2260 | The same for an entity keypair |
| `Identity.KeypairLayout` | identity/identity.pb.go:1536-1568 | The exact bytes of a keypair: tags 0x0a, 0x12, 0x1a, 0x22 in order, empty fields left out, unknown bytes last |
| `Identity.SignatureLayout` | net/peer/peer.pb.go:323-350 | The exact bytes of a signature, its hash type sign-extended to 64 bits |
| `Identity.EntityKeypairLayout` | identity/identity.pb.go:1442-1474 | The exact bytes of an entity keypair; a nested keypair is written even when empty |
| `Identity.KeypairSetLayout` | identity/identity.pb.go:1391-1422 | The exact bytes of a set: every keypair, then every signature, empty ones included |
| `Identity.EntityLayout` | identity/identity.pb.go:1329-1371 | The exact bytes of an entity, up to its nested set under tag 0x2a |
| `Identity.EncodeEntity` | identity/identity.pb.go:1711-1727 | SizeVT is exactly the number of bytes written |
| `Identity.EncodeKeypairSet` | identity/identity.pb.go:1729-1742 | The same for a set, repeated fields included |
| `IdentityCodec.EntityMessage.UnmarshalVT` | identity/identity.pb.go:2021-2116 | The decode loop in place succeeds exactly when the bytes decode, and leaves the decoded entity |
| `IdentityFields.KeypairFieldIsSet` | identity/identity.pb.go:2325-2404 | What each field of a keypair is read into, from its bytes: it replaces what was there |
| `IdentityFields.SignatureFieldIsSet` | net/peer/peer.pb.go:477-545 | The same for a signature; a hash type is the low 32 bits of its varint, with their sign |
| `IdentityFields.HashTypeExtends` | net/peer/peer.pb.go:323-350 | A negative hash type is written with its sign extended to 64 bits |
| `IdentityFields.EntityKeypairFieldIsSet` | identity/identity.pb.go:2184-2260 | The same for an entity keypair; a nested keypair is merged into the one already there |
| `IdentityFields.KeypairSetFieldIsAdded` | identity/identity.pb.go:2118-2182 | The fields of a set are appended, keypairs as bytes and signatures read afresh |
| `IdentityFields.EntityFieldIsSet` | identity/identity.pb.go:2021-2116 | The same for an entity; a nested set is merged into the one already there |
| `IdentityFields.LastOneWins` | identity/identity.pb.go:2325-2404 | A field read after any others has its last value |
| `IdentityCodec.EntityKeypairSetMessage.UnmarshalVT` | identity/identity.pb.go:2118-2182 | The same for a set |
| `IdentityCodec.EntityKeypairMessage.UnmarshalVT` | identity/identity.pb.go:2184-2260 | The same for an entity keypair |
| `IdentityCodec.KeypairMessage.UnmarshalVT` | identity/identity.pb.go:2325-2404 | The same for a keypair |
| `IdentityCodec.SignatureMessage.UnmarshalVT` | net/peer/peer.pb.go:477-545 | The same for a signature |
| `IdentityCodec.MarshalKeypair` | identity/identity.pb.go:1536-1568 | The backward writer fills exactly the computed size below the index it is given and touches nothing else |
| `IdentityCodec.MarshalEntityKeypair` | identity/identity.pb.go:1442-1474 | The same for an entity keypair |
| `IdentityCodec.MarshalKeypairSet` | identity/identity.pb.go:1391-1422 | The same for a set, whose repeated fields are written last to first |
| `IdentityCodec.MarshalEntity` | identity/identity.pb.go:1329-1371 | The same for an entity |
| `IdentityCodec.MarshalVT` | identity/identity.pb.go:1311-1322 | The backward index ends at zero and the buffer holds the encoding |
| `KeypairSets.AppendKeeps` | identity/entity-keypair-set.go:20-86 | A successful append adds one keypair of a new peer, signed for the entity |
| `KeypairSets.KnownPeerIsRejected` | identity/entity-keypair-set.go:62-80 | A keypair whose peer is already in the set is never appended again |
| `KeypairSets.AppendsIff` | identity/entity-keypair-set.go:20-86 | A keypair joins a signed set exactly if it is valid, matches the entity, names the peer of the private key, is signed and checked without an error, and its peer is none of the set's; otherwise the set stays as it was |
| `KeypairSets.BrokenSetIsClosed` | identity/entity-keypair-set.go:62-80 | A set with a record that cannot be read, or that names no peer, takes no keypair |
| `KeypairSets.ValidIff` | identity/keypair.go:57-97 | What a valid record is, check by check |
| `KeypairSets.SignedVerifies` | identity/entity-keypair-set.go:91-149 | Verification of a signed set returns its keypairs in order |
| `KeypairSets.SetStaysValid` | identity/entity-keypair-set.go:20-149 | After any sequence of appends from the empty set, successful or not, verification returns exactly the appended keypairs, with distinct peers |
| `KeypairSets.VerifiedMeans` | identity/entity-keypair-set.go:91-149 | Each record of a verified set names the entity, has a public key of its peer and a signature over the stored bytes by a key of that peer |
| `KeypairSets.VerifiesIff` | identity/entity-keypair-set.go:91-149 | Any set, signed by whomever, verifies exactly if each record has a signature beside it and stands the checks, and gives the records as they read |
| `KeypairSets.EntityKeypairSet.AppendKeypair` | identity/entity-keypair-set.go:20-86 | Succeeds exactly under the stated checks; a failing call leaves both lists unchanged |
| `KeypairSets.EntityKeypairSet.UnmarshalVerifyKeypairs` | identity/entity-keypair-set.go:91-149 | The two loops accept exactly the sets whose every keypair is readable, valid and signed by its own peer |
| `TabStore.ParseSnapshot` | app/BrowserShellTabsStore.ts:131-194 | Accepts exactly the snapshots with a good version, good records and unique IDs and sequences, and says which check failed |
| `TabStore.ParseIff` | app/BrowserShellTabsStore.ts:113-194 | Read exactly: schema 1, counters from 0 to 2^53 - 1, records with an ID, a name and a number from 1, none of them twice; a bad version is a stale one, anything else is invalid |
| `TabStore.CreateFreshDefaultRecord` | app/BrowserShellTabsStore.ts:94-110 | The loop ends at the first candidate not in use, within 2 tries more than there are records |
| `TabStore.CollisionsEnd` | app/BrowserShellTabsStore.ts:97-103 | For any ID generator suffixed tries never repeat, so no more of them collide than there are records |
| `TabStore.LastTryIff` | app/BrowserShellTabsStore.ts:97-103 | The last of those tries is needed exactly when the IDs in use are the suffixed candidates and the plain one is among them |
| `TabStore.LastTryUnneeded` | app/BrowserShellTabsStore.ts:97-103 | One try fewer is enough for a generator whose first ID is none of the suffixed candidates |
| `TabStore.LastTryIsReached` | app/BrowserShellTabsStore.ts:97-103 | A generator that does need the last try |
| `TabStore.DecimalMeans` | app/BrowserShellTabsStore.ts:102 | The suffix of a try is its number in decimal |
| `TabStore.CommitIsNewer` | app/BrowserShellTabsStore.ts:418-495 | A commit applies its transition to the snapshot its version names, and raises the version |
| `TabStore.CommitIff` | app/BrowserShellTabsStore.ts:447-496 | When a mutation is refused and with which error: what is stored, then the version it carries, then the tab it names |
| `TabStore.TransitionIff` | app/BrowserShellTabsStore.ts:275-401 | A new tab collides exactly with one of its ID, and any other mutation misses its tab exactly when none has that ID |
| `TabStore.CreateAdds` | app/BrowserShellTabsStore.ts:275-303 | A created tab stands behind the others with the ID, path and names it was given and the number after the highest |
| `TabStore.ResetLeaves` | app/BrowserShellTabsStore.ts:403-426 | A reset leaves one tab: the one asked for, and the home tab where nothing is given |
| `TabStore.LastCloseLeaves` | app/BrowserShellTabsStore.ts:381-401 | Closing the last tab leaves a home tab of another ID |
| `TabStore.VersionAfter` | app/BrowserShellTabsStore.ts:403-445 | A reset begins the next epoch at revision 1, and any other mutation adds a revision |
| `TabStore.TransitionValidIff` | app/BrowserShellTabsStore.ts:275-445 | An accepted mutation leaves a readable snapshot exactly when no ID or name becomes empty and the counters have room |
| `TabStore.TransitionKeepsOrder` | app/BrowserShellTabsStore.ts:275-426 | No mutation empties the store or breaks the ascending order of creation |
| `TabStore.OtherTabsUntouched` | app/BrowserShellTabsStore.ts:275-401 | Short of a reset a mutation leaves every other tab as it was, in its place |
| `TabStore.TargetIsChanged` | app/BrowserShellTabsStore.ts:305-379 | A path brings its derived name and keeps the custom one; a name or custom name touches nothing else |
| `TabStore.ViewIsGreatest` | app/BrowserShellTabsStore.ts:536-554 | After any events a view is the greatest version among its own and the readable ones it was sent |
| `TabStore.ViewIgnoresOrder` | app/BrowserShellTabsStore.ts:536-554 | Reordered or repeated events lead to the same view |
| `TabStore.EventsInAnyOrder` | app/BrowserShellTabsStore.ts:536-554 | Over the commits of any world, order and repetition of events make no difference |
| `TabStore.ViewNeverGoesBack` | app/BrowserShellTabsStore.ts:465-554 | No step of any document moves a view to an older version |
| `TabStore.VersionsIncrease` | app/BrowserShellTabsStore.ts:418-495 | In any interleaving versions increase lexicographically, so equal versions mean equal snapshots |
| `TabStore.NoLostUpdate` | app/BrowserShellTabsStore.ts:196-207 | A mutation that carries the version of a snapshot commits only as a transition of that snapshot |
| `TabStore.ConvergesIff` | app/BrowserShellTabsStore.ts:536-554 | Once the last commit's event has arrived the view equals storage, exactly when that commit is readable or the document's own |
| `TabStore.DeliveredIsSeen` | app/BrowserShellTabsStore.ts:536-554 | Whatever else a run commits, delivers and reads, a document never again shows less than a readable commit it was sent |
| `TabStore.ConvergesInRun` | app/BrowserShellTabsStore.ts:447-554 | In any interleaving a document that was sent the last commit ends up showing what is stored, exactly when that commit is readable or the document made it |
| `TabStore.StoreStaysSound` | app/BrowserShellTabsStore.ts:131-194 | From empty storage, with fine inputs, every commit is readable, ascending and not empty |
| `TabStore.BadCommitIsFinal` | app/BrowserShellTabsStore.ts:403-426 | After a commit that is not fine nothing is accepted any more |
| `TabStore.BrowserShellTabsStore.Read` | app/BrowserShellTabsStore.ts:266-269 | A read shows what is stored, or keeps the view and reports the error |
| `TabStore.BrowserShellTabsStore.RunMutation` | app/BrowserShellTabsStore.ts:447-496 | The locked section in place: read, compare, apply, write, show; an error changes nothing |
| `TabStore.BrowserShellTabsStore.HandleStorageEvent` | app/BrowserShellTabsStore.ts:536-554 | An event is taken only if it is readable and newer |
| `TabOrder.NormalizeIsPermutation` | app/ShellTabContext.tsx:130-152 | The order names every record's ID exactly once and nothing else |
| `TabOrder.NormalizeKeepsOrder` | app/ShellTabContext.tsx:130-152 | Ordered tabs keep the relative order of their first places; the others follow by creation |
| `TabOrder.BySequenceStable` | app/ShellTabContext.tsx:143-145 | Tabs created under one number keep their order |
| `TabOrder.NormalizeIdempotent` | app/ShellTabContext.tsx:130-152 | Normalising twice is normalising once |
| `TabOrder.NormalizeLocalOrder` | app/ShellTabContext.tsx:130-152 | The two loops compute the normalised order |
| `TabOrder.InsertedAfterAnchor` | app/ShellTabContext.tsx:113-128 | After normalising, a new tab stands immediately behind a live anchor |
| `TabOrder.InsertedExactly` | app/ShellTabContext.tsx:113-128 | In any order a tab inserted is there once, immediately behind the first place of a live anchor and else last, and the others are as they were |
| `TabOrder.RemovedExact` | app/ShellTabContext.tsx:118 | Taking a tab out takes its own places and moves nothing |
| `TabOrder.InsertedLast` | app/ShellTabContext.tsx:113-128 | Without an anchor it stands behind every tab already ordered |
| `TabOrder.ActiveTabIsStable` | app/ShellTabContext.tsx:203-220 | A tab just created becomes the active one, else the old one stays if it exists, else a fresh document may have none, else it is the first; and it stays when looked at again |
| `GridLayout.AbsorptionIff` | app/ShellGridLayout.tsx:536-616 | Reconciling with one list of tabs is absorbed by reconciling with another, for every layout, exactly when the first knows every ID the second knows |
| `GridLayout.NodesKeepKnown` | app/ShellGridLayout.tsx:575-591 | What is left holds exactly the known tabs, in order |
| `GridLayout.NodeKeepsKnown` | app/ShellGridLayout.tsx:557-591 | A set or row other than the root stays exactly when it holds a known tab |
| `GridLayout.TabsExact` | app/ShellGridLayout.tsx:542-555 | A tab is left exactly when it is known, and shows the current display name |
| `GridLayout.TabByTab` | app/ShellGridLayout.tsx:551-555 | Tab by tab, each in its place, however often it is there |
| `GridLayout.NameMeans` | app/ShellGridLayout.tsx:540-549 | A tab is known under its own ID, the last of the tabs that have it counts, and a custom name goes first unless it is empty |
| `GridLayout.ShapesAreKept` | app/ShellGridLayout.tsx:557-591 | Of the rows and sets exactly those that hold a known tab are left, each at its place and depth with its attributes |
| `GridLayout.LayoutIsKept` | app/ShellGridLayout.tsx:593-616 | A layout keeps its root, its attributes and all its borders, each with its attributes and its known tabs; an empty border selects none |
| `GridLayout.SelectionFollowsTab` | app/ShellGridLayout.tsx:515-531 | A selection stays in range and on the first tab of its ID whenever that tab stays, and falls back to the first tab otherwise; none and negative ones stay, and an empty list has its own |
| `Alarms.LinkedAlarms` | app/alarm/alarm-view.ts:106-122 | The nested loops return exactly the alarms that read their way to a root, in whatever order the map is listed |
| `Alarms.LeastFixedPoint` | app/alarm/alarm-view.ts:106-122 | Those alarms are the least set closed under reading a root or a linked alarm |
| `Alarms.LinkedIsMonotone` | app/alarm/alarm-view.ts:106-122 | More roots or more reads never unlink an alarm |

## Left out

- Routes, StarPC streams, asyncio tasks and their cancellation: a route is a token, and a release task is either run in one step or split where it awaits its routes. `_open_route` is not modelled.
- One server step is one section under `generation.lifecycle`. A control's acknowledgement belongs to the step of its section as a simplification: a Release runs its section in a task of its own, so that the notices of another section can come between it and its acknowledgement. `ResourceProtocol.AckFollowsNotices` speaks of that step.
- The client's `_ResourceState` and `ResourceRef` objects are positions in lists kept by the client, so the model does not speak of object identity in memory. `sent` and `revoked` are ghost history.
- How a stream failure at the client reaches the server, and the Init handshake that opens a generation, are left to the stream.
- `ResourceCall` provenance and `_handler_routes`, beyond the route a caller is excluded by.
- When closing runs out of control IDs the close task raises there and never ends the controls; the model lets it go on to end them, so it has those runs and more.
- `on_release` callbacks are counted as settlements; their own effects and failures are not modelled.
- Which error value the decoders return, and what a message holds after a decode failed; the JSON and text codecs, CloneVT, nil messages, and the messages EntityRef, RemoveKeypair, RegisterKeypair and PendingEntityChange.
- Nested message pointers are held by value, so the model does not speak of aliasing between messages; the protobuf-go-lite helpers are modelled by the encoding specification, not from their code.
- Cryptography, peer ID, key, domain and entity ID syntax: functions of a scheme, with the laws stated in `KeypairSets.Lawful`.
- Storage failures, storage cleared or written by others, and rounding of counters beyond the safe integers; JSON text is modelled by the values it denotes.
- The record that a tab mutation returns: the model returns the whole snapshot it stored.
- Listeners, React state, FlexLayout's own model, and non-integer selections.
- `reconcileLocalOrder` adds to `normalizeLocalOrder` only which of two equal arrays is returned; `soundOrder`, `alarmStatus`, `holdText` and `chipText` are single switches.
