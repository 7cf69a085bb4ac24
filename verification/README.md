# Field ownership, divergence reporting and maintenance of the ConfigBundle controller

A cloud manifest meets a Kubernetes custom resource on which `local:*` managers own individual fields.
This project models what the controller does then, and proves what every run leaves behind. It has four
parts.

**The ownership pipeline.** `ApiServer` is the ConfigBundle object: a map from leaves to values and, per
manager, the set of leaves it owns, under the rules of the Kubernetes documentation page "Server-Side
Apply" (sections "Field management", "Conflicts" and "Transferring ownership between managers"). An apply
that would leave a server entry or a nested struct without a leaf its schema requires is refused.
`ConsumeServer.ApplyManifest` runs the five steps of the consume handler against it: drop stale Ignore
directives, remove bow-out leaves with the walk over claim trees, apply by force, run the takeover pass,
re-apply as every local manager. The walks and reconstructions work on decoded JSON objects and decoded
FieldsV1 trees, in the in-place style of the code and taking map keys in any order. What they compute is
then characterised leaf by leaf (`BowOutLeaves`, `TypedSpec`, `Takeover`, `Release`). On top of that stand
which dispatches are accepted and what a run leaves, whichever releases of its sweep go through
(`EndState`), when a run is a fixed point (`Replay`), what a run does when calls fail in it (`Consume`), and
theorems over whole histories of operator writes, dispatches and replays with any failing and refused calls
(`Reclaim`). `Operators` says which managers count as local; `Failures` holds the concrete objects on which the pipeline does less than it promises.

**Divergence reporting.** `Overrides` is the extractor, `Paths` its path printer and parser, and `Report` what the
extractor lists after a run; `ContentHash` the payload hash; `Reporting` the protocol of dedup, quiet state, heartbeat, restart, lost
status write and wiped orb store.

**Maintenance.** A protocol of interleaved steps in which Checking is a flag raised before a sibling
scan, and the reconciler's methods, each whole reconcile of which is shown to be one of its runs.

**Decomposition.** Children applied and pruned so that a bundle controls exactly its projection.

Leaves are named by slots: a server's orbId, a nested struct (or none) and a field. `WfState` says what
claims on an object look like (list keys are present and truthful, claims name existing leaves, every leaf
has an owner) and `Complete` that no required leaf is missing. `InDomain` says which writers the pipeline is
built for: the controller and `local:*` managers, the latter on server leaves and iDRAC leaves. `Conforms`
says that a manifest was decoded from the typed spec. `Outcome` is what a run leaves. A run that gets
past its applies leaves `After` for the managers whose release went through (`OutcomeIsAfter`), and the
end-state theorems are stated for `After` with any set of managers. `Result` is the case in which every
release went through; `CleanRun` says when: no call fails, the takeover entries are valid and the manifest
covers the object, that is, has every server a local manager claims and everything the schema requires of
its servers.

## Where the code does less than its comments promise

- "No steady-state co-ownership" (internal/controller/consume.go:285-288 and docs/reference/EDGE.md:68) is
  not what happens: a forced apply evicts another manager only from leaves whose value changes, so an
  override that agrees with the intent stays claimed by both (`AgreementIsShared`).
- A bow-out on `serviceTag` or `idracSettings.orbId` does not leave the override alone. Both are plain
  strings in the spec types, so the leaf that was deleted comes back as "" and is applied by force.
  `OverrideSurvivesIff` gives the exact condition, `BlankedTag` a run that the API server accepts,
  and `ReplayIsFixedPointIff` shows that exactly these leaves make a second run differ from the first.
  `ReplaysSettle` shows that the second replay is always the last one that changes anything.
- A takeover entry that names a whole nested struct re-injects bowed-out leaves below it, because the
  bow-out looks only at the leaf's own key; `TakeoverPassAddsNothingIff` is exact, `ReinjectedSsh` is a run, and
  `StructTakeoverHolds` says what such a leaf ends as and who keeps a claim on it.
- A server that leaves the manifest while a local claim on it remains makes the API server refuse every
  dispatch, takeover entries for other servers included: the forced apply drops the controller's leaves of
  that server, and the merged object would lack required ones. `AcceptedIff` is exact,
  `DepartedServerBlocks` names the case, `DepartedServer` is one, and `SucceedsIffAccepted` shows that such
  a run changes nothing.
- An operator cannot hand back a bowed-out `hostname` or `oobIP` (docs/reference/EDGE.md:73): the schema
  requires both of every entry, so the API server refuses any write that releases the last claim on one.
  `HandbackPossibleIff` is exact, and `HostnameNeverHandedBack` covers every write.
- For the same reason a release in the sweep can be refused, which makes its result depend on the order of
  the managers; `SweepStep` is exact, `SweepOrderMatters` gives two orders of one sweep that end in
  different objects, and `CoveredSweepIsComplete` shows that a covering manifest excludes it.
- The path parser slices out of range (internal/controller/divergence_reporter.go:516) on some server
  orbIds, such as "a]]b[c". `SplitFailsIff` says on exactly which strings, and `SlotSplitFailsIff` for
  exactly which orbIds a printed path is one of them. An orbId with a closing bracket that does not make it
  panic, such as "a]b", is split wrongly and its overrides go unreported; `SlotRoundTripIff` is exact.
- "The next reconcile will re-POST" after a lost status write
  (internal/controller/divergence_reporter_controller.go:240-243) holds unless the status that was not
  replaced has the hash of the next override set, or the next set is empty and the status records zero.
  `LostWriteIsRepairedIff` is exact for every state; `LostWriteExample`, `LostWriteAfterHeartbeat` and
  `TwoLostWrites` are runs after which orb keeps showing what is gone.
- The sort before hashing (internal/controller/divergence_reporter.go:274-286) orders by orbId and field
  only, so two managers overriding one leaf make it ambiguous; `CanonicalIff` is exact.
- Concurrent maintenance of two servers is excluded exactly when both carry the cluster label and both nodes
  exist, or one of them is barred for good: its node exists and its role's guard never passes
  (`MutualExclusionIff`). A server without a node skips the guard and the scan.
- Two hostnames that differ in case only, or two backup orbIds that differ in ':' against '-' only, name one
  child; `NothingLostIff` is exact, and `CollidingHostnames` and `CollidingOrbIds` are successful reconciles
  that lose a child.
- User-created children are not "never touched" (internal/controller/configbundle_controller.go:139-140): a
  wanted name adopts one by force, and a later spec without that name deletes it (`AdoptedThenDeletedIff`).
- Two bundles that want one child name do not conflict. Both apply under one field manager, so the second
  apply releases the first bundle's owner reference and the child changes hands (`WantedChangesHands`).

## Model

| member | source | states |
|---|---|---|
| BowOut.DeleteOwnedPaths | internal/controller/consume.go:569-603 | deleting in place, with claim keys visited in any order, leaves the object that the recursive per-field specification describes |
| BowOut.FilterOwnedFromList | internal/controller/consume.go:708-767 | list entries are dropped when claimed whole, else bowed out against the live entry with the same orbId (the last one wins) and keep their key |
| BowOut.OmitAdminOwnedFields | internal/controller/consume.go:481-545 | the walk covers exactly the spec trees of local managers, in managedFields order |
| Operators.LocalIff | internal/controller/consume.go:517-525 | a manager is local if and only if its name is "local:" followed by any id |
| Operators.WalkedIff | internal/controller/consume.go:517-535 | the bow-out walks the trees of exactly the managers named "local:" and an id |
| Operators.KeyCollectedIff | internal/controller/consume.go:615-632 | a directive key is collected if and only if such a manager's tree claims it |
| Operators.PathListedIff | internal/controller/divergence_reporter.go:358-377 | the reporter lists a path if and only if such a manager claims it |
| Operators.PathWatchedIff | internal/controller/reclaim_controller.go:133-146 | the reclaim trigger watches a path if and only if such a manager claims it |
| Operators.VisitedIff | internal/controller/takeover.go:149-152 | the sweep releases a manager if and only if it is such a manager, has claims, and its release leaves the object complete |
| Operators.AnyOperatorKeepsSsh | internal/controller/consume.go:465-480 | whoever the operator is, an ssh override on a complete object survives every run past its applies with its claim |
| BowOutLeaves.BowMapAt | internal/controller/consume.go:551-603 | one claim tree removes the scalar at a path if and only if it claims it, it is no list key, and it is ignored or is no takeover target and intent differs from live |
| BowOutLeaves.FindBow | internal/controller/consume.go:734-765 | looking up an orbId in the filtered list gives nothing for a whole-entry claim and otherwise the bowed-out entry of that orbId |
| BowOutLeaves.BowAllAt | internal/controller/consume.go:465-545 | all claim trees together: a scalar leaves the apply body if and only if some local manager claims it and the per-leaf rule withholds it; list keys always survive and lists stay keyed |
| BowOutOrder.BowMapCommutes | internal/controller/consume.go:569-603 | walking two claim trees in either order gives the same object when their leaves sit on scalars |
| BowOutOrder.OrderIrrelevant | internal/controller/consume.go:499-535 | any permutation of the managers' claim trees gives the same spec |
| Ignored.WalkLocalClaims | internal/controller/consume.go:638-661 | the walk adds exactly the server and field keys of the leaf claims below the node |
| Ignored.CollectLocalClaimedKeys | internal/controller/consume.go:615-632 | the result is the set of keys of all local managers' trees |
| Ignored.FilterActiveIgnored | internal/controller/consume.go:666-677 | the kept directives, in order, are those whose key is claimed |
| Ignored.ActiveOnlyKeeps | internal/controller/consume.go:666-677 | a directive survives if and only if it was listed and its key is claimed |
| Ignored.OnlyClaimedKeysMatter | internal/controller/consume.go:569-603 | two rule sets that agree on the keys the claim walk emits make the bow-out walk leave the same object |
| Ignored.FilteringIsConservative | internal/controller/consume.go:276-289 | for every intent, live spec and managedFields, the bow-out leaves the same spec with and without the stale Ignore directives |
| Ignored.TakeoverKeyInjective | internal/controller/consume.go:547-551 | a directive key determines server and field as long as field names hold no separator |
| Schema.AtSlot | api/v1/configbundle_types.go:101-139 | a leaf of a server is read by finding the server's entry and then the field, directly or inside its struct |
| Schema.SpecReads | api/v1/configbundle_types.go:101-139 | a spec built from leaf values reads back exactly these values |
| Schema.FlattenSpec | api/v1/configbundle_types.go:101-139 | encoding leaf values as a spec and flattening it is the identity, for any order of servers |
| Schema.TreeReads | internal/controller/consume.go:553-568 | the FieldsV1 tree of a claim set claims exactly these leaves, and no server entry as a whole |
| Schema.TreeCoversNoStruct | internal/controller/consume.go:553-568 | no struct, entry or list that encloses a leaf is claimed as a whole |
| Schema.NeedsAre | config/crd/bases/armada.ai_configbundles.yaml:277-387 | the required leaves by name: orbId, serviceTag, hostname and oobIP of an entry, orbId of an iDRAC block, enabled of a maintenance block |
| ServerSideApply.ApiServer.Patch | internal/controller/takeover.go:110-123 | an unforced apply that would change another owner's value, and any apply after which an entry would lack a required leaf, is refused and changes nothing; any other apply gives the object the Server-Side Apply rules describe |
| ServerSideApply.UnforcedIsRefusedIff | internal/controller/takeover.go:183-185 | an unforced apply is refused if and only if it states another value for a leaf some other manager owns, or would leave an entry incomplete; a forced one only for the latter |
| ServerSideApply.UnforcedKeepsOthers | docs/reference/CRD.md:171-179 | an accepted unforced apply leaves every other manager's claims and the values under them as they were |
| ServerSideApply.ApiServer.GetManagedFields | internal/controller/consume.go:499-508 | every manager is listed once, with the tree of the leaves it owns |
| ServerSideApply.AppliedWf | internal/controller/takeover.go:110-123 | every accepted apply keeps list keys truthful, claims backed by leaves, and every leaf owned |
| ServerSideApply.ReapplyIsIdentity | internal/controller/takeover.go:106-108 | applying the same body twice as one manager is applying it once, values and owners alike |
| ServerSideApply.FaithfulApplyIsIdentity | internal/controller/takeover.go:106-108 | applying exactly what one owns at current values never conflicts and changes nothing |
| TypedSpec.TypedReads | internal/controller/consume.go:536-543 | the typed round trip keeps every scalar and adds "" for an absent serviceTag or idracSettings.orbId of a listed server, nothing else |
| TypedSpec.ClaimedInTrees | internal/controller/consume.go:499-508 | some local tree claims a leaf if and only if a local manager owns it, and no local tree claims an enclosing struct |
| TypedSpec.PatchReads | internal/controller/consume.go:481-545 | the decoded patch holds a leaf's intent unless the leaf is bowed out |
| TypedSpec.PatchIsNormalBody | internal/controller/consume.go:481-545 | the patch computed by the walk over decoded trees carries exactly the leaves of the normal apply body |
| Takeover.InjectTakeoverField | internal/controller/takeover.go:463-498 | one entry is injected, or refused when the server or the field is unknown; a server missing from the patch gets a stub, which stays even when the field is unknown |
| Takeover.InjectedReads | internal/controller/takeover.go:463-527 | an injection sets exactly the leaves the entry hits, to their intent or to absent, and changes no other leaf |
| Takeover.InjectedAllReads | internal/controller/takeover.go:50-62 | all injections together set exactly the leaves that some carried-out entry hits |
| Takeover.InjectedIffValid | internal/controller/takeover.go:463-512 | an entry can be carried out if and only if its server is in the manifest and its field is a known name |
| Takeover.ValidIff | internal/controller/takeover.go:500-527 | an entry is valid if and only if its server is in the manifest and its field is one of the JSON names of the server and iDRAC types |
| Takeover.HitsIff | internal/controller/takeover.go:500-527 | a name of a server leaf sets that leaf, of a nested struct the whole struct, any other known name the iDRAC leaf |
| Takeover.StubReads | internal/controller/takeover.go:482-493 | the stub of a missing server holds its orbId and serviceTag, the empty iDRAC orbId, and nothing else |
| Takeover.InjectedIsTakeoverBody | internal/controller/takeover.go:44-76 | the injected patch carries exactly the leaves of the takeover body |
| Release.ReconstructIdracExcluding | internal/controller/takeover.go:412-433 | the claimed iDRAC fields at live values without the excluded ones; touched if and only if an excluded field was claimed |
| Release.ReconstructServerEntry | internal/controller/takeover.go:362-407 | the entry holds its key and, for each claimed field but serviceTag, what the per-field rule keeps |
| Release.ReconstructServerList | internal/controller/takeover.go:292-356 | for every orbId the list holds the rebuilt entry, or none when only its identity would be left |
| Release.ReconstructMapExcluding | internal/controller/takeover.go:439-458 | a struct outside the server list is cut down to the claimed fields at live values |
| Release.ReconstructApplyExcluding | internal/controller/takeover.go:226-280 | the reconstructed subtree: every top-level field and every server entry |
| Release.IndexTakeovers | internal/controller/takeover.go:124-150 | the index holds a field under a server if and only if the takeover list names the pair |
| Release.RebuiltEntryReads | internal/controller/takeover.go:362-433 | a leaf of the rebuilt entry is the key, or a claimed leaf that is no takeover target, no orbId and no serviceTag, at its live value, or absent |
| Release.EntryKeptIff | internal/controller/takeover.go:335-352 | an entry is left out of the reconstruction if and only if no meaningful claim on the server remains |
| Release.RebuiltIsSweepBody | internal/controller/takeover.go:226-433 | the reconstruction carries exactly the manager's kept claims at the snapshot's values |
| Pipeline.SweepStep | internal/controller/takeover.go:110-216 | re-applying one manager without force never conflicts and changes no value that still has an owner; it releases exactly what the body omits, also after other managers were swept, unless an entry would lose a required leaf, when it is refused |
| Pipeline.SweepIsSafe | internal/controller/takeover.go:124-216 | the whole sweep from one snapshot gives up exactly the claims of the managers whose release is accepted; when no release can take away a required leaf these are all, for every order of managers |
| Consume.ConsumeServer.ApplyManifest | internal/controller/consume.go:238-416 | success and the object left behind, for every object in the domain and every manifest, when any of the first read, the apply attempts, the takeover apply, the read before the sweep, single releases and the status write fail or are refused; the last manifest is remembered before any write and the in-flight mark is gone afterwards |
| Consume.ConsumeServer.ApplyWithRetry | internal/controller/consume.go:307-327 | the forced apply is tried until it goes through or the attempts are used up; a refusal is a failed attempt |
| Consume.ConsumeServer.ComputePatch | internal/controller/consume.go:262-294 | the body computed from the object read carries exactly the leaves of the normal body |
| Consume.ConsumeServer.ProcessTakeover | internal/controller/takeover.go:34-88 | the takeover body is applied by force unless every entry fails or the call does; success means that no entry failed and the apply was accepted |
| Consume.ConsumeServer.ReconcileLocalClaims | internal/controller/takeover.go:124-216 | every local manager is visited once, and those whose release goes through end with exactly their kept claims; a failing or refused one is skipped |
| Consume.ConsumeServer.Reclaim | internal/controller/reclaim_controller.go:53-96 | nothing happens while a run is in flight or no manifest is known; otherwise the remembered manifest is applied |
| Consume.CleanRun | internal/controller/consume.go:238-416 | with a covering manifest, valid takeover entries and no failing call the run reaches the state the end-state theorems describe, in whatever order the sweep visits the managers |
| Consume.SucceedsIffAccepted | internal/controller/consume.go:307-343 | a run without failing calls and with valid takeover entries succeeds if and only if the API server accepts manifest and object together; a run that is not accepted changes nothing and fails, whatever else fails |
| Consume.OutcomeKeepsDomain | internal/controller/consume.go:238-416 | every run, with any failing and refused calls, keeps the object well formed, complete and within the domain |
| Consume.OutcomeIsAfter | internal/controller/consume.go:328-355 | every run that gets past its applies ends as the end-state theorems say for the managers whose release went through, also when the read before the sweep fails and when releases fail or are refused |
| Consume.UnclaimedAfterRun | internal/controller/consume.go:282-355 | after such a run, a leaf of the manifest without local claim holds its intent under the controller alone |
| Consume.OverrideAfterRun | internal/controller/consume.go:465-480 | after such a run, a bowed-out pointer leaf that no struct-level takeover entry covers keeps its value and every local claim, and the controller has none |
| Consume.AgreementAfterRun | internal/controller/consume.go:285-288 | after such a run, a claimed leaf equal to its intent is owned by the controller and by the same local managers as before |
| Consume.TakeoverAfterRun | internal/controller/takeover.go:34-88 | after such a run, a takeover target of the manifest holds its intent under the controller, and no manager whose release went through claims it |
| Operators.FirstDispatch | internal/controller/consume.go:307-326 | the first dispatch of a complete server succeeds and leaves its leaves as intended, owned by configbundle-controller |
| Consume.TakeoverSurvivesFailedApply | internal/controller/consume.go:328-333 | when every attempt of the normal apply fails, the takeover apply of leaf-level entries alone reaches what both applies reach, if the object is accepted |
| EndState.AfterOwned | internal/controller/consume.go:282-355 | who owns what after a run, for any set of released managers: the controller exactly its body, a local manager the claims that were not evicted, and of these only the kept ones if it was released |
| EndState.AfterVals | internal/controller/consume.go:282-355 | the value of every leaf after a run: the applied one, else the old one while a local claim remains, else none |
| EndState.ClaimsAfter | internal/controller/takeover.go:90-123 | a local claim survives a run if and only if no apply changed the leaf and, should the manager have been released, the leaf is no takeover target, orbId or serviceTag |
| EndState.TakeoverTargetHolds | internal/controller/takeover.go:34-88 | a takeover target of the manifest holds its intent under the controller whatever becomes of the sweep, and no released manager claims it; one the manifest does not set is absent once unclaimed |
| EndState.TakeoverTargetIsReleased | internal/controller/takeover.go:124-216 | when every release goes through, no local claim on a takeover target is left |
| EndState.OverrideSurvives | internal/controller/consume.go:465-480 | a bowed-out pointer leaf that no struct-level takeover entry covers keeps its value and every local claim, and the controller does not own it |
| EndState.OverrideSurvivesIff | internal/controller/consume.go:536-543 | a bowed-out leaf keeps its value if and only if it is a pointer or was "" already, or, below a struct-level takeover entry, if it equals the intent; a required one ends as "" under the controller |
| Failures.BlankedTag | internal/controller/consume.go:536-543 | a complete object and manifest, accepted by the API server, whose serviceTag override ends as "" with no local claim |
| Failures.DepartedServer | internal/controller/takeover.go:327-331 | a complete object with a claimed tag and a manifest without its server: the dispatch is refused and changes nothing, whatever else fails |
| Failures.ReinjectedSsh | internal/controller/takeover.go:504-512 | an ssh override that the normal apply leaves alone and the takeover apply of the whole iDRAC block overrides |
| Failures.SweepOrderMatters | internal/controller/takeover.go:150-216 | a successful run whose sweep, visiting two managers in the two orders, leaves different objects |
| EndState.AgreementIsShared | internal/controller/consume.go:285-288 | a claimed leaf equal to its intent keeps its value, the controller becomes co-owner, and the local claims stay, contrary to the comment |
| EndState.UnclaimedFollowsIntent | internal/controller/consume.go:282-326 | a leaf no local manager claims ends at its intent, owned by the controller, whatever the Ignore list says |
| EndState.LeafOutsideManifest | internal/controller/takeover.go:90-123 | a leaf that is not in the manifest, on a server that is, survives if and only if some local manager has a claim on it that the sweep keeps or did not reach |
| EndState.AcceptedIff | config/crd/bases/armada.ai_configbundles.yaml:382-386 | the API server accepts the normal apply, and the takeover apply with or without it, if and only if every leaf of the manifest and every locally claimed leaf has its required leaves in the manifest or under a local claim |
| EndState.DepartedServerBlocks | internal/controller/takeover.go:327-331 | a locally claimed server that is not in the manifest makes a dispatch unacceptable unless its required leaves are all claimed locally |
| EndState.CoveredSweepIsComplete | internal/controller/takeover.go:327-331 | with a covering manifest the object stays complete whichever managers the sweep releases |
| EndState.StructTakeoverHolds | internal/controller/takeover.go:463-512 | a leaf below a struct-level takeover entry ends at its intent under the controller, and a local claim on it stays if and only if no apply changed the leaf |
| EndState.TakeoverPassAddsNothing | internal/controller/takeover.go:44-76 | for leaf-level entries the takeover body is the normal body, so the pass changes nothing after the normal apply |
| EndState.TakeoverPassAddsNothingIff | internal/controller/takeover.go:463-512 | for any entries the pass changes nothing if and only if no entry names a whole struct with a bowed-out leaf below it |
| Replay.SecondDecision | internal/controller/consume.go:569-603 | what a second run decides at each leaf that no struct-level takeover entry covers, in terms of the state before the first |
| Replay.ReplayIsFixedPointIff | internal/controller/reclaim_controller.go:67-95 | a second run of the same manifest changes no value and no claim if and only if no required leaf flips |
| Replay.QuietRun | internal/controller/reclaim_controller.go:98-129 | when nothing flips, the takeover apply with or without the normal one and every single release of a second run are the identity; the normal apply alone is, if and only if no struct-level takeover entry re-injects what it leaves out |
| Replay.ReplaySettles | internal/controller/reclaim_controller.go:53-96 | from every state, the run after the second changes nothing |
| Replay.ResultWf | internal/controller/consume.go:282-355 | a run keeps the object well formed and within the domain |
| Walkers.WalkLeaves | internal/controller/reclaim_controller.go:148-161 | the flat walk adds exactly the prefixed paths of the leaf claims |
| Walkers.LeafPathsAreClaims | internal/controller/reclaim_controller.go:148-161 | a path is collected if and only if a leaf claim sits at it |
| Walkers.WalkFields | internal/controller/divergence_reporter.go:380-414 | with its look-ahead the walk emits the printed path of every unmarked leaf path exactly once |
| Walkers.WalksAgree | internal/controller/consume.go:638-661 | a directive key is collected if and only if some leaf path of the reporter's walk has that key |
| Reclaim.LocalReleasedFieldPaths | internal/controller/reclaim_controller.go:119-146 | the paths with a local claim before and none after |
| Reclaim.TriggerIff | internal/controller/reclaim_controller.go:98-129 | the trigger fires if and only if some leaf lost its last local claim; markers and list keys add no false alarm |
| Reclaim.RunStaysOk | internal/controller/consume.go:238-416 | every history of operator writes, dispatches and replays, with any failing and refused calls, stays within the domain and stores no incomplete entry |
| Reclaim.UnforcedWritesKeepOthers | docs/reference/CRD.md:171-179 | over any sequence of unforced writes by others, a manager keeps its claims and the values under them |
| Reclaim.ContradictionChangesNothing | internal/controller/takeover.go:183-185 | an unforced write that states another value for a leaf somebody else holds changes nothing |
| Reclaim.HandbackReverts | internal/controller/reclaim_controller.go:67-95 | after any such history, once no local manager claims a leaf of the last manifest, a replay that gets past its applies gives it the manifest's value, ignored or not and whatever becomes of its sweep |
| Reclaim.HandbackPossibleIff | internal/controller/reclaim_controller.go:98-129 | after a run that bows out of a leaf for its only claimant, the release of that leaf is accepted if and only if it is neither hostname nor oobIP |
| Reclaim.HostnameNeverHandedBack | config/crd/bases/armada.ai_configbundles.yaml:382-386 | no write by that manager, forced or not, that leaves the bowed-out hostname or oobIP out is accepted |
| Reclaim.ReleaseAcceptedIff | config/crd/bases/armada.ai_configbundles.yaml:382-386 | the release of one leaf is accepted if and only if another manager holds it or no other leaf needs it |
| Reclaim.ReplaysSettle | internal/controller/reclaim_controller.go:53-129 | after any such history, one ending in a release included, one carried-out replay brings the loop to rest if and only if no required leaf flips, and two always do |
| Reclaim.LoopGoesQuiet | internal/controller/reclaim_controller.go:53-129 | after any such history, a carried-out dispatch and one carried-out replay bring the loop to rest: later replays change nothing at any of their applies |
| Reclaim.SettledOutcome | internal/controller/consume.go:238-416 | on a settled object a run changes nothing even when calls fail in it |
| Paths.SplitPath | internal/controller/divergence_reporter.go:497-540 | the parsing loop terminates on every string and returns the segments its step function describes, or None where the source panics |
| Paths.SplitFailsIff | internal/controller/divergence_reporter.go:510-520 | the slice is out of range if and only if, outside brackets, a closing bracket is followed by an opening one before any dot |
| Paths.UnclosedBracket | internal/controller/divergence_reporter.go:511-515 | a bracket that is never closed ends the path, and the field before it counts |
| Paths.SelectorWithoutEquals | internal/controller/divergence_reporter.go:516-521 | a selector without an equals sign is passed over |
| Paths.PathRoundTrip | internal/controller/divergence_reporter.go:418-445 | folding the printer over any keys and splitting the text gives the keys' segments, dots inside selectors included |
| Paths.PrintInjective | internal/controller/divergence_reporter.go:418-445 | different paths print differently |
| Overrides.ExtractAdminPaths | internal/controller/divergence_reporter.go:358-377 | exactly the leaf paths claimed in the managedFields entries of local managers, each once per entry |
| Overrides.ExtractOverrides | internal/controller/divergence_reporter.go:144-188 | exactly the claimed paths that yield an override, each once, with the entry they yield |
| Overrides.OverrideForSlot | internal/controller/divergence_reporter.go:144-248 | the entry for a claimed leaf carries the node orbId, the field, both values and the manager; there is none if and only if the leaf is not a diverging iDRAC leaf of the manifest with a node orbId |
| Overrides.EntryIs | internal/controller/divergence_reporter.go:202-248 | the entry by its parts: node orbId, leaf, type, both values, manager |
| Overrides.PrintedPath | internal/controller/divergence_reporter.go:418-445 | the text under which an iDRAC leaf is claimed, selector and dots included |
| Overrides.ReportedEntries | internal/controller/divergence_reporter.go:144-248 | an entry is in the extractor's list if and only if it is the entry of a reportable leaf for a local manager that claims it, with node orbId, field, both values and manager right |
| Overrides.SlotKeysInjective | internal/controller/divergence_reporter.go:418-445 | different leaves have different claimed paths, so each leaf is reported once per claiming manager |
| Overrides.ListedClaimIsSlot | internal/controller/divergence_reporter.go:358-414 | every path the extractor walks is a leaf some local manager claims |
| Report.NoSilentDivergence | internal/controller/divergence_reporter.go:144-248 | after any run that gets past its applies, whatever becomes of its sweep, an iDRAC leaf of the manifest with a node orbId differs from its intent if and only if the extractor's list holds the entry of a claim on it; then each claim on it is listed once, and a takeover target never is |
| Report.AfterPrintable | internal/controller/divergence_reporter.go:418-445 | a run keeps all leaf names printable |
| Overrides.SlotSplitFailsIff | internal/controller/divergence_reporter.go:497-540 | the printed path of a leaf makes the parser panic if and only if its server's orbId derails the scan |
| Overrides.BadOrbId | internal/controller/divergence_reporter.go:516 | a concrete orbId that does |
| Overrides.SlotRoundTripIff | internal/controller/divergence_reporter.go:497-540 | printing and splitting a leaf's path gives its segments if and only if the server's orbId holds no closing bracket |
| ContentHash.SortedIsForm | internal/controller/divergence_reporter.go:274-286 | sorting gives a permutation in the order of the comparison |
| ContentHash.SortedOrder | internal/controller/divergence_reporter.go:274-286 | sorted entries go by orbId and, for one orbId, by field |
| ContentHash.StringLessIff | internal/controller/divergence_reporter.go:274-286 | the order is the lexicographic one |
| ContentHash.CanonicalIff | internal/controller/divergence_reporter.go:274-286 | all sorted forms of a payload agree if and only if orbId and field determine its entries |
| ContentHash.DigestTellsSets | internal/controller/divergence_reporter.go:274-286 | with an injective digest, equal hashes mean equal override sets, and conversely when keys determine entries |
| Reporting.DivergenceReporter.Reconcile | internal/controller/divergence_reporter_controller.go:156-256 | the new orb view, status and error flag of one reconcile under every combination of debounce, failed post and failed status write |
| Reporting.DivergenceReporter.Tick | internal/controller/divergence_reporter_controller.go:105-151 | a tick without local claims changes nothing; otherwise the hash is cleared, count kept, and a reconcile follows |
| Reporting.StatusStaysTruthful | internal/controller/divergence_reporter_controller.go:156-325 | over any run without wipe and lost status write, a stored hash is the hash of orb's view and a stored count its size |
| Reporting.ReconcileSyncs | internal/controller/divergence_reporter_controller.go:156-256 | after any such run, an undebounced reconcile with a known manifest that returns without error leaves orb's view equal to the override set |
| Reporting.ReorderingsStayQuiet | internal/controller/divergence_reporter_controller.go:207-215 | after any history and a reconcile that told orb, reconciles on any orders of the same override set post nothing and write nothing |
| Reporting.ReorderingIsQuiet | internal/controller/divergence_reporter.go:274-286 | the same for one further reconcile, from any state |
| Reporting.NoManifestNoChange | internal/controller/divergence_reporter_controller.go:184-195 | without a known manifest neither a reconcile nor a tick changes orb's view |
| Reporting.HeartbeatRepairs | internal/controller/divergence_reporter_controller.go:105-151 | after any history with wipes and lost writes, a tick whose calls succeed brings a non-empty override set to orb, and an empty one too if no status write was lost |
| Reporting.LostWriteIsRepairedIff | internal/controller/divergence_reporter_controller.go:237-245 | after a lost status write, from any state, the next reconcile repairs orb's view if and only if there is no status, or its hash and its zero do not match the new payload, or the new payload is what orb was told |
| Reporting.LostWriteExample | internal/controller/divergence_reporter_controller.go:237-245 | a concrete run after which orb keeps showing an override that is gone and no reconcile changes it |
| Reporting.LostWriteAfterHeartbeat | internal/controller/divergence_reporter_controller.go:207-219 | the same after a heartbeat cleared the hash: the recorded zero silences the reporter |
| Reporting.TwoLostWrites | internal/controller/divergence_reporter_controller.go:196-205 | the same after two lost writes, when the first payload comes back |
| Maintenance.CheckNoConcurrentMaintenance | internal/serverconfig/maintenance.go:194-218 | blocked if and only if another listed server is in Checking, Draining or Active, and the reason names one |
| Maintenance.CheckControlPlaneGuard | internal/serverconfig/maintenance.go:222-246 | blocked on EKSA; elsewhere if and only if one node less would break the quorum |
| Maintenance.CountIs | internal/serverconfig/maintenance.go:234-241 | the count is the number of listed nodes that are control-plane nodes |
| Maintenance.CheckSchedulableWorkers | internal/serverconfig/maintenance.go:250-278 | blocked if and only if no other ready, schedulable worker remains |
| Maintenance.ServerConfigReconciler.RunEligibilityChecks | internal/serverconfig/maintenance.go:132-173 | no reason if and only if the server is eligible; a reason names the first check that failed |
| Maintenance.ServerConfigReconciler.ReconcileMaintenance | internal/serverconfig/maintenance.go:42-127 | the phase and blocked reason one reconcile leaves, all other fields and servers untouched; an idle server leaves NoPhase if and only if it is enabled and every stated bound of its window admits the moment |
| Maintenance.CheckWindow | internal/serverconfig/maintenance.go:331-343 | an enabled server is blocked if and only if a stated bound does not admit the moment: before the start, or from the end on |
| Maintenance.StartsOnlyInWindow | internal/serverconfig/maintenance.go:60-73 | over any history of reconciles and spec edits, a server that began idle is out of NoPhase only if it was reconciled, idle and enabled, inside its window |
| Maintenance.StartsInWindow | internal/serverconfig/maintenance.go:60-73 | and a reconcile of an idle, enabled server inside its window starts it |
| Maintenance.StepKeepsInv | internal/serverconfig/maintenance.go:42-218 | no step of any server lets two checked servers have seen each other's flag down |
| Maintenance.MutualExclusion | internal/serverconfig/maintenance.go:190-218 | in no interleaving are two checked servers Active or past a passed check, even when sibling phases are read one at a time |
| Maintenance.MutualExclusionIff | internal/serverconfig/maintenance.go:132-218 | two servers exclude each other in all runs if and only if both carry the cluster label and both nodes exist, or one of them has a node and a role guard that never passes |
| Maintenance.TwoCheckersBlock | internal/serverconfig/maintenance.go:194-218 | two checked servers can both reach Checking, and their further attempts leave both there: no progress is promised |
| Maintenance.QuorumHolds | internal/serverconfig/maintenance.go:222-246 | at every reachable state at least n/2+1 of the n control-plane nodes are not in Active |
| Maintenance.ReconcileIsARun | internal/serverconfig/maintenance.go:42-127 | every whole reconcile of a server is a run of the protocol's steps with the same outcome |
| Decompose.ConfigBundleReconciler.Reconcile | internal/controller/configbundle_controller.go:54-130 | applies all children up to the first refusal, prunes only after all applies succeeded, and leaves every unshadowed child with what its server or backup holds |
| Decompose.ConfigBundleReconciler.PruneOrphanedChildren | internal/controller/configbundle_controller.go:141-182 | deletes exactly the children this bundle controls that the spec no longer names |
| Decompose.ReconcileIsExact | internal/controller/configbundle_controller.go:76-100 | after a successful reconcile the bundle controls exactly the projection of its servers and of its backups |
| Decompose.ServersHeld | internal/controller/configbundle_controller.go:265-312 | after a successful reconcile the child of every server that no later one shadows holds its orbId, serviceTag, hostname, oobIP, settings, and the non-empty cluster name and orbId |
| Decompose.BackupsHeld | internal/controller/configbundle_controller.go:200-224 | the child of every backup that no later one shadows holds its orbId, its cluster's orbId and its settings |
| Decompose.LowerIs | internal/controller/configbundle_controller.go:288-293 | lower-casing changes the 26 upper-case letters and nothing else |
| Decompose.BackupNameIs | internal/controller/configbundle_controller.go:226-231 | a backup's name is its orbId in lower case with a dash for each colon |
| Decompose.ForeignChildrenUntouched | internal/controller/configbundle_controller.go:132-192 | a child the spec does not name is untouched unless this bundle controls it |
| Decompose.SucceedsIff | internal/controller/configbundle_controller.go:200-312 | all applies succeed if and only if every name is non-empty and no wanted child has another controller that some other writer put there |
| Decompose.WantedChangesHands | internal/controller/configbundle_controller.go:252-312 | after a successful pass the bundle, and no other object, controls each wanted child, whoever did before |
| Decompose.HandedOver | internal/controller/configbundle_controller.go:252-260 | a child that other bundles control through this field manager only is not refused |
| Decompose.OtherWritersKept | internal/controller/configbundle_controller.go:252-260 | references that some other writer holds survive every apply |
| Decompose.SecondPassIsIdentity | internal/controller/configbundle_controller.go:54-130 | when no two wanted children share a name a second pass changes nothing |
| Decompose.NothingLostIff | internal/controller/configbundle_controller.go:226-231 | no wanted child is lost if and only if names determine children |
| Decompose.CollisionLosesFirst | internal/controller/configbundle_controller.go:76-100 | a reconcile of two children with one name succeeds and leaves only the second |
| Decompose.CollidingHostnames | internal/controller/configbundle_controller.go:265-303 | two hostnames that differ in case lose the first server's child |
| Decompose.CollidingOrbIds | internal/controller/configbundle_controller.go:226-231 | two orbIds that differ in one separator lose the first backup's child |
| Decompose.AdoptedThenDeletedIff | internal/controller/configbundle_controller.go:132-182 | a child the bundle does not control is deleted by two successful passes if and only if the first wants its name and the second does not; unwanted by both it is untouched |

## Left out

- HTTP serving, YAML and JSON encoding, logging, metrics, events, conditions, and provenance stamping: the model starts from decoded manifests, objects and FieldsV1 trees.
- Wall-clock time: retry backoff and cancellation, timestamps in status, requeue delays; the debounce is a flag of a step and the maintenance window a parameter.
- The ConfigMap that persists the last manifest: a restart of the reporter is a step after which a manifest is known or not; the consume server's memory is never lost in the model.
- Claims outside the domain: inside `maintenance` or `kubernetesNode` (re-applied as a whole struct by the sweep), under `kubernetesClusters` (dropped by the sweep), on top-level fields and on metadata, by `Update`-operation or non-conforming managers, and on the status subresource.
- Claims on a whole list entry: the walks handle them, but the leaf-level state cannot hold one, so the end-state theorems say nothing about them.
- Required leaves other than `serviceTag` and `idracSettings.orbId`, such as `maintenance.enabled`, which would decode as false: the bow-out never reaches them in the domain.
- ServerSideApply.ApiServer.Patch: of schema validation only missing required leaves are modelled, not types or formats, and not the required fields of the spec itself.
- TypedSpec.TypedReads: the round trip is modelled for the required strings and the iDRAC block; other omitempty details of the types are not.
- EndState.LeafOutsideManifest: says nothing about a server outside the manifest, where a dispatch is refused or, if local managers claim all required leaves, releases may be.
- Consume.ConsumeServer.ApplyManifest: runs for one bundle are serialized, because the in-flight mark is a flag and two overlapping runs would clear each other's; the early return on a cancelled context is not modelled. The client's Patch is taken to leave the patch alone; it decodes the server's answer into the applied object, whose server list the patch shares, so that the takeover pass may in fact re-send live values.
- Consume.OutcomeIsAfter: a call that lands on the server and still reports failure is not expressed; a failing apply changes nothing.
- Consume.ConsumeServer.Reclaim: the ConfigBundle object exists; the not-found return is not modelled.
- Key strings of FieldsV1 trees arrive decoded (a field name, an orbId selector or a marker); a list key over other fields is not modelled.
- Walkers.WalkLeaves: collects paths as key sequences instead of the joined strings.
- Paths.SplitPath: the panic on an out-of-range slice is the result None, and the extractor then treats the path as unresolved instead of stopping.
- Overrides.ExtractOverrides: the times of the entries are not modelled.
- Report.NoSilentDivergence: leaves outside `idracSettings` are bowed out but never reported by design of the identity lookup, and so are leaves of a server whose iDRAC orbId is empty.
- Reporting.StatusStaysTruthful: one bundle, one digest that is injective and never empty, and one fixed sorted form per payload.
- Maintenance.MutualExclusion: sibling reads are fresh and node existence, roles and labels do not change during a run; progress is not claimed, since two servers in Checking block each other.
- Maintenance.QuorumHolds: counts nodes in Active only, not nodes that fail for other reasons, and needs servers on control-plane nodes to carry the role and the label.
- Decompose.SucceedsIff: of the API server's refusals only the empty name and a second controller are modelled; a child's spec is one value, so fields of a child owned by others are not.
- Lower-casing is modelled for ASCII letters.
- Observed-field reconciliation of servers, Velero and CronJob handling of backups, the bundler and the Redfish client: independent of the protocols above.
