# Verified model of the provider's core

The system is a compute marketplace: a tenant describes services in an SDL
file, providers bid for the resulting orders, and a provider that wins a lease
receives the manifest and deploys it. This project models the parts of it whose
correctness is hardest to see, in their own form (classes and loops where the
program updates state, functions where it computes), and proves for-all
statements about them.

- **Inventory** (`Resources`, `Packing`, `FirstFit`, `Inventory`,
  `InventoryRuns`): the first-fit packer over CPU, memory and storage, and the
  event loop that admits, marks and frees reservations and counts external ports in 64-bit unsigned arithmetic. A grant
  implies a joint placement of everything pending; packing conserves resources;
  a refusal means that nothing left over fits anywhere; first fit is complete
  under an exact condition on the units asked for; the port ledger balances in
  every run; and requests are taken exactly while the inventory is fresh.
- **SDL and cross-validation** (`Manifest`, `Names`, `Permutations`,
  `CrossValidation`, `Sdl`, `SdlContents`): one document compiled twice. The
  greedy matcher that compares the two results is characterised by class totals,
  the two compilers are shown to agree, and what each yields is stated of the
  document alone.
- **Concurrent components** (`Bus`, `DeploymentManager`, `ManifestManager`,
  `ManifestRuns`, `BidOrder`, `BidRuns`): each is a select loop. A state and one
  action per case (and per move of a goroutine, the cluster or the chain) give
  all interleavings; a class
  carries the loop's variables and each handler is proved to be the action of the
  same name; invariants are proved for every state of every run, and what a run
  records is tied to the actions that happened in it.
- **Codecs and stores** (`Wire`, `WireFields`, `Messages`, `Codec`, `Hostname`,
  `Attributes`, `AuditKeeper`): the backward protobuf writer and forward reader
  over byte arrays, the single-pass domain-name scanner, and the attribute store.

Where the code does not do what its comments or names suggest, the model
follows the code and a lemma says exactly when the expected property holds:

- a zero-count deployment record is matched only if something of its class is
  left over, so an SDL with such records cross-validates exactly when each is
  followed by a positive record of its class (`Sdl.CompiledOutputsCrossValidate`,
  `Sdl.ZeroCountRefused`);
- a teardown request that arrives before the hostnames are reserved is forgotten
  (`DeploymentManager.HonouredIffResolved`);
- the manifest manager's stop timer is only restarted when already set, so it is
  never set (`ManifestManager.StopTimerNeverFires`), and of several manifests
  validated together only the first is kept, which has the same version as the
  others (`ManifestManager.RunJustifies`);
- removing a lease deletes from a slice while ranging over it: it panics
  exactly if the last lease has the given id and so has another
  (`ManifestManager.RemovalPanicsIff`), and otherwise the id is gone exactly if
  no two neighbouring leases had it (`ManifestManager.RemovalExact`,
  `ManifestManager.SecondSurvives`);
- when the order loop is left without winning, no bid stays open on the chain
  exactly if no broadcast is under way and none has succeeded unread
  (`BidOrder.ClosedIffRead`);
- first fit refuses requests that could be placed, and freeing a reservation can
  turn a success into a refusal (`Packing.FirstFitIncomplete`,
  `Packing.FirstFitNotMonotone`). It finds a placement of given units whenever
  there is one, on every inventory with a node and in every number, exactly if
  each of the units is a whole multiple of every later one in the kinds the
  later one needs (such units are called tame), and that is also exactly when
  acceptance survives asking for less (`FirstFit.CompleteIffTame`, `FirstFit.MonotoneIffTame`). In general,
  safety between inventory refreshes is stated as existence of a placement.

All inductive proofs are written out: lemmas to which Dafny would add
induction hypotheses of its own carry `{:induction false}`.

## Model

| member | source | states |
|---|---|---|
| ResourceTypes.Sub | types/resource.go:71-109 | succeeds exactly if all three kinds are present and large enough; then the result plus the subtrahend is the minuend, kind by kind, and endpoints and attributes are kept |
| Packing.PackAllAccounts | provider/cluster/inventory.go:604-627 | packing yields a witness: rows of replicas per node such that each node's loss is exactly its row's load, and placed plus leftover replicas are the requested ones |
| Packing.PackEachSound | provider/cluster/inventory.go:552-573 | if the requests pack one after the other, one joint placement holds all their replicas with every node's load within what it had |
| Packing.PackNodeWeight | provider/cluster/inventory.go:608-621 | on one node, availability before plus leftover demand equals availability after plus demand |
| Packing.PackAllWeight | provider/cluster/inventory.go:604-627 | conservation over all nodes: the drop in total availability is the sum over resources of placed count times units, for each kind |
| Packing.PackAllStops | provider/cluster/inventory.go:604-627 | whatever is left over comes from the request, has a positive count if there is a node, and fits in what remains of no node |
| Packing.PlaceableShrinks | provider/cluster/inventory.go:552-573 | a placement exists for every sub-multiset of jointly placeable replicas |
| Packing.FirstFitIncomplete | provider/cluster/inventory.go:604-627 | for every two units of which the smaller comes first, a request that is refused and has a placement; the exact condition is `FirstFit.CompleteIffTame` |
| Packing.FirstFitNotMonotone | provider/cluster/inventory.go:552-573 | an input on which dropping an earlier reservation makes first fit refuse what it accepted; the condition under which that cannot happen is in `FirstFit.PackEachMonotone` and `FirstFit.MonotoneIffTame` |
| FirstFit.OneNodeExact | provider/cluster/inventory.go:608-621 | on one node a request is packed if and only if it weighs no more than the node has |
| FirstFit.NoNodes | provider/cluster/inventory.go:604-627 | without nodes only the empty list is packed, while every list of zero counts has a placement |
| FirstFit.Exchange | provider/cluster/inventory.go:608-616 | a unit that is a whole multiple of the others can be put on any node with room for it without spoiling a placement of the rest |
| FirstFit.PackAllComplete | provider/cluster/inventory.go:604-627 | a tame request that can be placed together with later ones is packed entirely, and the later ones can still be placed |
| FirstFit.PackEachIffPlaceable | provider/cluster/inventory.go:552-573 | for tame requests and at least one node, packing in sequence succeeds if and only if a joint placement exists |
| FirstFit.PackEachMonotone | provider/cluster/inventory.go:552-573 | tame requests that ask for no more than some packed ones are packed, so removal keeps acceptance |
| FirstFit.SameUnitsTame | provider/cluster/inventory.go:604-627 | requests for replicas of one size are tame |
| FirstFit.UntunedRefused | provider/cluster/inventory.go:604-627 | for any two units out of tune, nodes and numbers on which they are refused though the same is accepted in another order |
| FirstFit.CompleteIffTame | provider/cluster/inventory.go:588-628 | units are tame if and only if, on every inventory with a node and in every number, first fit accepts exactly what has a placement |
| FirstFit.MonotoneIffTame | provider/cluster/inventory.go:552-628 | units are tame if and only if, on every inventory with a node and in every number, asking for no more than accepted requests is accepted |
| Inventory.CountEndpoints | provider/cluster/inventory.go:575-586 | the endpoints of a reservation, whatever the replica counts |
| Inventory.EndpointTotalCounts | provider/cluster/inventory.go:575-586 | the ports of a reservation are the length of its joined endpoint lists, whatever the counts and amounts |
| Inventory.PlaceReplicas | provider/cluster/inventory.go:609-616 | the counting loop takes as many replicas as first fit does and leaves the units alone |
| Inventory.FillNode | provider/cluster/inventory.go:605-621 | the filter that reuses the list's own array keeps exactly the leftovers of the purely functional filter |
| Inventory.AdjustInventory | provider/cluster/inventory.go:588-628 | too few ports: nothing and refusal; otherwise ports drop by the endpoints, nodes are those of the functional packing, success exactly if nothing is left over, identities and allocateable amounts kept |
| Inventory.RefusalMeansFull | provider/cluster/inventory.go:604-627 | a refusal for capacity leaves resources of the request, each with a positive count, that fit on no node |
| Inventory.AdmitsSplits | provider/cluster/inventory.go:552-573 | admission in sequence is packing in sequence together with all endpoints within the ports |
| Inventory.AdmitsSound | provider/cluster/inventory.go:552-573 | admission implies a joint placement of all pending reservations and the new one, and ports for all their endpoints |
| Inventory.AdmitsIffPlaceable | provider/cluster/inventory.go:552-573 | with at least one node and tame units, admission is exactly having a joint placement and the ports |
| Inventory.ReleaseKeepsAdmission | provider/cluster/inventory.go:437-463 | where what is tested afterwards is tame, freeing any reservation never turns an admissible request away |
| Inventory.Allocateable | provider/cluster/inventory.go:552-573 | true exactly if pending reservations and the new one are admitted in that order, hence a joint placement and enough ports |
| Inventory.InventoryService.constructor | provider/cluster/inventory.go:328-358 | the loop starts with the given reservations, no inventory and a check in flight |
| Inventory.InventoryService.OnDeploymentEvent | provider/cluster/inventory.go:366-398 | the first reservation with that order and group name is marked, ports move by its endpoints in 64-bit arithmetic if the mark changed, and reservations are held back until the next check |
| Inventory.InventoryService.OnReserve | provider/cluster/inventory.go:400-417 | a granted reservation is appended and everything pending is jointly placeable; a refusal changes nothing |
| Inventory.InventoryService.OnLookup | provider/cluster/inventory.go:419-435 | the first held reservation with that order and name, or none exists |
| Inventory.InventoryService.OnUnreserve | provider/cluster/inventory.go:437-463 | the first reservation of the order is removed and its ports returned if it was allocated; not found exactly if none has that order |
| Inventory.InventoryService.OnTimer | provider/cluster/inventory.go:469-474 | a check is started |
| Inventory.InventoryService.OnCheckDone | provider/cluster/inventory.go:476-509 | a successful check replaces the inventory and admits reservations again; a failed one keeps it |
| Inventory.StepKeepsLedger | provider/cluster/inventory.go:366-463 | every step keeps: available ports plus endpoints of allocated reservations equal the quantity, pending endpoints within the available ports |
| Inventory.RunKeepsLedger | provider/cluster/inventory.go:328-518 | the ledger holds in every state of every run whose startup reservations are within the quota, so no subtraction wraps |
| Inventory.ReserveEstablishesPlaceable | provider/cluster/inventory.go:400-417 | a granted reservation leaves everything pending jointly placeable, whatever held before |
| Inventory.StepKeepsPlaceable | provider/cluster/inventory.go:366-463 | reserve, unreserve, lookup and a deployed event keep everything pending jointly placeable |
| Inventory.RunKeepsPlaceable | provider/cluster/inventory.go:400-463 | so does every run between two refreshes |
| InventoryRuns.EventMarks | provider/cluster/inventory.go:370-391 | an event sets the flag of the first reservation it names to whether it was deployed; every other reservation stays as it is |
| InventoryRuns.UnreserveRemoves | provider/cluster/inventory.go:440-455 | the first reservation of the order goes, the others stay in order, and its ports come back exactly if it was allocated |
| InventoryRuns.UnknownIgnored | provider/cluster/inventory.go:366-463 | events and releases that name nothing held change nothing |
| InventoryRuns.GrantedIffPlaceable | provider/cluster/inventory.go:400-417 | for tame units and at least one node, a request is granted if and only if it has a joint placement with everything pending and the ports suffice |
| InventoryRuns.AcceptingIff | provider/cluster/inventory.go:347-357 | in every run from startup, requests are taken if and only if the inventory was refreshed after the last event that touched a held reservation |
| InventoryRuns.HeldBack | provider/cluster/inventory.go:352-381 | in every run, between such an event and the next state that takes requests the inventory is refreshed |
| InventoryRuns.NoGrantOnStaleInventory | provider/cluster/inventory.go:381-417 | so no request is taken in between |
| InventoryRuns.CheckUnderWay | provider/cluster/inventory.go:352-357 | after such an event, or the timer, a check is under way until one is done |
| InventoryRuns.InventoryIsLastChecked | provider/cluster/inventory.go:476-509 | requests are judged by the nodes of the last successful check |
| CrossValidation.MatchRecord | validation/manifest.go:215-251 | a record is fulfilled exactly if its class total suffices (for a zero count: is positive), and then that class total, and only it, drops by the count |
| CrossValidation.CountRecordEndpoints | validation/manifest.go:206-213 | endpoints of a record by kind |
| CrossValidation.CountServiceEndpoints | validation/manifest.go:260-273 | global exposes of a group by kind |
| CrossValidation.ValidateGroup | validation/manifest.go:193-283 | the greedy matcher's verdict, which error included, is the one read off class totals and endpoint totals |
| CrossValidation.ValidateGroups | validation/manifest.go:167-191 | accepts exactly if there are as many groups and each manifest group is accepted by the last deployment group of its name; otherwise reports the count, or what the first refused group failed on |
| CrossValidation.MatchingImpliesTotals | validation/manifest.go:203-258 | complete matching implies equal totals for every class, and every zero-count record is followed by a positive one of its class |
| CrossValidation.TotalsImplyMatching | validation/manifest.go:203-258 | and conversely |
| CrossValidation.AcceptanceCharacterised | validation/manifest.go:193-283 | for all counts: accepted if and only if all class totals agree, zero-count records are followed, and both endpoint totals agree |
| CrossValidation.TrailingZeroRefused | validation/manifest.go:215-251 | a deployment group whose last record has count zero is refused, whatever the manifest |
| CrossValidation.OrderIrrelevant | validation/manifest.go:203-258 | with positive deployment counts the matching does not depend on the order of either list |
| CrossValidation.KindTotalsAgree | validation/manifest.go:203-258 | equal class totals mean equal totals of CPU, memory and storage |
| CrossValidation.AcceptedNeedsWhatIsHeld | validation/manifest.go:193-283 | an accepted manifest group needs exactly the CPU, memory and storage of its deployment group |
| Manifest.ServiceResources | manifest/types.go:38-59 | one resource with its count for each service, in order |
| Manifest.ProtocolMeans | manifest/parse.go:10-25 | TCP if not given or spelled so in any case, UDP if spelled so, otherwise unknown |
| Names.LexFirstDifference | sdl/v2.go:280-297 | the order of names is that of their first difference, a prefix coming first |
| Names.SortedNames | sdl/v2.go:280-297 | all names, each once, in increasing order |
| Sdl.CollectTargets | sdl/v2.go:121-148 | the endpoints of one expose; fails exactly if it is global somewhere and its protocol unknown |
| Sdl.CollectEndpoints | sdl/v2.go:120-149 | the endpoints of a service in order |
| Sdl.CompileResource | sdl/v2.go:83-151 | the priced resource of one service in one placement, or which lookup failed first |
| Sdl.AddResource | sdl/v2.go:97-152 | one more entry extends exactly its placement's group |
| Sdl.CompileGroups | sdl/v2.go:75-154 | the groups of all entries so far, or the first entry's error |
| Sdl.OrderGroups | sdl/v2.go:156-167 | groups in increasing order of name |
| Sdl.DeploymentGroups | sdl/v2.go:74-168 | on success the deployment groups of the document: one per placement, with its attributes sorted by key and its signatures, resources in the order of service names; on failure the first error in that order |
| Sdl.ExposeTargets | sdl/v2.go:213-235 | one manifest expose per target, or one that is not global |
| Sdl.CollectExposes | sdl/v2.go:207-236 | a service's exposes; fails exactly on an unknown protocol, global or not |
| Sdl.SortExposes | sdl/v2.go:239-259 | the same exposes, sorted by service, port, protocol and global first |
| Sdl.CompileService | sdl/v2.go:188-259 | the manifest service of an entry, or which lookup failed first |
| Sdl.AddService | sdl/v2.go:179-261 | one more entry extends exactly its placement's group |
| Sdl.CompileServices | sdl/v2.go:171-264 | the groups of all entries so far, or the first entry's error |
| Sdl.OrderManifest | sdl/v2.go:266-277 | groups in increasing order of name |
| Sdl.CompileManifest | sdl/v2.go:170-278 | on success the manifest of the document, on failure the first error |
| Sdl.ExposesAgree | sdl/v2.go:120-236 | for each kind, the manifest's global exposes are as many as the endpoints the other compiler derives from the same list |
| Sdl.GroupsAgree | sdl/v2.go:74-278 | the two groups of one placement have the same resource classes and counts, position by position, and the same endpoint totals |
| Sdl.CompiledOutputsCrossValidate | sdl/v2.go:74-278 | whenever both compilers succeed, the manifest passes cross-validation if and only if every zero-count entry is followed by a positive one of its class in its group |
| Sdl.PositiveSdlCrossValidates | validation/manifest.go:167-283 | with positive counts the two outputs of one SDL always cross-validate |
| Sdl.ZeroCountRefused | validation/manifest.go:215-251 | a document that both compilers accept and whose outputs do not cross-validate |
| SdlContents.EntriesExact | sdl/v2.go:77-81 | every service is compiled for every placement it is deployed in, once, in increasing order of service and then placement, and nothing else is |
| SdlContents.EntriesOfPlacement | sdl/v2.go:77-81 | the entries of a placement are those of the services deployed there, in increasing order of name |
| SdlContents.DeploymentGroupsHold | sdl/v2.go:74-168 | the groups of a success are the placements used, in increasing order; each holds one resource for each service deployed there, in order, with the count, price, amounts and endpoints the document gives it |
| SdlContents.ManifestHolds | sdl/v2.go:170-278 | the manifest has the same groups, each with the same services in the same order, with the count, amounts, image, arguments and exposes the document gives them |
| SdlContents.ExposesExact | sdl/v2.go:207-236 | every target of every expose has its manifest entry, field by field and at its place, and there are no others |
| SdlContents.EndpointsExact | sdl/v2.go:120-149 | one endpoint for each global target: shared HTTP for TCP seen from outside on port 80, a random port otherwise |
| SdlContents.HttpIff | provider/cluster/util/util.go:10-19 | an expose counts as HTTP if and only if it is global, TCP and seen from outside on port 80 |
| Wire.SovIsLength | types/attribute.pb.go:377-379 | the size function is the number of bytes of the varint |
| Wire.GroupsDisjoint | types/attribute.pb.go:390-405 | what was read so far shares no bit with the next group shifted into place, and their sum stays within the word, also for the tenth group, of which one bit is left; so the or is a sum |
| Wire.VarintRoundTrip | types/attribute.pb.go:311-321 | reading a written varint gives the value back and stops behind it, for every 64-bit value, wherever it stands |
| WireFields.Skip | types/attribute.pb.go:728-805 | skipping terminates on every byte string and moves forward when it succeeds |
| WireFields.NextField | types/attribute.pb.go:387-488 | a field read successfully lies within the data, behind its start, and is 1 or 2 if known |
| WireFields.SkipForeign | types/attribute.pb.go:728-805 | a well-formed field of any wire type, groups nested to any depth included, is skipped to its last byte |
| WireFields.ParseStream | types/attribute.pb.go:383-496 | parsing a stream of fields applies the known ones in order and ignores the rest, whatever the message does with a field |
| WireFields.UnknownFieldsIgnored | types/attribute.pb.go:483-495 | parsing a stream with unknown fields anywhere in it gives the same result, error or value, as parsing it without them |
| WireFields.MalformedTagRefused | types/attribute.pb.go:387-440 | bytes that begin with an end of a group, a field number that is not positive or a known field of another wire type are refused, whatever follows |
| WireFields.LengthBeyondRefused | types/attribute.pb.go:415-450 | so is a known field whose length reaches beyond the data or is no int |
| Messages.AttributeSizeIsLength | types/attribute.pb.go:322-337 | Size is the length of the encoding |
| Messages.SignedBySizeIsLength | types/attribute.pb.go:339-358 | Size is the length of the encoding |
| Messages.RequirementsSizeIsLength | types/attribute.pb.go:360-375 | Size is the length of the encoding |
| Messages.AttributeRoundTrip | types/attribute.pb.go:383-496 | parsing an encoded Attribute gives it back |
| Messages.SignedByRoundTrip | types/attribute.pb.go:497-610 | parsing an encoded SignedBy gives it back, lists in order |
| Messages.RequirementsRoundTrip | types/attribute.pb.go:611-727 | parsing an encoded PlacementRequirements gives it back |
| Messages.FieldNumbers | types/attribute.pb.go:201-309 | which field has which number, and that the signatures are written even if there are none |
| Codec.EncodeVarint | types/attribute.pb.go:311-321 | the bytes just before the offset are the varint and no other byte of the buffer changed |
| Codec.CopyBytes | types/attribute.pb.go:206-219 | the payload stands just before the end and no other byte changed |
| Codec.WriteField | types/attribute.pb.go:206-219 | key, length and payload stand just before the end and no other byte changed |
| Codec.WriteRepeated | types/attribute.pb.go:243-260 | the backward loop leaves the elements in forward order |
| Codec.WriteAttributes | types/attribute.pb.go:284-297 | the backward loop leaves the nested messages in forward order, each with its own length |
| Codec.WriteSignedBy | types/attribute.pb.go:298-307 | the nested message with its length, even if it is empty |
| Codec.MarshalAttributeTo | types/attribute.pb.go:201-221 | fills exactly Size bytes before the end with the encoding |
| Codec.MarshalSignedByTo | types/attribute.pb.go:238-262 | fills exactly Size bytes before the end with the encoding |
| Codec.MarshalRequirementsTo | types/attribute.pb.go:279-309 | fills exactly Size bytes before the end with the encoding |
| Codec.MarshalRequirements | types/attribute.pb.go:264-272 | the encoding, of length Size |
| Codec.DecodeVarint | types/attribute.pb.go:390-405 | the shifting loop reads what the recursive reader reads, errors included, from any position |
| Codec.SkipRoundOf | types/attribute.pb.go:732-796 | one round of the skipping loop |
| Codec.SkipField | types/attribute.pb.go:728-805 | the depth-counting loop skips what the recursive skipper skips |
| Codec.ReadField | types/attribute.pb.go:387-488 | reads what the field reader reads, errors included, with every access in range |
| Codec.UnmarshalAttribute | types/attribute.pb.go:383-496 | the loop is the parser, on every byte string |
| Codec.UnmarshalSignedBy | types/attribute.pb.go:497-610 | the loop is the parser, on every byte string and whatever was there before |
| Codec.UnmarshalRequirements | types/attribute.pb.go:611-727 | the loop is the parser, on every byte string |
| Codec.RoundTrip | types/attribute.pb.go:264-309 | writing backwards and reading forwards gives the message back |
| Hostname.SplitCuts | util/validation/hostname.go:36-88 | the labels the specification speaks of are the dot-free pieces whose join is the name |
| Hostname.SplitUnique | util/validation/hostname.go:36-88 | dot-free pieces are the labels of their join, so the cut is the only one |
| Hostname.IsDomainName | util/validation/hostname.go:36-88 | the scanner accepts exactly the names within the length limit whose labels are non-empty, at most 63 long, of letters, digits, hyphen and underscore, without a hyphen at either end, one of them with a non-digit |
| AuditKeeper.KeyInjective | x/audit/keeper/key.go:15-26 | different owner and auditor pairs have different keys |
| AuditKeeper.PrefixExact | x/audit/keeper/key.go:28-35 | an owner's prefix starts exactly that owner's keys |
| Attributes.SortStableRefines | x/audit/keeper/keeper.go:118-126 | stable sorting keeps the entries and what the list means as a map, and sorts by key |
| Attributes.LastWins | x/audit/keeper/keeper.go:95-104 | read as a map, the last occurrence of a key gives its value |
| Attributes.OnlyKeysThatOccur | x/audit/keeper/keeper.go:95-104 | and there are no other keys |
| AuditKeeper.FromMapRefines | x/audit/keeper/keeper.go:172-190 | listing a map and sorting it means that map again, and is empty exactly for the empty map |
| AuditKeeper.Merged | x/audit/keeper/keeper.go:82-129 | the merged list is key-sorted and means the old map overridden by the new one |
| AuditKeeper.Remaining | x/audit/keeper/keeper.go:150-190 | succeeds exactly for distinct existing keys, and then means the old map without them |
| AuditKeeper.Collect | x/audit/keeper/keeper.go:95-104 | later entries override earlier ones |
| AuditKeeper.RemoveKeys | x/audit/keeper/keeper.go:160-170 | fails exactly if a key is missing or given twice |
| AuditKeeper.Keeper.constructor | x/audit/keeper/keeper.go:31-33 | an empty store is valid |
| AuditKeeper.Keeper.GetProviderByAuditor | x/audit/keeper/keeper.go:41-54 | finds exactly the record of that pair |
| AuditKeeper.Keeper.GetProviderAttributes | x/audit/keeper/keeper.go:56-80 | all records of that owner and no others, each once, in order of key; not found exactly if there are none |
| AuditKeeper.Keeper.CreateOrUpdateProviderAttributes | x/audit/keeper/keeper.go:82-129 | the pair's map becomes the old one overridden by the new one, lists stay sorted, other pairs are untouched |
| AuditKeeper.Keeper.DeleteProviderAttributes | x/audit/keeper/keeper.go:132-196 | which failure occurs exactly when, with the store unchanged; otherwise exactly the given keys go, the record with them if nothing is left; other pairs untouched |
| DeploymentManager.Manager.constructor | provider/cluster/manager.go:64-91 | starts in the deploy-active state with one group received and the hostnames requested |
| DeploymentManager.Manager.Do | provider/cluster/manager.go:294-300 | one new operation, which the loop listens on |
| DeploymentManager.Manager.BeginDeploy | provider/cluster/manager.go:245-249 | a deploy that has not read its group yet |
| DeploymentManager.Manager.BeginTeardown | provider/cluster/manager.go:251-255 | a teardown |
| DeploymentManager.Manager.OnHostnames | provider/cluster/manager.go:123-132 | a deploy starts whatever the state was, or the run stops |
| DeploymentManager.Manager.OnUpdate | provider/cluster/manager.go:137-152 | the newest group is kept; an active deploy becomes pending, a complete one starts again, a teardown is left alone |
| DeploymentManager.Manager.OnResult | provider/cluster/manager.go:154-185 | success completes a deploy or starts the pending one, failure ends the run; a pending teardown starts whatever the result, a finished one ends the run; the panics are dead code |
| DeploymentManager.Manager.OnTeardown | provider/cluster/manager.go:187-200 | a deploy in flight is awaited with the teardown pending, a complete one is torn down at once |
| DeploymentManager.ResultNeverPanics | provider/cluster/manager.go:174-185 | under the invariant no result arrives in the deploy-complete or teardown-complete state |
| DeploymentManager.StepKeepsInvariant | provider/cluster/manager.go:111-201 | every step keeps: one operation in flight, the one listened on; its kind fits the state; a deploy nobody superseded read the newest group; teardown sticks |
| DeploymentManager.RunSafe | provider/cluster/manager.go:111-201 | in every state of every run: no panic, at most one operation, and a complete deploy is of the newest group received |
| DeploymentManager.TeardownHonoured | provider/cluster/manager.go:154-200 | after a request handled once hostnames are resolved, no deploy starts, and only a shutdown or the result of a teardown that was read ends the run |
| DeploymentManager.HonouredIffResolved | provider/cluster/manager.go:123-132 | no run starts a deploy after a teardown request if and only if the hostname reservation had resolved |
| DeploymentManager.RunStopsIff | provider/cluster/manager.go:111-217 | a run has stopped for a reason if and only if that happened while it ran: refused hostnames, a shutdown, the end of a teardown, or a failed deploy no teardown waits for |
| DeploymentManager.TornDownByTeardown | provider/cluster/manager.go:176-182 | a run from the start that counts as torn down has read the result of a teardown |
| DeploymentManager.RunHoldsNewest | provider/cluster/manager.go:137-139 | the group held is that of the last update |
| DeploymentManager.CompleteMeansDeployed | provider/cluster/manager.go:154-167 | in every run, deploy-complete means that the success of a deploy of the group of the last update was read |
| DeploymentManager.RunRecords | provider/cluster/manager.go:123-200 | deploys start exactly on granted hostnames, on an update of a complete deployment and on the success of a superseded deploy; a teardown request counts from when the hostnames have resolved |
| ManifestManager.Manager.constructor | provider/manifest/manager.go:38-59 | nothing held, nothing fetched |
| ManifestManager.Manager.FillAllRequests | provider/manifest/manager.go:265-275 | every waiting request is answered, validated ones first, in order |
| ManifestManager.Manager.EmitReceivedEvents | provider/manifest/manager.go:277-309 | without leases everything is refused; otherwise the newest manifest goes out for every lease before the validated requests are accepted |
| ManifestManager.Manager.ValidateRequest | provider/manifest/manager.go:375-411 | the first failing check: hash, expected version, form, cross-validation against the deployment's groups, hostnames |
| ManifestManager.Manager.ValidateRequests | provider/manifest/manager.go:311-336 | invalid requests are refused in order, valid ones wait in order, the first valid manifest is kept |
| ManifestManager.Manager.ScheduleStop | provider/manifest/manager.go:246-263 | the timer is cleared or left as it was |
| ManifestManager.Manager.FetchData | provider/manifest/manager.go:224-229 | a fetch is in flight unless the deployment is known |
| ManifestManager.Manager.OnLeaseWon | provider/manifest/manager.go:152-158 | the lease is held, a known manifest is published again for all leases, and an unknown deployment is being fetched |
| ManifestManager.Manager.OnLeaseRemoved | provider/manifest/manager.go:160-169 | the loop over the shared array, with the panic |
| ManifestManager.Manager.OnManifest | provider/manifest/manager.go:171-178 | the request is judged and answered if the deployment is known, refused if no lease is held, and otherwise waits while the deployment is fetched |
| ManifestManager.Manager.OnVersion | provider/manifest/manager.go:180-185 | the version is recorded, also in a fetched deployment |
| ManifestManager.Manager.OnFetched | provider/manifest/manager.go:187-205 | a failed fetch refuses everything; otherwise what waited is judged |
| ManifestManager.Manager.OnShutdown | provider/manifest/manager.go:143-145 | everything waiting is answered that the manager is not running |
| ManifestManager.JudgedOnce | provider/manifest/manager.go:316-327 | validation splits the waiting requests into those kept and those answered, losing and repeating none |
| ManifestManager.StepAccounts | provider/manifest/manager.go:125-229 | every step keeps: accepted requests are, as multisets, those answered and those waiting |
| ManifestManager.StepKeepsHead | provider/manifest/manager.go:133-208 | every step keeps: at the loop head nothing validated waits, the rest waits only for a fetch in flight, and the stop timer is not set |
| ManifestManager.RunAnswersOnce | provider/manifest/manager.go:125-222 | both hold in every state of every run, and when a run has stopped the answers are exactly the accepted requests, each once |
| ManifestManager.StopTimerNeverFires | provider/manifest/manager.go:246-263 | no run contains the timer case |
| ManifestManager.StepJustified | provider/manifest/manager.go:277-336 | a nil answer sent by a step comes after the newest validated manifest went out for every held lease, and both that manifest and the request's have the expected version and match the deployment's groups |
| ManifestManager.RunJustifies | provider/manifest/manager.go:125-336 | the same for every step of every run |
| ManifestRuns.RunRecords | provider/manifest/manager.go:152-205 | in every run, the versions, requests and deployment held are those that arrived, in order |
| ManifestRuns.RunLeases | provider/manifest/manager.go:152-169 | in every run that has not panicked, the leases held are those won, less what each removal takes out |
| ManifestRuns.StoppedIff | provider/manifest/manager.go:143-145 | a run has stopped if and only if it was shut down |
| ManifestRuns.AcceptedIsDue | provider/manifest/manager.go:375-392 | in every run, an accepted manifest has the hash announced last, or that of the fetched deployment if none was announced, and fits the fetched groups |
| ManifestRuns.RefusedIsNotDue | provider/manifest/manager.go:384-392 | and one refused for its version has another hash |
| ManifestRuns.RunExplains | provider/manifest/manager.go:125-411 | in every step of every run each answer is given for the reason it names, and acceptance only with a lease held, free hostnames and a valid manifest |
| ManifestRuns.KeptIsFirstValid | provider/manifest/manager.go:311-336 | of the requests judged together, the manifest of the first valid one is kept |
| ManifestRuns.FetchStarted | provider/manifest/manager.go:224-229 | after a lease or a manifest the deployment is known or being fetched, and a result ends the fetch |
| ManifestRuns.FetchesUnknownOnly | provider/manifest/manager.go:224-229 | in every run the deployment is only being fetched while it is not known |
| ManifestRuns.RunServes | provider/manifest/manager.go:277-309 | in every state of every run, every lease held has been sent the newest validated manifest |
| ManifestManager.AnsweredAtOnce | provider/manifest/manager.go:171-178 | once the deployment is known a request is answered in the step that receives it: the verdict on it, or that there is no lease |
| ManifestManager.RemovesTheOne | provider/manifest/manager.go:160-169 | a lease id held once is removed and everything else stays in order |
| ManifestManager.RemovalLeaves | provider/manifest/manager.go:163-167 | for every list of leases, a removal that does not panic leaves what remains when each removed lease's successor is passed over |
| ManifestManager.RemovalExact | provider/manifest/manager.go:163-167 | a removal that does not panic keeps all other leases in order, and the id is gone if and only if no two neighbouring leases had it |
| ManifestManager.SecondSurvives | provider/manifest/manager.go:163-167 | of two neighbouring leases with the id, followed by another, the second stays |
| ManifestManager.RemovalPanicsIff | provider/manifest/manager.go:163-167 | removal panics if and only if the last lease has the id and an earlier one has it too |
| BidOrder.Runner.constructor | provider/bidengine/order.go:124-165 | the group result is hidden exactly while an existing bid is looked for |
| BidOrder.Runner.OnBidQueried | provider/bidengine/order.go:172-189 | an error other than "not found" leaves the loop; a found bid counts as placed; the group result is released |
| BidOrder.Runner.OnGroupFetched | provider/bidengine/order.go:235-251 | a fetched group is kept and judged; a failed fetch leaves the loop |
| BidOrder.Runner.OnBidDecided | provider/bidengine/order.go:253-275 | the reservation is asked for only on acceptance |
| BidOrder.Runner.OnReservationRead | provider/bidengine/order.go:277-308 | a granted reservation is kept, and priced unless a bid is placed |
| BidOrder.Runner.OnPriced | provider/bidengine/order.go:309-330 | a bid is broadcast only at a price within the maximum |
| BidOrder.Runner.OnBidRead | provider/bidengine/order.go:332-348 | a successful bid is recorded as placed |
| BidOrder.Runner.OnStop | provider/bidengine/order.go:223-233 | a closed order, like a shutdown, only leaves the loop |
| BidOrder.Runner.OnLeaseCreated | provider/bidengine/order.go:193-221 | the lease is won exactly if it is this provider's |
| BidOrder.Runner.AwaitReservation | provider/bidengine/order.go:363-369 | a reservation granted after the loop was left is taken over |
| BidOrder.Runner.OnExit | provider/bidengine/order.go:362-393 | unless won: a held reservation is released, a placed bid closed |
| BidOrder.StepKeepsInvariant | provider/bidengine/order.go:124-408 | every step keeps: at most one result awaited, in pipeline order; grants counted; bids justified; clean-up complete |
| BidOrder.PricedGroupKnown | provider/bidengine/order.go:309-318 | whenever a price is awaited the group is known, so its maximum price can be read |
| BidOrder.RunBidsOnce | provider/bidengine/order.go:124-352 | every run broadcasts at most one create-bid, only with the group fetched, the bid accepted, a reservation granted, no existing bid and a price within the maximum |
| BidOrder.ClosedIffRead | provider/bidengine/order.go:355-403 | from every state in which the loop is left without winning: every run ends with any bid on the chain closed if and only if no broadcast is under way and none has succeeded unread |
| BidOrder.UnreadBidStaysOpen | provider/bidengine/order.go:376-403 | from every state with a broadcast under way, a shutdown can end the run with the bid on the chain and no close sent |
| BidOrder.BroadcastReachable | provider/bidengine/order.go:124-330 | such a state is reachable, whether or not an existing bid is looked for first |
| BidOrder.QueryReleasesGroup | provider/bidengine/order.go:172-189 | a query that finds no bid leaves the loop as if there had been none to look for |
| BidRuns.LoopingIff | provider/bidengine/order.go:166-353 | a run is in its loop if and only if nothing has happened that leaves it: a failure, a refusal, a price too high, a lease, a signal |
| BidRuns.WonIff | provider/bidengine/order.go:193-221 | in every run, the lease counts as won if and only if it was created for this provider while the loop ran |
| BidRuns.RunRecords | provider/bidengine/order.go:124-408 | in every run, what was found, accepted, granted and taken by the chain is what the answers said |
| BidRuns.PlacedIff | provider/bidengine/order.go:183-345 | a bid is recorded as placed if and only if one was found or the success of one was read |
| BidRuns.TimeoutAfterBid | provider/bidengine/order.go:344-353 | the loop only times out after the success of its bid was read with a timeout configured |
| BidRuns.BidInOrder | provider/bidengine/order.go:235-330 | in every run, the one create-bid comes after a fetched group, an acceptance, a grant and a price within that group's maximum, in this order, with no existing bid found |
| BidRuns.RunCleansUp | provider/bidengine/order.go:362-393 | a finished run in which this provider's lease was not created has released what was granted, also after the loop was left, exactly once, and sent one close if a bid was found or the success of one read; a run that won has done neither |
| Bus.Loop.Root | pubsub/bus.go:54-66 | an empty bus |
| Bus.Loop.Clone | pubsub/bus.go:176-198 | a subscriber with a copy of the parent's unemitted events |
| Bus.Loop.OnSubscribe | pubsub/bus.go:148-154 | a fresh clone, and one more subscription |
| Bus.Loop.OnEmit | pubsub/bus.go:129-131 | the oldest buffered event goes out and leaves the buffer |
| Bus.Loop.OnPublish | pubsub/bus.go:133-139 | buffered in subscriber mode only, and owed to every subscriber |
| Bus.Loop.HandOver | pubsub/bus.go:142-146 | one subscriber is no longer owed the event |
| Bus.Loop.OnUnsubscribe | pubsub/bus.go:156-158 | one subscription less |
| Bus.StepKeepsInvariant | pubsub/bus.go:104-174 | every step keeps, for every node: emitted plus buffered is inherited plus received; a child received what its parent received since, but for an event still owed; it inherited what the parent had not emitted |
| Bus.RunKeepsInvariant | pubsub/bus.go:104-198 | the same for every state of every run |
| Bus.CloneMissesNothing | pubsub/bus.go:176-198 | at any time after a clone is made, what it emitted and buffers is the parent's buffer at that moment followed by what the parent received since, all of it while the clone runs and nothing is owed |
| Bus.StreamIsSegment | pubsub/bus.go:104-198 | at any depth a node's events are a contiguous run of the published ones, up to the last one if every node above has settled |
| Bus.SubscriberSeesSegment | pubsub/bus.go:104-198 | in every run, a subscriber at any depth has emitted a contiguous run of the published events, in order, each once |
| Bus.RootReceivesPublished | pubsub/bus.go:68-75 | in every run, the bus has received exactly the events published on it, in order |
| Bus.EndedDrained | pubsub/bus.go:162-174 | in every run, a node that has ended has no subscriber left: all its clones have ended before it |
| Bus.RunOriginFixed | pubsub/bus.go:176-198 | in every run, the published event a subscriber's stream begins with is fixed when it is made |

## Left out

- The Kubernetes client, the gateway, the command line, application wiring and mocks: input, output and wiring.
- The market, deployment, escrow, provider and certificate keepers.
- The hostname service, which hands out names to deployments, the serial broadcaster, which sends one transaction at a time, the cache of auditors' attributes and the balance checker.
- The status report of the inventory, and sums through `ResourceUnits.Add`, which mutates shared pointers.
- Resource units with a missing CPU, memory or storage on nodes and in reservations: subtraction dereferences all three.
- Committed sizes, scale pricing and unit parsing: floating point and decimal libraries; sizes are given numbers here.
- YAML decoding and the manifest hash: documents are given, and the hash is an arbitrary function that may fail.
- Metrics, logging and delays; timers and asynchronous results are actions that may happen at any time.
- Compiling sorts a placement's attributes in the document itself; the model sorts a copy, which differs only for a reader of the document.
- The nested loops over services and placements of the two compilers are one loop over the pairs in the same order.
- The order among exposes that compare equal is the sorting library's choice; `Sdl.SortExposes` picks one, and what is proved of compiled manifests holds for all.
- Whether an order should be bid on (attribute and signature requirements), the price, whether a manifest is well formed by itself and whether hostnames are free: answers from outside that may be anything.
- The deployment monitor, withdrawal and the retry of hostname release: they do not touch the state the properties speak of.
- The consumption of a shutdown request inside the manifest manager's hostname check: it is one of the possible refusals here, and the shutdown itself remains possible.
- An event the bus refuses because it is shutting down counts as published by the manifest manager, which ignores that error too.
- The marshalling wrappers of Attribute and SignedBy that allocate the buffer; they differ from that of PlacementRequirements in the message only.
- Byte strings of 2^63 bytes or more, which a slice cannot hold.
- The bit operations of the varint code are sums, products and remainders of the same value, which `Wire.GroupsDisjoint` justifies for reading.
- Endpoint counts beyond 64 bits: the counts themselves are unbounded, the ledger's arithmetic wraps.
- Bus.Loop.OnPublish: the loop over the subscriptions is split into one `HandOver` per rendezvous, since other nodes move in between; the tree of nodes is a value and the rendezvous are steps on it.
- FirstFit.MonotoneIffTame: exact for asking for no more, in any order, than was accepted; for dropping requests from a list and keeping the order of the rest, being tame is proved sufficient.
- BidOrder.ClosedIffRead: speaks of close messages sent, not of their success on the chain, as the source ignores failures there.
