# Product context memory: a verified model

This project models the stateful and the arithmetic core of the product context memory service in Dafny and proves
what that core promises: over all inputs, over all runs, and where requests interleave, over all interleavings.

- **Ticket hierarchy.** `TicketHierarchy` models re-parenting a ticket as a compare-and-set guarded by a reachability
  query, over a finite set of stored declarations. `TicketWalk` models the bounded, visibility-gated traversal as the
  rows its recursive query produces round by round. `Graphs` holds walks, reachability and forests.
- **Memory writes.** `MemoryClaims` models what two writes are compared by, down to the truncation of instants.
  `MemoryPlans` is the planner shared by dry run and write; `MemoryResends` proves what sending a batch again does.
  `MemoryUnits` models a save as the pending rows it flushes; `MemoryProgress` relates a plan to tables that have moved
  on; `MemoryRequests` plans links, labels and references and defines the plan of a request; `MemoryEffects` says what
  a written plan leaves in each table, `MemoryCounts` that the counts are the growth of the tables, and `MemoryRuns` that
  a write is a run of the ownership machine; `MemoryStore` is the class that carries a plan out, and proves that a dry run
  foretells the write.
- **Ticket ownership.** `TicketOwnership` has the group and reference operations as methods of a store, and a state
  machine in which their reads and commits interleave; the requests modelled as methods,
  memory writes included, are proved to be steps or runs of it.
- **Dossiers.** `MemoryWidening` proves the path enumeration equal to a breadth-first search; `DossierSelections` builds
  the three queries from one filter and resolves a selection from the answers of the searches and traversals;
  `DossierCompleteness` proves it eligible, narrowed by its ticket, and exact when no limit is disclosed;
  `DossierBundles` gathers, collapses and cuts.
- **Snapshots.** `SnapshotRestore` proves what read-back counts are worth; `SnapshotJobs` is the job slot as a protocol
  of small steps.
- **Text and names.** `AgtypeReader`, `CypherLiterals`, `Slugs` and `ExportNames`.
- **Product registry.** `ProductRegistry` models the graph-native products, their initiatives and repositories.
- `Common` and `Sorting` hold shared vocabulary.

State that the service updates in place is a class whose methods are proved against functions of the old state;
queries and pure code are functions and relations; protocols are state machines with runs as sequences of steps.

## Results that are conditions

Some promises hold only under a condition. Each is proved as an equivalence.

- **Claims and instants.** The comment in `MemoryClaim.cs` (lines 90-95) takes its truncation to be the store's. It is,
  for every whole tick. For an instant between ticks and before 2000 the two can differ (`TruncationCanDisagree`), and
  exactly then a claim does not read back as it was written (`ClaimReadsBackExactly`). Batch equivalence and the
  recognition of re-sent writes therefore hold exactly for writes whose end of validity reads back
  (`SafeExactlyWhenComparable`, `ResendRecognisedExactly`). Every instant with tick precision does.
- **Restore by counts.** Product vertices are created, the others merged. For every list of products, matching counts
  prove every capture of them faithfully restored exactly when no two share a name
  (`CountsSufficeExactlyWhenNamesDistinct`); otherwise `LossyCapture` gives a capture that restores with all counts
  right and the content wrong. The registry's own operations never let two share one
  (`CountsMatchForRegisteredProducts`).
- **Dry run and write.** The dry run refuses what the write refuses, except that planning does not look for the vertex
  of a referenced ticket: with no fault of the store the two differ exactly when a new reference is to a ticket without
  one (`DryRunThenWrite`).
- **The job slot.** Marking a job completed and writing it to the slot are two steps (lines 75 and 76). A job published
  between them is hidden by the second, exactly then (`PublishIsSafeExactlyWhenNoWritePending`), and two jobs can end
  up running (`TwoJobsCanRun`).

## Assumptions

- PostgreSQL, Apache AGE, Entity Framework and the blob store are modelled by what the statements ask of them: tables as
  maps and sequences, Cypher patterns as relations, a transaction as all or nothing, an advisory lock as one atomic step,
  a save as the flush of a pending unit that is accepted or refused as a whole. A variable-length Cypher path crosses no
  edge twice.
- Identifiers minted by the service are new. Uuids are integers, except in export names, where their digits matter.
- Unicode normalisation, character classes, case folding, content addresses and letters in annotations are functions,
  with the few facts needed stated as preconditions: the hyphen is no letter or digit and folds to itself only, folding
  keeps hexadecimal digits apart, punctuation is no letter. Text is a sequence of code points, so unpaired surrogates
  do not occur.

## Model

| member | source | states |
|---|---|---|
| TicketHierarchy.TicketGraph.ChangeParent | src/SmoothAiProductContextMemory.Infrastructure/Persistence/NpgsqlTicketGraph.cs:37-124 | the outcome is the specified verdict on the old state and the new state is the specified one; every refusal leaves the stored declarations as they were |
| TicketHierarchy.TicketGraph.RequireOwner | src/SmoothAiProductContextMemory.Infrastructure/Persistence/NpgsqlTicketGraph.cs:138-159 | a ticket passes exactly when one group owns it and one vertex stands for it; otherwise the refusal says which of the two kinds it is |
| TicketHierarchy.TicketGraph.WouldCycle | src/SmoothAiProductContextMemory.Infrastructure/Persistence/NpgsqlTicketGraph.cs:186-205 | the growing reachability query stops and answers true reachability from the child to the parent, on any stored edges, cyclic ones included |
| TicketHierarchy.TicketGraph.Current | src/SmoothAiProductContextMemory.Infrastructure/Persistence/NpgsqlTicketGraph.cs:161-184 | the one stored declaration of a ticket, nothing when there is none, a refusal exactly when there are several |
| TicketHierarchy.ReachIgnoresOwnParents | src/SmoothAiProductContextMemory.Infrastructure/Persistence/NpgsqlTicketGraph.cs:75-104 | what a child reaches is the same with and without the edges that end in it, so probing before the old edge is deleted is harmless |
| TicketHierarchy.ProbeIsExact | src/SmoothAiProductContextMemory.Infrastructure/Persistence/NpgsqlTicketGraph.cs:186-205 | the probe is true exactly when re-parenting would put the child on a cycle, for any stored relation |
| TicketHierarchy.CycleIsOldOrThroughChild | src/SmoothAiProductContextMemory.Infrastructure/Persistence/NpgsqlTicketGraph.cs:75-104 | every cycle after re-parenting was there before or passes through the child |
| TicketHierarchy.RefusedExactlyWhenCyclic | src/SmoothAiProductContextMemory.Infrastructure/Persistence/NpgsqlTicketGraph.cs:58-107 | a parent that passes the owner and expected-parent checks and differs from the stored one is refused exactly when the whole resulting relation has a cycle |
| TicketHierarchy.ApplyKeepsInvariant | src/SmoothAiProductContextMemory.Infrastructure/Persistence/NpgsqlTicketGraph.cs:58-124 | one parent change keeps the relation a forest with grounded ends |
| TicketHierarchy.RunsKeepForest | src/SmoothAiProductContextMemory.Infrastructure/Persistence/NpgsqlTicketGraph.cs:37-124 | over any run of parent changes and membership changes every ticket keeps at most one parent and no cycle appears |
| TicketHierarchy.RepeatIsUnchanged | src/SmoothAiProductContextMemory.Infrastructure/Persistence/NpgsqlTicketGraph.cs:63-112 | a change once carried out is recognised as already stored when sent again |
| TicketHierarchy.AcceptedIsStored | src/SmoothAiProductContextMemory.Infrastructure/Persistence/NpgsqlTicketGraph.cs:69-112 | after an accepted change the one edge into the child comes from the parent asked for and carries the reason, source and observation sent, with the recording time when new, or there is none; every other edge stays |
| TicketHierarchy.NewContentIsNotARepeat | src/SmoothAiProductContextMemory.Infrastructure/Persistence/NpgsqlTicketGraph.cs:69-72 | a request differing from the stored edge in parent, reason, source or observation is never answered unchanged |
| TicketHierarchy.MalformedExactly | src/SmoothAiProductContextMemory.Infrastructure/Persistence/NpgsqlTicketGraph.cs:39-49 | a change is malformed exactly when an identity named or one of its texts is blank, too long or has a null character |
| TicketHierarchy.VerdictExactly | src/SmoothAiProductContextMemory.Infrastructure/Persistence/NpgsqlTicketGraph.cs:58-107 | on the stored fields: accepted exactly when every ticket named has one group and one vertex, the stored parent is the expected one, and nothing changes or the parent is not below the child; unchanged exactly when nothing differs |
| TicketWalk.AdmittedExactly | src/SmoothAiProductContextMemory.Infrastructure/Persistence/NpgsqlTicketGraph.Traversal.cs:84-98 | the recursive query admits exactly the paths of 1 to depth edges that repeat no ticket and touch only uniquely owned, visible tickets |
| TicketWalk.AdmittedOnStoredOwners | src/SmoothAiProductContextMemory.Infrastructure/Persistence/NpgsqlTicketGraph.Traversal.cs:70-98 | on the stored edges and owners: admitted are exactly the walks of 1 to depth edges from an anchor that repeat no ticket and have at each ticket one owning group, in a dimension that is not hidden |
| TicketWalk.EachRowOnce | src/SmoothAiProductContextMemory.Infrastructure/Persistence/NpgsqlTicketGraph.Traversal.cs:84-96 | whatever order the anchors and edges are read in, UNION ALL produces every row of the recursion exactly once, and no other |
| TicketWalk.ListedOnce | src/SmoothAiProductContextMemory.Infrastructure/Persistence/NpgsqlTicketGraph.Traversal.cs:97-100 | the listed rows are the admitted paths, each once |
| TicketWalk.DepthFlagExact | src/SmoothAiProductContextMemory.Infrastructure/Persistence/NpgsqlTicketGraph.Traversal.cs:148-148 | the depth flag is up exactly when such a path of depth + 1 edges exists |
| TicketWalk.NoDepthFlagMeansComplete | src/SmoothAiProductContextMemory.Infrastructure/Persistence/NpgsqlTicketGraph.Traversal.cs:84-104 | with the depth flag down every such path of whatever length was admitted |
| TicketWalk.SelectionIsPrefixClosed | src/SmoothAiProductContextMemory.Infrastructure/Persistence/NpgsqlTicketGraph.Traversal.cs:99-100 | the path limit never keeps a path without every shorter path it grew from |
| TicketWalk.PathFlagExact | src/SmoothAiProductContextMemory.Infrastructure/Persistence/NpgsqlTicketGraph.Traversal.cs:149-149 | the path flag is up exactly when an admitted path was left out |
| TicketWalk.OneSimplePath | src/SmoothAiProductContextMemory.Infrastructure/Persistence/NpgsqlTicketGraph.Traversal.cs:47-53 | in a forest, walked in any of the three directions, two simple paths with the same ends are the same path |
| TicketWalk.AdmittedWhenReached | src/SmoothAiProductContextMemory.Infrastructure/Persistence/NpgsqlTicketGraph.Traversal.cs:84-98 | in any graph a ticket other than the anchor is admitted by some path exactly when a walk of at most depth edges over uniquely owned, visible tickets, loops allowed, reaches it |
| TicketWalk.OnePathPerTicket | src/SmoothAiProductContextMemory.Infrastructure/Persistence/NpgsqlTicketGraph.Traversal.cs:84-98 | where parent links form a forest a ticket other than the anchor is reached by such a walk exactly when one path to it is admitted and no second |
| TicketWalk.OnePathAfterAnyRun | src/SmoothAiProductContextMemory.Infrastructure/Persistence/NpgsqlTicketGraph.Traversal.cs:84-98 | the same equivalence, for the parent links left by any run of parent changes from an empty hierarchy |
| MemoryClaims.TruncationMatchesStoreExactly | src/SmoothAiProductContextMemory.Application/Features/Memories/MemoryClaim.cs:90-100 | truncating an instant to microseconds as the claim does survives the store's own truncation exactly for the storable instants |
| MemoryClaims.TruncationCanDisagree | src/SmoothAiProductContextMemory.Application/Features/Memories/MemoryClaim.cs:90-100 | a concrete instant before 2000, between two ticks, for which the two truncations differ |
| MemoryClaims.TicksAreStorable | src/SmoothAiProductContextMemory.Application/Features/Memories/MemoryClaim.cs:96-100 | every tick-aligned instant, before or after 2000, is storable and moves by less than ten ticks |
| MemoryClaims.TruncationIsIdempotent | src/SmoothAiProductContextMemory.Application/Features/Memories/MemoryClaim.cs:96-100 | truncating twice is truncating once |
| MemoryClaims.TruncationIsMonotone | src/SmoothAiProductContextMemory.Application/Features/Memories/MemoryClaim.cs:96-100 | truncation keeps the order of instants |
| MemoryClaims.ClaimReadsBackExactly | src/SmoothAiProductContextMemory.Application/Features/Memories/MemoryClaim.cs:32-54 | the claim read back from the stored row equals the claim of the write exactly when its end of validity is storable |
| MemoryClaims.RestatesOnFields | src/SmoothAiProductContextMemory.Application/Features/Memories/MemoryClaim.cs:32-64 | a write restates a stored row exactly when the eight fields of the claim agree, the end of validity once truncated |
| MemoryClaims.StoredIsMicroseconds | src/SmoothAiProductContextMemory.Application/Features/Memories/MemoryClaim.cs:90-95 | what the store gives back is a whole number of microseconds from 2000, within one of the instant and never farther from 2000 |
| MemoryClaims.TruncationIsMicroseconds | src/SmoothAiProductContextMemory.Application/Features/Memories/MemoryClaim.cs:96-100 | what a claim compares is a whole number of microseconds from 2000, within one of the instant |
| MemoryClaims.SourcesEqual | src/SmoothAiProductContextMemory.Application/Features/Memories/MemoryClaim.cs:66-86 | the index loop decides equality of the two source lists |
| MemoryClaims.Same | src/SmoothAiProductContextMemory.Application/Features/Memories/MemoryClaim.cs:56-64 | claim sameness is identity, hence an equivalence |
| MemoryPlans.BuildItems | src/SmoothAiProductContextMemory.Application/Features/Memories/SetMemories.cs:232-376 | the one-pass planner with its lookups returns the specified plan, or the refusal of the first item that is refused |
| MemoryPlans.PlanExtends | src/SmoothAiProductContextMemory.Application/Features/Memories/SetMemories.cs:292-376 | later items never change what was planned for earlier ones |
| MemoryPlans.VersionStep | src/SmoothAiProductContextMemory.Application/Features/Memories/SetMemories.cs:292-345 | a version write whose end of validity reads back is planned from the batch exactly as from the store the batch has produced so far |
| MemoryPlans.CreateStep | src/SmoothAiProductContextMemory.Application/Features/Memories/SetMemories.cs:346-376 | a create is planned from the batch exactly as from the store the batch has produced so far |
| MemoryPlans.BatchIsOneByOne | src/SmoothAiProductContextMemory.Application/Features/Memories/SetMemories.cs:292-376 | an accepted batch of comparable writes, several to one memory included, commits the store its items would give one at a time |
| MemoryPlans.TwiceInOneBatch | src/SmoothAiProductContextMemory.Application/Features/Memories/SetMemories.cs:314-328 | a version write sent twice in one batch agrees with sending it twice if and only if its end of validity reads back |
| MemoryPlans.SafeExactlyWhenComparable | src/SmoothAiProductContextMemory.Application/Features/Memories/SetMemories.cs:314-328 | a write is safe in every batch if and only if it is a create or its end of validity reads back |
| MemoryResends.PlannedSeparately | src/SmoothAiProductContextMemory.Application/Features/Memories/SetMemories.cs:292-345 | with distinct targets a batch is accepted exactly when every target is, each item planned on its own memory's rows |
| MemoryResends.ResendRecognisedExactly | src/SmoothAiProductContextMemory.Application/Features/Memories/SetMemories.cs:314-328 | re-sending a committed batch with distinct targets reports an item unchanged if and only if it was unchanged before or reads back; when all are, nothing is altered |
| MemoryUnits.NoOrderShowsTwoCurrents | src/SmoothAiProductContextMemory.Application/Features/Memories/SetMemories.cs:719-742 | whatever order the statements of an accepted save run in, no part of it shows two current rows of a memory |
| MemoryUnits.SaveAppends | src/SmoothAiProductContextMemory.Domain/Entities/MemoryVersion.cs:20-21 | an accepted save only appends version rows and changes nothing in the others but the current flag |
| MemoryUnits.RetirementSaved | src/SmoothAiProductContextMemory.Application/Features/Memories/SetMemories.cs:719-735 | saving a retirement yields exactly the store with that memory's rows not current |
| MemoryUnits.SaveableRetirementIsLast | src/SmoothAiProductContextMemory.Application/Features/Memories/SetMemories.cs:719-735 | an accepted retirement is of the memory's last row: a stale version number cannot be retired |
| MemoryProgress.PlansAreWell | src/SmoothAiProductContextMemory.Application/Features/Memories/SetMemories.cs:292-376 | every accepted plan numbers versions consecutively, names fresh creates and fits the tables it was made against |
| MemoryProgress.AcceptedRetirement | src/SmoothAiProductContextMemory.Application/Features/Memories/SetMemories.cs:719-742 | on any tables, if the save that retires a row goes through then the planned number follows the memory's last one; a stale plan is refused |
| MemoryProgress.CreateStillFits | src/SmoothAiProductContextMemory.Application/Features/Memories/SetMemories.cs:346-376 | a create that fitted the tables still fits what the batch has grown them to |
| MemoryProgress.WrittenIsStored | src/SmoothAiProductContextMemory.Application/Features/Memories/SetMemories.cs:693-778 | after a commit every item is stored with every column of its write: a created memory with its group, subject, name, description, tags and facets, each version under its planned number |
| MemoryProgress.ItemsAreTheWrites | src/SmoothAiProductContextMemory.Application/Features/Memories/SetMemories.cs:292-376 | the planned items are the writes in order, updates of the memory named or creates with the uuid asked for |
| MemoryProgress.UpdateOnStoredRows | src/SmoothAiProductContextMemory.Application/Features/Memories/SetMemories.cs:300-345 | an update on its own is refused exactly for a memory unknown to the group, and is unchanged exactly when the last stored version makes the same claim |
| MemoryPlans.CurrentOfRows | src/SmoothAiProductContextMemory.Application/Features/Memories/SetMemories.cs:306-309 | a memory has no current version exactly when none of its rows is marked so |
| MemoryProgress.CreateOnStoredRows | src/SmoothAiProductContextMemory.Application/Features/Memories/SetMemories.cs:353-376 | a create on its own is refused exactly when its uuid is stored or the group has a memory of its subject |
| MemoryProgress.TwinCreatesRefused | src/SmoothAiProductContextMemory.Application/Features/Memories/SetMemories.cs:347-360 | two creates of one subject, or of one uuid, are never accepted in one batch |
| MemoryRequests.PlanLinks | src/SmoothAiProductContextMemory.Application/Features/Memories/SetMemories.cs:410-460 | links are accepted exactly when both ends are in the batch or stored, and come back in order, each marked |
| MemoryRequests.MarkedAreAccurate | src/SmoothAiProductContextMemory.Application/Features/Memories/SetMemories.cs:446-450 | marked to skip are exactly the links stored or sent before in the request |
| MemoryRequests.SkippedPlusLinked | src/SmoothAiProductContextMemory.Application/Features/Memories/SetMemories.cs:550-569 | links to make and links to skip add up to the links sent |
| MemoryRequests.PlanLabels | src/SmoothAiProductContextMemory.Application/Features/Memories/SetMemories.cs:475-503 | labels to insert are the first proposed spelling of each name, unless stored, and no two agree up to case |
| MemoryRequests.LabelsAreFirstSpellings | src/SmoothAiProductContextMemory.Application/Features/Memories/SetMemories.cs:484-500 | inserted are exactly the names that are the first of their spelling up to case and not stored as they are |
| MemoryRequests.PlanReferences | src/SmoothAiProductContextMemory.Application/Features/Memories/SetMemories.cs:510-547 | references are accepted exactly when every ticket has one owner that is not the writing group; the first sent for each ticket is kept, in the order sent |
| MemoryRequests.FirstPerTicketIs | src/SmoothAiProductContextMemory.Application/Features/Memories/SetMemories.cs:520-525 | of the references to one ticket exactly the first sent is kept, with its reason, and no ticket is lost |
| MemoryStore.MemoryDb.Save | src/SmoothAiProductContextMemory.Application/Features/Memories/SetMemories.cs:612-625 | a save reaches the tables whole or changes nothing, and is accepted exactly when no constraint fails |
| MemoryStore.MemoryDb.CreateNew | src/SmoothAiProductContextMemory.Application/Features/Memories/SetMemories.cs:693-717 | a create becomes pending with version 1 current |
| MemoryStore.MemoryDb.VersionExisting | src/SmoothAiProductContextMemory.Application/Features/Memories/SetMemories.cs:719-742 | the current row is retired and saved before its successor becomes pending; every intermediate save shows at most one current row |
| MemoryStore.MemoryDb.PersistItems | src/SmoothAiProductContextMemory.Application/Features/Memories/SetMemories.cs:603-618 | the items of a plan are carried out in order, each reported as planned |
| MemoryStore.MemoryDb.CreateLink | src/SmoothAiProductContextMemory.Infrastructure/Persistence/NpgsqlMemoryGraph.cs:39-81 | a link is created exactly when the same source, target and relation are not stored |
| MemoryStore.MemoryDb.PersistLinks | src/SmoothAiProductContextMemory.Application/Features/Memories/SetMemories.cs:627-639 | linked and skipped add up to the links planned, and the link table becomes the specified one |
| MemoryEffects.LinksAfterAdds | src/SmoothAiProductContextMemory.Application/Features/Memories/SetMemories.cs:627-639 | stored links stay with their reasons and exactly the unskipped ones are added |
| MemoryEffects.LinkReasons | src/SmoothAiProductContextMemory.Application/Features/Memories/SetMemories.cs:631-636 | each new link carries the reason sent with it |
| MemoryStore.MemoryDb.CreateAbout | src/SmoothAiProductContextMemory.Infrastructure/Persistence/NpgsqlMemoryGraph.cs:155-215 | a reference is created exactly when it is not stored, refused when the ticket has no vertex |
| MemoryStore.MemoryDb.PersistReferences | src/SmoothAiProductContextMemory.Application/Features/Memories/SetMemories.cs:641-665 | refused exactly when some pair is neither stored nor to a ticket with a vertex; otherwise created and already present add up to all pairs and the table becomes the specified one |
| MemoryEffects.AboutAfterIs | src/SmoothAiProductContextMemory.Application/Features/Memories/SetMemories.cs:646-655 | stored references stay with their reasons, every written memory gets every reference and no other, with a reason given for that ticket or the default |
| MemoryEffects.ReasonsSpelled | src/SmoothAiProductContextMemory.Application/Features/Memories/SetMemories.cs:188-188 | a reference keeps the reason sent with it and has the standing one when none was |
| MemoryStore.MemoryDb.PersistProduct | src/SmoothAiProductContextMemory.Application/Features/Memories/SetMemories.cs:667-680 | the product link is made when a product was named and the group has an initiative |
| MemoryStore.MemoryDb.PersistRows | src/SmoothAiProductContextMemory.Application/Features/Memories/SetMemories.cs:603-625 | the saved rows and labels are the specified ones; every intermediate save keeps one current row and only appends; with no fault a fitting plan is saved |
| MemoryStore.MemoryDb.PersistGraph | src/SmoothAiProductContextMemory.Application/Features/Memories/SetMemories.cs:627-679 | accepted exactly when every reference and the product link can be made, and then the three tables are the specified ones |
| MemoryStore.MemoryDb.Persist | src/SmoothAiProductContextMemory.Application/Features/Memories/SetMemories.cs:579-691 | a committed write leaves every table as specified; a failed one leaves all as they were; every intermediate save keeps one current row and only appends |
| MemoryStore.MemoryDb.BuildPlan | src/SmoothAiProductContextMemory.Application/Features/Memories/SetMemories.cs:232-408 | the plan, and whether there is one, is a function of the request and the tables, and planning changes neither |
| MemoryRequests.RefusedExactly | src/SmoothAiProductContextMemory.Application/Features/Memories/SetMemories.cs:205-408 | a request is refused exactly when its group is unknown, an item is refused, a link has an end neither in the batch nor stored, some ticket is not listed by exactly one group that is another one, or the product is not registered |
| MemoryStore.PlanIsSound | src/SmoothAiProductContextMemory.Application/Features/Memories/SetMemories.cs:232-408 | a plan fits the tables it was made against: links marked exactly, labels new, tickets owned elsewhere, the product registered |
| MemoryStore.MemoryDb.Handle | src/SmoothAiProductContextMemory.Application/Features/Memories/SetMemories.cs:198-226 | a dry run answers with the prediction of the plan and changes nothing; a write leaves every table as specified, is a run of the ownership machine, refers only to tickets another group lists and its own does not, and its counts are the growth of the tables; or it changes nothing; with no fault of the store it is refused only without a plan or for a reference the graph cannot make |
| MemoryStore.MemoryDb.DryRunThenWrite | src/SmoothAiProductContextMemory.Application/Features/Memories/SetMemories.cs:211-213 | of two calls on one store the write agrees with the dry run in every shared count, item by item and in refusal; with no fault of the store they differ in acceptance only where the graph cannot make a reference |
| MemoryStore.CountsAreGrowth | src/SmoothAiProductContextMemory.Application/Features/Memories/SetMemories.cs:579-684 | created, versioned, labels, linked, references created and product links are the growth of their tables, and every item and link sent is counted once |
| MemoryRuns.WritingIsARun | src/SmoothAiProductContextMemory.Application/Features/Memories/SetMemories.cs:579-684 | writing a plan takes the ownership machine from the old tables to the new ones by begin, look-ups and commit |
| MemoryRuns.NewReferencesAreForeign | src/SmoothAiProductContextMemory.Application/Features/Memories/SetMemories.cs:537-541 | each reference a write adds is from a memory of the writing group to a ticket that group does not list and another one does |
| MemoryStore.ResponseAgrees | src/SmoothAiProductContextMemory.Application/Features/Memories/SetMemories.cs:550-577 | without an intervening writer the predicted counts are the persisted ones, predicted references being created plus already present |
| MemoryStore.FinalSave | src/SmoothAiProductContextMemory.Application/Features/Memories/SetMemories.cs:620-625 | whatever the last save accepts is the committed store, and a fitting plan is accepted |
| TicketOwnership.OwnershipStore.FindGroupByTicket | src/SmoothAiProductContextMemory.Application/Common/Persistence/TicketLookup.cs:9-33 | nobody, the one owner, or the ambiguity conflict; the last cannot occur where ownership is single |
| TicketOwnership.OwnershipStore.ResolveGroup | src/SmoothAiProductContextMemory.Application/Features/Groups/ResolveGroup.cs:62-141 | the one group listing the tickets, a conflict exactly when two groups do, otherwise a new group holding exactly the tickets sent, or one minted ticket when none was, or a refusal for want of the initiative; each call is one step of the state machine |
| TicketOwnership.OwnershipStore.ResolveTwice | src/SmoothAiProductContextMemory.Application/Features/Groups/ResolveGroup.cs:66-137 | resolving the same tickets again gives the same answer, the group just created included, and changes nothing more |
| TicketOwnership.OwnershipStore.UpdateThenResolve | src/SmoothAiProductContextMemory.Application/Features/Groups/UpdateGroup.cs:129-165 | tickets a group was given resolve to it |
| TicketOwnership.OwnershipStore.UpdateGroup | src/SmoothAiProductContextMemory.Application/Features/Groups/UpdateGroup.cs:129-165 | the group gains exactly the tickets it lacked, each once, appended; refused exactly when the group is unknown or some ticket is another group's; each call is one step of the state machine |
| TicketOwnership.OwnershipStore.OwnerIds | src/SmoothAiProductContextMemory.Application/Features/Memories/AddTicketReferences.cs:70-95 | the distinct tickets in first-seen order with their owners, refused exactly when one is unowned |
| TicketOwnership.OwnershipStore.CreateAll | src/SmoothAiProductContextMemory.Application/Features/Memories/AddTicketReferences.cs:109-139 | it fails exactly when some pair is neither stored nor to a ticket with a vertex; otherwise all pairs are present, created is the growth of the references and created plus already present is the number of pairs |
| TicketOwnership.OwnershipStore.AddTicketReferences | src/SmoothAiProductContextMemory.Application/Features/Memories/AddTicketReferences.cs:57-152 | references are added exactly when every memory exists, every ticket is owned, no pair is of one group and the graph can make every edge; a refusal, a rolled-back one included, leaves the references as they were; an addition is a run of the state machine |
| TicketOwnership.AddIsARun | src/SmoothAiProductContextMemory.Application/Features/Memories/AddTicketReferences.cs:57-139 | an accepted addition is a run of one begin, a look-up per ticket and one commit |
| TicketOwnership.WriteIsARun | src/SmoothAiProductContextMemory.Application/Features/Memories/SetMemories.cs:510-665 | a memory write with references is a run of one begin, a look-up per ticket and one commit |
| TicketOwnership.LeadsKeepsInvariant | src/SmoothAiProductContextMemory.Application/Features/Memories/SetMemories.cs:510-665 | whatever a run leads to keeps ownership single and references foreign, and takes nothing back |
| TicketOwnership.NewReferenceIsForeign | src/SmoothAiProductContextMemory.Application/Features/Memories/AddTicketReferences.cs:84-139 | a reference written on checks made earlier and outside the lock still points to another group's ticket |
| TicketOwnership.StepKeepsInvariant | src/SmoothAiProductContextMemory.Application/Features/Memories/SetMemories.cs:510-547 | every step of every interleaved request keeps single ownership, foreign references and the truth of what pending requests have read |
| TicketOwnership.RunsKeepInvariant | src/SmoothAiProductContextMemory.Application/Features/Groups/ResolveGroup.cs:66-137 | the same over every interleaving of resolving, extending, reference adding and memory writing |
| TicketOwnership.NeverAmbiguous | src/SmoothAiProductContextMemory.Application/Common/Persistence/TicketLookup.cs:26-32 | in every reachable state a ticket has at most one owner, so the ambiguity conflict is unreachable |
| TicketOwnership.OwnerNeverChanges | src/SmoothAiProductContextMemory.Application/Features/Groups/UpdateGroup.cs:129-162 | once a group owns a ticket it is the only owner in every later state of the run |
| TicketOwnership.NoReferenceToOwnTicket | src/SmoothAiProductContextMemory.Application/Features/Memories/SetMemories.cs:646-665 | no reachable state has a reference from a memory to a ticket its own group owns |
| MemoryWidening.ReachedIsBreadthFirst | src/SmoothAiProductContextMemory.Infrastructure/Persistence/NpgsqlMemoryTraversal.cs:138-178 | the memories on surviving paths are exactly the non-sources a breadth-first search reaches within the bound in the graph without hidden memories |
| MemoryWidening.ReachedOnStoredScopes | src/SmoothAiProductContextMemory.Infrastructure/Persistence/NpgsqlMemoryTraversal.cs:138-178 | on the stored links and scopes: returned are the stored non-sources on some walk of 1 to depth links from a source, none crossed twice, that meets no memory stored in a hidden dimension |
| MemoryWidening.FlagsOnStoredScopes | src/SmoothAiProductContextMemory.Infrastructure/Persistence/NpgsqlMemoryTraversal.cs:205-209 | the depth flag is a walk as long as the bound, the hidden flag a walk within it that meets a memory stored in a hidden dimension |
| MemoryWidening.NoDepthFlagMeansClosed | src/SmoothAiProductContextMemory.Infrastructure/Persistence/NpgsqlMemoryTraversal.cs:207-207 | with the depth flag down everything reachable at any distance was reached |
| MemoryWidening.HiddenFlagExact | src/SmoothAiProductContextMemory.Infrastructure/Persistence/NpgsqlMemoryTraversal.cs:209-209 | the hidden flag is up exactly when some walk within the bound touches a hidden memory |
| MemoryWidening.NoHiddenFlagMeansNothingLost | src/SmoothAiProductContextMemory.Infrastructure/Persistence/NpgsqlMemoryTraversal.cs:164-166 | with the hidden flag down hiding lost nothing |
| DossierSelections.StagesAgree | src/SmoothAiProductContextMemory.Application/Features/ContextDossier/SelectionFilter.cs:39-99 | the search, widening and ticket statements built from one filter admit exactly the eligible memories, for every anchor |
| DossierSelections.ScopeRule | src/SmoothAiProductContextMemory.Application/Common/Retrieval/MemoryScopeFilter.cs:24-84 | an open read hides programme memories and an explicit one shows exactly its dimension; whatever is shown is not hidden on paths |
| DossierSelections.ListEdges | src/SmoothAiProductContextMemory.Infrastructure/Persistence/NpgsqlMemoryGraph.cs:112-134 | every stored edge with both ends among the uuids is listed, and no two listed agree in source, target and relation |
| DossierSelections.ListedExactly | src/SmoothAiProductContextMemory.Infrastructure/Persistence/NpgsqlMemoryGraph.cs:119-133 | where a link is identified by its triple the listed edges are exactly the stored ones between the uuids |
| DossierSelections.Select | src/SmoothAiProductContextMemory.Application/Features/ContextDossier/DossierSelection.cs:148-204 | the selection holds every anchor and widened memory once, in order of provenance, with the reason it was found |
| DossierSelections.Resolve | src/SmoothAiProductContextMemory.Application/Features/ContextDossier/DossierSelection.cs:66-221 | the whole selection: its memories, counts that add up, its edges and exactly when each limit flag is up |
| DossierCompleteness.SelectedAreEligible | src/SmoothAiProductContextMemory.Application/Features/ContextDossier/DossierSelection.cs:74-204 | every selected memory satisfies the one rule, whichever stage found it |
| DossierCompleteness.TicketNarrows | src/SmoothAiProductContextMemory.Application/Features/ContextDossier/DossierSelection.cs:85-141 | a supplied ticket never broadens: every anchor refers to it, or its group owns a ticket that a walk over uniquely owned, visible tickets reaches within the depth |
| DossierCompleteness.ReachedGroupsAreRead | src/SmoothAiProductContextMemory.Infrastructure/Persistence/NpgsqlTicketGraph.Traversal.cs:101-120 | with neither the depth nor the path flag up the traversal reads every group owning a ticket at the end of such a walk, of whatever length |
| DossierCompleteness.ReadGroupsAreInSight | src/SmoothAiProductContextMemory.Infrastructure/Persistence/NpgsqlTicketGraph.Traversal.cs:70-76 | every group whose memories are read is the only one listing some ticket, and its stored scope is not hidden |
| DossierCompleteness.EligibleOnColumns | src/SmoothAiProductContextMemory.Application/Features/ContextDossier/SelectionFilter.cs:39-99 | on the columns: current, of the kind asked for, of the status asked for or not proposed, in the dimension asked for or outside the programme, from its start and before its end at the time asked for |
| DossierCompleteness.QueriesOnAnchor | src/SmoothAiProductContextMemory.Application/Features/ContextDossier/SelectionFilter.cs:39-99 | the three queries carry the dimension asked for, the hidden and excluded dimensions, the depth, the time and the limit of 200 |
| DossierCompleteness.ViewsOfTheStore | src/SmoothAiProductContextMemory.Infrastructure/Persistence/NpgsqlTicketGraph.Traversal.cs:59-79 | what the traversals see: links from source to target, parent edges from parent to child, and for each ticket vertex exactly the groups listing its ticket |
| DossierCompleteness.NoAnchorMissing | src/SmoothAiProductContextMemory.Application/Features/ContextDossier/DossierSelection.cs:85-141 | below the ceilings and with no ticket flag up every eligible match, belonging to the ticket at whatever depth, is an anchor |
| DossierCompleteness.NothingMissing | src/SmoothAiProductContextMemory.Application/Features/ContextDossier/DossierSelection.cs:158-197 | below the ceiling an eligible memory is reached exactly when it is within the depth of an anchor |
| DossierSelections.SelectionIsDetermined | src/SmoothAiProductContextMemory.Application/Features/ContextDossier/DossierSelection.cs:48-64 | the selection is the same list whatever order its parts arrived in |
| DossierCompleteness.BuildLimitsHit | src/SmoothAiProductContextMemory.Application/Features/ContextDossier/DossierSelection.cs:293-312 | the disclosed limits are empty exactly when no flag is up and the selection is below the ceiling |
| DossierCompleteness.UndisclosedIsComplete | src/SmoothAiProductContextMemory.Application/Features/ContextDossier/DossierSelection.cs:293-312 | a selection that discloses no limit, empty or not, is exactly the eligible memories that match or are linked at any distance to one that does; with a ticket the matches are those that refer to it or whose group is visibly reached from it at any depth |
| DossierCompleteness.NextLinkIsSelected | src/SmoothAiProductContextMemory.Application/Features/ContextDossier/DossierSelection.cs:135-197 | an eligible memory at the target of a stored link from a match is in a dossier that discloses no limit |
| DossierCompleteness.ReachedPastNoProgram | src/SmoothAiProductContextMemory.Application/Features/ContextDossier/DossierSelection.cs:135-140 | a widened memory was reached from an anchor over stored links within the depth, past no programme memory unless the programme was asked for |
| DossierSelections.ReferringOnStoredReferences | src/SmoothAiProductContextMemory.Application/Features/ContextDossier/DossierSelection.cs:143-147 | counted as referenced are the anchors with a stored reference to the ticket that its traversal did not bring |
| DossierBundles.GatherMemory | src/SmoothAiProductContextMemory.Application/Features/ContextDossier/CreateDossierBundle.cs:98-136 | one memory's wanted versions become items, or omissions when their body is not text |
| DossierBundles.CollapseSameBlob | src/SmoothAiProductContextMemory.Application/Features/ContextDossier/CreateDossierBundle.cs:246-271 | kept are exactly the items no earlier one shares its inlined text with; the rest are reported |
| DossierBundles.CreateBundle | src/SmoothAiProductContextMemory.Application/Features/ContextDossier/CreateDossierBundle.cs:60-169 | gathering, ordering, collapsing and cutting give the specified bundle |
| DossierBundles.WantedOnColumns | src/SmoothAiProductContextMemory.Application/Features/ContextDossier/CreateDossierBundle.cs:98-112 | history only on request, and at the time asked for from the start of validity on and before its end |
| DossierBundles.BodyOfBlob | src/SmoothAiProductContextMemory.Application/Features/ContextDossier/CreateDossierBundle.cs:219-243 | no address gives no body, a text its text, a binary a body that is not text, a missing or damaged blob a missing body |
| DossierBundles.BundlePartitionsEligible | src/SmoothAiProductContextMemory.Application/Features/ContextDossier/CreateDossierBundle.cs:92-156 | items and omissions together count every eligible version exactly as often as it is stored |
| DossierBundles.ItemsAreOrderedAndCapped | src/SmoothAiProductContextMemory.Application/Features/ContextDossier/CreateDossierBundle.cs:138-156 | items are ordered, within the cap, readable stored versions, and no two carry the same text |
| DossierBundles.CollapseKeepsEarliest | src/SmoothAiProductContextMemory.Application/Features/ContextDossier/CreateDossierBundle.cs:246-271 | a collapsed item gives way to the earliest item with its text, and that one is kept |
| DossierBundles.CapCutsTheTail | src/SmoothAiProductContextMemory.Application/Features/ContextDossier/CreateDossierBundle.cs:145-156 | the cap cuts only from a full bundle and only what does not come before any kept item |
| DossierBundles.ArrivalOrderIsIrrelevant | src/SmoothAiProductContextMemory.Application/Features/ContextDossier/CreateDossierBundle.cs:319-360 | the items are the same list and the omissions the same collection in whatever order rows and selection arrive |
| SnapshotRestore.RestoreKeys | src/SmoothAiProductContextMemory.Infrastructure/Persistence/NpgsqlSnapshotRepository.cs:314-324 | merging captured keys yields each key once, in first-seen order |
| SnapshotRestore.MergedCount | src/SmoothAiProductContextMemory.Infrastructure/Persistence/NpgsqlSnapshotRepository.cs:314-356 | as many vertices result as were captured exactly when the captured keys are distinct |
| SnapshotRestore.EdgeCount | src/SmoothAiProductContextMemory.Infrastructure/Persistence/NpgsqlSnapshotRepository.cs:326-344 | among distinct vertices as many edges result as were captured exactly when every endpoint exists, and then they read back the same |
| SnapshotRestore.SnapshotStore.Restore | src/SmoothAiProductContextMemory.Infrastructure/Persistence/NpgsqlSnapshotRepository.cs:159-213 | either the stores hold what the restore made and the counts are the expected ones, or nothing changed; without override it is refused exactly when there is a memory, version, description or group row, a label not seeded, an initiative not the default, or any vertex or edge |
| SnapshotRestore.SnapshotStore.RestoreProducts | src/SmoothAiProductContextMemory.Infrastructure/Persistence/NpgsqlSnapshotRepository.cs:403-454 | product vertices are created one for one, the named ones merged, and both edge tables made from them |
| SnapshotRestore.AcceptsOnRows | src/SmoothAiProductContextMemory.Infrastructure/Persistence/NpgsqlSnapshotRepository.cs:296-312 | rows are accepted exactly when no table repeats an id and the other constraints hold |
| SnapshotRestore.CountsMatchExactlyWhenFaithful | src/SmoothAiProductContextMemory.Infrastructure/Persistence/NpgsqlSnapshotRepository.cs:201-228 | with distinct product names all counts match if and only if the capture is complete, and if and only if the restored graph holds exactly the captured vertices and edges |
| SnapshotRestore.CountsMatchForRegisteredProducts | src/SmoothAiProductContextMemory.Infrastructure/Persistence/NpgsqlSnapshotRepository.cs:201-228 | the same for the products of any registry its own operations produce |
| SnapshotRestore.RestoredTicketsAre | src/SmoothAiProductContextMemory.Infrastructure/Persistence/NpgsqlSnapshotRepository.cs:314-344 | the ticket vertices after a restore are those captured and those the restored groups list |
| SnapshotRestore.CaptureThenRestore | src/SmoothAiProductContextMemory.Infrastructure/Persistence/NpgsqlSnapshotRepository.cs:84-213 | a sound store, captured and restored with its own counts, commits exactly when the target is empty or overridden and its rows are accepted, and comes back as it was |
| SnapshotRestore.DoubledNameHidesLoss | src/SmoothAiProductContextMemory.Infrastructure/Persistence/NpgsqlSnapshotRepository.cs:435-453 | for any doubled product name there are captured edges whose counts agree though their content does not |
| SnapshotRestore.LossyCapture | src/SmoothAiProductContextMemory.Infrastructure/Persistence/NpgsqlSnapshotRepository.cs:403-454 | for any products two of which share a name there is a capture of them all of whose counts agree after the restore though the restored graph is not what was captured |
| SnapshotRestore.CountsSufficeExactlyWhenNamesDistinct | src/SmoothAiProductContextMemory.Infrastructure/Persistence/NpgsqlSnapshotRepository.cs:201-228 | for every list of products: all matching counts prove every capture of them faithfully restored if and only if no two share a name |
| Slugs.SlugKeepsLetters | src/SmoothAiProductContextMemory.Domain/Slug.cs:46-59 | the slug without its hyphens is the letters and digits of the description, lower-cased, in order |
| ProductRegistry.UpsertSetsOnlyGiven | src/SmoothAiProductContextMemory.Infrastructure/Persistence/NpgsqlProductGraph.cs:195-226 | an accepted upsert changes no other product, sets the given fields of the named one and defaults a new one to active |
| ProductRegistry.UpsertIsSo | src/SmoothAiProductContextMemory.Infrastructure/Persistence/NpgsqlProductGraph.cs:182-227 | after an accepted upsert the name is stored with the fields given, active when it is new and no status was |
| ProductRegistry.LinkIsSo | src/SmoothAiProductContextMemory.Infrastructure/Persistence/NpgsqlProductGraph.cs:229-256 | after an accepted link the pair is linked and nothing else changed |
| ProductRegistry.UnlinkIsSo | src/SmoothAiProductContextMemory.Infrastructure/Persistence/NpgsqlProductGraph.cs:258-272 | after an unlink the pair is not linked, and products and repositories stay |
| ProductRegistry.RepoIsSo | src/SmoothAiProductContextMemory.Infrastructure/Persistence/NpgsqlProductGraph.cs:274-308 | after an accepted repository link the product has the repository and nothing else changed |
| DossierBundles.ItemsByProvenance | src/SmoothAiProductContextMemory.Application/Features/ContextDossier/CreateDossierBundle.cs:340-358 | items come by validity, then capture time, then uuid, then version |
| DossierSelections.SelectionByProvenance | src/SmoothAiProductContextMemory.Application/Features/ContextDossier/DossierSelection.cs:49-64 | selected memories come by validity, then capture time, then uuid |
| SnapshotJobs.StepKeepsExact | src/SmoothAiProductContextMemory.Host/Snapshot/SnapshotJobCoordinator.cs:35-84 | every step but an overtaken publish keeps: one running job at most, the slot names it, every task still to write the slot is named by it |
| SnapshotJobs.OneRunningJob | src/SmoothAiProductContextMemory.Host/Snapshot/SnapshotJobCoordinator.cs:35-84 | in every run without an overtaken publish one job at most runs and the slot names it |
| SnapshotJobs.CompletedIsFilled | src/SmoothAiProductContextMemory.Host/Snapshot/SnapshotJobCoordinator.cs:64-75 | in every run at all a job seen completed has every result field of its response |
| SnapshotJobs.StartAsksTheSlot | src/SmoothAiProductContextMemory.Host/Snapshot/SnapshotJobCoordinator.cs:35-45 | a start returns the running job the slot names and changes nothing, or else publishes one new running job; one start at a time |
| SnapshotJobs.OneStepAtATime | src/SmoothAiProductContextMemory.Host/Snapshot/SnapshotJobCoordinator.cs:46-84 | a task has one step before it at a time, but for the choice between the response and a failure |
| SnapshotJobs.AtomicCompletionIsSafe | src/SmoothAiProductContextMemory.Host/Snapshot/SnapshotJobCoordinator.cs:75-76 | with completion and its slot write as one step every run keeps the slot on the running job |
| SnapshotJobs.PublishIsSafeExactlyWhenNoWritePending | src/SmoothAiProductContextMemory.Host/Snapshot/SnapshotJobCoordinator.cs:45-76 | after a publish the background tasks can hide the running job if and only if some task stood between completing and writing the slot |
| SnapshotJobs.LateWriteHides | src/SmoothAiProductContextMemory.Host/Snapshot/SnapshotJobCoordinator.cs:75-76 | the late write puts a completed job back in the slot over the one now running |
| SnapshotJobs.TwoJobsCanRun | src/SmoothAiProductContextMemory.Host/Snapshot/SnapshotJobCoordinator.cs:40-76 | from the empty slot a run of separate steps ends with two jobs running |
| AgtypeReader.ToJson | src/SmoothAiProductContextMemory.Infrastructure/Persistence/AgtypeArrayReader.cs:29-71 | the one-pass stripper computes the specified stripping |
| AgtypeReader.SkipAnnotation | src/SmoothAiProductContextMemory.Infrastructure/Persistence/AgtypeArrayReader.cs:73-82 | the index after the longest run of letters and underscores, each character skipped being one and the next not |
| AgtypeReader.StripGivesPlainText | src/SmoothAiProductContextMemory.Infrastructure/Persistence/AgtypeArrayReader.cs:29-82 | for every value tree stripping the annotated rendering gives the plain rendering, string contents, escapes and colons included |
| AgtypeReader.RenderSpelled | src/SmoothAiProductContextMemory.Infrastructure/Persistence/AgtypeArrayReader.cs:29-71 | the two renderings compared: brackets, braces, separators, quoted keys, and the annotation or nothing |
| AgtypeReader.StripRendered | src/SmoothAiProductContextMemory.Infrastructure/Persistence/AgtypeArrayReader.cs:29-82 | the same whatever text follows the value |
| AgtypeReader.UnchangedExactlyWhenUnmarked | src/SmoothAiProductContextMemory.Infrastructure/Persistence/AgtypeArrayReader.cs:54-67 | stripping leaves a text alone exactly when no marker stands outside its strings |
| AgtypeReader.StrippedIsUnmarked | src/SmoothAiProductContextMemory.Infrastructure/Persistence/AgtypeArrayReader.cs:54-67 | no stripped text has a marker left outside its strings |
| AgtypeReader.StripIsIdempotent | src/SmoothAiProductContextMemory.Infrastructure/Persistence/AgtypeArrayReader.cs:29-71 | on every input whatsoever stripping twice is stripping once |
| CypherLiterals.Quote | src/SmoothAiProductContextMemory.Infrastructure/Persistence/CypherLiteral.cs:16-56 | the builder loop yields the specified literal |
| CypherLiterals.QuotedIsSelfDelimiting | src/SmoothAiProductContextMemory.Infrastructure/Persistence/CypherLiteral.cs:16-56 | reading a quoted literal gives back its value and leaves exactly the text that follows it |
| CypherLiterals.NoRawControls | src/SmoothAiProductContextMemory.Infrastructure/Persistence/CypherLiteral.cs:39-43 | no literal contains a control character |
| CypherLiterals.DollarWrap | src/SmoothAiProductContextMemory.Infrastructure/Persistence/CypherLiteral.cs:62-71 | the result wraps the body in a tag it does not contain; only if every drawn tag occurs in the body is there none |
| CypherLiterals.WrappedIsRecovered | src/SmoothAiProductContextMemory.Infrastructure/Persistence/CypherLiteral.cs:62-71 | scanning for the first repetition of the tag recovers the body and what follows, as section 4.1.2.4 of the PostgreSQL manual prescribes |
| CypherLiterals.FreeTagExists | src/SmoothAiProductContextMemory.Infrastructure/Persistence/CypherLiteral.cs:64-68 | a body shorter than the number of tags leaves some tag free |
| Slugs.Subject | src/SmoothAiProductContextMemory.Domain/Slug.cs:38-81 | the loops yield the words of the description joined by hyphens, or the exception |
| Slugs.SlugIsShaped | src/SmoothAiProductContextMemory.Domain/Slug.cs:42-68 | there is a slug exactly when a letter or digit is left, and it has no hyphen at its ends and no two in a row |
| Slugs.AccentsMakeNoSubject | src/SmoothAiProductContextMemory.Domain/Slug.cs:38-56 | descriptions whose decomposed forms differ in combining marks only have the same slug, or none |
| Slugs.SubjectOfDescription | src/SmoothAiProductContextMemory.Domain/Slug.cs:83-94 | a missing or blank description has no subject, any other its slug or none |
| Slugs.WordsSplitAtSeparators | src/SmoothAiProductContextMemory.Domain/Slug.cs:58-70 | a character that is no letter or digit ends a word and starts the next |
| Slugs.OneWord | src/SmoothAiProductContextMemory.Domain/Slug.cs:58-66 | an unbroken run of letters and digits is one word, lower-cased |
| ExportNames.Assign | src/SmoothAiProductContextMemory.Application/Features/Export/ExportPaths.cs:28-50 | the loop over the used set picks the specified names or refuses |
| ExportNames.NeverRefused | src/SmoothAiProductContextMemory.Application/Features/Export/ExportPaths.cs:28-50 | with distinct uuids and forms kept apart no name is refused and all differ up to case |
| ExportNames.PlainIsPreferred | src/SmoothAiProductContextMemory.Application/Features/Export/ExportPaths.cs:28-50 | each entry has its plain name unless an earlier name agrees with it up to case, then the short one unless that is taken, then the full one |
| ExportNames.GroupNamesSpelled | src/SmoothAiProductContextMemory.Application/Features/Export/ExportPaths.cs:30-44 | the three folder names of a group, spelled out |
| ExportNames.MemoryNamesSpelled | src/SmoothAiProductContextMemory.Application/Features/Export/ExportPaths.cs:75-88 | the three file names of a memory, spelled out, the version in decimal |
| ExportNames.GroupFormsApart | src/SmoothAiProductContextMemory.Application/Features/Export/ExportPaths.cs:30-44 | plain, 8-digit and 32-digit folder names of any two groups never agree up to case |
| ExportNames.MemoryFormsApart | src/SmoothAiProductContextMemory.Application/Features/Export/ExportPaths.cs:75-88 | the same for file names, for stored slugs of any shape and any version number |
| ExportNames.GroupFoldersAreDistinct | src/SmoothAiProductContextMemory.Application/Features/Export/ExportPaths.cs:19-51 | groups with distinct uuids all get folders, different up to case, the same in any arrival order |
| ExportNames.MemoryFilesAreDistinct | src/SmoothAiProductContextMemory.Application/Features/Export/ExportPaths.cs:53-95 | the same for the files of memories |
| ProductRegistry.RegistryStore.UpsertProduct | src/SmoothAiProductContextMemory.Infrastructure/Persistence/NpgsqlProductGraph.cs:182-227 | the upsert is the specified one: refused for another spelling, updated in the given fields, or created active |
| ProductRegistry.RegistryStore.LinkToInitiative | src/SmoothAiProductContextMemory.Infrastructure/Persistence/NpgsqlProductGraph.cs:229-256 | the link is the specified one: nothing when linked, refused without the product, else one edge from each matching vertex |
| ProductRegistry.RegistryStore.UnlinkFromInitiative | src/SmoothAiProductContextMemory.Infrastructure/Persistence/NpgsqlProductGraph.cs:258-272 | every matching edge is deleted and the flag says whether there was one |
| ProductRegistry.RegistryStore.LinkToRepo | src/SmoothAiProductContextMemory.Infrastructure/Persistence/NpgsqlProductGraph.cs:274-308 | the repository link is the specified one: unchanged, owned by another, refused, or made |
| ProductRegistry.RunsStaySound | src/SmoothAiProductContextMemory.Infrastructure/Persistence/NpgsqlProductGraph.cs:182-308 | over any run of operations names stay distinct up to case, edges grounded and unrepeated, and a repository has one product |
| ProductRegistry.OneOfEach | src/SmoothAiProductContextMemory.Infrastructure/Persistence/NpgsqlProductGraph.cs:182-308 | in every reachable registry a folded name is one product, a pair one edge, a repository one product's |
| ProductRegistry.AnswersOnStoredNames | src/SmoothAiProductContextMemory.Infrastructure/Persistence/NpgsqlProductGraph.cs:182-308 | a name is taken exactly when another spelling of it is stored; a product is missing only when no vertex has its name; an owner named is the product of an edge to that repository |
| ProductRegistry.UpsertFlagIsExact | src/SmoothAiProductContextMemory.Infrastructure/Persistence/NpgsqlProductGraph.cs:182-227 | the flag reports a creation exactly when the name was absent and is now present; no other name comes or goes |
| ProductRegistry.LinkFlagIsExact | src/SmoothAiProductContextMemory.Infrastructure/Persistence/NpgsqlProductGraph.cs:229-256 | the flag reports exactly whether the registry gained that pair, and it gained nothing else |
| ProductRegistry.UnlinkFlagIsExact | src/SmoothAiProductContextMemory.Infrastructure/Persistence/NpgsqlProductGraph.cs:258-272 | the flag reports exactly whether the registry lost that pair, and it lost nothing else |
| ProductRegistry.RepoFlagIsExact | src/SmoothAiProductContextMemory.Infrastructure/Persistence/NpgsqlProductGraph.cs:274-308 | a repository link is made exactly when the product is registered and nobody has the repository; otherwise the one owner is named |
| Sorting.ArrivalOrderDoesNotMatter | src/SmoothAiProductContextMemory.Application/Features/ContextDossier/CreateDossierBundle.cs:138-139 | elements an order separates are sorted to the same list in whatever order they arrive |

## Left out

- MemoryPlans.BatchIsOneByOne: stated for batches of creates and of version writes that read back; MemoryPlans.SafeExactlyWhenComparable shows the condition cannot be weakened for any write. Whether one particular batch with an incomparable write happens to agree is not decided, because later writes can make up for an earlier difference.
- MemoryPlans.VersionStep: stated for writes whose end of validity reads back; MemoryPlans.TwiceInOneBatch and MemoryPlans.SafeExactlyWhenComparable show that the condition cannot be dropped for any other write.
- TicketOwnership.OwnershipStore.UpdateGroup: only the ticket list of a group is modelled; repository, scope and initiative fields are overwritten independently of it, and their validation (lines 80-127) is not modelled.
- TicketOwnership.OwnershipStore.ResolveGroup: of the new group only its tickets are modelled; its description, scope and repository columns are stored as given.
- TicketOwnership.RunsKeepInvariant: memories and groups are never deleted in the modelled runs, as none of the modelled operations deletes them.
- SnapshotRestore.CountsMatchExactlyWhenFaithful: the trigger that makes a vertex for each ticket of an inserted group is not part of the modelled files; it is assumed to merge, and the groups' tickets to be among the captured ticket vertices.
- SnapshotRestore.SnapshotStore.Restore: constraints other than distinct ids are a parameter; statement timeouts, batching and sequence resets are not modelled.
- DossierSelections.Resolve: the search's tag operator is "any", its free-text, facet and product predicates are not used by a dossier; the order of the search page is not modelled, only which rows it may hold.
- DossierBundles.CreateBundle: an item carries its version row and body; the descriptive columns, sources and the manifest are copied through and not modelled.
- CypherLiterals.DollarWrap: random draws are a parameter; that some draw succeeds is CypherLiterals.FreeTagExists.
- SnapshotJobs.TwoJobsCanRun: the snapshot itself, its path and cancellation are not modelled; a job may only fail before its response arrives, the assignments after it cannot throw.
- The savepoint of a parent change and the conflict raised when a row count is not one: a failed change is modelled as leaving the declarations as they were.
- The columns the ticket traversal returns with each path and memory, and which memories its limit keeps: the model has their number, their uuids and the flag.
- Single-source path finding between memories (FindPathsAsync) and its hop reader: the same enumeration as the widening with an endpoint filter.
- Capturing a snapshot's blobs, the archive format, its verification and the command line around it.
- Validators, HTTP endpoints, logging, telemetry, the viewer, launchers and release scripts: plumbing or single checks.
- YAML scalar and shell quoting: the same shape as the Cypher literal and easier.
- Access tokens and other security questions.
