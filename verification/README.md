# Dialog: blocks, views, encoding and sync, proved

Dialog is a signed, content-addressed block protocol in three layers: blocks in author chains (L1), a graph of the entities they create (L2), and views of what subscribed authors assert (L3). This project models the algorithms of its Go and TypeScript implementations and proves what they promise.

`dafny verify dfyconfig.toml` checks everything.

## What is here

- **Resolving references** (`Search`, `Resolution`, `GoResolver`, `TsResolver`). Rule 4 asks whether a digest is defined by an earlier operation, an ancestor, or a block reachable through refs. `Search` says what the answer is, without any history: the refs graph in one reading order, the first block that defines the digest, the first gap, the scan limit. The Go resolver is lazy and resumable, the TypeScript one loads ancestors at once and drops repeats early; both are proved to give that answer after any earlier calls, and so to agree with each other.
- **Validation and the store** (`Rules`, `Validation`, `Stability`, `StoreModel`, `StoreFacts`, `Acceptance`, `Stores`, `Confluence`, `Interleaving`, `Wakeups`). The rules on the fields of blocks and entities, the three-valued verdict and what each of its values says, the waiting index, the worklist and why it ends, what every run keeps, why arrival order does not matter, what survives when Adds interleave, and exactly when an arrival is missed.
- **Views** (`Graphs`, `Cycles`, `Supersession`, `Equivalence`, `BlockOrder`, `Positions`, `Truth`, `Standing`, `Views`). Tarjan's algorithm, current versions, union-find, block order through key rotations, and the latest-word reductions, each against a plain definition; and the whole view, which depends on what was read and not on its order.
- **Accumulation** (`Accumulation`). The graph and its five indexes as a function of the set of blocks ingested.
- **Encoding** (`DcborSpec`, `DcborProfile`, `DcborDecode`, `DcborDecoder`, `DcborOrder`, `Rearrangement`, `DcborEncoder`, `Sequence`, `Decimals`, `Base32`). Deterministic CBOR (section 4.2.1 of RFC 8949 and the decimal fractions of its section 3.4.4), as one encoding function on values; the strict decoder accepts exactly its image, the encoder writes it, and the two are inverse. CBOR sequences (section 2 of RFC 8742), the decimal constructor in wrapping int64 arithmetic, and base32 (section 6 of RFC 4648) through a 32-bit buffer.
- **Chain sync** (`Walks`, `Servers`, `Completeness`, `SyncFacts`, `Sync`, `SyncHole`). The forward walk that defines tips and ranges, the client that pages and then pursues an unreached tip, exactly what it holds afterwards, and exactly when that is the whole chain.

Methods keep the fields and loops of the code they model; each is proved against a definition, and the theorems are about the definitions. Where code and definition share a function, what that function computes is proved on the fields of its arguments, without it: `Rules` and `DcborProfile`, `Junction` in `BlockOrder`, `Records` and `InForce` in `Standing`, `Shows` in `Views`, `ReadsOn` in `SyncFacts`.

## Idealisations

- In L1 and in chain sync a block's digest is the block itself under a constructor (`BlockHash`), and `Junk` digests name nothing. That is all that is assumed of SHA-256: it is injective, and a block never names itself. Where the bytes of digests are compared, as a server does to choose a branch, the order is an injective parameter. L2 and L3 only compare digests, and there they are numbers.
- A private block's ciphertext is the payload it opens to; a decrypter is the set of private blocks it opens. Signatures and timestamps (rules 1, 2 and 8) are taken as checked. A bond's variable count is data.
- A source of blocks is a fixed store that answers honestly, or fails to answer at the times a parameter says. Whether a sequence's item is a signed block is a parameter.

## Where a promise does not hold as stated

- *An accepted verdict and a larger store.* Rules 6 and 10 look only at the refs that are held, so an accepted block can be one that a larger store would reject. `Stability.AcceptedVerdictWouldNotSurviveRevalidation` gives one; `Stability.UncheckedRefsAreTheWholeReservation` says exactly when: iff the larger store adds, among the refs the report lists as unchecked, a block those rules forbid. Rules 4 and 5 have no such exception.
- *Revalidation when what a block awaits arrives* (`go/block/verdict.go:114-116`, for a store "safe for concurrent use"). Under concurrent Adds a block judged before its predecessor arrived may be filed after the predecessor was settled, and then stays undecided under an accepted block: `Interleaving.WakeupCanBeLost`. `Wakeups.TimelyIsMissingNothing` says exactly when: a run misses nothing iff no verdict is recorded as waiting for a block that is accepted by then and that no thread has queued to be settled. What is filed so late stays filed (`Wakeups.FiledLateStaysFiled`), unless something brings the awaited block itself to be settled once more. Adds that do not overlap file nothing late (`Wakeups.AddsInTurnMissNothing`). Safety is not affected.
- *Completeness of a sync.* Resolving a block's refs stores what they name before rule 10 is checked, and rule 10 is never reached for a block that waits for its predecessor. From a position off the source's tip walk, refs can so bring in the tip above blocks the client lacks; it is then held, and never pursued: `SyncHole.SyncCanLeaveAHole`. `Completeness.SyncIsExact` says exactly when the client ends with the whole walk, from any store and any first position: iff everything below where the backward walk stops is held by then or named by a block that walk fetches (`NoGap`), which the client's blocks, the source's and the bounds decide beforehand. From genesis or from a held block of the walk it holds for every client without a hole in it, unless the pursuit runs out of steps, since a block cannot name a later one of its own chain; from elsewhere rule 10 at the source is enough.
- *A second sync after a failed pursuit.* A pursuit that runs out of steps still offers what it fetched, the tip included, so the tip is held above a hole and is not pursued again. `Completeness.RecoveryIsUpToTheRange` says what a later sync needs.

## Model

| member | source | states |
|---|---|---|
| `Search.OrderIsReachability` | go/block/validate.go:767-831 | What reading a refs graph breadth first lists is, each digest once, exactly what the roots reach through readable blocks |
| `Search.FirstDefiningMeaning` | go/block/validate.go:659-701 | The place in the reading order where a digest is first defined: nothing earlier defines it, and it is the end of the list iff nothing does |
| `Search.SweepPrefix` | go/block/validate.go:767-831 | What has been read stays read, in the order it was read: stopping and resuming a search is one search |
| `Resolution.UnlimitedAnswerIsReachability` | go/block/validate.go:659-701 | With no scan limit a digest is found iff an earlier operation, a held readable ancestor, or a held readable block in the transitive refs closure creates it; a lookup fails definitively iff every block of that search is held and readable; otherwise the answer names a block of the search that is missing or sealed |
| `Resolution.FailureMeaning` | go/block/validate.go:681-700 | Which gap a failed search reports: absent iff no block of the search is unheld or sealed, and otherwise a block that really is |
| `Resolution.SettledSearchIsFinal` | go/block/validate.go:694-700 | A search whose every block is held and readable is the same search in every larger store |
| `Resolution.DecidedAnswersAreStable` | go/block/validate.go:551-577 | Found and absent are kept by every larger store; only an undecided answer can move |
| `Resolution.SmallerStoreWaits` | go/block/validate.go:681-700 | What a larger store finds, a smaller one finds or is undecided about: it never calls it absent |
| `GoResolver.Resolver.Resolve` | go/block/validate.go:659-701 | After any sequence of earlier lookups and definitions, whatever the scan limit, the lazy resolver gives the one answer the specification gives, and has read the refs graph exactly as far as the deepest lookup needed |
| `GoResolver.Resolver.ExtendAncestors` | go/block/validate.go:703-745 | One step up the prev chain is the specification's step: held and readable blocks define, a missing or sealed one is remembered as the gap |
| `GoResolver.Resolver.ExtendRefs` | go/block/validate.go:767-831 | One block off the refs queue is one step of the specification's search; it stops exactly where one more held block would pass the scan limit |
| `GoResolver.Resolver.Define` | go/block/validate.go:838-854 | A definition adds the entity an operation creates and changes no other answer |
| `GoResolver.Resolver.constructor` | go/block/validate.go:636-655 | A fresh resolver stands at the start of the search for its block |
| `GoResolver.Resolver.Fetch` | go/block/validate.go:856-869 | A block the store holds is looked up once and remembered from then on, and is the one the store holds |
| `TsResolver.Resolver.constructor` | ts/src/block.ts:1302-1358 | The TypeScript resolver starts at the same search, its refs already queued once each |
| `TsResolver.Resolver.LoadAncestors` | ts/src/block.ts:1390-1412 | Loading all ancestors at once leaves the state that climbing them one by one leaves |
| `TsResolver.Resolver.ScanNext` | ts/src/block.ts:1414-1444 | Reading the next queued block is one step of the same search, with the same limit |
| `TsResolver.RepeatIsIdle` | ts/src/block.ts:1446-1451 | Dropping repeated digests when they are queued reads the same blocks in the same order as skipping them when they come up |
| `TsResolver.Resolver.Resolve` | ts/src/block.ts:1373-1388 | The second implementation gives the specification's answer after any earlier calls |
| `TsResolver.ResolveBoth` | go/block/validate.go:659-701 | Go and TypeScript, in step, answer one lookup alike and stay in step |
| `TsResolver.RunBoth` | ts/src/block.ts:1634-1691 | For every store, block, scan limit and sequence of calls up to the first failure, the two resolvers give the same answers; and unless that failure is the limit, the same scan count, which is the number of held blocks up to the furthest place needed |
| `Validation.Validate` | go/block/validate.go:343-393 | With no scan limit a block is accepted iff, on its fields: it has operations; its predecessor, if any, is held, accepted, by the same author and no rotation; no held ref is a private block named by a public one or by its author; and every digest every operation carries is that of an entity of the right kind that an earlier operation creates or some readable block of its search does, with one filler for each variable of the bond. A rejection names a rule the block breaks, the earlier ones kept, and an undecided verdict a block or key it truly lacks. Under a limit, the same and a search the limit affords. An acceptance comes with the refs left unchecked and the number of distinct held blocks its lookups had to read |
| `Validation.ValidateReferences` | go/block/validate.go:489-578 | With no scan limit it passes iff the held refs keep rules 6 and 10 and each operation keeps rules 4 and 5, stated on fields, each seeing what earlier ones create; the scan count is the number of held blocks of the refs graph up to the furthest place any lookup had to read |
| `Validation.VerdictMeaning` | go/block/validate.go:343-393 | What each of the verdicts says, for every block, store, keyring and set of accepted blocks, without a scan limit: accepted iff every rule is kept; a rejection only for a rule that is broken, in the code's order; undecided only for a missing block, an unaccepted predecessor or a missing key |
| `Validation.AcceptanceUnderLimit` | go/block/validate.go:767-831 | A scan limit refuses exactly the acceptable blocks whose lookups must read more held blocks than it allows |
| `Rules.SearchedIsInSearch` | go/block/validate.go:703-831 | What the resolvers search is what some path reaches: down prev to the first missing block, or along the refs of readable held blocks |
| `Rules.ReferencesMeaning` | go/block/validate.go:551-577 | The digests looked up for an operation are exactly a molecule's bond, its filler targets at their kinds, and the units of its scalar fillers |
| `Validation.CheckHygiene` | go/block/validate.go:489-531 | The first held ref that breaks rule 6 or rule 10 decides; unheld ones are listed as unchecked |
| `Stability.ReferencesStable` | go/block/validate.go:551-577 | Rules 4 and 5 for an operation's digests: success and definitive rejection carry over to every larger store |
| `Stability.OperationsStable` | go/block/validate.go:538-577 | The same for all operations of a block |
| `Stability.HygieneMeaning` | go/block/validate.go:505-531 | Rules 6 and 10 pass iff no held ref is a private block named by a public one or a block of the same author |
| `Stability.UncheckedRefsAreTheWholeReservation` | go/block/validate.go:505-531 | Exactly when an accepted verdict can be lost in a larger store: iff that store adds a block, among the refs reported unchecked, that rule 6 or rule 10 forbids |
| `Stability.AcceptedVerdictWouldNotSurviveRevalidation` | go/block/verdict.go:102-108 | A concrete store and a larger one in which a block is accepted, and would be rejected if asked about again |
| `Stability.PartOfGoodSetWaits` | go/block/validate.go:343-393 | Against any part of a set closed under prev and refs whose blocks satisfy every rule in the whole set, a block of the set is accepted or undecided, never rejected |
| `StoreModel.EntriesTake` | go/block/verdict.go:305-312 | Taking what waits for a block lengthens the worklist by as much as it shortens the index |
| `StoreModel.ReadmitBounds` | go/block/verdict.go:279-303 | Readmitting taken blocks adds to index and worklist together no more than was taken: the measure on which settling ends |
| `StoreFacts.AwaitedIsMissingOrPredecessor` | go/block/validate.go:411-577 | An undecided verdict waits for a block that is not held, or for the block's own held and not yet accepted predecessor |
| `StoreFacts.AddKeepsWaitingIndex` | go/block/verdict.go:158-312 | After every Add, each undecided block not found invalid since is filed under what it waits for, that is still outstanding, and nothing is filed under an accepted block |
| `StoreFacts.RunKeepsWaitingIndex` | go/block/verdict.go:158-312 | The same over every sequential run of Adds |
| `StoreFacts.AddKeepsVerdicts` | go/block/verdict.go:242-256 | An Add takes no acceptance back and loses no block |
| `Acceptance.AcceptedBlocksStand` | go/block/verdict.go:158-312 | Over every sequential run of Adds from an empty store, under any scan limit: every accepted block is held and keeps rules 3, 4, 5 and 7, on its fields, in the store as it now is; and a chain of held, accepted blocks of its own author, none but the block itself a rotation, leads down prev to a genesis block |
| `Acceptance.AddAnswers` | go/block/verdict.go:171-232 | What one Add answers without a scan limit: a duplicate iff already accepted; accepted iff every rule is kept; refused only for a rule that is broken; otherwise waiting for a block or key the block truly wants |
| `Acceptance.AddRecords` | go/block/verdict.go:206-256 | What one Add changes: the block is held unless refused, no other block is new, and an acceptance is on record |
| `Confluence.CompleteIsValid` | go/block/verdict.go:158-303 | When every block of a set closed under prev and refs, each valid in the set, has arrived, every one is accepted |
| `Confluence.EveryArrivalIsAdmitted` | go/block/verdict.go:158-185 | On the way no Add of a block of the set returns a rejection |
| `Confluence.GoodSetMeaning` | go/block/validate.go:343-393 | The sets of blocks these results are about are those closed under prev and refs in which every block keeps every rule, stated on fields |
| `Confluence.ArrivalOrderDoesNotMatter` | go/block/verdict.go:158-303 | Offering the set in any order, with any repeats, ends with exactly the set held, every block accepted and nothing waiting |
| `Stores.MemStore.Add` | go/block/store.go:138-165 | A stored block is held once, both indexes still agree with the blocks, and a fork is reported iff a different block of the author claims the position |
| `Stores.MemStore.BlocksWithPrev` | go/block/store.go:211-216 | Exactly the held blocks of an author at a position, each once |
| `Stores.MemStore.BlocksReferencing` | go/block/store.go:218-223 | Exactly the held blocks whose visible refs name a digest |
| `Stores.MemStore.Forks` | go/block/store.go:225-250 | One entry for each position that two held blocks of one author claim, with all the blocks held there by ascending digest, the entries ascending by their lowest digests |
| `Stores.ValidatingStore.AdmitBlock` | go/block/verdict.go:206-232 | Validates and records one block as the transition says |
| `Stores.ValidatingStore.Record` | go/block/verdict.go:242-256 | A verdict is written and filed, except over an acceptance, which nothing overwrites |
| `Stores.ValidatingStore.SettleFrom` | go/block/verdict.go:279-303 | The worklist loop ends, in the state that settling is defined to reach |
| `Stores.ValidatingStore.Offer` | go/block/verdict.go:171-185 | Add is exactly the transition the run theorems are about; its answer and what it stores are those of the rules on fields (as for Acceptance.AddAnswers and AddRecords), and the object keeps every accepted block standing on rules 3, 4, 5 and 7 |
| `Interleaving.EveryInterleavingIsSafe` | go/block/verdict.go:196-256 | Over every interleaving of concurrent Adds, cut into lookup, predecessor, verdict, resolution, store, record and take steps, the store keeps its safety invariant |
| `Interleaving.SafeChain` | go/block/validate.go:411-461 | In a safe state an accepted block stands on a held, accepted chain of one author down to genesis, with no rotation block before the last |
| `Interleaving.AcceptedBlocksAreSafe` | go/block/verdict.go:206-256 | In every interleaving an accepted block is held on such a chain, and is still accepted after every continuation |
| `Interleaving.WakeupCanBeLost` | go/block/verdict.go:201-232 | A concrete interleaving that ends at rest with a block filed, undecided, under a predecessor that is already accepted |
| `Wakeups.TimelyIsMissingNothing` | go/block/verdict.go:242-312 | Over every interleaving: no state of the run leaves what waits for an accepted block without a thread about to take it iff no step files a block under one that is accepted and no longer queued; such a run, once at rest, has nothing waiting for an accepted block |
| `Wakeups.FiledLateStaysFiled` | go/block/verdict.go:206-232 | A block filed under an accepted one that no thread has queued or in flight stays filed there in every continuation |
| `Wakeups.AddsInTurnMissNothing` | go/block/verdict.go:158-185 | Runs whose Adds do not overlap miss nothing: between Adds nothing waits for an accepted block |
| `Cycles.Tarjan.Visit` | go/accept/supersede.go:206-242 | A visit numbers what its node reaches, finds the finished components with a cycle, and leaves on the stack only what reaches back below |
| `Cycles.Tarjan.FollowEdge` | go/accept/supersede.go:212-224 | Following one edge, into a new node or a seen one, keeps low the least number reached back to |
| `Cycles.Tarjan.PopTo` | go/accept/supersede.go:229-238 | A root pops exactly the nodes above it, sorted |
| `Supersession.FindCycles` | go/accept/supersede.go:192-250 | The lists are exactly the strongly connected components with more than one class or a self-loop, each ascending, in ascending order: a class is in one iff it lies on a cycle, two share one iff each reaches the other |
| `Supersession.ApplySupersession` | go/accept/supersede.go:37-95 | supersedes and supersededBy are exactly the declared edges between classes of the view, exact converses, ascending; the surfaced cycles are those of the graph, in ascending order, each with the entities of its classes, ascending, and with exactly the meta-molecules and authors of the claims inside it |
| `Supersession.CyclesReverse` | go/accept/supersede.go:43-94 | A class is on a cycle of one direction iff it is on a cycle of the other |
| `Supersession.Current` | go/accept/accept.go:515-554 | Exactly the members of classes reachable along supersededBy that nothing supersedes, ascending |
| `Supersession.NoCurrentVersionMeansCycle` | go/accept/accept.go:515-554 | If an entity of the view has no current version, a class reachable from its own lies in a surfaced cycle |
| `Equivalence.UnionFind.Find` | go/accept/meta.go:182-199 | The root of the class, found in finitely many steps, and every root unchanged by the path compression |
| `Equivalence.UnionFind.Union` | go/accept/meta.go:201-211 | Declaring a pair makes the table stand for exactly the pairs so far: same root iff connected by them |
| `Equivalence.RootIsLeast` | go/accept/meta.go:167-217 | The root of a class is its least digest |
| `Equivalence.MergeRepresents` | go/accept/meta.go:201-211 | Giving two classes one of their two roots is what connecting them does, no more and no less |
| `Equivalence.CloseEquivalences` | go/accept/accept.go:306-328 | Two digests of the view are equivalent iff the standing declarations connect them, also through digests outside the view; the class is named by the least of them and lists its members in order |
| `BlockOrder.BlockOrder.Of` | go/accept/order.go:218-272 | After any sequence of successful and failed calls the memoised walk answers what the recursive definition does, and an error iff a block of the lineage is missing. A genesis block that names rotations appointing its key in two places of its refs is the first of its lineage, and the conflict on record is between it and exactly those; one whose only rotation another held genesis block claims too is likewise first, and the conflict is between the rotation and exactly its claimants; otherwise it follows the one it names by one. Nothing else is on record, and nothing twice |
| `BlockOrder.BlockOrder.FindRotation` | go/accept/order.go:282-333 | It finds r iff the public genesis block names r, a held rotation block appointing its key, in one place of its refs and names no other such, and no second held genesis block claims r where the source can list referrers; an ambiguous claim is reported |
| `BlockOrder.BlockOrder.ReportAmbiguity` | go/accept/order.go:338-366 | An ambiguity is recorded once, with the blocks it is between and the authors who signed those that are held |
| `BlockOrder.PlaceIsTheCount` | go/accept/order.go:53-56 | n steps back to a block that nothing precedes is position n in that block's lineage |
| `BlockOrder.PlacedHasALine` | go/accept/order.go:53-56 | and every position given comes from such a walk |
| `BlockOrder.OrderRises` | go/accept/order.go:165-187 | Along prev and across a rotation alike the position rises by exactly one, in one lineage |
| `BlockOrder.JoinedMeaning` | go/block/chain.go:243-295 | The rotation behind a genesis block, on fields: r iff in exactly one place of its refs the block names a held rotation appointing its key, that is r, and no two held public genesis blocks claim r |
| `BlockOrder.AmbiguousMeaning` | go/accept/order.go:282-333 | Where an ambiguity is found: at the genesis block iff two places of its refs name such rotations, at the rotation iff it is the only one named and a second genesis block claims it |
| `BlockOrder.ClaimsCount` | go/accept/order.go:288-306 | A rotation is a claim as often as the refs name it |
| `Truth.MarkLatest` | go/accept/truth.go:222-236 | In place, a record is flagged iff no record of its class and lineage has a larger index |
| `Truth.View.ApplyTruth` | go/accept/truth.go:163-180 | Every class has the state its last words give it and lists its records, sorted and marked, each as often as it was given; a conflict is surfaced, with both sides, iff both stances are among its last words; conflicts ascend by class |
| `Truth.View.ApplyClass` | go/accept/truth.go:241-310 | One class's state, assertions and conflict, from its marked records |
| `Truth.SayingIsSide` | go/accept/truth.go:241-275 | The authors counted for a stance in a sorted group are exactly those whose last word it is |
| `Truth.SomeLastWord` | go/accept/truth.go:265-275 | Every class spoken of has a last word, so asserted is never said by default |
| `Truth.ComparisonIsTotal` | go/accept/truth.go:105-128 | The record comparison is a total order |
| `Truth.ComparisonMeaning` | go/accept/truth.go:105-128 | Records compare by class, lineage, position, author, stance with assertions first, then meta-molecule, block and subject |
| `Truth.OneOutcome` | go/accept/truth.go:163-180 | The states and conflicts depend on the set of records alone, not on their order or repetition |
| `Truth.OneAssertionList` | go/accept/truth.go:105-128 | The list of a class is determined by the records given, not by their order |
| `Truth.OneView` | go/accept/truth.go:163-180 | Two runs of the reduction over the same records in any two orders end with the same states, assertions and conflicts |
| `Standing.TruthRecords` | go/accept/truth.go:184-213 | Each record carries, field by field, a claim about a molecule of the view and one authorship of it: its stance, meta-molecule and subject, the author and block, the subject's class and the block's place; each is there exactly as often as it was published, and no other is; an error iff one of the blocks has no place |
| `Standing.StillBacking` | go/accept/standing.go:159-183 | Sorting and grouping finds exactly the authors who did something other than retract at their last position in some lineage |
| `Standing.StandingOf` | go/accept/standing.go:124-183 | The publishers who still back a declaration, from their own statements only |
| `Standing.StandsWhileBacked` | go/accept/standing.go:36-73 | A declaration stands iff some publisher of it still backs it |
| `Standing.StrangersHaveNoVeto` | go/accept/standing.go:143-157 | Claims by authors who never published it, and claims about other molecules, change nothing |
| `Standing.PublicationIsBacking` | go/accept/standing.go:44-48 | A publisher who has not retracted stands behind it |
| `Standing.ApplyStanding` | go/accept/standing.go:74-113 | A declaration is kept iff some publisher's last act about it, in some lineage of theirs, is something other than taking it back; it is kept with exactly the publications of such authors, in order, and the rest are withdrawn |
| `Standing.BackingMeaning` | go/accept/standing.go:115-183 | An author backs a declaration iff they published it and, in some block after which they did nothing more about it in that lineage, published or asserted it |
| `Views.PlaceBlocks` | go/accept/order.go:165-187 | The places every reading uses are those of block order; an error iff a block of some lineage is missing |
| `Views.OnePlacing` | go/accept/order.go:165-187 | However the blocks are listed, and however often, they have one set of places |
| `Views.Build` | go/accept/accept.go:242-283 | An error iff a block the reading turns on has no place. Otherwise, over the claims and declarations read: each class is named by the least molecule that equivalences in force tie it to; a class is held true iff its last words are all assertions, held untrue iff all retractions, conflicted iff both, and the conflict names who last said which; its records are listed in order, the last marked; an edge runs between two classes iff a supersession in force does between molecules of theirs; and the surfaced cycles are those of the edges, with the molecules, declarations and publishers inside them |
| `Views.ViewMeaning` | go/accept/accept.go:242-283 | The same for any view that the steps in the code's order define |
| `Views.OneView` | go/accept/accept.go:206-283 | One view: the same declarations in any order and with any repeats, and the same assertions in any order, give the same classes, truth, assertions, conflicts, supersession and cycles |
| `Accumulation.Graph.Ingest` | go/graph/graph.go:398-434 | A block is refused iff a kind or payload on record contradicts it, and then nothing changes; an accepted one adds its entities and tags to what the graph stands for, and nothing is lost; tags stay listed by author and then block, and every digest list rises |
| `Accumulation.Graph.Add` | go/graph/graph.go:438-455 | One entity and tag stored, with all five indexes still ascending, duplicate-free and equal to what the map implies |
| `Accumulation.Graph.IngestAll` | go/graph/graph.go:398-434 | Blocks that agree are all taken, in any order with any repeats, and the graph is that of their set |
| `Accumulation.OneGraph` | go/graph/graph.go:278-302 | Entities, tags and every index are determined by the set of blocks ingested |
| `Graphs.InsertDigest` | go/graph/graph.go:656-666 | Insertion keeps a list ascending and duplicate-free and adds exactly the digest |
| `DcborSpec.HeadUnique` | go/dcbor/encode.go:164-183 | A shortest-form head can be read back from the front of any bytes in one way |
| `DcborSpec.PrefixFree` | go/dcbor/decode.go:46-62 | No encoding is a proper prefix of another: bytes begin with at most one value |
| `DcborSpec.ItemsPrefixFree` | go/transport/seq.go:75-96 | Values encoded one after another, with no framing, split in exactly one way |
| `DcborProfile.HeadMeaning` | go/dcbor/encode.go:164-183 | For every major type and argument, the head's bytes are those of section 3 of RFC 8949: the type and length in the first, the argument big-endian in the rest, and no shorter head says it |
| `DcborProfile.LessMeaning` | go/dcbor/encode.go:145-147 | The key order is bytewise: two keys agree up to some byte, and there the first ends or has the smaller byte |
| `DcborProfile.Utf8Meaning` | go/dcbor/value.go:284-294 | The text test accepts exactly the concatenated spellings (section 3 of RFC 3629) of code points up to U+10FFFF that are not surrogates |
| `DcborProfile.CanonicalMeaning` | go/dcbor/decode.go:73-146 | What the decoder may return is exactly what the profile allows, in the terms of the RFCs and with the bounds written out |
| `DcborProfile.PlainExamples` | go/dcbor/encode.go:52-110 | The examples of appendix A of RFC 8949 for integers, strings and null, and the 273.15 of its section 3.4.4, are encoded as printed there |
| `DcborProfile.MapExample` | go/dcbor/encode.go:123-162 | So is its map of a number and an array |
| `DcborDecoder.Decoder.Argument` | go/dcbor/decode.go:357-408 | An argument is read iff a shortest-form head stands there |
| `DcborDecoder.Decoder.Count` | go/dcbor/decode.go:335-355 | A count is read iff a shortest head stands there that the rest of the input could satisfy |
| `DcborDecoder.Decoder.TextKey` | go/dcbor/decode.go:295-317 | A key is read iff the encoding of a valid text string stands there |
| `DcborDecoder.Decoder.TagValue` | go/dcbor/decode.go:159-210 | A tag is read iff a canonical decimal fraction stands there, within the depth bound |
| `DcborDecoder.Decoder.DecimalInt` | go/dcbor/decode.go:212-236 | An integer is read iff the shortest encoding of an int64 stands there |
| `DcborDecoder.Decoder.MapValue` | go/dcbor/decode.go:260-293 | A map is read iff a canonical one stands there; in the one read, each neighbour's encoded key agrees with the next one's up to some byte, and there ends or has the smaller byte |
| `DcborDecoder.Decoder.DecodeValue` | go/dcbor/decode.go:73-146 | What is returned is canonical and its encoding is what was read; a refusal means no canonical value's encoding begins there |
| `DcborDecoder.Decode` | go/dcbor/decode.go:25-44 | Exactly the encodings of the values inside the profile decode, each to its own value: at every depth the text is Unicode scalar values spelled in UTF-8, the keys come in bytewise order, a decimal is a fraction in lowest terms of ten, and containers nest at most 64 deep |
| `DcborDecoder.DecodePrefix` | go/dcbor/decode.go:46-62 | The one canonical value the bytes begin with, and its length |
| `DcborEncoder.Encoder.WriteHead` | go/dcbor/encode.go:164-183 | Writes the shortest head |
| `DcborEncoder.Encoder.EncodeMap` | go/dcbor/encode.go:123-162 | A map is written in canonical order, or refused iff a key repeats or is not valid text, a value cannot be encoded, or it is too deep; as written, each neighbour's encoded key agrees with the next one's up to some byte, and there ends or has the smaller byte |
| `DcborEncoder.Encoder.EncodeValue` | go/dcbor/encode.go:52-110 | Writes the encoding of the value's normal form, and refuses exactly the values that have none |
| `DcborEncoder.Encode` | go/dcbor/encode.go:29-40 | Encode succeeds iff the entries of the value's maps can be arranged, at every depth, into a value inside the profile, and writes the encoding of that one arrangement |
| `DcborEncoder.SortedEntriesAreNormal` | go/dcbor/encode.go:128-149 | Whatever way the library sorts, sorted entries with no repeated key are the canonical order |
| `DcborOrder.AscendingIsUnique` | go/dcbor/encode.go:128-149 | There is one strictly ascending arrangement of given entries |
| `DcborOrder.NormalIsCanonical` | go/dcbor/value.go:24-32 | The normal form of what can be encoded is canonical |
| `DcborOrder.CanonicalIsNormal` | go/dcbor/value.go:24-32 | A canonical value can be encoded and is its own normal form |
| `Rearrangement.EncodableMeaning` | go/dcbor/encode.go:52-162 | What the encoder accepts is what can be arranged into the profile, and there is one such arrangement, the normal form |
| `DcborOrder.EqualIsSameNormalForm` | go/dcbor/value.go:225-281 | Equal, entry by entry in both directions, holds iff the normal forms are the same |
| `DcborOrder.EqualIsSameBytes` | go/dcbor/value.go:225-281 | Two values that can be encoded are Equal iff their bytes are the same |
| `DcborEncoder.ValueRoundTrip` | go/dcbor/value.go:24-32 | Every value that encodes decodes to a value Equal to it |
| `DcborEncoder.ByteRoundTrip` | go/dcbor/value.go:24-32 | Every byte string that decodes re-encodes to itself |
| `Sequence.EncodeSeq` | go/transport/seq.go:30-49 | A sequence is its items' encodings, end to end |
| `Sequence.DecodeSeq` | go/transport/seq.go:75-112 | A sequence is read iff the bytes are exactly the encodings of some list of blocks, and then it is that list |
| `Decimals.NewDecimal` | go/dcbor/value.go:95-124 | The canonical value of exactly mantissa × 10^exponent; an error iff that is a whole number outside int64; at most 19 turns whatever the exponent |
| `Decimals.WrapTest` | go/dcbor/value.go:115-121 | scaled/10 differs from the mantissa iff the wrapped product overflowed |
| `Decimals.DenotesOne` | go/dcbor/value.go:69-79 | Two pairs that are one number have one and the same canonical value |
| `Base32.Encode` | ts/src/cid.ts:289-303 | The digits of the bytes read as one number, although the 32-bit buffer loses its high bits |
| `Base32.Decode` | ts/src/cid.ts:305-334 | A text decodes iff it is the encoding of some bytes, and then to those bytes |
| `Base32.MiddleBits` | ts/src/cid.ts:289-334 | The bits read out of the buffer are those of the unbounded number |
| `Base32.OneTextEach` | ts/src/cid.ts:289-334 | A text is the text of at most one byte string, and a byte string has one text |
| `Base32.TwoByteExample` | ts/src/cid.ts:289-303 | The text of "fo" is the one of section 10 of RFC 4648, lower case and without padding |
| `Base32.BytesRoundTrip` | ts/src/cid.ts:289-334 | Bytes of every length come back from their text |
| `Base32.TextRoundTrip` | ts/src/cid.ts:289-334 | A text that decodes re-encodes to itself |
| `Servers.CheckRange` | go/transport/seq.go:186-219 | Passes iff each block names the one before it, the first the position asked after, all by one author |
| `Servers.TipOf` | go/transport/server.go:779-803 | The last block of the forward walk from genesis; none iff the walk is empty |
| `Servers.Server.Serve` | go/transport/server.go:752-777 | Exactly the first blocks of the walk after a position, up to the limit |
| `Servers.Server.Range` | go/transport/client.go:222-266 | An honest page passes the client's check; it is the walk after the position, cut short only at the source's own bound where no limit was asked for, and otherwise only at the limit or the source's cap; a range fails only if the request did |
| `Servers.CheckSiblings` | go/transport/seq.go:221-252 | Passes iff every block is the author's, claims the position, and follows the one before it by digest |
| `Servers.Server.Siblings` | go/transport/server.go:492-512 | Exactly the blocks held at a position, by ascending digest, and they pass the client's check |
| `Servers.PagePasses` | go/transport/seq.go:186-219 | Every page of an honest walk is a contiguous run of the author's chain |
| `Walks.WalkIsRun` | go/transport/server.go:752-777 | The walk is a chain: each block is the author's and names the one before it |
| `Walks.WalkContinues` | go/transport/server.go:752-777 | Asking after the last block received continues the same walk |
| `Walks.PagesAreTheWalk` | go/transport/sync.go:325-352 | Pages put end to end are the walk, as far as they go |
| `Walks.EndBringsAll` | go/transport/sync.go:354-359 | A client whose chain has no hole and that holds the tip holds the whole chain |
| `Walks.DivergenceIsAFork` | go/transport/sync.go:210-217 | Two held runs that part leave two blocks at one position |
| `SyncFacts.AddHolds` | go/transport/sync.go:467-480 | An offered block is held afterwards unless it was refused, and nothing else changes |
| `Sync.Syncer.ResolveRefs` | go/transport/sync.go:490-513 | Only blocks the source holds and the block's refs name are added; all of them are held afterwards if the source answered and none was refused |
| `Sync.Syncer.OfferWalk` | go/transport/sync.go:439-455 | A backward walk is offered in chain order: what is added is those blocks and what their refs name at the source, all of it if every request got through and nothing was refused |
| `Sync.Syncer.WalkBack` | go/transport/sync.go:391-437 | The pursuit steps back block by block, over blocks not held, to a held block or to genesis, and says which; it fails only before a block not held, and against an answering source only when its bound is used up |
| `Sync.Syncer.Pursue` | go/transport/sync.go:360-437 | What a pursuit fetches is the end of the source's tip walk, down to a held block or genesis unless it failed, and it is offered whether or not it failed |
| `Sync.Syncer.FirstPosition` | go/transport/sync.go:313-318 | A source is asked from where it left off, or else from the end of the client's own walk or from genesis |
| `Sync.Syncer.ReadPage` | go/transport/sync.go:329-352 | A page is the walk after the position, cut at the limit; it is offered whole, and its last block is where the next request starts |
| `Sync.Syncer.ReadRanges` | go/transport/sync.go:325-352 | The ranges put end to end are the walk after the first position, as far as the pages asked for reach, and all of that unless a request failed |
| `Sync.Syncer.SyncFrom` | go/transport/sync.go:293-359 | From genesis or a held block of the source's tip walk, a client whose part of the walk has no hole ends with the whole walk, if there was no error, the pursuit did not fail and no block was refused; from genesis with ranges that reach the tip it does so whatever it held; and when every request gets through, what it ends with is determined, and is the whole walk iff no gap is left. The ranges are the source's walk after the last block it handed over before, where one is remembered, and otherwise after the client's own end or from genesis; their last block is what is remembered then |
| `Sync.Syncer.SyncTwice` | go/transport/sync.go:313-352 | Two syncs without an error, one after the other: their ranges put end to end are the source's walk after the first position, up to twice what one sync reaches |
| `Completeness.SyncIsExact` | go/transport/sync.go:293-359 | From any first position and any client store: the exact set of blocks held after an undisturbed sync, and the exact condition for the whole walk to be among them |
| `Completeness.RunKeepsHoleFree` | go/transport/sync.go:341-346 | Offering a run after a held position makes no hole in a walk, unless a block of it off the walk names a walk block above a missing one |
| `Completeness.NamesBelow` | go/transport/sync.go:490-513 | A block's refs name no later block of a chain it is on |
| `Completeness.TameRangeLeavesNoGap` | go/transport/sync.go:293-359 | The exact condition holds where the ranges begin at a held position, name nothing of the walk above a hole, and the pursuit does not run out of steps |
| `Completeness.WholeRangeLeavesNoGap` | go/transport/sync.go:325-352 | It holds where the ranges bring the whole walk, whatever the client held before |
| `Completeness.OnWalkIsTame` | go/transport/sync.go:313-318 | Ranges from genesis, or from a block of the walk, name nothing of it above a hole |
| `Completeness.RuleTenIsAllTame` | go/block/validate.go:544-547 | Nor do ranges from anywhere, where the source's blocks of the author keep rule 10 |
| `Completeness.RecoveryIsUpToTheRange` | go/transport/sync.go:354-359 | After a pursuit that ran out of steps the tip is held above a hole and no later sync pursues it: the next one recovers iff its ranges bring, or name, every block still missing below where the pursuit stopped |
| `SyncHole.SyncCanLeaveAHole` | go/transport/sync.go:482-513 | A concrete client, source and first position for which every request is answered, no block is refused, the tip is held at the end, and a block of the walk is missing |
| `SyncHole.ClientIsReached` | go/block/verdict.go:171-185 | That client's store is what two Adds make of an empty one |
| `SyncHole.BothAreKept` | go/block/verdict.go:206-232 | Neither block it is given is refused: both wait for a predecessor, so rule 10 is not reached |
| `Sync.Syncer.SyncSources` | go/transport/sync.go:226-250 | Over all sources in turn: each chain read whole from genesis is obtained; and of a client without holes in any source's walk, where no source's blocks make one, so is each other chain up to the first pursuit that fails |
| `Completeness.RuleTenIsSteady` | go/block/validate.go:544-547 | Blocks closed under prev at the client and rule 10 at the sources are enough for that |
| `Sync.Syncer.QuerySiblings` | go/transport/sync.go:515-547 | All that answering sources hold at genesis, and at each position the store has two blocks at, is held afterwards unless refused |
| `Sync.Syncer.SyncChain` | go/transport/sync.go:216-278 | The sources, then the siblings: where two chains obtained part, the position is among the forks reported, which are exactly those held, and every source was asked about it |

## Left out

- Interleaving.EveryInterleavingIsSafe: resolution is one step with an arbitrary outcome, which covers every way the store can grow while it runs; that a definition found is still there is not restated, since blocks are never removed.
- Sync.Syncer.SyncFrom: cancellation is not modelled; the report lists the blocks handed over, and a refused block is counted instead of listed.
- Sync.Syncer.SyncChain: the lists of received, accepted, unvalidated and rejected blocks.
- Servers.Server.Range: dishonest sources; the client's checks are modelled and shown to pass for honest ones.
- Wakeups.AddsInTurnMissNothing: resolution is one step here, so that it waits only for a block not held is a condition on the run; `StoreFacts.AwaitedIsMissingOrPredecessor` is that fact about the resolver.
- Stores.MemStore.Forks: Tips, and the bytes of the position key.
- BlockOrder.BlockOrder.Of: the test for a revisited block, which no digest-checked chain can fail.
- Truth.View.ApplyTruth: sets stand for the sorted key and digest lists of a conflict.
- Supersession.ApplySupersession: the same; and the edges are kept in the order they came, not sorted, which the cycles do not show.
- Views.Build: filtering, contradictions and the final sort of all conflicts together; the conflicts of each kind are in their own lists.
- Standing.ApplyStanding: the three lists of declarations go through one filter; positions of the backing are looked up, not modelled.
- DcborDecoder.Decode: the offset and text of an error; every error is one refusal.
- Validation.Validate: warnings, rule 9's fork report (the store's own is in Stores.MemStore.Add), the report of a private block's unread parts, decrypters that fail, and payload validation by a caller.
- Decimals.NewDecimal and Base32.Decode: error texts.
- Contradictions between molecules, filtering by subscription, the reading of meta-molecules from fillers, and the accessors of a view.
- Walking whole chains and histories outside the validating store.
- HTTP, files, receipts, long polling, encryption, signing, hashing, timestamps and content identifiers.
- Template parsing, entity constructors and builders.
