# Ourios: a verified model of the template and alias history, and of the benchmark tool

Ourios is a log backend. Its miner turns log lines into templates, records every change of a
template in an audit stream, and lets operators declare templates to be aliases of each other.
Its benchmark tool loads corpora, measures convergence and latency, compares answers with
another system and keeps its results in a managed region of a markdown document. This project
models these parts in Dafny and proves what they promise.

- **Alias index** (`AliasPartition`, `AliasLog`, `AliasMap.dfy`): operator assertions and
  retractions as an event log, the partition of template ids it stands for, and the in-place class
  that maintains it. What the index answers is defined a second time without classes, as a relation
  read off the log, and for assertions alone as reachability in a hypergraph.
- **Template history** (`SlotTypeSets`, `Templates`, `TemplateOracle`, `TemplateLaws`,
  `IngestOracle`, `OracleVerdicts`, `IngestRun`, `MergeOracle`): the audit-chain oracle of the fuzz
  target as a state machine, on a position-by-position view of templates; exactly what it accepts,
  and what every accepted chain and every accepted run of ingests keeps.
- **The miner against its oracles** (`Lines`, `MinerAttach`, `MinerRows`, `MinerLeaf`, `MinerRun`,
  `MinerOutcomes`, `MinerRoundtrip`, `MinerCluster`): tokenizing, masking, attaching, stamping and
  rendering, what becomes of each line, and the whole fuzz target. For every sequence of lines and every routing decision, no oracle ever fails
  (`EveryRunHolds`).
- **Managed results region** (`MarkedText`, `ResultsBlocks`, `ResultsClean`, `ResultsRows`,
  `ResultsRegion`): printer, parser and in-place rewrite of the region as a faithful store.
- **Dates** (`Calendar`, `Timestamps`): the closed-form civil date against a plain count of days, in
  the date-time format of section 5.6 of RFC 3339.
- **Corpus loading** (`Corpus`, `CorpusRecords`): the streaming loader refines the eager one, and
  both give what the source lines say.
- **Bounded statistics** (`Latency`, `Convergence`, `ServiceCounts`): systematic decimation, nearest
  rank, the constant-memory template counter, its curve and its decomposition by service.
- **Comparators** (`Comparative`): line multisets, aggregation cells, and the completeness margin.

`Text`, `Arithmetic`, `Collections`, `Wrappers` and `AuditEvents` hold shared definitions.
`dafny verify dfyconfig.toml` checks the whole project.

Where a promise turned out to need a condition, the condition is stated exactly:

- The version bound counts only expansions that declare a known type. `Unknown` has no bit, so an
  expansion naming nothing else changes nothing and can be repeated (`StepMeasure`,
  `UnknownExpandsForever`).
- The oracle does not watch for leaves that vanish. The version law holds exactly for leaves that
  persist (`VersionLawIffPersists`, `VanishedLeafMayReturnChanged`).
- A header field that holds the end marker passes the guard and is written, and from then on every
  update is refused (`GuardAdmitsEndMarker`, `MarkerLocksOut`, `StoreSurvivesIff`,
  `RefusedForever`); the document that holds nothing but the anchor is one it happens to
  (`LockedOutExists`).
- The civil date is right exactly on the days whose year fits 32 bits (`CastsExact`). The comment in
  the source claims every signed 64-bit day; the model follows the code, in which the final cast
  wraps. The addition before it is modelled as wrapping too, as in a release build.
- The template counter equals the number of distinct templates exactly when ids are handed out in
  ascending order (`CountIsDistinct`).
- At margin one, on cell-wise undercounts, the margin comparison and the exact one give different
  verdicts exactly when all counts are equal and the other system reports a cell of its own, which
  is then an empty one (`FullMarginIsExact`, `FullMarginAgreesIff`, `EmptyPhantomDisagrees`).
- The run's timestamp opens with a date the region accepts exactly before the year 10000, as long as
  the year fits 32 bits; beyond, acceptance returns every 2^32 years (`TimestampDatedBefore`,
  `TimestampDatedIff`).
- A comment in the corpus loader says line reading leaves every carriage return in place; the code
  strips any that remain, and the model does what the code does.

## Model

| member | source | states |
|---|---|---|
| AliasPartition.MergeValid | crates/ourios-core/src/alias.rs:466-490 | Merging an asserted set keeps the classes pairwise disjoint with at least two members each. |
| AliasPartition.RemoveValid | crates/ourios-core/src/alias.rs:495-506 | Removing an id keeps the class invariant: classes that fall below two members are dropped. |
| AliasPartition.FoldValid | crates/ourios-core/src/alias.rs:418-427 | After replaying any log the class invariant holds for every tenant. |
| AliasPartition.MergeAnswers | crates/ourios-core/src/alias.rs:466-490 | After a merge two ids are joined exactly when they were before, or each reached the asserted set before. |
| AliasPartition.RemoveAnswers | crates/ourios-core/src/alias.rs:495-506 | After removing an id, two ids are joined exactly when they are equal, or were joined and neither is the removed one. |
| AliasPartition.RetractionAnswers | crates/ourios-core/src/alias.rs:305-350 | After a retraction the retracted id resolves to itself alone and every other id to its old class without it, so ids once joined through it stay joined. |
| AliasPartition.FoldRetraction | crates/ourios-core/src/alias.rs:305-335 | The event a retraction emits, replayed, removes exactly that id, and only for its tenant. |
| AliasLog.ReplayAnswers | crates/ourios-core/src/alias.rs:375-427 | For every log, tenant and pair of ids, the replayed classes answer exactly the relation read off the log directly. |
| AliasLog.AssertionsAnswerComponents | crates/ourios-core/src/alias.rs:246-284 | After assertions alone, an id resolves to exactly its connected component in the hypergraph of asserted sets. |
| AliasLog.AssertionOrderIsImmaterial | crates/ourios-core/src/alias.rs:246-284 | Logs with the same assertions, in any order and number, give the same answers. |
| AliasLog.FoldReadsOwnAliasEvents | crates/ourios-core/src/alias.rs:375-427 | A tenant's classes depend only on that tenant's alias events; other events and tenants can be interleaved freely. |
| AliasIndex.AbsorbOverlapping | crates/ourios-core/src/alias.rs:466-490 | The nested loop with swap-remove ends, collects exactly the classes that meet the asserted set, and leaves exactly the others. |
| AliasIndex.UnionClasses | crates/ourios-core/src/alias.rs:466-490 | The in-place union is the merge of the partition and restores the class invariant. |
| AliasIndex.RemoveFromAll | crates/ourios-core/src/alias.rs:495-506 | Trimming every class and retaining those with two members removes the id from the partition. |
| AliasIndex.AliasMap.constructor | crates/ourios-core/src/alias.rs:211-228 | A new map projects the empty log. |
| AliasIndex.AliasMap.UnionIn | crates/ourios-core/src/alias.rs:466-490 | One tenant's partition is merged, every other tenant's is untouched, and no empty entry is left. |
| AliasIndex.AliasMap.RemoveId | crates/ourios-core/src/alias.rs:495-506 | One tenant's partition loses the id, every other tenant's is untouched, and no empty entry is left. |
| AliasIndex.AliasMap.Assert | crates/ourios-core/src/alias.rs:246-284 | Over-long reasons and degenerate sets are refused without effect; otherwise one event is emitted, and the map stays the projection of the log. |
| AliasIndex.AliasMap.Retract | crates/ourios-core/src/alias.rs:305-335 | An over-long reason is refused without effect; otherwise one event is emitted, and the map stays the projection of the log. |
| AliasIndex.AliasMap.Resolves | crates/ourios-core/src/alias.rs:344-350 | The class of the id in the tenant's partition, or the id alone. |
| AliasIndex.AliasMap.Canonical | crates/ourios-core/src/alias.rs:359-365 | The least member of the id's class. |
| AliasIndex.CanonicalDecidesMembership | crates/ourios-core/src/alias.rs:344-365 | Two ids have the same canonical id exactly when one resolves to a class with the other. |
| AliasIndex.AliasMap.Apply | crates/ourios-core/src/alias.rs:375-410 | Applying one event takes every tenant's partition one step of the replay. |
| AliasIndex.AliasMap.FromEvents | crates/ourios-core/src/alias.rs:418-427 | The map built from a log projects that log, for every tenant. |
| AliasIndex.AliasMap.Classes | crates/ourios-core/src/alias.rs:436-440 | The tenant's classes, each once, ordered by least member. |
| AliasIndex.CanonicalListingUnique | crates/ourios-core/src/alias.rs:436-440 | A partition has only one such listing. |
| AliasIndex.AliasMap.FromClasses | crates/ourios-core/src/alias.rs:451-462 | Any list of classes, overlapping or degenerate ones included, gives the merge of its classes for that tenant and nothing for others. |
| AliasIndex.MergeAllIsReplay | crates/ourios-core/src/alias.rs:451-462 | Building from classes is replaying one assertion per class. |
| AliasIndex.LiveEqualsReplay | crates/ourios-core/src/alias.rs:246-335 | Every run of calls over many tenants emits exactly its accepted calls in order, a refused call nothing; the live map and the map rebuilt from that log agree on every tenant, and two ids answer alike exactly when the log relates them. |
| AliasIndex.ReplayInterleaved | crates/ourios-core/src/alias.rs:418-427 | Rebuilding from any shared log that holds the run's events for a tenant, interleaved with other tenants' events and other kinds, gives that tenant's live classes. |
| AliasIndex.ProjectAndRebuild | crates/ourios-core/src/alias.rs:436-462 | Listing a tenant's classes and rebuilding from the list gives the same partition and the same listing. |
| SlotTypeSets.InsertMembers | crates/ourios-core/src/audit.rs:544-546 | Inserting adds exactly the type, and nothing for `Unknown`. |
| SlotTypeSets.ContainsMembers | crates/ourios-core/src/audit.rs:550-552 | Containment in the bit set is membership, and never holds of `Unknown`. |
| SlotTypeSets.MembersBound | crates/ourios-core/src/audit.rs:586-606 | A slot holds at most eight types. |
| Templates.CellsRoundTrip | fuzz/common/audit.rs:22-28 | Token list and slot list, when aligned, are recovered from the position-by-position view. |
| Templates.CellsUnique | fuzz/common/audit.rs:22-28 | Every such view comes from one aligned pair of lists. |
| Templates.OpenSlot | fuzz/common/audit.rs:327-351 | Opening a slot at a position inserts its types at the number of wildcards before it. |
| Templates.UpdateSlot | fuzz/common/audit.rs:369-401 | A wildcard's types are found and replaced at the number of wildcards before it. |
| Templates.OrdinalOnto | fuzz/common/audit.rs:369-401 | Every slot index in range belongs to a wildcard. |
| Templates.VersionStepTransitive | fuzz/common/merge.rs:84-107 | The order of template versions is transitive. |
| TemplateOracle.WideningOpensCells | fuzz/common/audit.rs:309-351 | Replaying a multi-position widening by ordinals is opening the declared cells; it fails exactly for positions out of order, absent or already wildcards, so the ordinal check never fails on an aligned leaf. |
| TemplateOracle.ExpandEachEffect | fuzz/common/audit.rs:353-401 | Every slot gains exactly its declared known types, all of them new to it. |
| TemplateOracle.ExpansionGrowsCells | fuzz/common/audit.rs:353-401 | An expansion leaves literals alone and gives the k-th wildcard the types declared for slot k. |
| TemplateLaws.StepMoves | fuzz/common/audit.rs:206-260 | Each accepted step raises the version by one, keeps alignment and does to the cells what it declares. |
| TemplateLaws.ChainWidens | fuzz/common/audit.rs:206-260 | Over any accepted chain slots stay with their wildcards, old slots keep a superset of their types and a new slot holds `Str` and the line's type. |
| TemplateLaws.ChainAccounted | fuzz/common/audit.rs:206-260 | Over any accepted chain, a position is declared exactly when it went from literal to wildcard, no position twice, nothing else changed, and the version rose by the number of steps. |
| TemplateLaws.StepMeasure | fuzz/common/audit.rs:309-419 | Every accepted step lowers the measure of eight per literal and eight less its types per slot, except exactly the expansions that declare only `Unknown`. |
| TemplateLaws.VersionBound | fuzz/common/audit.rs:206-260 | Any accepted chain on an n-token template has at most 8 n steps besides those. |
| TemplateLaws.UnknownExpandsForever | crates/ourios-core/src/audit.rs:586-606 | One wildcard takes any number of accepted `Unknown` expansions. |
| IngestOracle.WidenTokens | fuzz/common/audit.rs:403-419 | The loop that overwrites tokens computes the widening of all positions, or stops at the first that is not a literal. |
| IngestOracle.SeedSlots | fuzz/common/audit.rs:309-351 | The loop that inserts slots computes the seeding of all positions, or stops at the first it refuses. |
| IngestOracle.ExpandSlots | fuzz/common/audit.rs:353-401 | The loops over expansions and types compute the expansion, or stop at the first slot or type refused. |
| IngestOracle.AssertStep | fuzz/common/audit.rs:280-307 | One step on mutable state is accepted exactly when the replay is defined, with its result. |
| IngestOracle.AssertSteps | fuzz/common/audit.rs:206-260 | The chain loop accepts exactly the chains that replay from the leaf before to the leaf after. |
| IngestOracle.TemplateChangesById | fuzz/common/audit.rs:123-144 | Grouping gives each id its own changes in emission order, rejections dropped. |
| IngestOracle.AssertChangesAudited | fuzz/common/audit.rs:80-117 | The oracle accepts exactly the ingests whose events name the tenant, account for every leaf and name no other. |
| OracleVerdicts.WideningAcceptedIff | fuzz/common/audit.rs:280-351 | A widening step is accepted exactly when versions and text continue the chain, its positions are literals in order that the line has, and its new text prints the result. |
| OracleVerdicts.ExpansionAcceptedIff | fuzz/common/audit.rs:353-401 | A type expansion is accepted exactly when it continues the chain with the text unchanged and names at least one slot, each once and in range, with types that are all new there. |
| OracleVerdicts.AcceptedTells | fuzz/common/audit.rs:206-260 | The events of an accepted leaf number its versions one by one, and their texts lead from the template before to the template after. |
| OracleVerdicts.AcceptedIngestTells | fuzz/common/audit.rs:80-117 | In an accepted ingest every event names the tenant and a template there is; a new template was reported once, by its creation with its own text, at version 1; one that was there was never reported as created. |
| IngestRun.LifeAccounted | fuzz/fuzz_targets/miner_roundtrip.rs:98-136 | In any accepted run, for a persisting leaf: version rises by one per step event, and the events account for its tokens with no position declared twice in its life. |
| IngestRun.LifeFromBirth | fuzz/common/audit.rs:186-204 | A leaf born in a run has version one plus the step events since. |
| IngestRun.VersionLawIffPersists | fuzz/common/audit.rs:80-101 | The version law holds between two points of a run exactly when the leaf was there all along. |
| IngestRun.VanishedLeafMayReturnChanged | fuzz/common/audit.rs:80-101 | An accepted run in which a leaf vanishes and returns as another template under its id. |
| IngestRun.LifeWidens | fuzz/common/merge.rs:84-107 | Any two versions of a persisting leaf are in the version order, and one version is one template. |
| IngestRun.AgreementLasts | fuzz/common/merge.rs:26-57 | A line that agrees with one version of a template agrees with every later one. |
| IngestRun.NoSilentMerge | fuzz/common/merge.rs:26-57 | Two lines attached to one template at any two times agree at every literal it still has. |
| IngestRun.LifeBound | fuzz/fuzz_targets/miner_roundtrip.rs:98-136 | Over a whole run, all ingests together, a persisting leaf stays aligned and takes at most 8 n steps besides the `Unknown` ones. |
| MergeOracle.AssertVersionStep | fuzz/common/merge.rs:84-107 | The comparison loop decides the version order. |
| MergeOracle.AssertWideningIsMonotone | fuzz/common/merge.rs:68-79 | Grouping, sorting and comparing neighbours decides the order of every pair of versions of every template. |
| MergeOracle.AssertNoSilentMerge | fuzz/common/merge.rs:26-57 | Accepts exactly the rows with a snapshot whose literals their line shares. |
| MergeOracle.AssertReconstructs | fuzz/common/reconstruction.rs:24-67 | Accepts exactly the rows that render to their line, rebuilt from the template when clean, and diverted rows that keep it. |
| MergeOracle.MergedLinesAgree | fuzz/common/merge.rs:26-57 | Two lines that pass under one template version have the same tokens wherever it has a literal. |
| MergeOracle.ReconstructsOneLine | fuzz/common/reconstruction.rs:24-67 | A row passes for one line only. |
| Lines.TokensAreTokenization | crates/ourios-miner/src/tokenize.rs:93-128 | Tokens and separators interleave to exactly the line, tokens hold no whitespace, separators nothing else. |
| Lines.Tokenize | crates/ourios-miner/src/tokenize.rs:93-128 | Fails exactly on a line with a NUL, with the byte offset of the first one in UTF-8; otherwise the single pass gives that tokenization. |
| Lines.MaskTokens | crates/ourios-miner/src/mask.rs:74-95 | Masked positions are exactly the classified tokens, ascending, each with its type and original text. |
| Lines.FindPosition | fuzz/common/audit.rs:151-166 | The halving search finds a masked position exactly when there is one. |
| Lines.ParamTypeForLinePosition | crates/ourios-miner/src/cluster/plan.rs:79-93 | The type at a position: its mask's, or `Str`. |
| MinerAttach.WideningPositionsAre | crates/ourios-miner/src/cluster/plan.rs:610-640 | The positions to widen are exactly the literals the line does not share. |
| MinerAttach.WouldBeDegenerate | crates/ourios-miner/src/cluster/plan.rs:651-674 | The lockstep walk decides whether no literal would be left. |
| MinerAttach.CollectedReplay | crates/ourios-miner/src/cluster/plan.rs:228-278 | The collected expansions, replayed by the oracle, grow exactly the old slots by the line's types. |
| MinerAttach.AttachIsAccepted | crates/ourios-miner/src/cluster/plan.rs:430-587 | For every aligned leaf and every line, the events of an attach are a chain the oracle accepts from the leaf before to the leaf after. |
| MinerRows.BuildRecordParams | crates/ourios-miner/src/cluster/plan.rs:319-372 | The lockstep walk gives one parameter per wildcard, in order, with the line's own token and type, capped. |
| MinerRows.AttachAgrees | crates/ourios-miner/src/cluster/plan.rs:430-587 | After an attach that is not rejected the line shares every literal left, and its masked tokens sit at wildcards. |
| MinerRows.ReconstructFromTemplate | crates/ourios-miner/src/reconstruct.rs:107-149 | The walk interleaves the separators with the words of template and parameters. |
| MinerRows.RowRebuildsLine | crates/ourios-miner/src/reconstruct.rs:217-265 | A row renders back to its line, from the template unless a value overflowed, then from the body. |
| MinerRows.BuildFreshLeaf | crates/ourios-miner/src/cluster/mod.rs:1496-1613 | A fresh leaf has a wildcard with the line's type at every masked position and the token at every other. |
| MinerRows.FreshParams | crates/ourios-miner/src/cluster/plan.rs:32-40 | The line-ordered parameters of a fresh row are already aligned with its template. |
| MinerLeaf.UpdateSlotTypesOnWidening | crates/ourios-miner/src/cluster/plan.rs:178-214 | The single forward walk inserts each new slot where the opened cells have it. |
| MinerLeaf.CollectTypeExpansions | crates/ourios-miner/src/cluster/plan.rs:228-265 | The walk collects exactly the old slots that see a new type, in ordinal order. |
| MinerLeaf.Leaf.Attach | crates/ourios-miner/src/cluster/plan.rs:430-587 | The in-place attach takes the leaf to the state, and returns the plan, of the specification. |
| MinerRun.MineAccepted | crates/ourios-miner/src/cluster/mod.rs:818-1005 | Whatever the line and the routing: the audit oracle accepts the ingest, no leaf is lost, and every leaf stays aligned with its version bounded by its room. |
| MinerRun.MineRow | crates/ourios-miner/src/cluster/mod.rs:818-1005 | Every row is diverted with its line kept, or stamped with a leaf the line agrees with and renders to the line. |
| MinerRun.StaysHealthy | crates/ourios-miner/src/cluster/plan.rs:430-587 | Every accepted chain of known types takes from the room what it adds to the version, so a mined version never exceeds 8 n + 1. |
| MinerRun.MineKeepsLiterals | crates/ourios-miner/src/cluster/plan.rs:651-674 | No ingest takes a template's last literal. |
| MinerOutcomes.TemplatedIff | crates/ourios-miner/src/cluster/mod.rs:818-994 | A line gets a template if and only if it has no NUL, has tokens within the limit, and its decision mints a new id or attaches to a leaf of its length; an attach fails exactly when the leaf has a literal and the line shares none of them unmasked. |
| MinerOutcomes.MineMints | crates/ourios-miner/src/cluster/mod.rs:963-994 | A mint adds exactly one leaf, at version 1, with the masked types as slots and the other tokens as literals, reports its creation once with its text, and stamps the row with it. |
| MinerOutcomes.MineAttaches | crates/ourios-miner/src/cluster/plan.rs:430-587 | An attach changes that leaf alone: shared literals stay, other literals become slots for `Str` and the line's type, slots gain the line's type; one version and one event for the widening, one for the new types; the row is stamped with the result. |
| MinerOutcomes.MineDiverts | crates/ourios-miner/src/cluster/mod.rs:833-890 | A line without a template changes no leaf; its row keeps the line, its separators and the masked values in order; only an attach that would lose the last literal is reported, with what it would have lost. |
| MinerRoundtrip.TraceAccepted | fuzz/fuzz_targets/miner_roundtrip.rs:98-136 | Every run of the miner from no leaves is an accepted run. |
| MinerRoundtrip.LeavesStay | fuzz/fuzz_targets/miner_roundtrip.rs:98-136 | Over a run no leaf is lost and no template loses its last literal. |
| MinerRoundtrip.MinedWidens | fuzz/common/merge.rs:68-107 | Over a run every mined template only widens, and one version names one template. |
| MinerRoundtrip.TakenMonotone | fuzz/common/snapshots.rs:36-54 | Snapshots taken at any points of a run are in the version order. |
| MinerRoundtrip.RowPasses | fuzz/common/reconstruction.rs:24-67 | At the end of a run every row still passes against the snapshot of its own version, however far the leaf has widened since. |
| MinerRoundtrip.SnapshotsSound | fuzz/common/snapshots.rs:36-54 | At every point of the loop each snapshot is of a leaf as it once was, and every row so far has its snapshot. |
| MinerRoundtrip.EveryRunHolds | fuzz/fuzz_targets/miner_roundtrip.rs:88-137 | For every sequence of lines and routing decisions: every ingest is accounted for, every stamp names a leaf at its version, every row rebuilds its line and shares the literals of its version at the end, and the snapshots only widen. |
| MinerCluster.Miner.Ingest | crates/ourios-miner/src/cluster/mod.rs:818-1005 | On leaves as objects, one ingest changes the leaves, emits the events and the row of the specification, and touches no other leaf. |
| MinerCluster.IngestAll | fuzz/fuzz_targets/miner_roundtrip.rs:98-127 | The loop audits every ingest successfully and ends with every row and with the snapshots of the run. |
| MinerCluster.AuditIngest | fuzz/fuzz_targets/miner_roundtrip.rs:106-115 | Any ingest, whatever its leaves and events, is accepted exactly when its events account for every leaf. |
| MinerCluster.CheckRows | fuzz/fuzz_targets/miner_roundtrip.rs:130-135 | Any rows are accepted against any snapshots exactly when every one rebuilds its line and, unless diverted, shares the literals of its version. |
| MinerCluster.Roundtrip | fuzz/fuzz_targets/miner_roundtrip.rs:88-137 | The whole target reports no violation, for every sequence of lines and every routing, and none of its oracles is violated. |
| MarkedText.OccursAround | crates/ourios-bench/src/report.rs:462-522 | Around a marker, a marker occurs wholly before it, wholly after it, or is it. |
| MarkedText.RepeatsWhen | crates/ourios-bench/src/report.rs:462-469 | A second occurrence before or after makes the count exceed one. |
| ResultsBlocks.HeaderRoundTrip | crates/ourios-bench/src/report.rs:368-394 | A printed header parses back to its commit, hardware and date. |
| ResultsBlocks.HeaderIff | crates/ourios-bench/src/report.rs:368-394 | The only headers that are read are those that print. |
| ResultsBlocks.RowRoundTrip | crates/ourios-bench/src/report.rs:399-421 | A printed row of clean cells parses back to its gate and cells. |
| ResultsBlocks.BlockReads | crates/ourios-bench/src/report.rs:311-361 | Reading a printed block after anything gives the block back. |
| ResultsBlocks.HeaderOpens | crates/ourios-bench/src/report.rs:322-346 | A header puts the block before it away over any earlier one of its key, and opens one with its date and no rows. |
| ResultsBlocks.RowSets | crates/ourios-bench/src/report.rs:347-356 | A gate's row replaces that gate's row in the open block and touches nothing else. |
| ResultsBlocks.ProseIgnored | crates/ourios-bench/src/report.rs:322-357 | Lines that are neither headers nor gate rows are not read. |
| ResultsBlocks.FirstBadLine | crates/ourios-bench/src/report.rs:324-339 | A malformed header fails the reading, the first one by name. |
| ResultsBlocks.NoBadLine | crates/ourios-bench/src/report.rs:322-361 | Nothing else fails it. |
| ResultsClean.EndInHeader | crates/ourios-bench/src/report.rs:425-447 | A printed header holds the end marker exactly when one of its fields does. |
| ResultsClean.BlockSound | crates/ourios-bench/src/report.rs:425-447 | A clean block prints to lines without markers. |
| ResultsClean.LinesClean | crates/ourios-bench/src/report.rs:311-361 | Whatever is read from a region without markers can be printed again. |
| ResultsRows.A1Clean | crates/ourios-bench/src/report.rs:183-192 | The A1 row is clean for any numbers. |
| ResultsRows.C1Clean | crates/ourios-bench/src/report.rs:193-206 | The C1 row is clean for any numbers. |
| ResultsRows.C2Clean | crates/ourios-bench/src/report.rs:207-252 | The C2 row is clean for every consistent result. |
| ResultsRows.A1Says | crates/ourios-bench/src/report.rs:183-192 | Read word by word, the A1 row has the delta, our ratio and the baseline's in their places, the target, and PASS or FAIL by the outcome. |
| ResultsRows.C1Says | crates/ourios-bench/src/report.rs:193-206 | Read word by word, the C1 row has the rate, good over total and the lossy share in their places, and PASS or FAIL by the outcome. |
| ResultsRows.C2Says | crates/ourios-bench/src/report.rs:207-252 | Read word by word, the C2 row has the ratio and the count at a million lines, or why there is none; the final count reads back as its number; the verdict is PASS, FAIL or ABSTAIN by the outcome. |
| ResultsRegion.RegionRoundTrip | crates/ourios-bench/src/report.rs:311-447 | Printing clean blocks in key order and reading the region gives the blocks, and the text holds no marker. |
| ResultsRegion.BodyInOrder | crates/ourios-bench/src/report.rs:425-447 | The region holds the printouts of all the blocks, each once, by commit and then by machine. |
| ResultsRegion.SpliceShape | crates/ourios-bench/src/report.rs:462-522 | A splice succeeds only on one region with no marker elsewhere, or on none with the anchor. |
| ResultsRegion.SpliceOkIff | crates/ourios-bench/src/report.rs:462-522 | There is a place for the region exactly in a document with one region and no other marker, or with no marker and the anchor. |
| ResultsRegion.UpdateIs | crates/ourios-bench/src/report.rs:160-257 | When an update succeeds, and the text it writes. |
| ResultsRegion.RefusedBecause | crates/ourios-bench/src/report.rs:160-257 | Which error an update is refused with: the first reason in the order hardware field, commit field, region headers, timestamp, C2 numbers, markers. |
| ResultsRegion.UpdateStores | crates/ourios-bench/src/report.rs:160-257 | After a successful update the region reads back as the old blocks with the run merged in, unmeasured gates and other keys intact, and the text around it is as it was. |
| ResultsRegion.UpdateReads | crates/ourios-bench/src/report.rs:160-257 | After an update every other block reads as before; the run's block has its date, a row that reads as its result for each gate it measured, and its unmeasured gates intact. |
| ResultsRegion.UpdatePreserves | crates/ourios-bench/src/report.rs:462-522 | The text before and after an existing region, or the whole document when there was none, is kept. |
| ResultsRegion.GapIs | crates/ourios-bench/src/report.rs:495-513 | A first region is set off by a blank line, made of newlines only. |
| ResultsRegion.GapIsLeast | crates/ourios-bench/src/report.rs:495-513 | And of no more newlines than it takes. |
| ResultsRegion.UpdatesFold | crates/ourios-bench/src/report.rs:160-257 | Any sequence of acceptable storable runs goes into any updatable document and reads back as their merge in order. |
| ResultsRegion.UpdatesRead | crates/ourios-bench/src/report.rs:160-257 | After any sequence of updates each gate of each commit and machine reads as the last run that measured it, or as before them all. |
| ResultsRegion.UpdateIdempotent | crates/ourios-bench/src/report.rs:160-257 | Repeating an update changes no character. |
| ResultsRegion.UpdatesCommute | crates/ourios-bench/src/report.rs:160-257 | Updates for different commits or hardware give the same text in either order. |
| ResultsRegion.StoreSurvivesIff | crates/ourios-bench/src/report.rs:160-182 | After a successful update the document can be updated again exactly when neither header field holds the end marker. |
| ResultsRegion.RefusedForever | crates/ourios-bench/src/report.rs:462-469 | Otherwise every later update fails. |
| ResultsRegion.GuardAdmitsEndMarker | crates/ourios-bench/src/report.rs:268-278 | The header guard lets the end marker through. |
| ResultsRegion.MarkerLocksOut | crates/ourios-bench/src/report.rs:160-278 | Any acceptable run with the end marker for its hardware field goes into any updatable document, and every later update is refused. |
| ResultsRegion.LockedOutExists | crates/ourios-bench/src/report.rs:160-278 | Such a document and such a run exist: the anchor alone, and a run with no gates. |
| ResultsRegion.ReadRegion | crates/ourios-bench/src/report.rs:311-361 | The line loop reads what the fold over lines reads, or the same error. |
| ResultsRegion.RenderRegion | crates/ourios-bench/src/report.rs:425-447 | The appending loop prints the region in key order. |
| ResultsRegion.UpdateStatusSection | crates/ourios-bench/src/report.rs:160-257 | The whole update, errors in the source's order, computes the specified result. |
| Calendar.YearOfEraIs | crates/ourios-bench/src/lib.rs:466-480 | The divisions place every day of a 400-year era in its March-based year, the 366th day only in a leap year. |
| Calendar.CivilCounts | crates/ourios-bench/src/lib.rs:466-480 | Every day number converts to a valid date that counts back to it, negative numbers included. |
| Calendar.CivilInverts | crates/ourios-bench/src/lib.rs:466-480 | Every valid date is recovered from its day number. |
| Calendar.CivilSuccessor | crates/ourios-bench/src/lib.rs:466-480 | The next day number is the next date of the calendar. |
| Calendar.CastsExact | crates/ourios-bench/src/lib.rs:466-480 | With its casts, the conversion is right exactly from the first to the last day whose year fits 32 bits. |
| Calendar.SplitSeconds | crates/ourios-bench/src/lib.rs:438-442 | Day, hour, minute and second are in range and add up to the seconds since the epoch. |
| Timestamps.TimestampDated | crates/ourios-bench/src/lib.rs:443-447 | The timestamp opens with a date the results region accepts exactly in the years 0 to 9999. |
| Timestamps.TimestampDatedBefore | crates/ourios-bench/src/lib.rs:443-447 | While the year fits 32 bits, the timestamp is accepted exactly below 253402300800 seconds, the start of the year 10000. |
| Timestamps.TimestampDatedIff | crates/ourios-bench/src/lib.rs:443-447 | On every 64-bit number of seconds, it is accepted exactly on the days of the years 0 to 9999 and of their images 2^32 years apart. |
| Timestamps.TimestampReads | crates/ourios-bench/src/lib.rs:436-447 | Reading the fields of a timestamp as numbers gives the date of the day, the time in it and the milliseconds. |
| Corpus.IngestTxt | crates/ourios-bench/src/corpus.rs:411-441 | The text loop gives the records before the first unreadable line, that error, and the clock after all lines. |
| Corpus.IngestOtlpJsonl | crates/ourios-bench/src/corpus.rs:454-480 | The JSON loop gives the records before the first unreadable or unparseable line, and that error with its line number. |
| Corpus.Load | crates/ourios-bench/src/corpus.rs:142-165 | All the records in order, or the first error, or the empty-corpus error. |
| Corpus.CorpusStream.Next | crates/ourios-bench/src/corpus.rs:586-652 | Each call ends and yields exactly the next of the remaining items, errors in their places, and none only when nothing remains. |
| Corpus.Drain | crates/ourios-bench/src/corpus.rs:586-652 | Stopping at the first error yields exactly the records before it, and it. |
| Corpus.StreamLoad | crates/ourios-bench/src/corpus.rs:533-550 | Streaming gives exactly what the eager load gives, for every list of files. |
| Corpus.NthStamp | crates/ourios-bench/src/corpus.rs:246-268 | Across files, the n-th text record is stamped with the baseline plus n increments, saturating. |
| Corpus.ModeLabelsOnly | crates/ourios-bench/src/corpus.rs:246-268 | Reading levels out of lines changes severities and nothing else. |
| CorpusRecords.CorpusParts | crates/ourios-bench/src/corpus.rs:142-268 | The items are, in order, what each line of each file says: a blank text line nothing, any other one record with the line less its trailing carriage returns and the level of its first level word; a wire line its parsed records, or an error with its place counted from 1. |
| CorpusRecords.CorpusTexts | crates/ourios-bench/src/corpus.rs:243-268 | The text records are, in order, the bodies of the lines that are not blank. |
| CorpusRecords.SeverityIs | crates/ourios-bench/src/corpus.rs:226-258 | The severity is that of the first whole word that names a level, INFO when there is none. |
| CorpusRecords.StopsAt | crates/ourios-bench/src/corpus.rs:142-165 | A load gives exactly the records before the first error, and that error. |
| CorpusRecords.LoadedIs | crates/ourios-bench/src/corpus.rs:142-165 | A load fails with the first error, or because there is nothing at all; otherwise it gives every record. |
| Latency.StrideUnobservable | crates/ourios-bench/src/soak.rs:688 | The stand-in for a shift too far is never noticed. |
| Latency.SampledAt | crates/ourios-bench/src/soak.rs:651-656 | The k-th retained sample is the observation at k strides. |
| Latency.Halved | crates/ourios-bench/src/soak.rs:693-700 | Dropping every other retained sample leaves the sample of the doubled stride. |
| Latency.LatencyRecorder.WithCap | crates/ourios-bench/src/soak.rs:676-683 | A new recorder is empty, with a cap of at least two. |
| Latency.LatencyRecorder.Record | crates/ourios-bench/src/soak.rs:685-701 | After any number of calls the samples are those at multiples of 2^s, fewer than the cap, at least half of it once s > 0, and then 2^s is below twice the total. |
| Latency.NearestRank | crates/ourios-bench/src/soak.rs:634-640 | The smallest value that enough of the slice is at or below. |
| Latency.PercentileEnds | crates/ourios-bench/src/soak.rs:634-640 | Beyond the percentiles: zero for an empty slice or scale, the smallest value below the first rank, the largest above the last. |
| Latency.PercentileMonotone | crates/ourios-bench/src/soak.rs:634-640 | A higher percentile is never a lower value. |
| Convergence.CountIsDistinct | crates/ourios-bench/src/c2.rs:152-176 | The running count never exceeds the number of distinct templates, and equals it exactly when each first-seen id is above all earlier ones. |
| Convergence.CreatesIff | crates/ourios-bench/src/c2.rs:152-176 | A line creates a template exactly when it carries an id, above every id before it. |
| Convergence.CurveAscends | crates/ourios-bench/src/c2.rs:152-176 | Samples are in line order and counts never decrease. |
| Convergence.CurvePosition | crates/ourios-bench/src/c2.rs:152-176 | Sample k sits at k + 1 cadences, or at the last line. |
| Convergence.CurveCounts | crates/ourios-bench/src/c2.rs:152-176 | Each sample holds the template count as of its own line. |
| Convergence.CurveOfCorpus | crates/ourios-bench/src/c2.rs:125-137 | Over a whole corpus the curve has as many samples as cadences, rounded up, and at most 1024. |
| Convergence.CadenceIsLeast | crates/ourios-bench/src/c2.rs:125-137 | The cadence is the smallest that keeps a whole corpus within the budget. |
| Convergence.BucketsExact | crates/ourios-bench/src/c2.rs:183-222 | A bucket other than the shared one holds exactly its service's lines; a service without one came after the cap. |
| Convergence.ServicesBounded | crates/ourios-bench/src/c2.rs:183-222 | At most one bucket beyond the cap, and that one is the shared one. |
| Convergence.ServicesSnapshotted | crates/ourios-bench/src/c2.rs:183-222 | Each bucket has its snapshot exactly from its millionth line on, at most its final count. |
| Convergence.ServicesAddUp | crates/ourios-bench/src/c2.rs:183-222 | Lines per bucket add up to the lines processed, creations to the template count. |
| Convergence.TruncatedIff | crates/ourios-bench/src/c2.rs:183-222 | The truncation flag is up exactly when the log names more services than the cap; until then every service has its own bucket. |
| ServiceCounts.BucketCounts | crates/ourios-bench/src/c2.rs:183-222 | Every bucket holds the number of its lines, of the templates they created, and from its millionth line on of those its first million lines created. |
| ServiceCounts.ServiceCounted | crates/ourios-bench/src/c2.rs:183-222 | For a service with a bucket of its own, these are the lines of the log that name it. |
| ServiceCounts.GateJudgesLog | crates/ourios-bench/src/c2.rs:264-346 | From the log: the gate fails exactly when some bucket created fewer than half its templates in its first million lines, and abstains exactly when no bucket has a million. |
| ServiceCounts.NearestIsClose | crates/ourios-bench/src/c2.rs:245-256 | The sample that stands for the millionth line of a whole corpus is at most half a cadence away from it. |
| ServiceCounts.NearestIsEarlier | crates/ourios-bench/src/c2.rs:245-256 | Of two samples equally far from it, the earlier stands. |
| Convergence.C2Accumulator.Record | crates/ourios-bench/src/c2.rs:142-222 | After any number of records the counters, curve and buckets are those of the whole log. |
| Convergence.JudgedIs | crates/ourios-bench/src/c2.rs:264-297 | A bucket abstains below a million lines and otherwise passes exactly when at least half its templates were there by its millionth; the numbers reported are its own, and the ratio is their quotient. |
| Convergence.GatePass | crates/ourios-bench/src/c2.rs:335-346 | The fold fails exactly on a failing service and abstains exactly when all do. |
| Convergence.JudgeAll | crates/ourios-bench/src/c2.rs:264-302 | Every bucket is judged once, larger first, then by name. |
| Convergence.Finalize | crates/ourios-bench/src/c2.rs:231-318 | The result carries the curve, cadence and truncation flag of the log; the count at a million lines is that of the nearest sample, the earlier on a tie, and the ratio its share; no result is one the report refuses; the verdict speaks for exactly the services with a million lines; after exactly the announced lines the final count is the template count. |
| Comparative.Tally | crates/ourios-bench/src/comparative.rs:442-448 | Counts are those of the multiset, keys exactly the lines. |
| Comparative.DifferingKeys | crates/ourios-bench/src/comparative.rs:103-122 | Sort and dedup leave each key with differing counts exactly once, in order. |
| Comparative.TalliesPartition | crates/ourios-bench/src/comparative.rs:124-129 | The three tallies split the differing keys, so the subtraction cannot underflow. |
| Comparative.CompareLines | crates/ourios-bench/src/comparative.rs:95-153 | Equal exactly when the results are the same multiset; otherwise the tallies count the keys on one side alone and on both, and the examples are the first of all the differing lines in order, up to the cap. |
| Comparative.CompareAggregations | crates/ourios-bench/src/comparative.rs:158-193 | Equal exactly when every cell counts the same; otherwise the number of differing cells, and the first of all of them in order, up to the cap. |
| Comparative.PhantomCells | crates/ourios-bench/src/comparative.rs:219-237 | Exactly the cells of the other system alone, in order. |
| Comparative.AggregateByGroupKey | crates/ourios-bench/src/comparative.rs:243-251 | One pass gives each group key the sum of its cells. |
| Comparative.CompareWithinMargin | crates/ourios-bench/src/comparative.rs:311-439 | Accepted exactly when no cell is foreign, no group is over, and every group that is not exempt meets the margin; otherwise the first kind of fault, in that order, with how many are at fault and the first of them: cells in order, groups over by name, groups short by share. |
| Comparative.WithinMarginIff | crates/ourios-bench/src/comparative.rs:311-439 | Accepted exactly when there is no foreign cell, no group total above, and each total of two or more, every total at margin one, is captured up to the margin and a billionth. |
| Comparative.LowerMarginAccepts | crates/ourios-bench/src/comparative.rs:311-439 | Acceptance is preserved when the margin is lowered. |
| Comparative.MovesUnseen | crates/ourios-bench/src/comparative.rs:243-251 | Moving the other system's counts between buckets of one group does not change the verdict. |
| Comparative.MovesUnseenInOurios | crates/ourios-bench/src/comparative.rs:243-251 | Nor does moving Ourios's own counts. |
| Comparative.FullMarginIsExact | crates/ourios-bench/src/comparative.rs:158-193 | At margin one, on cell-wise undercounts, acceptance is the exact comparison together with no foreign cell. |
| Comparative.FullMarginAgreesIff | crates/ourios-bench/src/comparative.rs:158-237 | At margin one, on cell-wise undercounts, the two comparisons disagree exactly on equal counts with a foreign cell, and every foreign cell is then empty. |
| Comparative.EmptyPhantomDisagrees | crates/ourios-bench/src/comparative.rs:219-237 | A foreign cell that counts nothing separates the two comparisons. |

## Left out

- Similarity scoring, prefix routing and the template ceiling of the miner's tree: the routing of a line is an arbitrary decision, so every run the tree could take is covered; a decision the tree could not take is read as a divert.
- The masking rules themselves (UUID, address, timestamp and number shapes): an arbitrary classifier of whole tokens.
- Upstream templates (adoption, observation) and structured bodies: they take other paths through the miner.
- The overflow marker's digest: an arbitrary text in place of the value.
- The triggering line's hash and 256-byte sample in template events, and the time at which each event is emitted: one given time per ingest.
- MinerLeaf.Leaf.Attach: the audit text of a leaf is built from the same printed templates, but the leaf's provenance and upstream associations are not modelled; the row's parameters are built beside it, by MinerCluster.StampRow.
- Reading record bodies out of the fuzz input's bytes.
- Metrics, counters and shared, locked sinks: a sink is an append-only sequence.
- Number formatting in the results rows: any text of digits, points, signs and letters.
- The wording of comparison reports: summaries and example texts.
- Floating-point rounding: ratios and margins are exact reals.
- 64-bit overflow of line and template counters, sums and percentile products.
- Directory walking, decompression, JSON parsing and clock access: files are given as lines, parsing one JSON line as a function.
- WAL, Parquet, compaction, the querier, consensus and the receivers.
- Statistics and verdicts settled by a branch or two (`lgates.rs`, `confidence.rs`, configuration checks).
