# A verified model of the OREO document core

This project models the parts of the OREO CAD kernel that decide what a document *means* without touching
geometry, and proves properties of them for all inputs, all runs and all reachable states.

* **Feature-tree replay** (`ReplaySpec`, `TreeState`, `ReplayTheory`, `IncrementalReplay`, `IncrementalExact`,
  `ReplayShapes`, `ReplayMeaning`, `ReplayWitnesses`, `Namings`, `EditingLaws`, `FeatureTree`). Geometry is one uninterpreted deterministic
  executor. Full replay is refined to a cache-free recursion; when incremental replay is the same replay is stated
  exactly, after every run of edits.
* **Part studios and configurations** (`Config`, `PartStudio`, `PartStudioTheory`, `ConfigMeaning`, `Fingerprint`).
* **Three-way merge and conflict resolution** (`ParamJson`, `MergeSpec`, `MergeLaws`, `Merge`, `Resolutions`,
  `ResolutionTheory`, `MergeResolution`, `MergeOrder`, `MergeMeaning`, `ResolutionMeaning`).
* **Identity** (`TagAllocation`, `AllocatorTheory`, `AllocatorLaws`, `IdentityCodec`, `SharedRegistry`).
* **Schema registry** (`SchemaVersion`, `SchemaRegistry`, `SchemaTheory`, `SchemaLaws`).
* **Sketch slots** (`SketchSlots`, `SketchTheory`, `SketchDispatch`, `SketchLaws`).
* **Workspaces, parameter codecs and feature dispatch** (`ParamDecoding`, `WorkspaceJson`, `Workspaces`,
  `LoadingLaws`, `FeatureSchemas`, `AcceptedValues`, `KernelDispatch`).
* **Self-contained cores** (`Rng`, `Arena`, with `Arithmetic`), and `KnownValues`, which fixes constants and formats by known inputs.

Objects the source updates in place are classes whose methods are proved to perform the operations of a value-level
state (`FeatureTree.State`, `SketchSlots.OreoSketch.State`, ...); the theorems are about those operations and about
runs of them. C++ exceptions are the `Thrown` case of `Result`, or `None` where only failure matters. Doubles are
reals plus the infinities and NaN; machine integers are mathematical integers with wrap-around written out, or bit
vectors in the generator.

Every lemma carries `{:induction false}`: proofs by induction are the recursive calls that are written.

Where the code and its documentation disagree the code is followed:

* `docs/branching-merging.md:172-178` lets the merge adopt a reordering made on one side only; the code keeps base
  order and puts new features last (`MergeOrder.OursOrderIff` says exactly when the side's order comes out,
  `MergeOrder.ReorderNotAdopted` and `InsertionNotAdopted` show inputs where it does not).
* Rules 1 and 2 in the comment at `src/feature/merge.cpp:448-452` adopt a move that both sides agree on, or that only
  one made. The code below them keeps base order in both cases: `MergeOrder.AgreedOrderIff`, with an input in
  `AgreedMoveNotAdopted`, is the first, the lemmas just named are the second.
* `src/feature/part_studio.h:102-105` calls execute deterministic in tree, schema, configuration and document; a
  failed status stored in the tree survives into the next execute and is not executed again
  (`PartStudioTheory.ExecutePureIffNoneSticky`, `RunPureIff`; an input in `ExecuteSticks`).
* Incremental replay is described as equivalent to full replay; it is exactly under the condition of
  `IncrementalExact.AlwaysFullIffExact`. A removal or a move can leave a stale snapshot
  (`IncrementalReplay.RemoveThenReplayFrom`, `MoveThenReplayFrom`, `ReplayWitnesses.RemovalShiftsIdentity`), and a
  reference to a later feature can see its old result (`ReplayWitnesses.ForwardReferenceLeaks`).
* `src/capi/oreo_capi.cpp:148-150` promises entity ids that stay stable across edits. They do, but the solver is
  handed bare positions and reads them in tables of its own choice: the radius and diameter of circles and arcs
  and the plain tangency can act on another entity than the one named, or on none. `SketchDispatch.ConstraintActsIff`
  and the lemmas per kind say exactly when; `AddedCircleTakesOver`, `LineTakesOver` and `TangencyDropped` are inputs.
* `src/sketch/oreo_sketch.cpp:167-173` says that checking indices up front keeps constraints from being silently
  dropped by the dispatch. That holds of every kind but the plain tangency, and `SketchDispatch.DroppedIff` says
  exactly when one of those is dropped, `SolveDropsIff` in terms of the stored slots; `TangencyDropped` is an input.
* `src/feature/param_json.cpp:280-288` means to refuse integers outside an int; unsigned ones just below 2^64 wrap
  around to negative ones and are taken (`ParamDecoding.StrictIntegerIff`).

Run `dafny verify dfyconfig.toml` to verify the whole project.

## Model

| member | source | states |
|---|---|---|
| `FeatureTrees.FeatureTree.AddFeature` | src/feature/feature_tree.cpp:38-54 | appends a feature with a new id and marks it dirty, refuses a known id; one-to-one ids and mirrors confined to the tree's ids are kept |
| `FeatureTrees.FeatureTree.InsertFeature` | src/feature/feature_tree.cpp:56-68 | inserts at the clamped index and marks everything from there dirty |
| `FeatureTrees.FeatureTree.RemoveFeature` | src/feature/feature_tree.cpp:70-79 | drops the feature with its cache, dirty and snapshot entries and marks the rest dirty; the snapshots of later features stay |
| `FeatureTrees.FeatureTree.MoveFeature` | src/feature/feature_tree.cpp:97-113 | moves to the clamped index and marks dirty from the smaller of the two; all snapshots stay |
| `FeatureTrees.FeatureTree.RetargetReferences` | src/feature/feature_tree.cpp:115-145 | rewrites the list and its marks as EditingLaws.RetargetMeans and RetargetMarks tell, and returns the number of places, by feature, parameter and list position, that named the old id |
| `FeatureTrees.FeatureTree.ResolveReference` | src/feature/feature_tree.cpp:626-720 | the lookup on the fields of the object; what it answers is ReplayMeaning.ResolvedIff |
| `FeatureTrees.FeatureTree.ReplayOne` | src/feature/feature_tree.cpp:218-300 | one turn of the replay loop: snapshot, cache hit, transformer refusal, execution, acceptance rule, cache and dirty updates |
| `FeatureTrees.FeatureTree.ReplayFromId` | src/feature/feature_tree.cpp:171-305 | the whole incremental replay on the fields of the object, counter restore and resume search included |
| `FeatureTrees.FeatureTree.ReplayAll` | src/feature/feature_tree.cpp:155-169 | full replay: everything dirty, cache and snapshots dropped, counter reset |
| `FeatureTrees.FeatureTree.ReplayUpToRollback` | src/feature/feature_tree.cpp:314-321 | replay, then the shape at the marker when it is in range |
| `FeatureTrees.FeatureTree.GetFinalShape` | src/feature/feature_tree.cpp:329-339 | the last non-null cached shape |
| `FeatureTrees.FeatureTree.RollbackToFeature` | src/feature/feature_tree.cpp:341-353 | the last non-null cached shape before the feature, null for the first or an unknown one |
| `ReplaySpec.OutcomesPrefix` | src/feature/feature_tree.cpp:218-300 | the simple form: what a replay records for the first i features is what those features alone record |
| `ReplayTheory.LoopReaches` | src/feature/feature_tree.cpp:218-300 | from every boundary that agrees with the simple recursion, the caching loop records exactly what the recursion says, up to the first feature that resolves a reference against a leftover result |
| `ReplayTheory.ReplayIsRecursion` | src/feature/feature_tree.cpp:155-169 | full replay equals the cache-free recursion over the feature list, whatever cache, marks, snapshots, statuses and counter came before |
| `IncrementalExact.AlwaysFullIffExact` | src/feature/feature_tree.cpp:171-305 | after a clean prefix, replayFrom gives the whole state, shapes and counter of a full replay, for every kernel with the same full replay, if and only if the cache is dropped, or counting starts at zero or at the snapshot full replay reaches and no remaining reference resolves against the leftover result of a feature not yet replayed |
| `IncrementalExact.ExactSuffices` | src/feature/feature_tree.cpp:171-305 | under that condition the two replays are equal, the tree left behind and the shape returned |
| `IncrementalReplay.ApplySound` | src/feature/feature_tree.cpp:38-145 | every edit except removal and move, and both kinds of replay, keep the tree settled up to its first dirty feature with a fresh snapshot there |
| `IncrementalExact.ApplySettles` | src/feature/feature_tree.cpp:38-145 | every edit, removal and move included, and every full replay keep the features before the first dirty one settled |
| `IncrementalExact.RunSettles` | src/feature/feature_tree.cpp:38-305 | that holds after every run of edits and replays, refreshing only where the condition above holds |
| `IncrementalExact.AfterEveryRun` | src/feature/feature_tree.cpp:171-305 | after any such run from the empty tree, replayFrom at the first dirty feature is full replay if and only if the condition holds there; with references to earlier features only, if and only if it starts over or finds the boundary reached after the clean features |
| `IncrementalReplay.IncrementalEqualsFull` | src/feature/feature_tree.cpp:171-305 | after every run of adds, inserts, parameter and suppression edits, retargets and replays, incremental replay from the first dirty feature equals full replay, identities and recorded boundaries included |
| `IncrementalReplay.RemoveThenReplayFrom` | src/feature/feature_tree.cpp:70-79 | after the removal of any feature, incremental replay from the first dirty one equals full replay if and only if that one stands first, has no snapshot, or has the one reached after the settled features before it |
| `IncrementalReplay.RemoveSettledThenReplayFrom` | src/feature/feature_tree.cpp:70-79 | among settled features that is the case exactly when the removed feature was the first or took no identities |
| `IncrementalReplay.MoveThenReplayFrom` | src/feature/feature_tree.cpp:97-113 | the same after any move: the feature now at the first dirty place keeps the snapshot it had |
| `IncrementalReplay.MoveSettledThenReplayFrom` | src/feature/feature_tree.cpp:97-113 | among settled features that is the case exactly when the smaller index is 0 or the kept snapshot happens to be the counter full replay reaches there |
| `ReplayWitnesses.RemovalShiftsIdentity` | src/feature/feature_tree.cpp:70-79 | a three-feature tree on which removal followed by incremental replay assigns another identity than full replay |
| `ReplayWitnesses.ForwardReferenceLeaks` | src/feature/feature_tree.cpp:626-650 | a reference to a later feature resolves against its stale cache entry in incremental replay and not at all in full replay |
| `ReplayShapes.ReplayForgetsHistory` | src/feature/feature_tree.cpp:155-169 | two trees with the same contents and document replay to the same shapes, statuses, snapshots and counter, whatever was recorded in them before |
| `ReplayShapes.PrefixReplay` | src/feature/feature_tree.cpp:155-169 | the first i features of a full replay hold exactly what replaying them alone gives; the result is the shape found by looking back from i |
| `ReplayShapes.FinalShapeIsResult` | src/feature/feature_tree.cpp:329-339 | after a replay getFinalShape is the shape the replay returned |
| `ReplayShapes.RollbackToIsPrefix` | src/feature/feature_tree.cpp:341-353 | after a replay rollbackTo is the replay of the features before the one named |
| `ReplayShapes.RollbackIsPrefix` | src/feature/feature_tree.cpp:314-321 | replayToRollback is the replay of the features up to and including the marker |
| `PartStudios.PartStudio.ExecuteConfig` | src/feature/part_studio.cpp:136-191 | execute on the live tree: outputs and tree left are those of ConfigMeaning.ExecuteReports and ExecutedFeature, and the transformer is gone after a rejected configuration and after a replay |
| `PartStudioTheory.ExecuteIsPure` | src/feature/part_studio.cpp:136-191 | trees with the same contents and document and no sticky failed status give the same outputs, caches and identities |
| `PartStudioTheory.ExecutePureIffNoneSticky` | src/feature/part_studio.cpp:136-191 | execute forgets recorded statuses, for every geometry kernel, if and only if no unsuppressed feature enters with a failed status while its placeholders all resolve |
| `PartStudioTheory.StickyStaysBroken` | src/feature/feature_tree.cpp:253-266 | a feature that entered with such a status is reported broken again without being executed |
| `PartStudioTheory.StickyAfterIff` | src/feature/part_studio.cpp:136-191 | after an execute a feature carries such a status exactly when it is reported broken although its placeholders all resolve |
| `PartStudioTheory.RunPureIff` | src/feature/part_studio.cpp:136-191 | after any run of executes the next one gives, for every geometry kernel, what it gives on the tree never executed, if and only if every feature last reported broken lacks an input |
| `PartStudioTheory.RunsStayPure` | src/feature/part_studio.cpp:136-191 | after any run of executes whose broken features all lack an input, the next execute gives what it would have given first |
| `PartStudioTheory.ExecuteSticks` | src/feature/part_studio.cpp:136-191 | a tree, a kernel and two configurations: fresh, the second one succeeds; after executing the first, it is reported broken |
| `PartStudioTheory.ExecuteKeepsContent` | src/feature/part_studio.cpp:136-191 | stored ids, types, parameters and suppression never change |
| `Config.ConfigSchema.AddInput` | src/feature/config.cpp:123-152 | accepts exactly new non-empty names of a legal type with a fitting default, so every schema so built is well formed |
| `Config.ConfigValue.Set` | src/feature/config.cpp:286-302 | stores a value exactly when the schema declares the name and the value fits; a valid configuration stays valid |
| `Config.ConfigValue.FillDefaults` | src/feature/config.cpp:272-278 | binds every input to its default, which is a valid configuration |
| `Config.ValidateConfig` | src/feature/config.cpp:335-362 | succeeds if and only if every bound value of a declared input fits it |
| `Config.ResolveConfigRefs` | src/feature/config.cpp:366-394 | the loop in key order computes the substitution of ConfigMeaning.ResolvedMeans and StoppedMeans |
| `Config.ResolvedIsConcrete` | src/feature/config.cpp:366-394 | a substitution that is not broken leaves no placeholder, keeps every name and puts in the configured value of the input, or its default, which fits it |
| `Fingerprints.StreamDeterminesInputs` | src/feature/config.cpp:171-268 | the hashed bytes are self-delimiting: for inputs whose doubles are IEEE 754 doubles, equal streams mean equal inputs up to descriptions and plane x-directions, and conversely |
| `Fingerprints.FaithfulExists` | src/feature/config.cpp:184-189 | there is a choice of 64-bit words from which every double is read back, which is all the stream assumes of them |
| `Fingerprints.WholeNumbersAreDoubles` | src/feature/config.cpp:184-189 | every whole number below 2^53, with either sign, is one of those doubles |
| `Fingerprints.StepInjective` | src/feature/config.cpp:174-180 | an FNV step is injective in the hash for a fixed byte and in the byte for a fixed hash |
| `Fingerprints.OneByteDiffers` | src/feature/config.cpp:174-180 | streams of equal length differing in exactly one byte hash differently |
| `Fingerprints.ToggledDefaultDiffers` | src/feature/config.cpp:254-268 | schemas that differ in one boolean default have different fingerprints |
| `Fingerprints.ComputeFingerprint` | src/feature/config.cpp:254-268 | the updates in the source's order compute the hash of that stream |
| `ParamJson.ValueEqualsIsCanonical` | src/feature/merge.cpp:36-38 | JSON equality of parameter values is equality of canonical forms, except that a value with NaN equals nothing |
| `MergeLaws.FeatureIsDiff3` | src/feature/merge.cpp:331-442 | for a feature present on all sides, type, suppression and each parameter hold the diff3 value without a conflict, or the base value with one |
| `MergeLaws.SuppressionClashIsNew` | src/feature/merge.cpp:255-312 | a suppression conflict can only concern a feature absent from base and added on both sides |
| `MergeLaws.ConflictsMirror` | src/feature/merge.cpp:240-442 | swapping the sides mirrors the content conflicts of every base id |
| `MergeLaws.ResultsMirror` | src/feature/merge.cpp:240-442 | swapping the sides leaves the content of every base id unchanged up to canonical encoding |
| `MergeLaws.DroppedIff` | src/feature/merge.cpp:331-366 | a base id disappears exactly when both sides removed it, or one removed it and the other left its content equal to base |
| `MergeLaws.NewAlwaysKept` | src/feature/merge.cpp:255-312 | an added id always survives, with the content of ours where ours has it |
| `MergeLaws.MergedListCharacterised` | src/feature/merge.cpp:445-546 | for unique ids the merged list is the retained base ids in base order, the new ids of ours in their order, then the remaining new ids of theirs in theirs |
| `MergeOrder.OursOrderIff` | src/feature/merge.cpp:445-546 | merge(b, o, b) lists the features as o does if and only if o keeps the order of base, has its new features last, and what it removed carries no NaN |
| `MergeOrder.TheirsOrderIff` | src/feature/merge.cpp:445-546 | the same for merge(b, b, t) |
| `MergeOrder.AgreedOrderIff` | src/feature/merge.cpp:445-546 | merge(b, x, x) lists the features as x does if and only if x keeps the order of base and has its new features last |
| `MergeOrder.ReorderNotAdopted` | src/feature/merge.cpp:445-546 | two features swapped on one side only come out in base order |
| `MergeOrder.AgreedMoveNotAdopted` | src/feature/merge.cpp:445-546 | two features swapped on both sides alike come out in base order too, without a conflict |
| `MergeOrder.InsertionNotAdopted` | src/feature/merge.cpp:445-546 | a feature inserted in front on one side only comes out last |
| `MergeLaws.NothingRefused` | src/feature/merge.cpp:531-546 | the tree refuses none of the merged features, and each carries the result decided for its id |
| `MergeLaws.OneSidedReorderNeverClashes` | src/feature/merge.cpp:463-507 | no position conflict arises when at most one side reorders shared features and no add/remove conflict is recorded |
| `MergeLaws.DisjointEditsMergeCleanly` | src/feature/merge.cpp:200-548 | edits of disjoint facets with at most one side reordering report no conflict at all |
| `MergeLaws.OnlyOursChanged` | src/feature/merge.cpp:200-548 | merge(b, o, b) reports nothing and yields exactly o by id |
| `MergeLaws.OnlyTheirsChanged` | src/feature/merge.cpp:200-548 | merge(b, b, t) reports nothing and yields exactly t by id |
| `MergeLaws.BothChangedAlike` | src/feature/merge.cpp:200-548 | merge(b, x, x) reports nothing and yields exactly x by id |
| `Merging.IndexById` | src/feature/merge.cpp:57-65 | maps every id to its last position |
| `Merging.MergeParameters` | src/feature/merge.cpp:128-181 | the parameter loop merges every name of the three sides and records exactly the clashes, each once |
| `Merging.JudgeFeature` | src/feature/merge.cpp:240-442 | decides one id and records exactly its content conflicts, each once; which these are is told by the five lemmas of MergeMeaning on one id |
| `Merging.PositionConflicts` | src/feature/merge.cpp:463-507 | the ordering pass records exactly the retained ids both sides moved to different places |
| `Merging.ThreeWayMerge` | src/feature/merge.cpp:200-548 | all three passes: the fresh tree holds the merged features and the conflict list is exactly the reported conflicts, each once |
| `Resolutions.ApplyResolutions` | src/feature/merge.cpp:552-755 | the loop over conflicts, with the last resolution per key, structural edits at the hint, and bad-variant exits |
| `ResolutionTheory.ApplyIsResolveAll` | src/feature/merge.cpp:552-755 | on the conflicts of a merge, editing the list conflict by conflict equals deciding every feature independently |
| `ResolutionTheory.ThrowsIffIllKinded` | src/feature/merge.cpp:604-633 | the call throws if and only if a custom value of the wrong kind answers a suppression or type conflict |
| `ResolutionTheory.OrderIrrelevant` | src/feature/merge.cpp:577-755 | the outcome does not depend on the order in which conflicts were recorded |
| `ResolutionTheory.IdsAfter` | src/feature/merge.cpp:552-755 | ids stay pairwise distinct and survivors keep merged order; gone are exactly the features whose removal was chosen |
| `ResolutionTheory.OnlyNamedFacetsChange` | src/feature/merge.cpp:590-633 | a surviving feature changes only in facets named by an answered conflict |
| `MergeResolution.OneConflictPerKey` | src/feature/merge.cpp:240-507 | a merge reports at most one conflict per kind, feature and parameter |
| `MergeResolution.MergeConflictsAreOwn` | src/feature/merge.cpp:200-548 | the conflicts a merge reports, in any order, meet every assumption of the resolution results |
| `MergeResolution.ChosenSideTaken` | src/feature/merge.cpp:590-745 | choosing ours, theirs or base puts in that side's feature or absence, type, suppression, and parameter when it still has it; otherwise the empty string |
| `MergeResolution.ApplyToNewTree` | src/capi/oreo_capi.cpp:4578-4613 | the C API loop yields a tree with exactly the resolved features; on a merge's own conflicts it returns null only when the resolution throws |
| `TagAllocation.DocumentRegistry.RegisterDocumentId` | src/core/tag_allocator.h:287-304 | admits a document exactly when no other document shares its low 32 bits |
| `TagAllocation.TagAllocator.NextShapeIdentity` | src/core/tag_allocator.h:127-135 | advances the counter, wrap-around included, and throws from the overflow state |
| `TagAllocation.TagAllocator.AllocateRangeV2` | src/core/tag_allocator.h:149-165 | reserves n counters, or throws on a non-positive n or past INT64_MAX |
| `TagAllocation.TagAllocator.RestoreV2` | src/core/tag_allocator.h:343-361 | refuses to go back unless forced and refuses counters above INT64_MAX |
| `AllocatorTheory.IssuedDistinct` | src/core/tag_allocator.h:127-165 | in every interleaving of allocation, seeding, document changes, snapshots and unforced restores before the first overflow, issued identities are pairwise distinct with counters in 1..INT64_MAX |
| `AllocatorTheory.OverflowAllowsReissue` | src/core/tag_allocator.h:127-135 | a run through an overflow error that issues the same identity twice |
| `SharedRegistry.ScalarsAcrossAllocators` | src/core/tag_allocator.h:272-304 | in every interleaving of several allocators over one registry, before an overflow, two issued identities have equal 64-bit scalars exactly when they are the same issue or two allocators counted alike under one document |
| `SharedRegistry.NoScalarTwice` | src/core/tag_allocator.h:272-304 | where operations on different allocators never name the same document, no run before an overflow issues a scalar twice, by whichever allocators |
| `SharedRegistry.SharedDocumentRepeats` | src/core/tag_allocator.h:272-304 | two allocators given the same document issue the same identity |
| `AllocatorTheory.RefusedIffCollides` | src/core/tag_allocator.h:287-304 | a registration is refused if and only if another admitted document has the same low 32 bits |
| `AllocatorTheory.AdmittedStays` | src/core/tag_allocator.h:287-304 | an admitted document stays admitted through every run of registrations |
| `AllocatorTheory.TagsStableAndInjective` | src/core/tag_allocator.h:465-485 | converted identities keep their 32-bit tag, and equal tags mean equal identities |
| `IdentityCodec.ScalarRoundTrip` | src/core/shape_identity_v1.cpp:65-162 | decoding a scalar with the identity's own document gives it back, without a warning, if and only if the counter is in 1..UINT32_MAX |
| `IdentityCodec.ReencodeIff` | src/core/shape_identity_v1.cpp:110-162 | encoding what was decoded gives the scalar back if and only if its counter is not zero and no document was added to a single-document scalar |
| `IdentityCodec.ScalarsEqualIff` | src/core/shape_identity_v1.cpp:65-108 | scalars of multi-document identities are equal exactly when counters and low document halves are |
| `IdentityCodec.EncodeInjectiveWhereAdmitted` | src/core/shape_identity_v1.cpp:65-108 | among documents the registry has admitted, different identities have different scalars |
| `IdentityCodec.HexRoundTrip` | src/core/shape_identity.h:51-86 | every 128-bit identity is read back from its hexadecimal form |
| `IdentityCodec.HexIsCanonical` | src/core/shape_identity.h:64-86 | a text that parses is, up to case, the hexadecimal form of what it parses to |
| `IdentityCodec.ParseIdentity` | src/core/shape_identity.h:64-86 | the digit loops compute that parse, malformed texts included |
| `IdentityCodec.OneWarningPerScope` | src/core/shape_identity_v1.cpp:33-61 | in every bracketed run a warning is permitted exactly when no scope is open or none was asked for before in the outermost one now open |
| `IdentityCodec.DowngradeDedup.DecodeV1Scalar` | src/core/shape_identity_v1.cpp:110-162 | the decoder asks for permission to warn exactly in the lossy case with a listener |
| `SchemaVersions.VersionRoundTrip` | src/core/schema.cpp:16-71 | a version is read back from its text if and only if no part of it is negative |
| `SchemaVersions.ParseVersion` | src/core/schema.cpp:16-71 | the segment loop accepts exactly three non-empty digit segments within INT_MAX |
| `SchemaVersions.ComposeKeyInjective` | src/core/schema.h:267-269 | no two (type, version) pairs share a key, although type names may contain the separator |
| `SchemaRegistries.SchemaRegistry.RegisterMigration` | src/core/schema.cpp:135-163 | refuses a frozen registry and a second migration from the same version; the hashed maps keep answering as a scan of the registrations would |
| `SchemaRegistries.SchemaRegistry.UnregisterMigration` | src/core/schema.cpp:369-384 | removes the registration and its map entries together, which keeps map and scan in agreement |
| `SchemaRegistries.SchemaRegistry.CanLoad` | src/core/schema.cpp:252-274 | the loop over the hashed maps computes the walk defined on the registrations |
| `SchemaRegistries.SchemaRegistry.Migrate` | src/core/schema.cpp:165-250 | header checks, walk and stamping, with every error exit, and the kernel version remembered from the header |
| `SchemaTheory.CanLoadIffReachable` | src/core/schema.cpp:252-274 | canLoad holds if and only if the version is compatible or a chain of at most maxSteps migrations leads to the current one: the cycle check never refuses a chain that would arrive |
| `SchemaTheory.MigrateIffCanLoad` | src/core/schema.cpp:165-274 | with migrators that do not throw, migrate succeeds if and only if canLoad holds and the document is not of a later major |
| `SchemaTheory.CapIrrelevant` | src/core/schema.cpp:200-241 | every step cap of at least the number of migrations gives the same answer |
| `SchemaTheory.StepLimitIff` | src/core/schema.cpp:205-247 | the step limit is reported exactly when the first maxSteps chain links exist, start from different versions and miss the current one |
| `SchemaTheory.StepLimitUnreachable` | src/core/schema.cpp:205-247 | a step cap above the number of migrations is never the reason for a failure |
| `SchemaTheory.StepLimitAtTheBound` | src/core/schema.cpp:205-247 | at the number of migrations itself the step-limit error still occurs |
| `SchemaTheory.MigratedIsCurrent` | src/core/schema.cpp:205-250 | with migrators that keep the header, a successful migrate returns compatible documents untouched and all others stamped with the current version |
| `Rng.MixBijective` | src/core/rng.h:33-38 | the splitmix64 mix is a bijection on 64-bit words, with its inverse exhibited |
| `Rng.GuardNeverTaken` | src/core/rng.h:50-62 | for every seed the four state words are pairwise different, so the all-zero guard is never taken |
| `Rng.StepBijective` | src/core/rng.h:65-78 | the xoshiro step is a bijection on 256-bit states, with its inverse exhibited |
| `Rng.NeverZero` | src/core/rng.h:50-78 | from every seed no number of draws reaches the all-zero state |
| `Rng.StreamsNeverMerge` | src/core/rng.h:50-78 | generators with different seeds are in different states after any number of draws |
| `Rng.DeterministicRng.Reseed` | src/core/rng.h:50-62 | the state array after seeding is the start of the seed's stream |
| `Rng.DeterministicRng.Next` | src/core/rng.h:65-78 | the in-place word updates perform the step, and the result is the scrambled second word before it |
| `Arenas.PowerOfTwoTest` | src/core/memory_pool.h:80-83 | x & (x - 1) is zero exactly for powers of two |
| `Arenas.AlignedRoundsUp` | src/core/memory_pool.h:88-91 | the mask formula rounds up to the next multiple of the alignment, so padding is below the alignment |
| `Arenas.AllocateSound` | src/core/memory_pool.h:77-107 | one allocation keeps blocks and regions disjoint, returns an aligned region inside one block, and the slow path fits |
| `Arenas.RunSound` | src/core/memory_pool.h:48-118 | through every run without size overflow, regions are disjoint, inside one block, aligned as asked, and totalAllocated is the sum of their sizes |
| `Arenas.ArenaObject.AllocateBytes` | src/core/memory_pool.h:77-107 | fast and slow path on the block list, with wrap-around written out |
| `SketchSlots.CompactFamily` | src/capi/oreo_capi.cpp:237-248 | one pass yields the live values and both index maps |
| `SketchSlots.Bijection` | src/capi/oreo_capi.cpp:237-248 | live ids ascend through the view and the two index maps are inverse to each other |
| `SketchSlots.OreoSketch.CascadeConstraints` | src/capi/oreo_capi.cpp:313-339 | removes exactly the constraints that may mean the removed entity |
| `SketchSlots.OreoSketch.RemoveLine` | src/capi/oreo_capi.cpp:2485-2525 | tombstones a live line and cascades, refuses dead or unknown ids |
| `SketchSlots.OreoSketch.SolveSketch` | src/capi/oreo_capi.cpp:345-411 | compaction, translation, write-back and remapping of reported constraints |
| `SketchTheory.IdsNeverReused` | src/capi/oreo_capi.cpp:2330-2404 | through every run the ids issued in one table strictly increase, whatever is removed in between |
| `SketchTheory.RunKeepsIds` | src/capi/oreo_capi.cpp:2330-2493 | no slot is ever taken away and no removed entry comes back |
| `SketchTheory.RunKeepsResolvable` | src/capi/oreo_capi.cpp:313-339 | constraints added on live entities stay resolvable through every run |
| `SketchTheory.NothingSkipped` | src/capi/oreo_capi.cpp:345-366 | then a solve skips no live constraint |
| `SketchTheory.TranslatesIffResolvable` | src/capi/oreo_capi.cpp:262-309 | a constraint is passed to the solver exactly when every entity it uses is alive |
| `SketchTheory.TranslatedAccepted` | src/capi/oreo_capi.cpp:293-309 | what is passed satisfies the solver's own index check; each position is that of the id written down, in a family allowed there |
| `SketchTheory.SolveTouchesLive` | src/capi/oreo_capi.cpp:376-388 | a solve leaves removed slots alone, and the view afterwards is what the solver returned |
| `SketchTheory.ReportsLiveIds` | src/capi/oreo_capi.cpp:389-397 | distinct in-range positions reported by the solver become distinct ids of live constraints |
| `SketchDispatch.ConstraintActsIff` | src/sketch/oreo_sketch.cpp:299-585 | the solver acts on exactly the entities that were meant if and only if, for each, the family resolved first ranks the id alike and no table the dispatch tries before its own is long enough |
| `SketchDispatch.SingleFamiliesAct` | src/sketch/oreo_sketch.cpp:299-585 | with one family per position it always does |
| `SketchDispatch.PassedActs` | src/capi/oreo_capi.cpp:345-366 | what a solve passes on with one family per position acts on the live entities whose ids were written down |
| `SketchDispatch.RadiusOfCircle` | src/sketch/oreo_sketch.cpp:409-417 | the radius of a circle is always taken of that circle |
| `SketchDispatch.RadiusOfArc` | src/sketch/oreo_sketch.cpp:409-417 | the radius of an arc is taken of that arc exactly when no circle of its id is alive and it ranks beyond all circles |
| `SketchDispatch.DiameterOfCircle` | src/sketch/oreo_sketch.cpp:557-566 | the diameter of a circle is taken of that circle exactly when it ranks beyond all arcs |
| `SketchDispatch.DiameterOfArc` | src/sketch/oreo_sketch.cpp:557-566 | the diameter of an arc is taken of that arc exactly when a live circle of its id, if any, ranks alike |
| `SketchDispatch.TangentFirst` | src/sketch/oreo_sketch.cpp:419-426 | the first entity of a tangency is read as a line: the line named, and never a circle or an arc |
| `SketchDispatch.TangentSecond` | src/sketch/oreo_sketch.cpp:419-426 | the second is read as a circle: the one named exactly when a live line of its id, if any, ranks alike |
| `SketchDispatch.DroppedIff` | src/sketch/oreo_sketch.cpp:167-173 | a constraint that passes the index check is dropped by the dispatch exactly when it is a plain tangency whose first index is beyond the lines or whose second is beyond the circles |
| `SketchDispatch.SolveDropsIff` | src/capi/oreo_capi.cpp:345-366 | of the constraints a solve passes on, the ones dropped are the plain tangencies whose first reference ranks, where it is first alive, beyond all lines or whose second beyond all circles |
| `SketchDispatch.AddedCircleTakesOver` | src/sketch/oreo_sketch.cpp:409-417 | a stored radius of arc 1 that is taken of arc 1 until a circle is added, and of that circle afterwards |
| `SketchDispatch.LineTakesOver` | src/sketch/oreo_sketch.cpp:419-426 | a stored tangency of circles 0 and 1 that makes line 1 tangent to circle 0 |
| `SketchDispatch.TangencyDropped` | src/sketch/oreo_sketch.cpp:419-426 | a stored tangency of two live circles that passes the index check and is then dropped |
| `ParamDecoding.StrictRoundTrip` | src/feature/param_json.cpp:237-412 | the strict decoder gives a written value back if and only if it is storable in that slot: the declared type, finite, a unit direction, named references, or a named placeholder in any slot |
| `ParamDecoding.LenientRoundTrip` | src/feature/param_json.cpp:86-171 | the lenient decoder loses exactly empty reference lists, wide integers and what the geometry library rewrites |
| `ParamDecoding.StrictIntegerIff` | src/feature/param_json.cpp:275-289 | of the integers JSON can hold the strict decoder accepts those of an int and, as negative ones, those within 2^31 of 2^64 |
| `WorkspaceJson.FeaturesRoundTrip` | src/feature/workspace.cpp:24-106 | a feature list is read back if and only if its ids are unique and non-empty, its types non-empty and its parameters storable |
| `WorkspaceJson.WorkspaceRoundTrip` | src/feature/workspace.cpp:143-259 | reading what was written restores name, parent, features, base snapshot and both rollback indices if and only if the workspace is restorable |
| `WorkspaceJson.ForkRestorable` | src/feature/workspace.cpp:115-139 | every fork of a restorable workspace is restored too, and holds its parent's features and rollback as content and as base |
| `Workspaces.Workspace.ForkAs` | src/feature/workspace.cpp:115-139 | the child is a new object with a tree of its own that took every feature; the parent is untouched |
| `Workspaces.Workspace.FromJson` | src/feature/workspace.cpp:159-259 | null exactly where loading fails, else a fresh workspace with the decoded content |
| `Workspaces.UntouchedForkMergesBack` | src/feature/workspace.cpp:115-139 | merging an unedited fork back yields exactly the parent's later state, without conflicts |
| `FeatureSchemas.ValidateFeature` | src/feature/feature_schema.cpp:434-639 | accepts exactly the features whose required parameters are present and all declared ones meet their specification; a refused feature is marked failed and otherwise unchanged |
| `FeatureSchemas.SameNames` | src/feature/feature.cpp:104-418 | registry and dispatch know the same type names |
| `FeatureSchemas.GetsDeclared` | src/feature/feature.cpp:104-418 | each typed read of a branch is of a parameter its schema requires with that type |
| `FeatureSchemas.DispatchIsTypeSafe` | src/feature/feature.cpp:98-433 | for every accepted feature the missing-parameter, wrong-type, unknown-type and empty-input exits are unreachable; only too few loft profiles, an unresolved reference or geometry remain |
| `FeatureSchemas.StatusDiscipline` | src/feature/feature.cpp:76-434 | a shape comes out exactly when the status left is OK or Suppressed, and a failed status otherwise |
| `FeatureSchemas.ExecuteFeature` | src/feature/feature.cpp:76-434 | status set step by step as the branch advances, reference loops included |
| `KernelDispatch.ExecutorsAgree` | src/feature/feature.cpp:76-95 | as the executor of a replay, prelude included, the dispatch leaves the same status and success |
| `KernelDispatch.DispatchingDispatches` | src/feature/feature.cpp:76-434 | whatever geometry calls succeed, there is a kernel that ends as the dispatch does, so what is said of such kernels is said of some |
| `KernelDispatch.LookupsCarried` | src/feature/feature.cpp:104-418 | every reference a branch looks up is one the feature carries, hence one replay has resolved for it |
| `KernelDispatch.BrokenReferenceIff` | src/feature/feature_tree.cpp:218-300 | a replay leaves BrokenReference on a feature exactly when it is unsuppressed, accepted by its schema, no loft of fewer than two profiles, and some reference its branch looks up is unusable among the earlier results |
| `FeatureTrees.FeatureTree.SetParameter` | src/feature/feature_tree.cpp:81-88 | stores the value of a known feature and marks everything from it dirty |
| `FeatureTrees.FeatureTree.SuppressFeature` | src/feature/feature_tree.cpp:90-95 | sets the flag of a known feature and marks everything from it dirty |
| `FeatureTrees.FeatureTree.SetRollbackIndex` | src/feature/feature_tree.cpp:307-312 | clamps the marker to -1..n-1 |
| `Workspaces.Workspace.ToJson` | src/feature/workspace.cpp:143-157 | writes exactly the document of the workspace's content |
| `Workspaces.Workspace.ReadFeatures` | src/feature/workspace.cpp:41-106 | the reading loop with its set of seen ids accepts exactly the lists the decoder does, and what it accepts has unique ids |
| `TagAllocation.TagAllocator.SeedCounter` | src/core/tag_allocator.h:258-266 | sets a non-negative counter, only before the first allocation |
| `TagAllocation.TagAllocator.AssignDocumentId` | src/core/tag_allocator.h:272-281 | changes the document only before the first allocation and only to one the registry admits |
| `TagAllocation.TagAllocator.TakeSnapshotV2` | src/core/tag_allocator.h:331-341 | gives counter and document, or throws in the overflow state |
| `TagAllocation.TagAllocator.OcctTag` | src/core/tag_allocator.h:465-485 | passes small single-document counters through, repeats a mapping or makes the next one, and throws when tags run out |
| `SketchSlots.OreoSketch.AddConstraint` | src/capi/oreo_capi.cpp:2381-2404 | appends a live slot and returns its index, which was no id before |
| `SketchSlots.OreoSketch.RemoveConstraint` | src/capi/oreo_capi.cpp:2543-2553 | tombstones a live constraint and nothing else |
| `SketchSlots.WriteBack` | src/capi/oreo_capi.cpp:375-386 | each live slot gets the value at its position, removed slots keep theirs |
| `SketchSlots.RemapIds` | src/capi/oreo_capi.cpp:388-396 | positions in range become public ids, others stay |
| `SketchSlots.OreoSketch.TranslateConstraints` | src/capi/oreo_capi.cpp:348-364 | passes on exactly the live constraints whose entities are alive, in id order |
| `SketchTheory.NothingMoved` | src/capi/oreo_capi.cpp:375-386 | a solver that moves nothing leaves the table as it was |
| `IdentityCodec.DowngradeDedup.ShouldEmitDowngradeWarning` | src/core/shape_identity_v1.cpp:50-61 | permits outside every scope and once inside the outermost |
| `Merging.MergeBothAdded` | src/feature/merge.cpp:255-312 | records exactly the differences of a feature added on both sides |
| `Merging.MergePresent` | src/feature/merge.cpp:368-442 | merges type, suppression and parameters of a feature present everywhere and records exactly its clashes |
| `Merging.RetainedIds` | src/feature/merge.cpp:469-475 | collects the surviving base ids in base order |
| `Merging.AppendAdditions` | src/feature/merge.cpp:516-529 | appends the survivors not yet placed, each once, in the side's order |
| `Merging.EnterFeatures` | src/feature/merge.cpp:531-546 | enters the merged features until the tree refuses one |
| `MergeResolution.AnsweredOutcome` | src/feature/merge.cpp:590-633 | the outcome holds the feature with the value its choice names: the one recorded for ours, theirs or base, or the custom one |
| `MergeResolution.StructuralOutcome` | src/feature/merge.cpp:634-745 | the outcome holds the feature recorded for the side chosen, base's for a custom choice, or none of that id where the side removed it |
| `ParamDecoding.DecodeRefList` | src/feature/param_json.cpp:383-397 | the reference loop accepts a list exactly when it accepts every item |
| `SchemaRegistries.SchemaRegistry.SetMaxMigrationSteps` | src/core/schema.cpp:386-392 | changes the cap unless the registry is frozen |
| `Arenas.ArenaObject.Grow` | src/core/memory_pool.h:48-61 | appends a block of at least the size asked for and doubles the base size only when that size was used, up to 2^24 |
| `Fingerprints.FnvUpdateParamValue` | src/feature/config.cpp:203-250 | hashes the alternative's number and its payload, lists item by item |
| `FeatureSchemas.ChecksPass` | src/feature/feature.cpp:262-400 | the emptiness checks repeated in the branches hold by validation, except the number of loft profiles |
| `IdentityCodec.DowngradeDedup.EnterScope` | src/core/shape_identity_v1.cpp:33-38 | opens a scope; the outermost one starts without a warning given |
| `IdentityCodec.DowngradeDedup.LeaveScope` | src/core/shape_identity_v1.cpp:40-48 | closes a scope; the outermost one forgets the warning given |
| `Arenas.ArenaObject.Reset` | src/core/memory_pool.h:122-125 | drops the blocks and the total, and keeps the grown block size |
| `SchemaRegistries.SchemaRegistry.Freeze` | src/core/schema.h:187 | sets the flag every mutator obeys, and nothing else |
| `SketchSlots.OreoSketch.AddPoint` | src/capi/oreo_capi.cpp:2330-2339 | appends a live slot and returns its index |
| `SketchSlots.OreoSketch.AddLine` | src/capi/oreo_capi.cpp:2341-2352 | appends a live slot and returns its index |
| `SketchSlots.OreoSketch.AddCircle` | src/capi/oreo_capi.cpp:2354-2364 | appends a live slot and returns its index |
| `SketchSlots.OreoSketch.AddArc` | src/capi/oreo_capi.cpp:2366-2379 | appends a live slot and returns its index |
| `SketchSlots.OreoSketch.RemovePoint` | src/capi/oreo_capi.cpp:2511-2517 | tombstones a live point and cascades, refuses dead or unknown ids |
| `SketchSlots.OreoSketch.RemoveCircle` | src/capi/oreo_capi.cpp:2527-2533 | tombstones a live circle and cascades, refuses dead or unknown ids |
| `SketchSlots.OreoSketch.RemoveArc` | src/capi/oreo_capi.cpp:2535-2541 | tombstones a live arc and cascades, refuses dead or unknown ids |
| `ReplayMeaning.ResolvedIff` | src/feature/feature_tree.cpp:626-720 | a reference resolves to a part, or to a whole shape, exactly when no suppressed feature has its id, the cache holds a body for it, and the name finds that part, or is ROOT under no sub-shape type; otherwise to nothing |
| `ReplayMeaning.ReplayedFeature` | src/feature/feature_tree.cpp:218-300 | after a full replay, each feature stores the kernel's answer to one input: its own parameters, the shape and counter stored before it, and each reference answered in the shape stored for the earlier unsuppressed feature named; failures keep the shape before and say why |
| `EditingLaws.InsertMeans` | src/feature/feature_tree.cpp:56-68 | an insertion is taken exactly when the id is new, stands at the nearest place to the index, leaves the others in order, and marks what follows |
| `EditingLaws.AddMeans` | src/feature/feature_tree.cpp:38-54 | adding is inserting at the end |
| `EditingLaws.RemoveMeans` | src/feature/feature_tree.cpp:70-79 | a removal takes out the one feature and its three entries and marks what followed it |
| `EditingLaws.RemoveUndoesInsert` | src/feature/feature_tree.cpp:56-79 | removing what was inserted restores the list, cache, snapshots and counter |
| `EditingLaws.MoveMeans` | src/feature/feature_tree.cpp:97-113 | a move puts the feature at the nearest place to the index, leaves the others in order, and marks from the smaller of both places |
| `EditingLaws.MoveBack` | src/feature/feature_tree.cpp:97-113 | moving back to the old place restores the list |
| `EditingLaws.UpdateParameterMeans` | src/feature/feature_tree.cpp:81-88 | the feature has exactly the value written under exactly that name; no other parameter or feature changes |
| `EditingLaws.SuppressMeans` | src/feature/feature_tree.cpp:90-95 | the feature has exactly the flag written; nothing else in the list changes |
| `EditingLaws.RetargetMeans` | src/feature/feature_tree.cpp:115-145 | the new id stands at exactly the places that named the old one; every other place, element name and type, list length, other parameter and property is unchanged |
| `EditingLaws.RetargetMovesPlaces` | src/feature/feature_tree.cpp:115-145 | afterwards the old id is named nowhere, and the new one where either was named before |
| `EditingLaws.RetargetMarks` | src/feature/feature_tree.cpp:115-145 | dirty are the features from the first that named the old id, and those dirty before |
| `EditingLaws.ResumeMeans` | src/feature/feature_tree.cpp:171-216 | the shape to resume from is that of the last unsuppressed, successful and cached feature before the start, null without one |
| `EditingLaws.ReplayFromBegins` | src/feature/feature_tree.cpp:171-216 | replayFrom restores counter and document at a known feature after the first with a snapshot; without one it drops cache and snapshots, and an unknown id starts at the first feature |
| `EditingLaws.LastCachedMeans` | src/feature/feature_tree.cpp:329-353 | looking back finds the last cached body before a place, null without one |
| `EditingLaws.SetRollbackMeans` | src/feature/feature_tree.cpp:307-312 | the marker ends at the nearest of -1..n-1 |
| `EditingLaws.RollbackToMeans` | src/feature/feature_tree.cpp:341-353 | rollbackTo looks back from the feature named and shows nothing for an unknown one |
| `MergeMeaning.ContentEqualsIff` | src/feature/merge.cpp:42-53 | two features count as equal exactly when type and flag are equal and every parameter is written alike and free of NaN |
| `MergeMeaning.BothAddedRaises` | src/feature/merge.cpp:255-312 | of an id added on both sides: different types raise one type conflict and nothing else; otherwise the flags and each parameter raise a conflict exactly when they differ, with ours standing for base |
| `MergeMeaning.BothAddedQuietIff` | src/feature/merge.cpp:255-312 | nothing is raised for it exactly when both features are written alike |
| `MergeMeaning.PresentRaises` | src/feature/merge.cpp:368-442 | of an id of all three lists: a type conflict exactly when the three types are pairwise different, a parameter conflict exactly when its three values are, with the three recorded |
| `MergeMeaning.RemovedRaises` | src/feature/merge.cpp:331-366 | of a base id one side removed: gone without conflict when the other left it alone, else base's feature and one structural conflict with the three features and its last place in base |
| `MergeMeaning.OtherwiseQuiet` | src/feature/merge.cpp:240-366 | ids added on one side or removed by both raise nothing |
| `MergeMeaning.PositionReportedIff` | src/feature/merge.cpp:463-507 | for unique ids, a position conflict is reported exactly for a survivor of all three lists with three different numbers of surviving base features before it, which it records |
| `ResolutionMeaning.OnlyDecidingCount` | src/feature/merge.cpp:562-588 | the outcome depends only on the last resolution for each conflict's feature and parameter |
| `ResolutionMeaning.ThrowsIffMisfit` | src/feature/merge.cpp:604-633 | on a merge's conflicts the call throws exactly when a suppression conflict is decided by a custom value that is no flag, or a type conflict by one that is no text |
| `ResolutionMeaning.CustomTaken` | src/feature/merge.cpp:590-745 | a custom choice puts in exactly the custom value as parameter, flag or type; for a structural conflict it keeps base's feature |
| `ResolutionMeaning.PutMeans` | src/feature/merge.cpp:661-676 | a feature put back replaces the first of its id, or goes in at the hint, or at the end where the list is too short |
| `ResolutionMeaning.DropMeans` | src/feature/merge.cpp:655-660 | a removal takes out the feature of the id and nothing else |
| `ConfigMeaning.ResolvedMeans` | src/feature/config.cpp:366-394 | every placeholder becomes the configured value of its input, or the default where none is configured; nothing else changes |
| `ConfigMeaning.StoppedMeans` | src/feature/config.cpp:366-394 | the alphabetically first placeholder without an input makes the copy a broken reference that names it, with the parameters before it substituted and those after it untouched |
| `ConfigMeaning.ExecuteReports` | src/feature/part_studio.cpp:136-191 | a rejected configuration touches nothing; otherwise the shape is the last one stored, the broken features are exactly the failed ones in tree order, and the status is failed without a shape, partial with broken features |
| `ConfigMeaning.ExecutedFeature` | src/feature/part_studio.cpp:136-191 | in an execution every feature is refused for lack of an input, or for the failure it entered with, or run with each placeholder at the effective value of its input |
| `ConfigMeaning.SameOutputsIff` | src/feature/part_studio.cpp:136-191 | two valid configurations give the same outputs under every geometry kernel if and only if they agree on the effective value of every input read by a feature that reaches the kernel |
| `AcceptedValues.FitsIff` | src/feature/config.cpp:58-121 | a value fits an input exactly when it has its type, consists of finite numbers, and lies within the bounds, both included |
| `AcceptedValues.AcceptedIff` | src/feature/feature_schema.cpp:226-412 | for each built-in type, the numeric range, vector, reference type and list each parameter must have |
| `AcceptedValues.RegisteredIff` | src/feature/feature_schema.cpp:226-428 | every built-in feature is registered under its own type name and no other |
| `AcceptedValues.ValidatesIff` | src/feature/feature_schema.cpp:434-639 | validation accepts exactly the features of a built-in type whose parameters are what that type needs |
| `AcceptedValues.LooksUpGiven` | src/feature/feature.cpp:104-418 | a branch looks up exactly the references its feature gives under the names for references |
| `AcceptedValues.ExecutesIff` | src/feature/feature.cpp:76-434 | executeFeature ends well exactly for an accepted feature, a loft with two profiles at least, whose references all resolve, whole shapes for the booleans, and whose geometry succeeds; broken reference exactly when one does not resolve |
| `SharedRegistry.PerformDocuments` | src/core/tag_allocator.h:127-165 | whatever is issued carries the document the allocator has, which only setting it or a restore changes |
| `AllocatorLaws.RunMeans` | src/core/tag_allocator.h:127-165 | a run of requests without overflow issues exactly the identities asked for, with consecutive counters under the allocator's document |
| `AllocatorLaws.SetDocumentMeans` | src/core/tag_allocator.h:272-304 | the document is set exactly before the first identity, to none or to one that collides with no admitted one; else nothing changes |
| `AllocatorLaws.SnapshotRestores` | src/core/tag_allocator.h:331-361 | a snapshot restores the counter and document it was taken at, unforced only forwards |
| `AllocatorLaws.TagMeans` | src/core/tag_allocator.h:465-485 | a small single-document identity is its own tag, the null one is refused, and any other gets the number of different ones converted up to its first conversion |
| `AllocatorLaws.TagsRunOut` | src/core/tag_allocator.h:465-485 | the overflow error comes exactly for a new mapped identity with no positive tag left |
| `AllocatorLaws.HexPlaces` | src/core/shape_identity.h:51-62 | the text is the document, a dot and the counter, sixteen digits each, the most significant first |
| `AllocatorLaws.EncodeMeans` | src/core/shape_identity_v1.cpp:65-108 | the scalar holds the low half of the document above the counter; null and too large counters are refused, each with its own error |
| `AllocatorLaws.DecodeMeans` | src/core/shape_identity_v1.cpp:110-162 | a contradicting hint is refused, and the document is lost exactly when there is an upper half and no hint |
| `SchemaLaws.CompatibleIff` | src/core/schema.h:56-60 | a version loads exactly the older and equal minors of its major |
| `SchemaLaws.HeaderReadIff` | src/core/schema.cpp:333-352 | a header is read exactly from a type name and an object of three integers, each taken modulo 2^32 |
| `SchemaLaws.RegisterMeans` | src/core/schema.cpp:135-163 | a migration is refused exactly by a frozen registry or next to one of the same type and source |
| `SchemaLaws.UnregisterUndoes` | src/core/schema.cpp:369-384 | removing what was just registered restores the registry |
| `SchemaLaws.MigratesIffTrail` | src/core/schema.cpp:205-250 | migrate gives a document exactly when registered migrations lead from the one given to it, each applied to the document before and its version written anew, without repeating a version, to the current one within the cap |
| `SchemaLaws.MigratorErrorShows` | src/core/schema.cpp:205-250 | the error of a migrator met on the way is the error of the migration |
| `SchemaLaws.BuiltInLoadsIff` | src/core/schema.cpp:75-123 | feature trees and part studios load at major 2 without a minor, and at exactly 1.0.0 |
| `SchemaLaws.BuiltInMigrates` | src/core/schema.cpp:92-123 | a 1.0.0 document of theirs comes out with nothing changed but its version, to 2.0.0 |
| `SketchLaws.RemoveMeans` | src/capi/oreo_capi.cpp:2485-2541 | removal succeeds exactly for a live entity; it marks that slot and every constraint with a reference of that id that may be to its table, and changes nothing else |
| `SketchLaws.SolvedIdsAre` | src/capi/oreo_capi.cpp:345-366 | the constraints handed over are the live ones whose entities are all alive, in the order of their ids |
| `SketchLaws.SolveMeans` | src/capi/oreo_capi.cpp:345-411 | every live entity gets the value returned for its position and nothing else in the tables changes; the result is the solver's in the user's ids; a refusing solver leaves only a failed result |
| `SketchDispatch.LooksWhereNamed` | src/sketch/oreo_sketch.cpp:299-585 | the solver's tables and the C API's agree on every reference of every kind but plain tangency, radius and diameter |
| `Arenas.BlockOpenedIff` | src/core/memory_pool.h:48-107 | a block is opened exactly when no aligned place for the request is left in the last one; its size, and the doubling of the usual size below 16 MiB, are exact |
| `ConfigMeaning.AdmissibleIff` | src/feature/config.cpp:123-152 | a schema takes an input exactly with a new non-empty name, one of the ten value types, and a default that fits it |
| `AllocatorLaws.RestoreRefusesIff` | src/core/tag_allocator.h:343-361 | a snapshot is refused exactly for a counter out of range or, unforced, behind the allocator's; a refusal changes nothing |
| `AllocatorLaws.SeedMovesFirst` | src/core/tag_allocator.h:258-266 | seeding is taken exactly before the first identity and not below zero, and the next identity follows the seed |
| `LoadingLaws.ParseIff` | src/core/schema.cpp:16-71 | a version is read exactly from three decimal numbers within an int between two dots; leading zeros are allowed, signs are not |
| `LoadingLaws.WorkspaceHeaderIff` | src/feature/workspace.cpp:170-213 | a workspace is accepted exactly without header, under its bare type, or under its type at major 1 without a minor |
| `LoadingLaws.EmptyDocument` | src/feature/workspace.cpp:159-259 | the empty object is an empty workspace without a rollback |
| `LoadingLaws.BareFeature` | src/feature/workspace.cpp:41-106 | a feature needs a non-empty id and type; without more it has no parameters and is not suppressed |
| `LoadingLaws.BareValue` | src/feature/param_json.cpp:86-171 | what stands for missing coordinates, for every type tag |
| `LoadingLaws.StrictYields` | src/feature/param_json.cpp:237-412 | what the strict decoder lets through has the declared type or is a named placeholder, with finite numbers and references that name a feature |
| `LoadingLaws.FeatureReadIff` | src/feature/workspace.cpp:65-106 | exactly which features an object is read as: id, type, flag and every parameter by its declared type; never executed |
| `LoadingLaws.FeaturesReadIff` | src/feature/workspace.cpp:41-106 | a list is read exactly when every item is, under pairwise different ids |
| `LoadingLaws.IndexReadIff` | src/feature/workspace.cpp:233-254 | a rollback index is an integer or the whole part of a number up to a multiple of 2^32, a flag, or missing for -1 |
| `LoadingLaws.DocumentReadIff` | src/feature/workspace.cpp:159-259 | exactly which workspace a document is read as, field by field, with the default of every missing field |
| `KnownValues.FnvVectors` | src/feature/config.cpp:171-180 | the hash gives the published FNV-1a values |
| `KnownValues.ByteAt` | src/feature/config.cpp:181-183 | words are hashed the least significant byte first |
| `KnownValues.OneInput` | src/feature/config.cpp:254-268 | the bytes of a schema with one input, in order |
| `KnownValues.SplitMixVector` | src/core/rng.h:33-38 | the published words of splitmix64 for 1234567 |
| `KnownValues.SeedVector` | src/core/rng.h:50-62 | the four words that seed draws |
| `KnownValues.XoshiroVector` | src/core/rng.h:65-78 | the published words of xoshiro256** from the state 1, 2, 3, 4 |
| `KnownValues.FrameWritten` | src/feature/param_json.cpp:25-84 | a frame as it stands in a document |
| `KnownValues.WorkspaceWritten` | src/feature/workspace.cpp:143-157 | a workspace with one feature as it is written |

## Left out

- IncrementalReplay.IncrementalEqualsFull: is for runs without removals and moves and for references to earlier features; `IncrementalExact.AfterEveryRun` has the exact condition for every run.
- IncrementalExact.AlwaysFullIffExact: equality is of the whole tree state, recorded boundaries included; a shape alone can coincide more often. For one given kernel the second half of the condition is not necessary: it may ignore the references it is handed.
- FeatureTrees.FeatureTree.ResolveReference: the element-map lookup, with its fallback to plain indexed names, is one uninterpreted function of shape and name.
- FeatureTrees.FeatureTree.ReplayOne: counter overflow inside a geometry call and exceptions escaping the executor are not modelled; the executor always returns a counter in range, so the overflow state in which the loop's own snapshot throws does not arise.
- PartStudios.PartStudio.ExecuteConfig: the transformer is shown gone on the two ordinary exits; its removal by the scope guard during an exception is not modelled.
- MergeLaws.FeatureIsDiff3: assumes no NaN among the parameters, because a NaN differs from itself; `ParamJson.ValueEqualsIsCanonical` is the exact statement.
- AllocatorTheory.IssuedDistinct: ends at the first overflow error; `AllocatorTheory.OverflowAllowsReissue` shows that it must. Forced restores and resetCounterOnly re-issue identities on purpose.
- AllocatorTheory.TagsStableAndInjective: covers identities outside the pass-through path; a passed-through counter may coincide with a mapped tag.
- Fingerprints.StreamDeterminesInputs: the two zeros are one value of the model, and so are all NaNs, which the hash tells apart; strings are bytes.
- Rng.DeterministicRng.Next: nextUniform and nextRange, which only scale its result, are not modelled.
- Arenas.RunSound: assumes that no size or address wraps around and that the system places new blocks apart from the others.
- SketchSlots.OreoSketch.SolveSketch: the constraint solver is a function on the live view that keeps its lengths; diagnostics, the wire conversion and the construction flag setters are not modelled.
- SketchSlots.OreoSketch.AddConstraint: the range check of the numeric constraint type is taken by the type itself.
- SchemaRegistries.SchemaRegistry.Migrate: addHeader, which checks and stamps outgoing documents, is not modelled.
- WorkspaceJson.WorkspaceRoundTrip: is about JSON trees; printing and parsing text, and with it numbers that text cannot hold, is left to the JSON library. Loaded features have not been executed, so statuses and messages are not restored.
- ParamDecoding.StrictRoundTrip: normalisation of directions and frames is a parameter; integers read as doubles are converted exactly.
- FeatureSchemas.ValidateFeature: message texts, diagnostics and warnings about undeclared parameters are left out; the magnitude test is on exact squares.
- Geometry, healing, tessellation and file interchange: calls into a library that is not part of this model.
- FeatureTree::toJSON and fromJSON: the rollback index is set while the tree is still empty; workspaces carry it instead.
- C API null checks, exception boundaries, metrics, locks and atomics as concurrency, and diagnostic texts: plumbing.
