# ObST tester core in Dafny

ObST tests a REST API from its OpenAPI description, in the style of stateful
property-based testing. It keeps a **test model** of the resources it believes
exist. Each resource is an id node in an arena graph, with a resource-class
mapping (`House:@id`), a value, a deleted flag and parent/child links. It
registers **test operations** under three oracles:

- Existing resource;
- Unknown resource;
- Deleted resource.

Each step it picks an operation whose precondition holds in the model. It
generates parameter values through **generator options** computed from the model
and an identity. It checks the response with fast-fail properties and records in
the model the ids found in the response.

This project models that core:

- **The test model.** `TestModels`, `AddProperties`, `Lookups`, `ModelCopies`,
  `Queries`, `Bindings`, `Products`, and the class `Domain.TestModel`.
- **The constraint graph it is queried with.** `Links`.
- **Generator options.** `GeneratorOptions`, `Oracles`.
- **Parameter compilation and ordering.** `ParameterCompiler`, `ParameterOrder`,
  `CoreModels`.
- **Value generation.** `Generator`, `OperationValues`, `IdentityFilter`.
- **The operation object.** `Operations`, with the class
  `Operations.TestOperation`.
- **The state-machine driver.** `Orchestrator`.
- **Id extraction from responses and URIs.** `IdSearch`, `TestConfigurations`.
- **Schema filtering.** `SchemaFilter`.
- **Coverage tracking.** `Coverage`.
- **Fast-fail properties.** `FastFail`.
- **Analyzer helpers the tester relies on.** `PathsAnalyzer`, `AnalyzerUtil`,
  `ResourceClasses`, `IdMappings`.

Classes model the objects the source updates in place:

- `Domain.TestModel`;
- `GeneratorOptions.GeneratorOption`;
- `OperationValues.SutOperationValues`;
- `Coverage.CoverageTracker`;
- `Operations.TestOperation`;
- `Orchestrator.TestSpec`.

Each method is proved against a pure specification function, and the lemmas
about those functions state what the source promises. Exceptions are values:
`Failure(KeyNotFound)`, `InvalidOperation`, `Argument`, `NotSupported` and
`Format` stand for the .NET exceptions of the same names. FsCheck generators
are modelled as the set of values they can produce; the frequencies of a
`Gen.Frequency` only decide which branches are present.

## Model

| member | source | states |
|---|---|---|
| Domain.ToIdModel | ObST.Tester/Domain/TestModel.cs:96-111 | The arena gains one fresh node per pair, numbered from the counter on, each the only child of the one before (WithChain); the id of the last node is returned, and none for an empty path |
| Domain.TryMergeDictionaries | ObST.Tester/Domain/TestModel.cs:301-322 | Succeeds exactly when no two bindings give one key different entries, and then returns the union of all of them |
| Domain.MergeEach | ObST.Tester/Domain/TestModel.cs:226-234 | The merged binding of every product row whose bindings agree, in row order, and nothing for a row that clashes |
| Domain.CartesianProduct | ObST.Tester/Domain/TestModel.cs:324-343 | The list of all rows picking one element per input list, first list varying slowest (Product) |
| Domain.Combination | ObST.Tester/Domain/TestModel.cs:330-340 | The i-th combination built by the index arithmetic is row i of Product |
| Domain.ResolvePath | ObST.Tester/Domain/TestModel.cs:117-133 | The walk of Delete's loop equals Resolve: the first pair is looked up among the listed instances, each further pair among the children of the node found so far |
| Domain.MarkDeleted | ObST.Tester/Domain/TestModel.cs:401-409 | The worklist marks exactly the cascade of the target (the least set containing it and closed under children) and flags those nodes deleted |
| Domain.CopyNodes | ObST.Tester/Domain/TestModel.cs:16-51 | The copy constructor's result equals CopyOf: the listed part of the arena and the non-empty state, or InvalidOperation when a listed node links to an unlisted one |
| Domain.FindLeaving | ObST.Tester/Domain/TestModel.cs:27-41 | Returns an index whose node has a parent or child outside the listed ids, or none when no node does |
| Domain.CopyListed | ObST.Tester/Domain/TestModel.cs:21-49 | The copied nodes and the rebuilt state are exactly those of the listed ids, filed by mapping |
| Domain.TestModel.constructor | ObST.Tester/Domain/TestModel.cs:11-14 | A new model is valid, with no nodes and an empty state |
| Domain.TestModel.Add | ObST.Tester/Domain/TestModel.cs:53-94 | The new nodes, state and exception are those AddSpec gives for the old ones, and the counter advances by the path length |
| Domain.TestModel.Merge | ObST.Tester/Domain/TestModel.cs:59-92 | One pass of Add's loop is AddStep on the current node, and the loop goes on with its first parent |
| Domain.TestModel.GetMatchingIdSubset | ObST.Tester/Domain/TestModel.cs:192-235 | Equals MatchingSubset, the merged bindings of the instance combinations of every constraint |
| Domain.TestModel.Delete | ObST.Tester/Domain/TestModel.cs:113-140 | State and counter unchanged; a failed lookup propagates its exception with the nodes unchanged, an unmatched path changes nothing, and a resolved id has exactly its cascade marked deleted |
| Domain.TestModel.GetKeys | ObST.Tester/Domain/TestModel.cs:159-190 | Equals Lookups.Keys, the corrected lookup (see Findings) |
| Domain.TestModel.Get | ObST.Tester/Domain/TestModel.cs:142-150 | Equals Lookups.Get over the corrected key lookup |
| Domain.TestModel.GetDeleted | ObST.Tester/Domain/TestModel.cs:152-157 | Equals Lookups.GetDeleted over the corrected key lookup |
| Domain.TestModel.Copy | ObST.Tester/Domain/TestModel.cs:16-51 | Fails with InvalidOperation exactly when CopyOf fails; otherwise a fresh valid model with the same counter whose nodes and state are CopyOf's |
| Domain.CopyIsIndependent | ObST.Tester/Domain/TestModel.cs:16-51 | Deleting on a copy leaves the original's nodes and state unchanged. The copy is a fresh object and the graph is a value, so this holds whatever CopyNodes computes; what the copy holds is stated by CopyNodes, CopyWf and CopyKeys |
| TestModels.FirstParent | ObST.Tester/Domain/TestModel.cs:69 | None exactly when the node has no parent, otherwise one of its parents |
| TestModels.Matching | ObST.Tester/Domain/TestModel.cs:411-425 | Exactly the listed ids with the same value whose parents match HasSameValueAndParent |
| TestModels.SingleOrDefault | ObST.Tester/Domain/TestModel.cs:67 | InvalidOperation exactly when more than one instance matches; none exactly when none does; otherwise that instance |
| TestModels.FirstChild | ObST.Tester/Domain/TestModel.cs:80 | The child found is a child of the node under some key; the only exception is InvalidOperation |
| TestModels.MergeChild | ObST.Tester/Domain/TestModel.cs:78-83 | On success the arena keeps its ids, stays closed and keeps every mapping and value |
| TestModels.MergeParent | ObST.Tester/Domain/TestModel.cs:84-89 | On success the arena keeps its ids, stays closed and keeps every mapping and value |
| TestModels.MergeChildEffect | ObST.Tester/Domain/TestModel.cs:78-83 | The new node's child moves under the matching instance, with its parent entry pointing at that instance, and no other node changes |
| TestModels.MergeParentEffect | ObST.Tester/Domain/TestModel.cs:84-89 | The parent's only child becomes the matching instance, whose parent entry becomes that parent, with its other parents kept and no other node changed |
| TestModels.AddStepNoMatch | ObST.Tester/Domain/TestModel.cs:61-75 | With no matching instance the node is filed under its mapping and the arena is unchanged |
| TestModels.AddStepMerged | ObST.Tester/Domain/TestModel.cs:76-90 | With one matching instance the arena is the double merge and the state is unchanged |
| TestModels.AddStepKeeps | ObST.Tester/Domain/TestModel.cs:57-93 | One pass keeps the model's invariant, fails only with InvalidOperation leaving things as they were, and leaves the chain above pending; the first parent is the previous chain node |
| TestModels.WithChainShape | ObST.Tester/Domain/TestModel.cs:96-111 | The chain adds exactly the ids base to base+t-1, each with its chain node, and keeps the old nodes |
| TestModels.WithChainWf | ObST.Tester/Domain/TestModel.cs:96-111 | Adding the chain keeps the model well formed |
| TestModels.WithChainPending | ObST.Tester/Domain/TestModel.cs:53-58 | After ToIdModel, the loop can start from the last chain node |
| TestModels.AddLoopAdded | ObST.Tester/Domain/TestModel.cs:57-93 | The whole while loop keeps the invariant, old nodes' mappings and values and every listed id, throws only InvalidOperation, and leaves an instance of every pair |
| TestModels.AddSpec | ObST.Tester/Domain/TestModel.cs:53-94 | Add keeps the invariant with the counter advanced, keeps old nodes' mappings and values, never unlists an id, throws only InvalidOperation, and otherwise leaves an instance of every pair |
| AddProperties.AddUnmatched | ObST.Tester/Domain/TestModel.cs:53-94 | A path no pair of which matches an instance becomes one new chain filed under its mappings, and afterwards the path resolves to its last node |
| AddProperties.AddUnmatchedOutcome | ObST.Tester/Domain/TestModel.cs:61-75 | The outcome of such an Add is the chain and the joined state, without exception |
| AddProperties.NewMappingsUnmatched | ObST.Tester/Domain/TestModel.cs:61-67 | A path of mappings the model has never seen matches no instance |
| AddProperties.ChainResolvesToLast | ObST.Tester/Domain/TestModel.cs:117-133 | Over the added chain the path resolves to the last node |
| AddProperties.ResolvesToLast | ObST.Tester/Domain/TestModel.cs:117-133 | A path with a unique node sequence along it resolves to the sequence's last node |
| AddProperties.ResolveSingle | ObST.Tester/Domain/TestModel.cs:117-133 | A one-pair path resolves to x exactly when x is the only instance of that mapping with that value |
| AddProperties.AddResolvedPair | ObST.Tester/Domain/TestModel.cs:76-90 | Re-adding a pair that already resolves lists no new instance, leaves the state unchanged and still resolves to the old instance |
| AddProperties.AddSamePairTwice | ObST.Tester/Domain/TestModel.cs:53-94 | Adding the same new pair twice: both succeed, the second leaves the state unchanged, and the pair resolves to the first instance both times |
| AddProperties.AddUnderResolved | ObST.Tester/Domain/TestModel.cs:53-94 | With distinct mappings, when the first pair resolves to x, no child of x under the second mapping has the second value, and no later pair matches: no exception, the first mapping lists no new instance, each later mapping gains its chain node, the second chain node is a child of x, the first pair still resolves to x and the whole path resolves to the last new node |
| AddProperties.AddChildrenToParent | ObST.Tester.Test/Domain/TestModelTest.cs:83-109 | Add of pet 123, then of pet 123 with collar 45: both succeed, pets:id still lists only node 0, collar:id lists node 2, node 2 is a child of node 0, and pet 123 resolves to 0 and the long path to 2 |
| AddProperties.AddChildrenToParentQuery | ObST.Tester.Test/Domain/TestModelTest.cs:83-109 | After the same two Adds, GetMatchingIdSubset over a required pets:id constraint linked to a required collar:id child returns exactly one binding: pets:id to 123 and collar:id to 45, neither deleted |
| AddProperties.SameCollarId | ObST.Tester.Test/Domain/TestModelTest.cs:145-177 | Pets 123 and 124, each with collar 45, get separate collar instances; deleting pet 123's collar marks only that instance and keeps pet 124's |
| AddProperties.RepeatedPairLoops | ObST.Tester/Domain/TestModel.cs:401-409 | Adding a path that repeats one pair makes the instance its own child, and DeleteChildren as written never returns from it (see Findings) |
| Lookups.Pairs | ObST.Tester/Domain/TestModel.cs:188-189 | The value and deleted flag of each id, in order |
| Lookups.ResolveSound | ObST.Tester/Domain/TestModel.cs:117-133 | A found id ends a node sequence that matches the path pair by pair, and that sequence is unique; none found means no such sequence exists |
| Lookups.WalkUnique | ObST.Tester/Domain/TestModel.cs:117-133 | When the walk finds an id, the matching node sequence is unique |
| Lookups.StepMatches | ObST.Tester/Domain/TestModel.cs:119-131 | One step finds the only candidate with the value, or none when no candidate has it |
| Lookups.SelectPartition | ObST.Tester/Domain/TestModel.cs:142-157 | All values are, as a multiset, the undeleted ones plus the deleted ones |
| Lookups.GetPartition | ObST.Tester/Domain/TestModel.cs:142-157 | Get with deleted ones, Get without and GetDeleted succeed together, and the first is the multiset union of the other two |
| Lookups.GetEmptyPath | ObST.Tester/Domain/TestModel.cs:180-186 | For an empty path, Get gives exactly the values of the instances filed under the key, skipping deleted ones unless asked |
| Lookups.GetAlong | ObST.Tester/Domain/TestModel.cs:142-150 | For a resolved path, a value is in Get exactly when a child under the key of the last node has it and, unless deleted ones are included, is not deleted |
| Lookups.GetDeletedAlong | ObST.Tester/Domain/TestModel.cs:152-157 | For a resolved path, GetDeleted gives exactly the values of the deleted children under the key |
| Lookups.KeysAsWrittenFails | ObST.Tester/Domain/TestModel.cs:168 | On house 45, room 6, window 5, the lookup as written throws KeyNotFound for window:id while the corrected one gives window 5 |
| Lookups.CascadeUnique | ObST.Tester/Domain/TestModel.cs:401-409 | The set of nodes Delete marks is unique |
| Lookups.SelfChildNeverReturns | ObST.Tester/Domain/TestModel.cs:401-409 | DeleteChildren as written does not return, at any recursion depth, on a node that is its own child |
| Lookups.DeleteOneParent | ObST.Tester.Test/Domain/TestModelTest.cs:303-345 | Deleting pet 123 marks the pet and room 6, which it shares with house 45, and leaves the house as it was |
| Lookups.MarkedKeeps | ObST.Tester/Domain/TestModel.cs:135-139 | Marking keeps ids, mappings, links and well-formedness, and changes only deleted flags |
| ModelCopies.Listed | ObST.Tester/Domain/TestModel.cs:18 | Exactly the ids filed in the state |
| ModelCopies.NonEmpty | ObST.Tester/Domain/TestModel.cs:43-50 | Exactly the mappings with at least one instance, with their instances |
| ModelCopies.CopyAll | ObST.Tester/Domain/TestModel.cs:16-51 | When no listed node leaves the listed set, the copy is the listed nodes filed by mapping |
| ModelCopies.CopyOfNoneLeaves | ObST.Tester/Domain/TestModel.cs:16-51 | When no listed node leaves the listed set, the copy is the listed part of the arena and the non-empty state |
| ModelCopies.CopyWf | ObST.Tester/Domain/TestModel.cs:16-51 | The copy keeps the model's invariant and its keyed links |
| ModelCopies.StepSame | ObST.Tester/Domain/TestModel.cs:119-131 | A lookup step on the copy gives what it gives on the original |
| ModelCopies.WalkSame | ObST.Tester/Domain/TestModel.cs:117-133 | A path walk on the copy gives what it gives on the original |
| ModelCopies.CopyKeys | ObST.Tester/Domain/TestModel.cs:159-190 | GetKeys on the copy gives what it gives on the original |
| Products.ProductCount | ObST.Tester/Domain/TestModel.cs:326-328 | The number of rows is the product of the list lengths |
| Products.ProductShape | ObST.Tester/Domain/TestModel.cs:324-343 | Every row has one element per list, drawn from that list |
| Products.ProductMember | ObST.Tester/Domain/TestModel.cs:324-343 | Element j of any row is a member of list j |
| Products.ProductIndex | ObST.Tester/Domain/TestModel.cs:330-340 | Element k of row i is the element of list k at (i divided by the product of the later lengths) modulo its own length |
| Products.PrependAt | ObST.Tester/Domain/TestModel.cs:330-340 | Prefixing element a to row b of the rest gives row a times the row count plus b |
| Queries.MergedMembers | ObST.Tester/Domain/TestModel.cs:226-234 | A binding is merged exactly when some product row merges to it |
| Queries.MatchingAgrees | ObST.Tester/Domain/TestModel.cs:192-235 | Every result binding holds every entry of some agreeing row of the gathered lists |
| Queries.AbsentConstraint | ObST.Tester/Domain/TestModel.cs:201-215 | A single constraint with no instance: required gives no binding, optional gives the one null binding |
| Queries.UnmatchedConstraint | ObST.Tester/Domain/TestModel.cs:218-221 | A single constraint whose combinations are all missing gives no binding |
| Queries.CollectSplit | ObST.Tester/Domain/TestModel.cs:196-223 | Gathering over a constraint list is gathering over a prefix and then over the rest |
| Queries.RequiredAbsent | ObST.Tester/Domain/TestModel.cs:201-215 | A required constraint anywhere in the list with no instance empties the result, unless an earlier list already binds its mapping |
| Queries.RequiredUnmatched | ObST.Tester/Domain/TestModel.cs:218-221 | A constraint anywhere in the list with no combination empties the result, under the same proviso |
| Queries.OptionalAbsent | ObST.Tester/Domain/TestModel.cs:201-215 | An optional constraint anywhere in the list with no instance: every result binding binds its mapping to null, not deleted |
| Queries.CombosSound | ObST.Tester/Domain/TestModel.cs:237-299 | Every combination binds the constraint's mapping to one of its instances, or to null only when optional, and binds nothing analyzed above it |
| Queries.PerIdSound | ObST.Tester/Domain/TestModel.cs:262-290 | Every combination built for one instance binds the mapping to that instance |
| Bindings.MergeAllAgree | ObST.Tester/Domain/TestModel.cs:301-322 | The merge succeeds exactly when the bindings agree, and then holds every key of every binding with its entry |
| Bindings.MergeAllKeys | ObST.Tester/Domain/TestModel.cs:301-322 | Every merged key comes from some binding |
| Bindings.MergeAllPrefixFails | ObST.Tester/Domain/TestModel.cs:309-316 | A clash in a prefix makes the whole merge fail |
| Links.LinkChildEffect | ObST.Tester/Core/Models/PropertyConstraint.cs:24-34 | The child is filed under its mapping among the parent's children and the parent under its mapping among the child's parents; ids kept |
| Links.LinkChildFrame | ObST.Tester/Core/Models/PropertyConstraint.cs:24-34 | No other node changes, and no node's mapping, required flag or data changes |
| Links.LinkChildKeyed | ObST.Tester/Core/Models/PropertyConstraint.cs:24-34 | Linking keeps every link filed under the linked node's own mapping |
| Links.LinkChildIdempotent | ObST.Tester/Core/Models/PropertyConstraint.cs:24-34 | Linking the same pair twice is linking it once |
| Links.RelinkOverwritesParent | ObST.Tester/Core/Models/PropertyConstraint.cs:30-33 | A second parent of the same mapping replaces the first in the child's parents, while both keep the child |
| Links.RemoveParent | ObST.Tester/Core/Models/PropertyConstraint.cs:39-43 | KeyNotFound exactly when the parent key or the back link is missing; otherwise both directions are removed and nothing else changes |
| Links.RemoveParentUndoesLink | ObST.Tester/Core/Models/PropertyConstraint.cs:39-43 | Removing a fresh link restores the graph before it |
| Links.RemoveParents | ObST.Tester/Core/Models/PropertyConstraint.cs:48-56 | A sequence of removals keeps the ids and closedness |
| Links.Removals | ObST.Tester/Core/Models/PropertyConstraint.cs:50-55 | Every removal names a node of the graph |
| Links.RemoveAllRelationsAsWritten | ObST.Tester/Core/Models/PropertyConstraint.cs:48-56 | As written, on success the ids are kept |
| Links.RemoveAllRelations | ObST.Tester/Core/Models/PropertyConstraint.cs:48-56 | Corrected, on success the ids are kept |
| Links.RemoveAllRelationsAsWrittenFails | ObST.Tester/Core/Models/PropertyConstraint.cs:53-55 | On a pet with a collar, the code as written throws KeyNotFound |
| Links.RemoveAllRelationsDetachesChild | ObST.Tester/Core/Models/PropertyConstraint.cs:48-56 | On a pet with a collar, the corrected code detaches the collar from the pet |
| Links.CreateCopy | ObST.Tester/Core/Models/PropertyConstraint.cs:67-82 | Fails exactly when two constraints share a mapping or a parent is not among them; otherwise a copy linked as the input, one id per constraint |
| Links.LinkEach | ObST.Tester/Core/Models/PropertyConstraint.cs:74-80 | The linking loop fails exactly when some parent is not listed, and otherwise builds the copy |
| Links.LinkParentsOf | ObST.Tester/Core/Models/PropertyConstraint.cs:76-79 | One constraint's parents are linked, failing exactly when one is not listed |
| GeneratorOptions.AddEntry | ObST.Tester/Core/Models/TestParameterGeneratorOption.cs:16-23 | Argument exactly when the key is present; otherwise the new entry is found and the others keep their entries |
| GeneratorOptions.AddAllAppends | ObST.Tester/Core/Models/TestParameterGeneratorOption.cs:16-23 | Adding a list succeeds exactly when its keys are distinct and new, and then appends it; the only exception is Argument |
| GeneratorOptions.SameOptionIff | ObST.Tester/Core/Models/TestParameterGeneratorOption.cs:30-37 | The typed Equals holds exactly when both options give every key the same entry |
| GeneratorOptions.SameOptionReordered | ObST.Tester.Test/Core/Models/TestParameterGeneratorOptionEqualityTest.cs:50-68 | Options with the same entries in another order are equal |
| GeneratorOptions.SameOptionDiffers | ObST.Tester.Test/Core/Models/TestParameterGeneratorOptionEqualityTest.cs:110-147 | Options that differ in one key's entry are not equal |
| GeneratorOptions.EqualHash | ObST.Tester/Core/Models/TestParameterGeneratorOption.cs:39-49 | Equal options hash equally, for any combining function |
| GeneratorOptions.GeneratorOption.constructor | ObST.Tester/Core/Models/TestParameterGeneratorOption.cs:6-9 | A new option has no entries |
| GeneratorOptions.GeneratorOption.FromEntries | ObST.Tester/Core/Models/TestParameterGeneratorOption.cs:11-14 | The option holds exactly the given entries |
| GeneratorOptions.GeneratorOption.Add | ObST.Tester/Core/Models/TestParameterGeneratorOption.cs:16-19 | Argument when the mapping is present, with entries unchanged; otherwise the entry with the mode and a null constant is appended |
| GeneratorOptions.GeneratorOption.AddConstant | ObST.Tester/Core/Models/TestParameterGeneratorOption.cs:20-23 | Argument when the mapping is present, with entries unchanged; otherwise the UseConstant entry is appended |
| GeneratorOptions.EqualsObjectIsIdentity | ObST.Tester/Core/Models/TestParameterGeneratorOption.cs:25-28 | Two options built alike are equal by the typed Equals both ways but not by Equals(object) (see Findings) |
| Coverage.CoverageTracker.constructor | ObST.Tester/Domain/CoverageTracker.cs:10 | A new tracker has seen nothing |
| Coverage.CoverageTracker.AddTracking | ObST.Tester/Domain/CoverageTracker.cs:12-23 | The status code is added to the codes seen for the operation, and every other operation keeps its codes |
| Coverage.CoverageTracker.ResultOf | ObST.Tester/Domain/CoverageTracker.cs:25-43 | No result exactly when an operation lacks responses or an id; otherwise covered is the documented codes seen and notDocumented the seen codes not documented |
| Coverage.CoverageTracker.CalculateCoverage | ObST.Tester/Domain/CoverageTracker.cs:25-43 | At most one result per operation, with covered within the documented codes and disjoint from notDocumented |
| Coverage.CoverageTracker.NeverRun | ObST.Tester/Domain/CoverageTracker.cs:25-43 | An operation never tracked has nothing covered and nothing undocumented |
| Coverage.CoverageTracker.CoveragePartitionsSeen | ObST.Tester/Domain/CoverageTracker.cs:25-43 | Covered and notDocumented split the codes seen for each operation |
| FastFail.ToFastFailProperty | ObST.Tester/Domain/Util/FastFailPropertyExtention.cs:8-11 | The success flag is the condition and agrees with the property |
| FastFail.FastFailWhen | ObST.Tester/Domain/Util/FastFailPropertyExtention.cs:13-16 | Succeeds exactly when the condition is false or the property holds |
| FastFail.AndF | ObST.Tester/Domain/Util/FastFailPropertyExtention.cs:18-21 | Succeeds exactly when both do; keeps both labels and consistency |
| FastFail.OrF | ObST.Tester/Domain/Util/FastFailPropertyExtention.cs:22-25 | Succeeds exactly when either does; keeps consistency |
| FastFail.Label | ObST.Tester/Domain/Util/FastFailPropertyExtention.cs:27-30 | Keeps the success flag and puts the label in front |
| FastFail.FastFailLabel | ObST.Tester/Domain/Util/FastFailPropertyExtention.cs:32-35 | Success is the condition, with that one label |
| FastFail.BuildConsistent | ObST.Tester/Domain/Util/FastFailProperty.cs:7-10 | Any property built with these combinators has a success flag that agrees with the property |
| IdMappings.AddIdMapping | ObST.Core/Util/IdMappingExtention.cs:7-10 | The resource name followed by the id suffix |
| IdMappings.AddIdMappingIsIdMapping | ObST.Core/Util/IdMappingExtention.cs:12-15 | An added mapping is recognised as an id mapping |
| IdMappings.IsIdMappingIffAdded | ObST.Core/Util/IdMappingExtention.cs:12-15 | A string is an id mapping exactly when it is some name with the suffix added |
| IdMappings.AddIdMappingInjective | ObST.Core/Util/IdMappingExtention.cs:7-10 | Different names give different mappings |
| OperationValues.Unused | ObST.Tester/Core/Models/SutOperationValues.cs:38-52 | Every value, none of them used yet |
| OperationValues.SutOperationValues.constructor | ObST.Tester/Core/Models/SutOperationValues.cs:38-52 | Unused values, empty request collections, and the given options and identity |
| OperationValues.SutOperationValues.UseParameter | ObST.Tester/Core/Models/SutOperationValues.cs:54-61 | The value is returned and the location is appended to its uses; KeyNotFound when unknown, with nothing changed |
| OperationValues.SutOperationValues.GetUsedParameter | ObST.Tester/Core/Models/SutOperationValues.cs:63-66 | The value with its uses, or KeyNotFound exactly when unknown |
| OperationValues.UseTwice | ObST.Tester/Core/Models/SutOperationValues.cs:54-61 | Using a parameter twice gives the same value both times and keeps the known mappings |
| ResourceClasses.Innermost | ObST.Analyzer/Core/Models/ResourceClass.cs:28-42 | The class at the bottom of the nesting |
| ResourceClasses.EqualIffSame | ObST.Analyzer/Core/Models/ResourceClass.cs:18-21 | Equals holds exactly when name and nesting are the same |
| ResourceClasses.SubordinateMatters | ObST.Analyzer.Test/Core/Models/ResourceClassEqualityTest.cs:86-104 | A nested and an unnested class are never equal |
| ResourceClasses.EqualImpliesSameHash | ObST.Analyzer/Core/Models/ResourceClass.cs:23-26 | Equal classes hash equally |
| ResourceClasses.ToStringShape | ObST.Analyzer/Core/Models/ResourceClass.cs:28-42 | The innermost name, or the missing-name text, wrapped in one bracket pair per nesting level |
| AnalyzerUtil.NotOverridden | ObST.Analyzer/Domain/AnalyzerUtil.cs:8-18 | Exactly the path parameters no operation parameter overrides |
| AnalyzerUtil.Merge | ObST.Analyzer/Domain/AnalyzerUtil.cs:8-18 | The surviving path parameters followed by all operation parameters |
| AnalyzerUtil.MergeKeepsOrder | ObST.Analyzer/Domain/AnalyzerUtil.cs:8-18 | The surviving path parameters keep their order |
| PathsAnalyzer.Split | ObST.Analyzer/Domain/PathsAnalyzer.cs:174 | At least one piece, none holding the separator |
| PathsAnalyzer.JoinSplit | ObST.Analyzer/Domain/PathsAnalyzer.cs:174 | Joining the pieces again gives the string back |
| PathsAnalyzer.GetPathParameters | ObST.Analyzer/Domain/PathsAnalyzer.cs:172-202 | Argument exactly when a segment is malformed; otherwise the clean path, the parameters and whether the last segment is one |
| PathsAnalyzer.AnalyzeSegments | ObST.Analyzer/Domain/PathsAnalyzer.cs:176-199 | The segment loop computes the same |
| PathsAnalyzer.ParametersMatchSegments | ObST.Analyzer/Domain/PathsAnalyzer.cs:180-190 | One parameter per parameter segment, named by the text between its braces, with a partial path that ends in /{?} and is a prefix of the clean path |
| PathsAnalyzer.LiteralPathIsClean | ObST.Analyzer/Domain/PathsAnalyzer.cs:172-202 | A path without parameters cleans to its own segments, each after a slash |
| CoreModels.FlagsNest | ObST.Tester/Core/Models/UniqueParameter.cs:35-43 | Upsert includes create, create includes self reference, self reference includes reference, and not the other way round |
| CoreModels.OrCreate | ObST.Tester/Domain/Util/TestConfigurationExtention.cs:102-106 | Or-ing create into a self reference gives create, and keeps upsert |
| CoreModels.OriginMarker | ObST.Tester/Core/Models/UniqueParameter.cs:23 | The marker is empty exactly for optional parameters; a required one gets a star for create, a caret for upsert and an exclamation mark otherwise |
| CoreModels.RenderShape | ObST.Tester/Core/Models/UniqueParameter.cs:21-32 | A root renders as its mapping and marker first; a child renders in parentheses and ends with ")>", its mapping and its marker |
| CoreModels.RenderFuel | ObST.Tester/Core/Models/UniqueParameter.cs:21-32 | A rendering that completes does not change with more recursion depth |
| CoreModels.RenderOneParent | ObST.Tester/Core/Models/UniqueParameter.cs:31 | A single parent renders as its own text |
| CoreModels.RenderChildOfRoot | ObST.Tester/Core/Models/UniqueParameter.cs:21-32 | An optional child b of a required self reference a renders as (a!)>b, and a as a! |
| CoreModels.Needs | ObST.Tester/Core/Models/SutOperation.cs:39-42 | Exactly the unique parameters whose type is Reference or SelfReference itself |
| CoreModels.NeedsSubList | ObST.Tester/Core/Models/SutOperation.cs:39-42 | The needs keep the order of the unique parameters |
| CoreModels.NeedsAll | ObST.Tester/Core/Models/SutOperation.cs:39-42 | A list of needs alone is its own GetNeeds |
| CoreModels.NotNeeds | ObST.Tester/Core/Models/SutOperation.cs:39-42 | A parameter of type ResourceRepresentation, SelfReferenceCreate or SelfReferenceUpsert is not a need |
| IdentityFilter.FilterValidIdentities | ObST.Tester/Domain/Util/TestConfigurationExtention.cs:414-441 | Computes ValidIdentities: without requirements every identity; otherwise the identities other than the null identity that satisfy one of the requirements, and NotSupported for a requirement with more than one entry (see the lemmas below) |
| IdentityFilter.NoRequirementsAdmitAll | ObST.Tester/Domain/Util/TestConfigurationExtention.cs:416-417 | Without requirements every identity is valid |
| IdentityFilter.EmptyRequirementAdmitsAll | ObST.Tester/Domain/Util/TestConfigurationExtention.cs:423-425 | An empty requirement admits every identity |
| IdentityFilter.CompoundRequirementThrows | ObST.Tester/Domain/Util/TestConfigurationExtention.cs:427-428 | A requirement naming several schemes throws NotSupported |
| IdentityFilter.SingleRequirements | ObST.Tester/Domain/Util/TestConfigurationExtention.cs:414-441 | With single-scheme requirements, an identity is kept exactly when it is not the null identity and satisfies one of them |
| IdentityFilter.SatisfyingIdentities | ObST.Tester/Domain/Util/TestConfigurationExtention.cs:414-441 | The valid identities are exactly the listed ones, other than the null identity, that have some required scheme with all its scopes |
| IdentityFilter.ValidAreListed | ObST.Tester/Domain/Util/TestConfigurationExtention.cs:414-441 | Every valid identity is a listed identity |
| Oracles.Except | ObST.Tester/Domain/Operation/OnExistingResourceOperation.cs:54-56 | Exactly the unique parameters that are not needs, without duplicates |
| Oracles.GetGeneratorOptions | ObST.Tester/Domain/Operation/OnExistingResourceOperation.cs:50-75 | Equals OptionsSpec for the oracle kind and the model |
| Oracles.BaseClash | ObST.Tester/Domain/Operation/OnExistingResourceOperation.cs:56-57 | The base option throws Argument exactly when two non-need parameters share a mapping |
| Oracles.BaseOption | ObST.Tester/Domain/Operation/OnExistingResourceOperation.cs:56-57 | The base option gives each non-need parameter RequireUnknown when it is a self reference and Random otherwise, with a null constant |
| Oracles.ExistingWithoutNeeds | ObST.Tester.Test/Domain/Operation/OnExistingResourceOperation_GeneratorOptionsTest.cs:15-34 | With no needs the existing oracle offers exactly the base option |
| Oracles.NoNeedsNoOptions | ObST.Tester/Domain/Operation/OnDeletedResourceOperation.cs:34-61 | With no needs the deleted and unknown oracles offer no option |
| Oracles.UnknownSingleOption | ObST.Tester/Domain/Operation/OnUnknownResourceOperation.cs:34-144 | The unknown oracle offers one option independent of the model: RequireUnknown for needs, Random for the rest |
| Oracles.KeptOption | ObST.Tester/Domain/Operation/OnExistingResourceOperation.cs:63-74 | Each option is the base option plus the constants of one matching binding the oracle keeps: for an existing resource one with no deleted id |
| Oracles.KeptComplete | ObST.Tester.Test/Domain/Operation/OnExistingResourceOperation_GeneratorOptionsTest.cs:123-166 | Every kept subset has its option |
| Oracles.RequiredNeedUnknown | ObST.Tester.Test/Domain/Operation/OnExistingResourceOperation_GeneratorOptionsTest.cs:15-34 | A single required need with no instance: the existing oracle offers no option |
| Oracles.RequiredNeedAbsent | ObST.Tester/Domain/Operation/OnExistingResourceOperation.cs:50-75 | A required need anywhere in the list with no instance: the existing oracle offers no option |
| Oracles.ExistingVerdict | ObST.Tester/Domain/Operation/OnExistingResourceOperation.cs:36-42 | Passes exactly for a non-GET, a success status, or a 400 or 422 when not strict |
| Oracles.UnknownVerdict | ObST.Tester/Domain/Operation/OnUnknownResourceOperation.cs:16-22 | Passes exactly for 404, or a 400 or 422 when not strict |
| Oracles.DeletedVerdict | ObST.Tester/Domain/Operation/OnDeletedResourceOperation.cs:16-22 | Passes exactly for 404 or 410, or a 400 or 422 when not strict |
| ParameterCompiler.PathParametersFirst | ObST.Tester/Domain/Util/TestConfigurationExtention.cs:112-117 | The path parameters come first, in declared order |
| ParameterCompiler.CheckParents | ObST.Tester/Domain/Util/TestConfigurationExtention.cs:146-157 | The loop decides SameParents |
| ParameterCompiler.NestedPutMissesUpsert | ObST.Tester/Domain/Util/TestConfigurationExtention.cs:192-193 | For a PUT with a nested last path mapping, the code as written sets no upsert while the corrected code does (see Findings) |
| ParameterCompiler.ToSutParameters | ObST.Tester/Domain/Util/TestConfigurationExtention.cs:94-213 | Computes Compile: the compiled parameters, chains and links of an operation, or the error the source throws for an inconsistent configuration |
| ParameterCompiler.CompileAll | ObST.Tester/Domain/Util/TestConfigurationExtention.cs:119-195 | The parameter loop equals Run |
| ParameterCompiler.CompileParameter | ObST.Tester/Domain/Util/TestConfigurationExtention.cs:121-194 | One pass equals Step |
| ParameterCompiler.UpdateUnique | ObST.Tester/Domain/Util/TestConfigurationExtention.cs:175-194 | The mapping's flags are updated, and a new mapping is remembered in first-seen order |
| ParameterCompiler.MergeParents | ObST.Tester/Domain/Util/TestConfigurationExtention.cs:135-160 | Computes Chains: a chain of at most one parent adds nothing, a new mapping gets its chain, and an existing chain is merged, keeping the longer one when the shorter agrees with its end and failing with Argument otherwise |
| ParameterCompiler.LinkParents | ObST.Tester/Domain/Util/TestConfigurationExtention.cs:197-209 | Computes Links: every consecutive pair of each named chain becomes a parent link, and a pair naming something that is not a unique parameter fails with Argument |
| ParameterCompiler.MergeChainSuffix | ObST.Tester/Domain/Util/TestConfigurationExtention.cs:138-160 | Two parent chains merge exactly when one is a suffix of the other, keeping the longer; otherwise Argument |
| ParameterCompiler.RunGrows | ObST.Tester/Domain/Util/TestConfigurationExtention.cs:119-195 | The loop only adds flags, and one parameter per declared parameter |
| ParameterCompiler.ParameterFlags | ObST.Tester/Domain/Util/TestConfigurationExtention.cs:167-194 | Each compiled parameter keeps its location and name and is required when in the path or declared required; its unique parameter is required when in the path or declared required and not nullable, is in the resource identifier when in the path or the query, and is marked upsert when it is the upsert target (corrected as in Findings) |
| ParameterCompiler.PathMappings | ObST.Tester/Domain/Util/TestConfigurationExtention.cs:123-136 | Path parameter i takes the own mapping of path mapping i |
| ParameterCompiler.TooFewPathMappings | ObST.Tester/Domain/Util/TestConfigurationExtention.cs:123-125 | More path parameters than path mappings throws |
| ParameterCompiler.UpsertOnLastPathParameter | ObST.Tester/Domain/Util/TestConfigurationExtention.cs:192-194 | For a creating PUT, the last path parameter's mapping is marked upsert |
| ParameterCompiler.BodyFlagsKept | ObST.Tester/Domain/Util/TestConfigurationExtention.cs:175-184 | Flags already gathered from the body are kept |
| ParameterCompiler.ChainLinksShape | ObST.Tester/Domain/Util/TestConfigurationExtention.cs:197-209 | Linking a chain succeeds exactly when every mapping in it is known, giving one link per step |
| ParameterCompiler.LinksJoinUniques | ObST.Tester/Domain/Util/TestConfigurationExtention.cs:197-209 | Every link joins two known unique parameters |
| ParameterOrder.FirstParent | ObST.Tester/Domain/Util/TestConfigurationExtention.cs:448-456 | The parent of the first link recorded for the mapping |
| ParameterOrder.CompareByDepth | ObST.Tester/Domain/Util/TestConfigurationExtention.cs:448-456 | The comparer is the sign of the difference of parent-chain depths |
| ParameterOrder.CompareAntisymmetric | ObST.Tester/Domain/Util/TestConfigurationExtention.cs:448-456 | Swapping the arguments negates the comparison |
| ParameterOrder.InsertSorted | ObST.Tester/Domain/Util/TestConfigurationExtention.cs:212 | Insertion keeps the list sorted by rank |
| ParameterOrder.SortBy | ObST.Tester/Domain/Util/TestConfigurationExtention.cs:212 | Sorted by rank, a permutation, and stable within each rank |
| ParameterOrder.OrderedDepths | ObST.Tester/Domain/Util/TestConfigurationExtention.cs:212 | Every ordered parameter has a depth, non-decreasing along the order |
| ParameterOrder.OrderedByComparer | ObST.Tester/Domain/Util/TestConfigurationExtention.cs:212 | Earlier parameters never compare greater than later ones |
| ParameterOrder.RootsFirst | ObST.Tester/Domain/Util/TestConfigurationExtention.cs:212 | A parameter with a parent never precedes one without |
| SchemaFilter.Distinct | ObST.Tester/Domain/Util/TestConfigurationExtention.cs:346 | The same members without duplicates |
| SchemaFilter.FilterSchema | ObST.Tester/Domain/Util/TestConfigurationExtention.cs:326-412 | Computes Filtered: the schema with every property excluded for the direction removed at any depth, allOf members merged, or nothing when the schema itself is excluded (see FilteredClean and FilteredAwayIff) |
| SchemaFilter.FilteredClean | ObST.Tester/Domain/Util/TestConfigurationExtention.cs:326-412 | A filtered schema holds no property excluded for its direction, at any depth |
| SchemaFilter.FilteredPropsEntries | ObST.Tester/Domain/Util/TestConfigurationExtention.cs:401 | Exactly the properties whose filtered schema survives, with it |
| SchemaFilter.MergeExcluded | ObST.Tester/Domain/Util/TestConfigurationExtention.cs:341-376 | A merged allOf is excluded only when one member is |
| SchemaFilter.FilteredAwayIff | ObST.Tester/Domain/Util/TestConfigurationExtention.cs:326-412 | A schema is dropped exactly when it is excluded or an allOf member is |
| SchemaFilter.MergeKeys | ObST.Tester/Domain/Util/TestConfigurationExtention.cs:359-363 | The merged properties are those of the start and of every member |
| SchemaFilter.OverrideKeys | ObST.Tester/Domain/Util/TestConfigurationExtention.cs:360-363 | Merging keeps every key, and a later member's property wins |
| SchemaFilter.MergeEnum | ObST.Tester/Domain/Util/TestConfigurationExtention.cs:345-346 | The merged enumeration exists exactly when a member has one and holds exactly their values |
| Text.ToLower | ObST.Tester/Domain/Util/TestConfigurationExtention.cs:31 | Same length, each character lowered |
| Text.ToLowerIdempotent | ObST.Tester/Domain/Util/TestConfigurationExtention.cs:31 | Lowering twice is lowering once |
| Text.ParseNatToString | ObST.Tester/Domain/CoverageTracker.cs:17-20 | Printing a status code and parsing it back gives the code |
| Generator.ConvertKeepsNonStrings | ObST.Tester/Domain/TestParameterGenerator.cs:299-312 | Non-string values pass through unchanged |
| Generator.ConvertIntegerText | ObST.Tester/Domain/TestParameterGenerator.cs:299-312 | The text of an integer converts back to that integer |
| Generator.ConvertBooleanText | ObST.Tester/Domain/TestParameterGenerator.cs:299-312 | The text of a boolean converts back to it; other text throws Format |
| Generator.ConvertStringText | ObST.Tester/Domain/TestParameterGenerator.cs:299-312 | A string stays a string for string type; text not ending in a digit throws Format for integer type |
| Generator.RandomValues | ObST.Tester/Domain/TestParameterGenerator.cs:259-297 | Never null; an enumeration gives exactly its elements; int64 without bounds stays in the int32 range |
| Generator.FirstParent | ObST.Tester/Domain/TestParameterGenerator.cs:208-210 | A parent of the node in the graph |
| Generator.AncestryShape | ObST.Tester/Domain/TestParameterGenerator.cs:204-215 | The first-parent chain from a root down to the node's parent, empty exactly for a root |
| Generator.OtherIdsPairs | ObST.Tester/Domain/TestParameterGenerator.cs:212-214 | Succeeds exactly when every ancestor has a value, pairing each mapping with its value's text |
| Generator.OtherIdsMissing | ObST.Tester/Domain/TestParameterGenerator.cs:212-214 | An ancestor without a value throws KeyNotFound |
| Generator.Ancestors | ObST.Tester/Domain/TestParameterGenerator.cs:204-215 | Pairs each ancestor on the first-parent chain from the root with the text of its value, failing with KeyNotFound when an ancestor has none (equals OtherIds over the ancestry) |
| Generator.GetGenerator | ObST.Tester/Domain/TestParameterGenerator.cs:200-257 | The generator built from the model object is GeneratorSpec of its nodes and state: KeyNotFound when an ancestor has no value; for UseConstant only the constant; otherwise the random generator and the ids the model knows under the ancestors, combined as the mode says; null added for a nullable schema. UseConstantOnly, RequireUnknownAvoidsKnown and RandomOffersKnown state what each mode yields |
| Generator.UseConstantOnly | ObST.Tester/Domain/TestParameterGenerator.cs:243-245 | UseConstant gives only the constant, or null for a nullable schema |
| Generator.FilteredAvoidsKnown | ObST.Tester/Domain/TestParameterGenerator.cs:241 | The corrected filter never yields a known id |
| Generator.RequireUnknownAvoidsKnown | ObST.Tester/Domain/TestParameterGenerator.cs:236-242 | RequireUnknown never yields an id the model knows under the ancestors |
| Generator.RandomOffersKnown | ObST.Tester/Domain/TestParameterGenerator.cs:221-235 | Random can yield every known id when known ids are enabled |
| Generator.KnownNumberPassesAsWritten | ObST.Tester/Domain/TestParameterGenerator.cs:241 | A random integer equal to a known numeric id passes the filter as written but not the corrected one (see Findings) |
| Generator.UnknownAgreesOnStrings | ObST.Tester/Domain/TestParameterGenerator.cs:241 | On string values the filter as written and the corrected one agree |
| Generator.NewOperationValues | ObST.Tester/Domain/TestParameterGenerator.cs:88-90 | Fresh values with the option and identity, permissions exactly when the identity is valid, and nothing used |
| Generator.IdentityChoice | ObST.Tester/Domain/TestParameterGenerator.cs:70-86 | Without invalid identities only valid ones are picked; with them, any listed identity can be |
| Generator.NoValidIdentities | ObST.Tester/Domain/TestParameterGenerator.cs:70-86 | With no valid identity any listed identity can be picked |
| Generator.DefaultIncludesAll | ObST.Tester/Domain/TestParameterGenerator.cs:128-133 | With no frequency for leaving optional parameters out, every parameter is included |
| Generator.GenParams | ObST.Tester/Domain/TestParameterGenerator.cs:93-137 | The new request state equals GenAll, or its exception |
| Generator.PathInDeclaredOrder | ObST.Tester/Domain/TestParameterGenerator.cs:97-126 | Path texts are appended in declared order |
| Generator.NamedValuesKept | ObST.Tester/Domain/TestParameterGenerator.cs:108-122 | Query, header and cookie values already set are kept |
| Generator.QueryKeyedByName | ObST.Tester/Domain/TestParameterGenerator.cs:106-112 | An included query parameter is stored under its name with its rendered text |
| Generator.NullValues | ObST.Tester/Domain/TestParameterGenerator.cs:103-106 | A null value renders as nothing, or as empty text when nullable |
| Generator.LeftOutUntouched | ObST.Tester/Domain/TestParameterGenerator.cs:128-133 | Leaving every parameter out changes nothing |
| TestConfigurations.LookupsFind | ObST.Tester/Domain/Util/TestConfigurationExtention.cs:30-33 | A found entry is present, exactly or up to case |
| TestConfigurations.GetIdsOfPath | ObST.Tester/Domain/Util/TestConfigurationExtention.cs:15-50 | Computes IdsOfPath: the identifier captured by every placeholder segment along the configured path, no ids without configured paths, Argument for a segment that matches nothing |
| TestConfigurations.NoPathsNoIds | ObST.Tester/Domain/Util/TestConfigurationExtention.cs:19-22 | Without configured paths there are no ids |
| TestConfigurations.LiteralWins | ObST.Tester/Domain/Util/TestConfigurationExtention.cs:30-38 | A literal segment is matched before a placeholder |
| TestConfigurations.PlaceholderCaptures | ObST.Tester/Domain/Util/TestConfigurationExtention.cs:35-41 | A placeholder captures the segment under the name between its braces |
| TestConfigurations.UnmatchedSegmentThrows | ObST.Tester/Domain/Util/TestConfigurationExtention.cs:42-43 | A segment with no match throws Argument |
| TestConfigurations.CaseFolding | ObST.Tester/Domain/Util/TestConfigurationExtention.cs:30-31 | Case-insensitive matching finds an entry differing only in case |
| TestConfigurations.CapturesAreSegments | ObST.Tester/Domain/Util/TestConfigurationExtention.cs:15-50 | At most one capture per segment, each a segment of the path |
| TestConfigurations.UnknownPath | ObST.Tester.Test/Domain/Util/TestConfiguration_GetIdsOfPath_Test.cs:40-51 | An unknown path throws Argument |
| TestConfigurations.PathWithoutIds | ObST.Tester.Test/Domain/Util/TestConfiguration_GetIdsOfPath_Test.cs:53-64 | A path without placeholders gives no ids |
| TestConfigurations.SingleId | ObST.Tester.Test/Domain/Util/TestConfiguration_GetIdsOfPath_Test.cs:66-77 | A player path gives the player id |
| TestConfigurations.UnmatchingCase | ObST.Tester.Test/Domain/Util/TestConfiguration_GetIdsOfPath_Test.cs:79-90 | A case mismatch throws when matching is case-sensitive |
| TestConfigurations.IgnoredCase | ObST.Tester.Test/Domain/Util/TestConfiguration_GetIdsOfPath_Test.cs:92-103 | A case mismatch is accepted when matching ignores case |
| Operations.RunActual | ObST.Tester/Domain/Operation/TestOperation.cs:124-157 | A body matches only when the response is documented with a schema, and the result names that schema exactly when the body matched it |
| Operations.MatchNeedsDocumentedContent | ObST.Tester/Domain/Operation/TestOperation.cs:139-145 | The body matches exactly when the status is documented with a schema and a content type, that content type came back with a non-empty body, and ParseBody accepts it |
| Operations.ResponseDocLookup | ObST.Tester/Domain/Operation/TestOperation.cs:189-199 | The exact status entry, or else the status-class entry |
| Operations.NotFoundByClass | ObST.Tester/Domain/Operation/TestOperation.cs:189-199 | A 404 uses the 4XX entry |
| Operations.BasePropertyHolds | ObST.Tester/Domain/Operation/TestOperation.cs:49-81 | No server error, no 400 or 422 when strict, and the documented response when required |
| Operations.ServerErrorFails | ObST.Tester/Domain/Operation/TestOperation.cs:51 | A 5xx always fails |
| Operations.UnpermittedNeedsForbiddenOrNotFound | ObST.Tester/Domain/Operation/TestOperation.cs:86-91 | Without all permissions it passes exactly for 403 or 404 on top of the base property |
| Operations.PermittedAsksOracle | ObST.Tester/Domain/Operation/TestOperation.cs:84-85 | With all permissions it passes exactly when the base property and the oracle's verdict do |
| Operations.BadRequestOnlyWhenStrict | ObST.Tester/Domain/Operation/TestOperation.cs:53-68 | Strict fails the base property on 400 or 422; not strict without documentation checks passes it |
| Operations.PathValuesZip | ObST.Tester/Domain/Operation/TestOperation.cs:119-122 | Succeeds exactly when there are enough path values, pairing each path parameter's mapping with its value |
| Operations.PreIff | ObST.Tester/Domain/Operation/TestOperation.cs:99-110 | Holds exactly when options exist and, if values were set, one equals the option they used |
| Operations.PreIgnoresEntryOrder | ObST.Tester/Domain/Operation/TestOperation.cs:99-110 | Reordering the used option's entries does not change the verdict |
| Operations.TestOperation.constructor | ObST.Tester/Domain/Operation/TestOperation.cs:26-31 | The operation, oracle and configuration are kept, and no values are set |
| Operations.TestOperation.SetParameters | ObST.Tester/Domain/Operation/TestOperation.cs:35-38 | The values are set |
| Operations.TestOperation.Run | ObST.Tester/Domain/Operation/TestOperation.cs:94-97 | A fresh valid copy, failing exactly when the copy does |
| Operations.TestOperation.Pre | ObST.Tester/Domain/Operation/TestOperation.cs:99-110 | Computes PreSpec over the oracle's options: inapplicable without options or when the option the values used is not among them, and the error of the options passed on (see PreIff) |
| Operations.TestOperation.RecordExisting | ObST.Tester/Domain/Operation/OnExistingResourceOperation.cs:19-34 | Nothing on failure; for a 201 with a Location its ids are added first; then a DELETE of an item deletes it, or a matching body is searched for ids |
| Operations.TestOperation.RecordBody | ObST.Tester/Domain/Operation/OnExistingResourceOperation.cs:25-33 | The DELETE effect or the id search after the Location, with too few path values throwing first |
| Operations.TestOperation.CheckWithFastFail | ObST.Tester/Domain/Operation/TestOperation.cs:45-92 | The property equals CheckSpec; the model changes only for a permitted existing-resource check, as RecordExisting says |
| Operations.ApplyIdentity | ObST.Tester/Domain/Operation/TestOperation.cs:159-187 | An API key goes where it says, an OpenID Connect token into the Authorization header; an API key without a name throws Argument (the null dictionary key), another location InvalidOperation, other schemes NotSupported, and a throw changes no values; unique parameters and path unchanged |
| Orchestrator.WeightOrder | ObST.Tester/Domain/TestSpec.cs:54 | Creating operations weigh most, then GETs, and DELETEs least |
| Orchestrator.ExistingRegistry | ObST.Tester/Domain/TestSpec.cs:56 | Every operation is registered for the existing oracle with its weight |
| Orchestrator.ResourceRegistry | ObST.Tester/Domain/TestSpec.cs:58-62 | Exactly the resource-identifying operations are registered for the unknown and deleted oracles with weight 1 |
| Orchestrator.Register | ObST.Tester/Domain/TestSpec.cs:26-64 | The three registries are those functions |
| Orchestrator.TestSpec.constructor | ObST.Tester/Domain/TestSpec.cs:26-64 | The constructed registries are those functions |
| Orchestrator.ClassesOffered | ObST.Tester/Domain/TestSpec.cs:83-90 | Non-empty classes of weight 90, 2 and 8 offer exactly the existing, unknown and deleted entries |
| Orchestrator.FilterIff | ObST.Tester/Domain/TestSpec.cs:77-79 | An entry is kept exactly when its precondition holds |
| Orchestrator.FilterThrows | ObST.Tester/Domain/TestSpec.cs:77-79 | A precondition that throws makes the filter throw |
| Orchestrator.NextOffersEnabled | ObST.Tester/Domain/TestSpec.cs:75-101 | Next offers exactly the enabled entries of each class |
| Orchestrator.GenCommandsStops | ObST.Tester/Domain/TestSpec.cs:144-173 | The run is a prefix of the checks, bounded by the size, ending at the first failure |
| Orchestrator.GenCommandsProperty | ObST.Tester/Domain/TestSpec.cs:144-173 | The run's property holds exactly when the start holds and every check in the run does |
| Orchestrator.RunFailsOnlyOnFailure | ObST.Tester/Domain/TestSpec.cs:144-173 | The property fails exactly when the last check of a non-empty run fails |
| Orchestrator.ChooseModels | ObST.Tester/Domain/TestSpec.cs:203-258 | Computes ChooseSpec: the operations kept in order, each one when the results provided so far cover its needs and its Pre holds, or nothing when none is kept (see ChooseNone) |
| Orchestrator.ReplayedKept | ObST.Tester/Domain/TestSpec.cs:213-234 | The kept operations are in increasing order |
| Orchestrator.KeptIff | ObST.Tester/Domain/TestSpec.cs:215-217 | An operation is kept exactly when what came before provides its needs and its precondition holds |
| Orchestrator.ChooseNone | ObST.Tester/Domain/TestSpec.cs:220-257 | No run exactly when no operation is admitted |
| Orchestrator.ShrinkCandidates | ObST.Tester/Domain/TestSpec.cs:176-201 | A shrunk run is offered exactly when shrinking is allowed and some candidate replays to it, never empty |
| Orchestrator.ShrunkIff | ObST.Tester/Domain/TestSpec.cs:185-191 | The shrunk runs are exactly the non-empty replays of the candidates |
| IdSearch.IdKey | ObST.Tester/Domain/Util/TestUtil.cs:22-26 | A property whose schema title is the mapping |
| IdSearch.WalkIdPaths | ObST.Tester/Domain/Util/TestUtil.cs:12-109 | Every path the walk adds is made of id mappings |
| IdSearch.IdentifiedObject | ObST.Tester/Domain/Util/TestUtil.cs:22-62 | An object whose first member is its id adds the id under the path first, then walks the remaining members under the extended path |
| IdSearch.TwoItems | ObST.Tester/Domain/Util/TestUtil.cs:14-18 | An array of two items adds the ids of each item in turn |
| IdSearch.PlainObjectId | ObST.Tester.Test/Domain/Util/TestUtilTest.cs:18-47 | A house with id 123 adds the house id |
| IdSearch.PlainObjectIdWithPathVariables | ObST.Tester.Test/Domain/Util/TestUtilTest.cs:85-114 | Under a city path it adds city then house |
| IdSearch.PlainObjectIdSelfCall | ObST.Tester.Test/Domain/Util/TestUtilTest.cs:116-144 | When the path already ends in the house, it is added once |
| IdSearch.PlainObjectIdNestedCall | ObST.Tester.Test/Domain/Util/TestUtilTest.cs:146-174 | When the path ends in another house, the new one is nested under it |
| IdSearch.NestedArrayChildObjectId | ObST.Tester.Test/Domain/Util/TestUtilTest.cs:176-237 | Rooms of a house are added under the house |
| IdSearch.NestedParentObjectId | ObST.Tester.Test/Domain/Util/TestUtilTest.cs:239-287 | A parent object adds the room under the house |
| IdSearch.ReferencedParentId | ObST.Tester.Test/Domain/Util/TestUtilTest.cs:352-391 | A parent reference adds the room, then the house above it |
| IdSearch.ReferencedChildId | ObST.Tester.Test/Domain/Util/TestUtilTest.cs:393-432 | A child reference adds the house, then the room below it |
| IdSearch.Replay | ObST.Tester/Domain/Util/TestUtil.cs:12-109 | Replaying the adds keeps the model valid |
| IdSearch.ReplayThen | ObST.Tester/Domain/Util/TestUtil.cs:12-109 | Replaying two walks is replaying the first, then the second unless the first threw |
| IdSearch.SearchForIds | ObST.Tester/Domain/Util/TestUtil.cs:12-109 | The model afterwards is the old one with the walk's adds replayed, stopping at the first exception |
| IdSearch.SearchObject | ObST.Tester/Domain/Util/TestUtil.cs:19-80 | The model afterwards is the old one with the object's walk replayed, stopping at the first exception |
| IdSearch.SearchItems | ObST.Tester/Domain/Util/TestUtil.cs:14-18 | The model afterwards is the old one with the walks of the array's items replayed in order, stopping at the first exception |
| IdSearch.SearchMembers | ObST.Tester/Domain/Util/TestUtil.cs:66-79 | The model afterwards is the old one with the walks of the object's members replayed in order, stopping at the first exception |
| IdSearch.ExtractIdsFromUri | ObST.Tester/Domain/Util/TestUtil.cs:111-118 | A path that does not match leaves the model unchanged with its exception; otherwise its ids are added |

## Left out

- Text.ToLower: folds ASCII letters only. It stands in for ToLowerInvariant in GetIdsOfPath (TestConfigurationExtention.cs:31), so non-ASCII case differences are not folded.
- Generator.FirstParent: takes the parent whose mapping is least in string order, not the first inserted one (Parents.FirstOrDefault, TestParameterGenerator.cs:210). Sets and maps here have no insertion order. ParameterOrder.FirstParent models the insertion order, as a list of links, where the comparer needs it.
- TestModels.FirstParent: gives some parent, not the first inserted one (TestModel.cs:69). On a new chain node there is exactly one parent, which AddStepKeeps states.
- CoreModels.RenderAll: renders parents in string order of their mappings instead of dictionary insertion order, for the same reason.
- Generator.RandomValues: ignores Minimum, Maximum, MinLength and MaxLength and the OverflowException of Convert.ToInt32 (TestParameterGenerator.cs:269-293); decimal bounds are not modelled.
- Products.ProductCount: the row count is unbounded, where CartesianProduct counts in a 32-bit int.
- Generator.IdentityChoice: SutIdentity reference equality is modelled as datatype equality.
- Domain.MarkDeleted: terminates on a child cycle, where DeleteChildren (TestModel.cs:401-409) recurses forever; see Findings.
- TestModels.AddSpec: a merge is proved only where the resolved part of the path is its first pair: for one-pair paths (AddResolvedPair, AddSamePairTwice) and for a new tail under a resolved first pair (AddUnderResolved, AddChildrenToParent); unmatched paths are covered by AddUnmatched. A resolved prefix of two or more pairs is not proved. A merged path can loop (RepeatedPairLoops), and SingleOrDefault throws on several matches.
- Oracles.RequiredNeedUnknown: stated for a single need; RequiredNeedAbsent generalises it to any position.
- Lookups.Keys: computes the corrected lookup; KeysAsWritten models the code as written (see Findings).
- ParameterCompiler.ToSutParameters: computes the corrected upsert flag (UpsertTarget), not the comparison as written at TestConfigurationExtention.cs:192-193, which UpsertTargetAsWritten models (see Findings).
- ParameterCompiler.CompileAll: uses the corrected UpsertTarget, for the same reason.
- ParameterCompiler.CompileParameter: uses the corrected UpsertTarget, for the same reason.
- ParameterCompiler.UpdateUnique: uses the corrected UpsertTarget, for the same reason.
- ParameterCompiler.ParameterFlags: states the upsert flag of the corrected UpsertTarget, for the same reason.
- Generator.GetGenerator: GeneratorSpec filters RequireUnknown with the corrected Unknown, which compares the value's text with the known ids; the filter as written at TestParameterGenerator.cs:241 is UnknownAsWritten (see Findings).
- Generator.GenParams: requires every parameter to be scalar. Object- and array-typed path, query, header and cookie parameters, which ApplyValues (TestParameterGenerator.cs:162-195) makes into a dictionary or a one-element list, are not modelled; scalar ones are.
- TestModel.ToString and PreCalculatedRun.ToString: debug text, not modelled.
- Enumeration order of HashSet and Dictionary: sets and maps are modelled and enumerated in sorted order.
- Decimal and floating-point values and bounds are not modelled.
- CoreModels.Render and Generator.Ancestry: recursion depth is bounded by a fuel equal to the graph size, and a cyclic parent graph is reported as missing.
- usedIn lists of SutOperationValues are values, so aliasing between two holders of the same list is not modelled.
- GetPathValues is a lazy enumeration in the source; here it is evaluated when read.
- Identity tokens are parameters; the IdentityConnector call that fetches them is not modelled.
- ParseLong and Convert.ToBoolean are modelled without surrounding whitespace; ParseLong accepts one leading '+' or '-', as long.Parse does, and no other sign or separator.
- Date and date-time formats are generated as arbitrary strings.
- Gen.Frequency weights only decide which generators are present, and a generator is its set of outcomes.
- GenBody for object and array bodies is not modelled; scalars are.
- GetIdPrecedors (TestParameterGenerator.cs:314-324): never called in the source.
- RemoveAllRelations (PropertyConstraint.cs:48-56): never called in the source; both versions are modelled.
- RunActual's HTTP exchange, header parsing and JSON parsing are parameters of RunActual; ParseBody's NotImplementedException for other content types and schema types is not modelled.
- HeadersMatchDoc always returns true in the source, and the model does the same.
- TestSpec: the FsCheck Setup, the dry-run ToPropertyWithoutModelDryRun and the generation plumbing of Generate are not modelled; Next, GenCommands, Shrink and ChooseModels are.
- Input and output, logging, the FsCheck runner, SutConnector, IdentityConnector, Program and Startup, the OpenAPI connector and configuration reader and writer, JsonSchemaConfigurationConverter, the analyzers other than PathsAnalyzer and AnalyzerUtil, and the TodoApi sample are outside this model.

## Findings

| source | as written | input that shows it | evidently intended | confidence | as-written member | corrected member |
|---|---|---|---|---|---|---|
| ObST.Tester/Domain/TestModel.cs:168 | Along a path of two or more pairs, Children is indexed by the target key instead of the segment's key, so a lookup through an inner node throws KeyNotFound | model house 45, room 6 under it, window 5 under the room; GetKeys with path house:id 45, room:id 6 and key window:id | index the children by each segment's own key, and use the target key only under the last node | not executed | Lookups.KeysAsWrittenFails | Lookups.GetAlong |
| ObST.Tester/Domain/Util/TestConfigurationExtention.cs:192-193 | The last path mapping is compared, with its parent chain still attached, to the mapping stripped of its chain, so a nested PUT path never gets Upsert | a creating PUT whose path mappings are Author:@id and Author:@id<Book:@id | compare with the last path mapping's own part | not executed | ParameterCompiler.NestedPutMissesUpsert | ParameterCompiler.UpsertOnLastPathParameter |
| ObST.Tester/Domain/TestParameterGenerator.cs:241 | Known ids are strings while a random integer is a boxed number, so k.Equals(o) is false and a known numeric id passes RequireUnknown | random integer 5 with the known id "5" | compare the value's text with the known ids | not executed | Generator.KnownNumberPassesAsWritten | Generator.RequireUnknownAvoidsKnown |
| ObST.Tester/Core/Models/PropertyConstraint.cs:53-55 | The children's RemoveParent is called with the child's own mapping instead of this node's, which throws KeyNotFound | a pet constraint with one collar child | remove this node's mapping from each child's parents | not executed | Links.RemoveAllRelationsAsWrittenFails | Links.RemoveAllRelationsDetachesChild |
| ObST.Tester/Core/Models/TestParameterGeneratorOption.cs:25-28 | Equals(object) compares the dictionaries by reference, so two options with the same entries are unequal through it while their hash codes agree | two options each built by adding the same mapping and mode | delegate to the entry-wise typed Equals | not executed | GeneratorOptions.EqualsObjectIsIdentity | GeneratorOptions.SameOptionIff |
| ObST.Tester/Domain/TestModel.cs:401-409 | DeleteChildren recurses without a visited set, counting on the graph having no cycle, but Add can make a node its own child, and then Delete never returns | Add of the path (a, v), (a, v) on an empty model, then Delete of (a, v) | mark each node once, stopping at nodes already marked | not executed | AddProperties.RepeatedPairLoops | Domain.MarkDeleted |
