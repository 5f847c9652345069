# A verified model of the Avenys compiler's front half

Avenys compiles Mire programs. This project models, in Dafny, the parts of the
compiler that keep state or promise something about it, and proves what they promise.

| component | files |
|---|---|
| names and syntax trees | `Wrappers`, `Sequences`, `Text`, `Ast` |
| incremental re-analysis: units and their keys, what dependency lists hold and mean, invalidation, reuse | `Dependencies`, `Lookups`, `ListedTypes`, `DependencyMeaning`, `Invalidation`, `Reuse`, `UnitNames`, `KeptRuns` |
| shared on-disk cache: opening it, sharing it, crashing, evicting | `InitLock`, `CacheTypes`, `CacheProtocol`, `CrashRecovery`, `Lru`, `CacheMemory` |
| module loader: which files, which exports, from where, in which order | `Candidates`, `BoundNames`, `ImportGraph`, `ImportExpansion`, `ImportProvenance`, `ImportResolver`, `LoadOrder` |
| module renamer, with an evaluator for the renamed language | `Renamer`, `RenamerTokens`, `RenamerScope`, `Semantics`, `RenamerMeaning`, `RenamerTwice`, `RenamerLimits` |
| ELF build ids and SHA-1 | `Bytes`, `Fips180`, `Sha1`, `Sha1Example`, `BuildId` |
| lexer | `LexicalGrammar`, `Lexer`, `TokenTexts` |
| scopes and bindings of the semantic model | `ScopeEvents`, `ScopeTree`, `ScopesWellFormed`, `ScopeOutline`, `SemanticModel` |

`dafny verify dfyconfig.toml` checks the whole project.

## What the proofs found

Some promises hold only under a condition, or fail on inputs that a caller can name.
Each has a lemma.

- **Reuse needs unique unit keys.** Two `impl` blocks of one type share a key; an edit of
  the first goes unnoticed (`TwoImplsOfOneTypeHideAnEdit`). Only the last units of a key are
  compared, which gives the condition for one kept unit (`KeptUnitIsRightExactlyWhenLast`).
- **A private top-level variable or foreign function is keyed by its printed text**, not by its
  name, so its users are not analysed again when it is edited
  (`EditOfAPrivateVariableReachesNobody`). Every other declaration's key spells its name, and so
  does the key of a method or field, exactly when the name has no `.` or no `#` in it
  (`DeclaredNameIsSpelledExactly`, `MemberNameIsSpelledExactly`).
- **The type that a function only returns is not listed**, nor is the annotation of a variable or
  a field, or the parent of a type (`AnnotationsAndParentsAreNotListed`): an edit of the type does
  not reach such a function (`EditOfAReturnTypeReachesNobody`). Behind a reference, a pointer, a function type or the error
  side of a result no type is listed (`ListedTypeIsMentioned`).
- **An assignment lists only the root of its variable**, so a variable that the renamer has
  prefixed is assigned without being listed (`AssignedNameIsListedExactly`), and a store through
  a pointer does not list the pointer (`PointerOfAStoreIsNotListed`). Nothing else that code
  refers to is missed (`BlockIsListed`).
- **Reordering definitions is not an invalidation**, so a fully valid cache brings back the
  old order (`ReorderingInvalidatesNothing`, `FullReuseNeedsTheSameOrder`).
- **The version file may fail to be written unnoticed**; a loader that has returned can then
  have its cache wiped (`FailedVersionWriteLetsAReturnedLoaderBeWiped`). A wipe can still
  follow if and only if the version is not current and some loader has yet to decide about it
  (`CanBeWipedExactly`).
- **Eviction before `save` loses the entry.** `save` drops the log and writes only what
  memory still holds. An entry whose store returned is lost if and only if a step removed its
  last log file while no meta held it (`CrashLosesExactlyDroppedEntries`); such a step is
  part of a save after an eviction (`OnlyEvictedEntriesAreDropped`), and every entry has a run
  that loses it (`AnEvictedEntryIsLost`).
- **A new entry can be evicted by its own store**, because reloaded entries are not on the
  recency list: exactly when the entries off the list fill the cache
  (`NewEntryIsEvictedExactly`), so always after a full reload (`FullReloadEvictsEveryNewEntry`).
- **The namespaced clause of candidate matching adds nothing** (`ReachesIsSegmentSuffix`).
- **A wider candidate set can select less.** Documentation at `src/loader/mod.rs:80-83` says
  that the union only ever widens selection; but a module of which nothing is asked is taken
  whole, and one of which something is asked is not (`WideningCanNarrow`). Which export is lost,
  and by which new candidate, is `AnExportIsLostExactly`.
- **Only returned, evaluated and dropped expressions are searched for closures** when names are
  told that are bound locally; the parameters of a closure in an initialiser or a condition count
  as candidates (`StmtBindsExactly`).
- **Renaming keeps meaning only under hygiene conditions**, each of which is needed whatever
  the symbol (`RenamerLimits`): no type parameter and no loop variable named like an export, no
  shadowed enum, no symbol inside an ascription or a macro, and no local, global, enum or
  reference spelled like a prefixed export.
- **A type named behind a pointer or in a function type keeps its bare name**, while its
  declaration is prefixed (`TypesBehindPointersStayBare`); so do the types of patterns and of a
  closure's captures, which the text that `StmtMoves` speaks of shows as one verbatim token.
- **A foreign function's declaration and its references keep one name** exactly when its
  library is not `c` or it is not exported (`ForeignDeclarationAndReferenceAgreeExactly`).
- **Renaming a field path twice** can prefix it twice, exactly when the first segment of the
  prefix is itself an export (`FieldPathTwice`).
- **The lexer's column subtraction underflows** exactly at a fifteen-digit hexadecimal
  literal of ten to the 18 or more that starts a line (`UnderflowExactly`), and the whole text
  is stopped exactly when a round begins there (`PanicsExactly`, for one text
  `ALiteralThatStops`); other literals with a base prefix are placed off by the difference of
  their spellings (`BasedNumberIsMisplaced`).
- **The new section count of an ELF image** reads back right exactly when the original has
  fewer than 65535 sections or its section 0 already says 65536 (`CountReadsBackExactly`), the
  name offset exactly below 4 GiB (`NoteIsNamed`).
- **SHA-1 padding is injective at every length**, not only below 2 to the 61 bytes
  (`PadIsInjective`).

## Model

| member | source | states |
|---|---|---|
| Dependencies.Collector.CollectStatement | src/incremental/dependencies.rs:3-194 | the walker over a shared list pushes the statement's names after what is there; which names these are is said by `BlockIsListed` and `SignatureIsListedExactly`, and what they mean by `RunsDependOnlyOnTheCone` |
| Dependencies.ContainerDependsOnChildrensNames | src/incremental/dependencies.rs:88-106 | a type or impl block refers to every name any of its fields or methods refers to |
| Lookups.BlockIsListed | src/incremental/dependencies.rs:347-460 | of all names that code refers to outside its types (variables, callees and their last part, members, enums and variants, heads of `impl` blocks, moved and assigned names) none is missed, save dotted names that are assigned, of which the root is listed |
| Lookups.PointerOfAStoreIsNotListed | src/incremental/dependencies.rs:10-20 | the pointer through which a statement stores is referred to and not listed |
| ListedTypes.ListedTypeIsMentioned | src/incremental/dependencies.rs:462-489 | a listed name stands in the type, and a name that stands in it is listed unless it stands behind a reference, a pointer, a function type or the error side of a result |
| ListedTypes.SignatureIsListedExactly | src/incremental/dependencies.rs:20-27 | a function lists a type name that its body does not list if and only if a parameter's type mentions it, whatever the return type |
| ListedTypes.PayloadTypesAreListedExactly | src/incremental/dependencies.rs:128-134 | an enum lists exactly the types of its payloads |
| ListedTypes.ForeignSignatureIsListedExactly | src/incremental/dependencies.rs:116-127 | a foreign function lists its library, its parameter types and its return type, and nothing else |
| ListedTypes.AnnotationsAndParentsAreNotListed | src/incremental/dependencies.rs:5-9 | the list of a variable, a field or a type is the same whatever its annotation or its parent is |
| ListedTypes.EditOfAReturnTypeReachesNobody | src/incremental/dependencies.rs:20-27 | for every type and every function that lists it nowhere but returns it, an edit of the type does not invalidate the function |
| DependencyMeaning.RunsDependOnlyOnTheCone | src/incremental/dependencies.rs:3-194 | a run is unchanged by whatever the globals hold, are called, and stand in which order, outside a set of names that contains what the code refers to and what the bodies of functions in the set refer to |
| DependencyMeaning.ListedIsLookedUp | src/incremental/dependencies.rs:3-194 | a set that contains what code lists contains what it refers to, if the code lists its dotted names or the set holds a dotted name whenever it holds its root |
| DependencyMeaning.AssignedNameIsListedExactly | src/incremental/dependencies.rs:10-20 | the variable that a statement assigns is listed under its own name if and only if that name has no dot |
| Invalidation.ComputeInvalidationReport | src/incremental/analysis.rs:12-104 | the invalidated units are the least set with the changed, added and removed ones that is closed under "a current unit depends on the key or its last `.` or `#` suffix"; the loop ends, and its already-invalidated branch is dead |
| Invalidation.Propagate | src/incremental/analysis.rs:60-92 | the worklist computes that least closed set, whatever order it pops and whatever the hash maps' order |
| Invalidation.ReverseDependencies | src/incremental/analysis.rs:50-58 | for every name, the units that list it, in program order |
| Invalidation.LeastClosedIsLeast | src/incremental/analysis.rs:60-92 | the invalidated set is contained in every closed set that contains the seeds |
| Reuse.AnalysisUnits | src/incremental/analysis.rs:4-10 | one unit per statement followed by one per direct child; that their keys spell what the statements declare is `DeclaredNameIsSpelledExactly` and `MemberNameIsSpelledExactly` |
| Reuse.ContainerInvalidatesChildren | src/incremental/analysis.rs:183-215 | whenever a container's key is invalidated, so is the key of each of its children |
| Reuse.PrepareNestedReuse | src/avens/reuse.rs:59-100 | children that need no recheck come from the previous version, the mask marks the others, and there is a mask exactly if some child was kept |
| Reuse.ReuseStatement | src/avens/reuse.rs:36-54 | a statement to be rechecked never gets a nested mask, because all its children are invalidated with it |
| Reuse.PrepareReuse | src/avens/reuse.rs:7-57 | the invalidated set is the least closed one above the edits, the mask has the length of the resulting program as the type checker demands, no nested mask arises, and with nothing invalidated the cached program is taken whole; what this is worth to the users of an edit is `UsersOfAnEditAreInvalidated` and `KeptFunctionRunsAlike` |
| Reuse.ValidConeIsShared | src/incremental/analysis.rs:12-104 | a unit that is not invalidated has the same dependency cone in both versions, free of changed, added and removed units |
| Reuse.KeptUnit | src/avens/reuse.rs:36-46 | a statement kept from the cache has the very unit of the statement it replaces |
| Reuse.IncrementalEqualsFromScratch | src/avens/reuse.rs:7-57 | rechecking only the selected statements of the mixed program gives what a full analysis gives, for unique keys, collision-free hashes and an analysis determined by unit and cone |
| Reuse.FullReuseNeedsTheSameOrder | src/avens/reuse.rs:24-33 | with nothing invalidated, taking the cached program is right if and only if both list the same keys in the same order, for an analysis that keeps unit keys |
| Reuse.ReorderingInvalidatesNothing | src/incremental/analysis.rs:12-48 | swapping two functions seeds no invalidation |
| Reuse.TwoImplsOfOneTypeHideAnEdit | src/incremental/analysis.rs:124-152 | an edit of the first of two impl blocks of one type seeds no invalidation |
| Reuse.KeptUnitIsRightExactlyWhenLast | src/incremental/analysis.rs:12-48 | without unique keys: where one of the kept statement's unit and the unit that replaces it is the last of its key in its version, they are equal if and only if the other is too |
| UnitNames.DeclaredNameIsSpelledExactly | src/incremental/analysis.rs:124-152 | the key of a statement's unit spells the name that the statement declares, unless it is a private variable or foreign function; then it does if and only if the printed text does |
| UnitNames.MemberNameIsSpelledExactly | src/incremental/analysis.rs:159-181 | the key of a method spells its name if and only if the name has no `.`, that of a field if and only if it has no `#` |
| UnitNames.UsersOfAnEditAreInvalidated | src/incremental/analysis.rs:12-104 | if the declaration of a name is new, edited or gone, every current unit that lists the name is invalidated |
| UnitNames.UsersOfAnEditedMemberAreInvalidated | src/incremental/analysis.rs:12-104 | the same for the users of an edited method or field |
| UnitNames.EditOfAPrivateVariableReachesNobody | src/incremental/analysis.rs:136-141 | an edit of a private variable invalidates no function that uses it, whatever the two versions are, unless the function lists a spelling of their printed text |
| KeptRuns.KeptFunctionRunsAlike | src/avens/reuse.rs:7-57 | a function or method whose unit is not invalidated is the same code in both versions, and a call of it has the same outcome among the functions of either, whatever else was edited, added, removed or moved |
| InitLock.MutualExclusion | src/incremental/cache.rs:297-319 | at every point of every run with any number of loaders, crashes and steals from dead owners, at most one loader is inside `init_cache` |
| InitLock.VersionStays | src/incremental/cache.rs:231-248 | a current version file never becomes non-current, and no wipe step happens while it is current |
| InitLock.CanBeWipedExactly | src/incremental/cache.rs:297-386 | from any reachable state a wipe can still follow if and only if the version is not current and some loader has not yet decided about it under the lock |
| InitLock.NothingIsWiped | src/incremental/cache.rs:297-386 | from then on no step of the run wipes and no directory disappears |
| InitLock.NothingIsWipedAfterAReturn | src/incremental/cache.rs:338-386 | once a loader has returned, nothing is wiped and all directories persist, unless a version write failed |
| InitLock.FailedVersionWriteLetsAReturnedLoaderBeWiped | src/incremental/cache.rs:313-316 | from every initial state with several loaders and a version that is not current, a run in which the version write fails reaches a returned loader whose cache can still be wiped |
| InitLock.BreakingALiveLockLosesExclusion | src/incremental/cache.rs:338-386 | if a lock of a live owner is broken, two loaders can be inside at once |
| CacheProtocol.EveryHitWasStored | src/incremental/cache.rs:804-887 | over all interleavings of stores, saves, lookups, evictions, crashes, reloads, log pruning and garbage collection, a hit returns a file that was stored under the same path and the same two hashes |
| CacheProtocol.KeyCollisionCrossesPaths | src/incremental/cache.rs:540-544 | without collision-free key hashes a lookup can answer with another path's file |
| CrashRecovery.RecoveredExactlyIfPresent | src/incremental/cache.rs:65-202 | wherever a lone writer dies, an entry whose store returned is found again with its hashes and its blob, in any replay order, if and only if a log file or a meta holds it |
| CrashRecovery.CrashLosesExactlyDroppedEntries | src/incremental/cache.rs:755-790 | it is found if and only if no step since its store returned removed its last log file while no meta held it |
| CrashRecovery.OnlyEvictedEntriesAreDropped | src/incremental/cache.rs:781-786 | such a step is a save dropping its log, of an entry evicted from memory |
| CrashRecovery.CrashLosesNothingKept | src/incremental/cache.rs:65-202 | so every entry whose store returned is found again or has been evicted |
| CrashRecovery.AnEvictedEntryIsLost | src/incremental/cache.rs:755-790 | for every record there is a run that stores, evicts and saves, after which it is not found |
| CrashRecovery.SaveKeepsExactlyMemory | src/incremental/cache.rs:755-790 | a completed save leaves the earlier index overlaid with memory, and no log |
| CrashRecovery.SurvivesASaveExactlyIfInMemory | src/incremental/cache.rs:755-790 | a returned entry survives a save if and only if it was in memory or indexed when the save began |
| Lru.LruMap.Insert | src/incremental/lru.rs:39-57 | the recency list after a use: the key moves to the end, and a full list forgets its head |
| Lru.LruMap.Remove | src/incremental/lru.rs:59-65 | a removed key leaves map and list, and nothing else changes |
| Lru.LruMap.EvictOne | src/incremental/lru.rs:86-91 | the least recently used key leaves both map and list |
| Lru.KeepsTheMostRecent | src/incremental/lru.rs:39-114 | however often keys come back after being forgotten, what is kept is exactly the `max` most recently used keys in order of last use |
| CacheMemory.IncrementalCache.constructor | src/incremental/cache.rs:696-753 | loading is the metas on disk with the log applied in order, and every listed key is a key of a map |
| CacheMemory.IncrementalCache.ApplyWalRecord | src/incremental/cache.rs:1404-1497 | one record updates one map and the recency list |
| CacheTypes.LastRecordWins | src/incremental/cache.rs:1404-1497 | of all log records of one entry the last decides: what it stores is held, and after a deletion nothing is |
| CacheTypes.UntouchedEntryStays | src/incremental/cache.rs:1404-1497 | an entry that no record names is as it was on disk |
| CacheMemory.IncrementalCache.Store | src/incremental/cache.rs:847-887 | after a store the total fits the limit or the recency list is empty, and exactly the surplus of oldest entries is gone |
| CacheMemory.IncrementalCache.StoreAnalysis | src/incremental/cache.rs:924-992 | an analysis is stored under two keys, and then trimmed the same way |
| CacheMemory.IncrementalCache.CachedFile | src/incremental/cache.rs:804-845 | a lookup answers exactly when memory, or failing that the disk, has the path with both hashes and the blob reads back; only an answer counts as a use |
| CacheMemory.IncrementalCache.CachedAnalysis | src/incremental/cache.rs:889-922 | the same for analyses, whose key spells the hashes |
| CacheMemory.IncrementalCache.BuildEntryFor | src/incremental/cache.rs:1096-1125 | the same for builds, which have no blob |
| CacheMemory.IncrementalCache.CachedMir | src/incremental/cache.rs:1160-1200 | the same for functions, compared by the hash of the body |
| CacheMemory.IncrementalCache.EvictOldest | src/incremental/cache.rs:1250-1259 | every eviction takes exactly one entry, because a listed key is always a key of a map |
| CacheMemory.IncrementalCache.EnforceCapacity | src/incremental/cache.rs:1245-1267 | eviction stops at the limit or at an empty list, counts what it evicts, and its early break is dead |
| CacheMemory.NewEntryIsEvictedExactly | src/incremental/cache.rs:1245-1267 | over any maps and recency list, a newly stored entry is evicted by its own store if and only if, once it is in, at least as many entries as the limit are off the recency list |
| CacheMemory.FullReloadEvictsEveryNewEntry | src/incremental/cache.rs:1306-1330 | in a cache reloaded full, every newly stored entry is evicted at once |
| Candidates.ReachesIsSegmentSuffix | src/loader/load.rs:351-371 | a candidate reaches an export if and only if the export's dot-segments end the candidate's, whatever the module path |
| Candidates.ReferencesIsInfix | src/loader/load.rs:388-398 | a namespace is referenced if and only if it stands at a segment boundary of the candidate with a dot after it, and has no dot itself |
| Candidates.InferReachableImportItems | src/loader/load.rs:238-329 | the module is taken whole exactly when a nested module or a private foreign function is needed or nothing is selected; otherwise exactly the selectable reached exports are taken |
| Candidates.AnExportIsLostExactly | src/loader/load.rs:238-329 | which export a larger candidate set loses, and that a new candidate causes it by reaching the first export asked for or the nested module for whose sake all was taken |
| Candidates.AReachedExportIsNeverLost | src/loader/load.rs:238-329 | an export that some candidate reaches arrives with every larger set |
| Candidates.WideningCanNarrow | src/loader/load.rs:323-328 | of two exports both arrive when nothing is asked for, and one when that one is |
| BoundNames.StmtBindsExactly | src/incremental/dependencies.rs:196-271 | a name counts as bound exactly when a statement at any depth binds it, as a variable, a moved name, a parameter or a loop name, or when an expression that is returned, evaluated or dropped does |
| ImportGraph.CollectProgramDependencyCandidates | src/loader/files.rs:91-137 | a mentioned name is a candidate unless it is bound locally and is no tail of a dotted name |
| ImportResolver.ImportResolver.ScanDependencyCandidates | src/loader/mod.rs:182-234 | the scan ends, marks only reachable files, adds exactly what the newly marked files refer to, and below its budget marks everything their edges lead to |
| ImportResolver.ImportResolver.FindTarget | src/loader/mod.rs:242-269 | the longest front of a load path that resolves |
| ImportResolver.ScanIsExactIff | src/loader/mod.rs:182-234 | the marked files are exactly the reachable ones if and only if those are at most 4096 |
| ImportResolver.ImportResolver.LoadFile | src/loader/mod.rs:271-398 | terminates by 64 minus the active files; on success the active stack is as before, the file is memoised while its importers are not yet, no memo changed, and the result is the plain expansion; an error that is not a limit means there is no expansion |
| ImportResolver.ImportResolver.ExpandLoad | src/loader/mod.rs:402-481 | after the scan no load changes the candidate scope, and the statement expands to its specification |
| ImportResolver.ImportResolver.ExpandLoadPrefixGroup | src/loader/mod.rs:492-544 | a group load takes the exports of the parent that start with the group's name |
| ImportResolver.ImportResolver.ExpandLoadLocal | src/loader/mod.rs:548-583 | `load!` expands to its specification, which `WholeFileArrives` shows to be everything in the target under the last segment's prefix, then the statement itself |
| ImportResolver.ImportResolver.LoadSelectedImports | src/loader/mod.rs:585-618 | picks from the expansion, or from the parsed file when it has no loads |
| ImportResolver.ActiveNeverExpands | src/loader/mod.rs:309-314 | a file entered while it is active has no expansion at any depth: the cycle error is never spurious |
| ImportResolver.FirstCopiesAreFirst | src/loader/mod.rs:631-641 | of identical statements of one file the first is kept, in order, and none is lost |
| ImportResolver.LoadProgram | src/loader/mod.rs:643-714 | within the budget, success is the plain expansion against everything the reachable files refer to, each statement once; every statement of it was brought along loads from the file it was parsed from, no file that is taken whole loses a statement, and any other error than a limit means there is no expansion |
| ImportExpansion.CycleNeverExpands | src/loader/mod.rs:271-398 | a file on a cycle of followed loads has no expansion, so no load of it succeeds |
| ImportExpansion.LeadingIntoACycleNeverExpands | src/loader/mod.rs:271-398 | nor does a load of any file whose loads lead into a cycle |
| ImportExpansion.MoreDepth | src/loader/mod.rs:305-307 | an expansion does not depend on how deep it was allowed to go, which is what makes the memo sound |
| ImportExpansion.FollowsIsEdge | src/loader/mod.rs:236-269 | every file that expansion enters was an edge of the pre-scan |
| ImportProvenance.ExpansionIsBrought | src/loader/mod.rs:271-398 | nothing comes from elsewhere: every statement a file expands to was parsed from its file and brought in by loads that name that file, if picking takes statements from what it is given |
| ImportProvenance.BroughtAlongATrail | src/loader/mod.rs:402-583 | what was brought in is a statement of its origin, renamed once for each load on a trail of loads from file to file, innermost first, over what comes through that load |
| ImportProvenance.WholeFileArrives | src/loader/mod.rs:548-583 | a file that is taken whole through any number of loads loses no statement: all arrive in file order, renamed for each load's name, before the kept `load!` of each load on the way, and their exports are among the symbols each load renames |
| ImportProvenance.NamedItemsArrive | src/loader/mod.rs:437-481 | the items a load names, or the needed exports when it names none, arrive exactly as they are picked, under the alias or else the last segment |
| ImportProvenance.GroupArrives | src/loader/mod.rs:492-546 | a group load takes what is picked for the parent's exports that start with the group's name, unrenamed, and fails when there are none |
| ImportProvenance.ExpansionHasProvenance | src/loader/mod.rs:271-398 | both together, for any list with the elements of an expansion |
| LoadOrder.ScopesAgree | src/loader/mod.rs:151-181 | reordering the statements of files changes neither the reachable files nor the candidate scope |
| LoadOrder.SelectionIgnoresLoadOrder | src/loader/mod.rs:437-453 | what a load selects from its target is the same under every order of statements |
| LoadOrder.LoadOrderDoesNotMatter | src/loader/mod.rs:151-181 | programs that differ by the order of statements expand to the same statements or both to none |
| Renamer.RenameStatementBlock | src/loader/rename.rs:523-538 | the loop with its growing scope is the recursive renaming of a block, whose effect on the text is `BlockMoves` |
| Renamer.PrefixLoaded | src/loader/rename.rs:3-35 | every loaded statement is renamed over what the files under its own prefix export, and an empty prefix leaves it alone; what that does to its words is `LoadedStatementReadsPrefixed` |
| RenamerTokens.StmtMoves | src/loader/rename.rs:111-521 | read as tokens, the renamed statement is the original in which exactly the unshadowed references to exports carry the prefix: in types, heads of `impl` blocks, parents, payload types, bodies, drops, moves and targets as in expressions |
| RenamerTokens.ExprMoves | src/loader/rename_expression.rs:5-298 | the same for expressions, with what is left verbatim |
| RenamerTokens.TypeMoves | src/loader/rename.rs:581-633 | the same for types |
| RenamerTokens.BlockMoves | src/loader/rename.rs:523-538 | the same for a block, each statement under what the earlier ones leave in scope |
| RenamerTokens.LoadedStatementReadsPrefixed | src/loader/rename.rs:3-35 | of the words of a loaded statement exactly those change that refer, unshadowed and outside verbatim nodes, to an export of what was loaded under the same prefix |
| RenamerTokens.NoExportIsLeftBare | src/loader/rename.rs:569-579 | no reference that may move spells a bare export afterwards |
| RenamerTokens.VariantsCarryTheName | src/loader/rename.rs:472-503 | the variants of a renamed enum carry its new name |
| RenamerTokens.TypesBehindPointersStayBare | src/loader/rename.rs:581-632 | an exported type keeps its bare name behind a pointer and in a function type |
| RenamerScope.StmtScope | src/loader/rename.rs:111-521 | renaming sees a scope only through the module symbols it shadows |
| RenamerMeaning.ResolveRenamed | src/loader/rename.rs:569-579 | a renamed name finds the same local or the prefixed version of the same global: no capture and no lost local |
| RenamerMeaning.SimExpr | src/loader/rename_expression.rs:5-298 | evaluating a renamed expression against prefixed globals gives the renamed value and state |
| RenamerMeaning.SimStmt | src/loader/rename.rs:111-521 | the same for statements |
| RenamerMeaning.RenamingPreservesMeaning | src/loader/rename.rs:105-579 | running a renamed module against prefixed globals ends alike at every depth bound, under the stated hygiene; it also gets stuck exactly when the original does, if no reference is spelled like a prefixed symbol |
| RenamerMeaning.LoadedAsOneModule | src/loader/rename.rs:3-35 | however many prefixes there are, what was loaded under one is renamed as one module over everything the files under it export |
| RenamerTwice.StmtTwice | src/loader/rename.rs:105-521 | renaming twice is renaming once, without field targets or with a stable prefix |
| RenamerTwice.FieldPathTwice | src/loader/rename.rs:643-649 | a field path changes again exactly when its root was prefixed and the prefix's root is an unshadowed symbol |
| RenamerTwice.UnstablePrefixIsRenamedTwice | src/loader/rename.rs:643-649 | for every unstable prefix an assignment that is renamed differently the second time |
| RenamerLimits.LoopNameMustNotBeASymbol | src/loader/rename.rs:748-774 | for every export a loop variable of its name leaks into the renamer's scope and changes what the block does |
| RenamerLimits.VerbatimNodesLoseTheirSymbols | src/loader/rename_expression.rs:257-259 | for every export, inside an ascription, a macro use or a macro call it keeps its bare name and is no longer found |
| RenamerLimits.TypeParamMustNotBeASymbol | src/loader/rename.rs:150-200 | a type parameter named like an export hides it in the whole body |
| RenamerLimits.LocalMustNotBeReserved | src/loader/rename.rs:569-579 | a local spelled like a prefixed export captures the renamed reference |
| RenamerLimits.GlobalMustNotBeReserved | src/loader/rename.rs:569-579 | a global spelled like a prefixed export becomes that export |
| RenamerLimits.ReferenceMustNotBeReserved | src/loader/rename.rs:569-579 | a reference spelled like a prefixed export finds that export where it found nothing |
| RenamerLimits.EnumMustNotBeShadowed | src/loader/rename.rs:660-722 | under a local named like an exported enum a match on a value built elsewhere takes another arm |
| RenamerLimits.EnumMustNotBeReserved | src/loader/rename.rs:660-722 | so does a match on an enum spelled like a prefixed export |
| RenamerLimits.ForeignDeclarationAndReferenceAgreeExactly | src/loader/rename.rs:553-567 | a foreign function's declaration and its references keep one name if and only if its library is not `c` or its name is no export |
| Fips180.PadIsThePadding | src/avens/build_id.rs:56-64 | the padding is the unique one of section 5.1.1 of FIPS 180-4, minimal and a multiple of 64 bytes |
| Fips180.PadIsInjective | src/avens/build_id.rs:56-64 | messages of any lengths with equal paddings are equal |
| Fips180.ConstantsAreRoots | src/avens/build_id.rs:77-82 | the four round constants are the square roots of 2, 3, 5 and 10 times two to the 30, rounded down |
| Fips180.InitialValueCounts | src/avens/build_id.rs:53-54 | the initial hash value is the sixteen digits counted up and down, lowest byte first |
| Sha1Example.DigestOfAbc | src/avens/build_id.rs:53-107 | the specified digest of `abc` is the published one (RFC 3174, section 7.3), round by round |
| Sha1.Sha1 | src/avens/build_id.rs:53-107 | the hash with its reused buffer is the digest of sections 4.1.1, 5.1.1 and 6.1.2 of FIPS 180-4 |
| Sha1.PadMessage | src/avens/build_id.rs:58-64 | the pushing loop makes exactly that padding |
| Sha1.Schedule | src/avens/build_id.rs:68-73 | the buffer holds the message schedule of the block, whatever it held before |
| Sha1.Compress | src/avens/build_id.rs:75-94 | eighty rounds on five variables are the rounds of section 6.1.2 |
| Sha1.RoundTerm | src/avens/build_id.rs:77-82 | the forms with OR are Ch and Maj of section 4.1.1 |
| BuildId.BuildIdNote | src/avens/build_id.rs:133-143 | the note reads back as name length, descriptor length, type, name and id |
| BuildId.Rewrite | src/avens/build_id.rs:164-256 | an image is rewritten exactly when it is a readable 64-bit image with room, and then holds everything promised: old bytes but two fields, old headers but the name table's place, longer name table, note, id; between the parts and in the rest of the added header there are zeros, and the image ends where that header ends |
| BuildId.UndoingGivesTheHashedImage | src/avens/build_id.rs:205-215 | writing the two header fields back gives the original, whose SHA-1 is the embedded id |
| BuildId.NamesAreKept | src/avens/build_id.rs:223-239 | every section name that resolves in the original resolves to the same name in the image |
| BuildId.NoteIsNamed | src/avens/build_id.rs:225-244 | the added section is called `.note.gnu.build-id`; its name offset is exact if and only if the name table is below 4 GiB |
| BuildId.CountReadsBackExactly | src/avens/build_id.rs:253-260 | for every rewritable image the section count reads back right if and only if the original has fewer than 65535 sections or its section 0 gives 65536 as its size |
| Bytes.LittleRoundTrip | src/avens/build_id.rs:109-130 | a number that fits its width reads back from its little-endian bytes |
| Bytes.BigWordBytesSpell | src/avens/build_id.rs:102-106 | the bytes of a word spell it, highest first |
| Bytes.BigWordRoundTrip | src/avens/build_id.rs:68-70 | and a block's word reads them back |
| LexicalGrammar.PlaceIsCounted | src/lexer/mod.rs:170-180 | the line is one more than the newlines consumed, the column one more than the characters since the last |
| LexicalGrammar.NumberIsLongestNumeral | src/lexer/mod.rs:243-280 | what is read is a numeral, and no longer numeral starts there |
| LexicalGrammar.NumeralIsIntegerExactly | src/lexer/mod.rs:288-290 | a numeral counts as an integer if and only if it is digits throughout |
| LexicalGrammar.DigitsOfSixteen | src/lexer/mod.rs:292-326 | a character has the value of a hexadecimal digit exactly when it is that digit in either case |
| LexicalGrammar.DecimalReadsBack | src/lexer/mod.rs:325-326 | the decimal spelling given to a literal with a base prefix reads back as its value |
| LexicalGrammar.DecimalAgainstLiteral | src/lexer/mod.rs:292-333 | the decimal spelling is at most two characters longer than the literal, exactly two for fifteen digits from ten to the 18 on |
| LexicalGrammar.QuotedReadsBack | src/lexer/mod.rs:335-403 | reading the quoted form of any text gives the text |
| LexicalGrammar.RawReadsBackExactly | src/lexer/mod.rs:405-450 | a raw text reads back if and only if no closing mark stands in it |
| LexicalGrammar.OperatorIsLongest | src/lexer/mod.rs:597-782 | the operator found is the longest that stands there, and none is missed |
| Lexer.StepAdvances | src/lexer/mod.rs:521-789 | every round of the lexer consumes at least one character and stays inside the text |
| TokenTexts.StepReadsTheText | src/lexer/mod.rs:521-789 | what a round skips is a comment, and the token it emits is what stands there: the longest word, operator or numeral, the value of the digits, or the text between the quotes |
| TokenTexts.AcceptedTextIsLaidOut | src/lexer/mod.rs:521-789 | an accepted text is the stretches its tokens were read from, in order, with comments and blanks between: nothing is read twice or passed over |
| Lexer.Lexer.Advance | src/lexer/mod.rs:170-180 | line and column stay the function of the consumed prefix |
| Lexer.Lexer.ReadNumber | src/lexer/mod.rs:243-280 | the loops with their look-ahead stop at the end of the longest numeral |
| Lexer.Lexer.ReadBasedInteger | src/lexer/mod.rs:292-333 | accepted exactly when the digits fit the base and a signed 64-bit integer; the value is spelled in decimal |
| Lexer.Lexer.ReadString | src/lexer/mod.rs:335-403 | the text up to the first unescaped quote, or a failure at a newline or the end |
| Lexer.Lexer.ReadRawString | src/lexer/mod.rs:405-450 | everything before the first quote with as many hashes |
| Lexer.Lexer.ReadCharLiteral | src/lexer/mod.rs:452-519 | one character or one known escape between quotes |
| Lexer.Lexer.Round | src/lexer/mod.rs:545-783 | one round does exactly the step that the text calls for |
| Lexer.Lexer.Tokenize | src/lexer/mod.rs:521-789 | the tokens, the failure or the underflow are those of the whole text |
| Lexer.PlainNumberIsPlacedAtItsStart | src/lexer/mod.rs:561-577 | a number without a base prefix is placed where it starts |
| Lexer.BasedNumberIsMisplaced | src/lexer/mod.rs:561-577 | a literal with a base prefix is off by the difference of its two spellings, or underflows |
| Lexer.UnderflowExactly | src/lexer/mod.rs:569-573 | the column subtraction underflows if and only if the literal starts a line, has fifteen digits and comes to ten to the 18 |
| Lexer.PanicsExactly | src/lexer/mod.rs:521-577 | a whole text is stopped by the subtraction if and only if one of its rounds begins at such a literal |
| Lexer.ALiteralThatStops | src/lexer/mod.rs:569-573 | the literal of fifteen hexadecimal digits `f` at the start of a text is one |
| ScopeTree.EventsKeep | src/compiler/semantic.rs:219-453 | after any events scopes are numbered in order and form a tree, open scopes are an ancestor chain with matching depths, a scope is unsafe exactly when it or an ancestor is an unsafe body, and bindings match their scopes |
| ScopeTree.InsideIsOpen | src/compiler/semantic.rs:629-647 | being inside an unsafe body is having one among the open scopes, which is what the counter counts |
| ScopeTree.WholeFunction | src/compiler/semantic.rs:259-290 | the scope recorded for a function is the one its parameters are bound in |
| ScopesWellFormed.EveryProgramIsWellFormed | src/compiler/semantic.rs:80-84 | for every program all of this holds at the end, and only the root scope is open |
| ScopeOutline.TheModelIsTheText | src/compiler/semantic.rs:219-582 | for every program the model's bindings are the bound names of the text, in order, each with its type, its depth and whether it stands inside an `unsafe` block; functions, facts, the number of `unsafe` blocks and of scopes are those of the text |
| SemanticModel.SemanticModelBuilder.OpenScope | src/compiler/semantic.rs:629-644 | the counters and stacks after opening a scope are those of the tree |
| SemanticModel.SemanticModelBuilder.RegisterBinding | src/compiler/semantic.rs:584-610 | a binding records its scope, its depth and whether it stands in an unsafe body, and the index is extended |
| SemanticModel.SemanticModelBuilder.VisitStatement | src/compiler/semantic.rs:219-453 | the visitor's effect is that of the statement's events, and stacks and counters are as before |
| SemanticModel.SemanticModelBuilder.VisitExpression | src/compiler/semantic.rs:455-582 | the same for expressions |
| SemanticModel.AnalyzeProgram | src/compiler/semantic.rs:80-84 | the model of a program is what its events build, is well formed, and holds the bindings, functions, facts and `unsafe` blocks of the text |
| SemanticModel.IndexIsExact | src/compiler/semantic.rs:605-609 | the index lists exactly the bindings of each name, in the order they were made |

## Left out

- Dependencies.Collector.CollectStatement: does not model the statements for allocations, skills, assembly, queries and external libraries, which the walkers, the renamer and the scope builder take apart like those that are modelled; source positions, annotations and attributes are dropped.
- Real files, JSON, bincode and hash functions: files are maps with atomic replacement, encoding is a pair of inverses, hashes are functions whose collision-freeness is stated where it is needed.
- Statement hashes: `stamp` stands for the pair. The hash skips the target of an ascription, the attributes of a function and the visibility of a type, so an edit of only those is invisible to it.
- The type checker, the borrow checker and the later passes: the analysis is a function of the program that depends only on a unit and its cone.
- KeptRuns.KeptFunctionRunsAlike: takes equal hash pairs of functions to mean equal code, and the values of variables as given and the same for both versions; top-level initialisers are not run. It speaks of functions that list the dotted names they assign, and of programs in which no type is called like the unit of an `impl` block.
- UnitNames.MemberNameIsSpelledExactly: covers methods and fields; other nested definitions are reached through their container.
- ImportProvenance.ExpansionIsBrought: picking (`src/loader/select.rs`) is an abstract function; that it takes statements from what it is given is assumed.
- Lock breaking is one step that hits only dead owners, as the thirty-second age stands for; the age check and the removal are two system calls in the source.
- Creating a directory and writing a log file are assumed to succeed, and temporary file names of different processes not to collide.
- The limit on how long a loader waits for the lock, and the initialisation it performs itself after giving up.
- CacheProtocol.EveryHitWasStored: states hit safety for file entries; analysis, build and MIR entries take the same path through the same operations.
- CrashRecovery.RecoveredExactlyIfPresent: covers entries under their own key; the second, `latest` key of an analysis is never logged and is rebuilt by the next analysis.
- Freshness after several crashed runs: log files sort as text, so an old record can override a newer meta.
- CacheMemory.IncrementalCache.CachedFile: does not model access times and the hit and miss counters, which nothing reads back; nor are the cached error outcomes of analyses modelled.
- SemanticModel.SemanticModelBuilder.VisitStatement: does not model query, assembly and allocation statements, as said for the collector.
- ImportResolver.ImportResolver.LoadFile: says nothing of the result when the pre-scan ran out of its budget, as the candidate scope is then whatever the scan came to.
- Path canonicalisation, package look-up and the spelling of a file's prefix are abstract functions; `@[derive]` in the entry file is not modelled, and the sorted order of selected exports is a set.
- LoadOrder.LoadOrderDoesNotMatter: picking named items from a module (`src/loader/select.rs`) is an abstract function that is assumed not to depend on statement order, and expansions are compared as sets of statements.
- The direct dependency lists and sources that the resolver keeps for its callers. Statements count as identical when they are equal but for source positions, which are dropped.
- The scope-stack of the renamer is one set, which is what the source's stack always amounts to; patterns nested in patterns, and the other statements its evaluator is `Stuck` on.
- The reference evaluator is this project's own: it says what renaming has to preserve, not what the code generator does.
- Release builds wrap where the model stops at an overflow (`BuildId`, `Lexer`).
- Reading and writing the ELF file, and its hexadecimal rendering.
- Keywords are identifiers in the lexer, positions of errors are dropped, and which characters are letters is a parameter.
- The move and drop counters of the semantic model: the facts themselves are kept, in one list.
