# Invariant Protocol: verified models

Dafny models of the parts of Invariant Protocol whose correctness spans many
steps, with proofs of what they promise. `dafny verify dfyconfig.toml` checks
all of it.

| component | files |
|---|---|
| ClickHouse lowering and its Iceberg conversion plan | `ClickHouse*.dfy` |
| schema evolution compiler | `Schema*.dfy`, `DatasetCompiler.dfy`, `ProtoNames.dfy`, `ProtoDescriptors.dfy` |
| SQLite domain checks | `Sqlite*.dfy`, `Decimals.dfy` |
| MCP stdio session and stream collection | `Mcp*.dfy` |
| Connect envelopes, re-framing and HTTP streams | `Connect*.dfy`, `HttpStreams.dfy`, `HttpStreamBodies.dfy` |
| glob filters | `Globs.dfy` |
| registry and reachability | `ServiceRegistry*.dfy`, `DescriptorImages.dfy`, `Reachability.dfy` |
| HTTP client requests | `HttpRequests.dfy`, `HttpConservation.dfy` |
| reflection files | `ReflectionFiles.dfy`, `ReflectionPathKeys.dfy` |
| shared | `Results.dfy`, `Sorting.dfy`, `Tables.dfy`, `LogicalSchema.dfy` |

## How the proofs are built

**ClickHouse.** The renderer is a recursive compiler from logical types to
column types and CHECK expressions. Expressions are a syntax tree with an
evaluator; stored values and logical values are separate domains joined by an
encoder and a decoder that never look at the generated checks. The central
theorem says that a stored row passes the generated checks exactly when it
decodes; the table theorems, the round trip and the conversion plan build on
it. UTF-8 and JSON validity are unknown predicates. The string form of an
expression is modelled as well: replacing the placeholder in the text is
substitution in the tree, and every emitted text parses back to its tree.

**Schema evolution.** The compiler threads an id allocator through a recursive
walk. It is proved equal to a state-free construction plus an allocation of the
identities in preorder, and then followed over every sequence of compilations
in which each output is the next input. The class `DatasetCompiler` carries the
source's mutable maps and its stack, and is proved to compute the functions.

**Protocols.** The MCP session, the stream state machine and the registry are
state machines over their atomic steps. The theorems are about every run; the
classes beside them perform the steps in place.

## What turned out not to hold

Each of these has a lemma at a literal input and a lemma with the exact
condition under which the code does meet the property.

- A map key whose stored form can hide a value behind an unset presence bit lets
  two stored keys stand for one logical key, and the generated uniqueness check
  accepts both (`RepeatedKeyRow`). The checks decide a table exactly when no
  key that a value can hold is like that (`TableDecidesIff`).
- A oneof member that is a list element, map key or map value is accepted by
  both renderers, but the conversion plan names a discriminator column that does
  not exist (`UnreadRow`, `PlanReadsIff`).
- A oneof member whose number exceeds the Int32 discriminator is accepted without
  a range diagnostic and cannot be stored (`FarMessage`, `StoresEverythingIff`).
  Protobuf itself has no such numbers.
- The loader accepts a previous schema with a retired collection child whose
  parent never existed. Its name can block a new child, and the output that the
  compiler then produces is refused by the loader (`OrphanOutputIsRefused`,
  `OutputReloadsIff`). No schema that the compiler itself produced is like that
  (`RunReloads`).
- An MCP id that is reused while in flight can lose a cancellation (`LosingRun`),
  and need not (`HarmlessRun`). What each call gets is exact for every run
  (`OneResponseEach`); it is what the protocol promises exactly when the call's
  cancellation was not lost (`PromiseIff`), and reading an id is safe exactly
  when no call with it is unfinished (`ReuseIff`).
- `SendMsg` records a failure only for protobuf messages. A handler that ignores
  the failure for anything else ends in success (`IgnoredNonProtoSucceeds`,
  `SuccessIff`).
- A path template that repeats a variable duplicates its leaf
  (`RepeatedVariable`, `ConservedIff`).
- The Rust matcher compares characters before it looks for a star, so a star in
  the candidate before its last character separates it from the Go matcher
  (`StarInCandidate`, `AgreementIff`).

A group registration whose tool has no request factory would stop half way
(`AtomicIff`) and leave the catalog inexact for good (`CatalogExactIff`). A
comment calls that branch unreachable, and it is: every caller has checked what
it registers (`CallersAreBuildable`, `PublicRunsAreExact`).

## Model

| member | source | states |
|---|---|---|
| `ClickHouseExpr.ReplaceEvaluates` | go/data/clickhouse/schema.go:889-891 | substituting an expression for the placeholder evaluates as binding the placeholder to its value, for every expression with no placeholder under a lambda |
| `ClickHouseExpr.EvalDependsOnFree` | go/data/clickhouse/schema.go:620-625 | an expression means the same in any two environments that agree on its free names, so a reused lambda variable is as good as a fresh one |
| `ClickHouseExpr.QuantifiedMeans` | go/data/clickhouse/schema.go:657-672 | `arrayAll(variable -> check, array)` holds exactly when the check holds of every item, whatever the variable is called |
| `ClickHouseScoping.MapTypeScoped` | go/data/clickhouse/schema.go:510-760 | every check of every type, at any depth, is closed except for the placeholder and never has the placeholder inside a lambda body |
| `ClickHouseScoping.MapFieldScoped` | go/data/clickhouse/schema.go:367-508 | the same for the checks of a field, after presence wrapping |
| `ClickHouseScoping.EmitScoped` | go/data/clickhouse/schema.go:284-356 | the same for the checks of a message scope with its oneofs |
| `ClickHouseText.TextReplacementIsSubstitution` | go/data/clickhouse/schema.go:889-891 | `strings.ReplaceAll` of the placeholder in the rendered text is the rendering of the substituted expression |
| `ClickHouseTable.EmittedTextIsSubstituted` | go/data/clickhouse/schema.go:408-414 | so it is for every check that a field emits |
| `ClickHouseTokens.ReadSpelled` | go/data/clickhouse/schema.go:927-939 | every quoted identifier and literal, with any characters, is read back from its escaped spelling, and no two tokens run together |
| `ClickHouseReading.ParseUndoesRender` | go/data/clickhouse/schema.go:874-891 | parsing the text of a printable expression, with SQL precedence, gives the expression back |
| `ClickHouseReading.RenderInjective` | go/data/clickhouse/schema.go:874-891 | two printable expressions never share a text |
| `ClickHouseEmittedText.ChecksReadBack` | go/data/clickhouse/schema.go:107-173 | every CHECK of every accepted dataset reads back from its text as the expression the other theorems speak of |
| `ClickHouseEmittedText.PlanReadsBack` | go/data/clickhouse/projection.go:103-235 | so does every expression of the conversion plan |
| `ClickHouseTable.CheckAtColumn` | go/data/clickhouse/schema.go:874-879 | a check moved to a column means the check of that column's value, even if other columns are called element, key or value |
| `ClickHouseAcceptance.MapFieldAccepts` | go/data/clickhouse/schema.go:367-508 | the field renderer succeeds exactly on renderable fields; its column is Nullable exactly for explicit presence of non-composite types |
| `ClickHouseAcceptance.MapTypeAccepts` | go/data/clickhouse/schema.go:510-760 | the type renderer succeeds exactly on renderable types and never yields a Nullable |
| `ClickHouseAcceptance.MapScopeAccepts` | go/data/clickhouse/schema.go:175-359 | the scope renderer succeeds exactly on scopes with valid names, consistent oneofs and renderable fields |
| `ClickHouseScopeLoops.CollectNames` | go/data/clickhouse/schema.go:180-212 | the loop over fields accepts exactly the scopes with valid, distinct, unreserved names and collects those names |
| `ClickHouseScopeLoops.CollectGroups` | go/data/clickhouse/schema.go:214-278 | the loop over fields accepts exactly consistent oneofs and builds each oneof's members in order |
| `ClickHouseScopeLoops.MemberAccepted` | go/data/clickhouse/schema.go:223-278 | one step of that loop decides exactly whether the field may join its oneof |
| `ClickHouseScopeLoops.EmitField` | go/data/clickhouse/schema.go:284-356 | one step of the emitting loop adds exactly the columns and checks the recursive form adds |
| `ClickHouseScopeLoops.RenderScope` | go/data/clickhouse/schema.go:175-359 | the imperative scope renderer computes the recursive one |
| `ClickHouseOneofs.CasesMean` | go/data/clickhouse/schema.go:286-336 | discriminators agree with the slots exactly when each case column and each presence bit passes its own check |
| `ClickHouseMeaning.EmissionMeans` | go/data/clickhouse/schema.go:284-356 | what the checks emitted for one field of a scope mean: a legal case, a presence bit that matches it, and the field's own checks |
| `ClickHouseMeaning.FieldMeans` | go/data/clickhouse/schema.go:367-508 | a stored value of a field passes its checks if it represents a slot, and only if when map keys are tight |
| `ClickHouseMeaning.TypeMeans` | go/data/clickhouse/schema.go:510-760 | the same for every type, through nested messages, lists and maps |
| `ClickHouseMeaning.MessageMeans` | go/data/clickhouse/schema.go:175-359 | the same for a message scope |
| `ClickHouseKeys.FieldInjective` | go/data/clickhouse/schema.go:390-500 | a tight field has one stored form for each slot |
| `ClickHouseKeys.DecodeInjective` | go/data/clickhouse/schema.go:639-680 | a tight type has one stored form for each value, so distinct stored keys are distinct logical keys |
| `ClickHouseRoundTrip.DecodeWellFormed` | go/data/clickhouse/schema.go:510-760 | everything read is well formed: required fields present, oneofs exclusive, closed enums in domain, fixed lengths, distinct map keys |
| `ClickHouseRoundTrip.RoundTrip` | go/data/clickhouse/schema.go:510-760 | decoding the encoding of a well-formed value gives it back |
| `ClickHouseRoundTrip.MessageRoundTrip` | go/data/clickhouse/schema.go:175-359 | the same for a row of columns |
| `ClickHouseFit.TypedIff` | go/data/clickhouse/schema.go:510-760 | the encoding of a well-formed value has the declared column type exactly when its numbers fit the columns |
| `ClickHouseFit.MessageTyped` | go/data/clickhouse/schema.go:175-359 | the same for a row, discriminators included |
| `ClickHouseRange.DecodeFits` | go/data/clickhouse/schema.go:510-760 | every value read from a typed column is within the column ranges |
| `ClickHouseRange.TypeDiagnosed` | go/data/clickhouse/schema.go:510-760 | a type without a range diagnostic stores every well-formed value if every oneof member in it can be selected; otherwise it does not, by `ValueOver` |
| `ClickHouseTable.TableMeans` | go/data/clickhouse/schema.go:107-173 | a row passes the table's CHECKs if it represents a message, and only if when map keys are tight |
| `ClickHouseTable.CheckedRowIsWellFormed` | go/data/clickhouse/schema.go:107-173 | every row of a tight table that passes the CHECKs decodes to a well-formed message |
| `ClickHouseTable.WellFormedRowIsAccepted` | go/data/clickhouse/schema.go:107-173 | every well-formed message that fits is encoded to a row that passes all CHECKs and decodes back to it |
| `ClickHouseTable.StoredMessagesAreExact` | go/data/clickhouse/schema.go:107-173 | the messages a table can hold are exactly the well-formed ones within its ranges, tight keys or not |
| `ClickHouseTable.UnreducedTableStoresEverything` | go/data/clickhouse/schema.go:107-173 | a table without range diagnostics whose oneof members can all be selected holds every well-formed message, as encoded |
| `ClickHouseCapacity.ValueOver` | go/data/clickhouse/schema.go:284-313 | a type with a oneof member whose number exceeds the Int32 discriminator has a well-formed value outside its column |
| `ClickHouseCapacity.StoresEverythingIff` | go/data/clickhouse/schema.go:107-173 | for every accepted dataset without range diagnostics: it holds every well-formed message exactly when every oneof member number fits the discriminator |
| `ClickHouseWitnesses.FarMessage` | go/data/clickhouse/schema.go:284-313 | a literal dataset without range diagnostics and a well-formed message that no row of it stores |
| `ClickHouseSlack.FieldTwins` | go/data/clickhouse/schema.go:390-500 | an untight field has two different stored forms of one slot |
| `ClickHouseSlack.RepeatedKey` | go/data/clickhouse/schema.go:639-680 | two such forms as map keys pass every check, uniqueness included, and represent no map |
| `ClickHouseSlack.TightKeyIsExact` | go/data/clickhouse/schema.go:639-680 | for each renderable map: its checks let through only maps exactly when its key is tight |
| `ClickHouseStray.TableDecidesIff` | go/data/clickhouse/schema.go:107-173 | for every accepted dataset: the CHECKs let through only representations of messages exactly when every map key that a value can hold, at any depth, is tight |
| `ClickHouseWitnesses.RepeatedKeyRow` | go/data/clickhouse/schema.go:639-680 | a literal accepted dataset and a row with one logical key twice that passes every CHECK |
| `ClickHouseProjection.ConversionIsExact` | go/data/clickhouse/projection.go:220-235 | the numeric conversions change no value of their source column: every uint64 as Decimal(20, 0), every uint32 as Int64 |
| `ClickHouseProjection.RowFollows` | go/data/clickhouse/projection.go:103-218 | following the plan on any row that represents a message gives exactly its slots |
| `ClickHouseProjection.StrayMemberIsUnreadable` | go/data/clickhouse/projection.go:137-152 | a selected oneof member that is a collection child cannot be read: no column holds its discriminator |
| `ClickHouseTable.PlanReadsStoredMessage` | go/data/clickhouse/projection.go:103-218 | following the plan on any stored row gives the stored message |
| `ClickHouseIceberg.IcebergFieldIff` | go/data/iceberg/schema.go:53-150 | of a field that ClickHouse accepts, Iceberg refuses exactly a required field in it |
| `ClickHouseUnread.PlanReadsIff` | go/data/clickhouse/projection.go:50-218 | for every dataset that both renderers accept: the plan reads every stored message exactly when oneof members occur only as fields of messages |
| `ClickHouseWitnesses.UnreadRow` | go/data/clickhouse/projection.go:137-152 | a literal dataset that both renderers accept and a stored row that its plan cannot read |
| `ProtoNames.QualifiedName` | go/data/compiler.go:881-926 | the short name of a qualified name is the name it was built from |
| `ProtoNames.StorageNameIsCanonical` | go/data/compiler.go:1522-1545 | storage names are canonical, canonical names are exactly the fixed points, and naming is idempotent |
| `ProtoNames.ComputeStorageName` | go/data/compiler.go:1522-1545 | the character loop computes the storage name |
| `SchemaIdentityText.PartsOfText` | go/data/compiler.go:1554-1563 | splitting the text of an identity gives the texts of its segments |
| `SchemaIdentityText.TextIsInjective` | go/data/compiler.go:1554-1563 | two valid identities never share a text, so a map keyed by text is a map keyed by identity |
| `SchemaIdentityText.CompilerIdentityRole` | go/data/compiler.go:981-1025 | the parser accepts exactly the texts of valid identities and returns the role of the last segment |
| `SchemaAllocation.AllocateExact` | go/data/compiler.go:1182-1208 | an id is granted exactly when the identity is neither active nor retired and ids remain; a known identity gets its old id, a new one the next |
| `SchemaAllocation.AllocateAllExact` | go/data/compiler.go:1182-1208 | a list of identities is granted exactly when it is fresh and enough ids remain, each with the id its position determines |
| `SchemaThreading.FieldsThread` | go/data/compiler.go:599-801 | compiling fields changes the allocator as allocating the identities of the result, in order, would |
| `SchemaAgreement.FieldsBuilt` | go/data/compiler.go:599-879 | the stateful compiler's result is the one a state-free definition gives under the final ids |
| `SchemaAgreement.FieldsCompile` | go/data/compiler.go:599-879 | and whenever the state-free result can be allocated, the stateful compiler succeeds with it |
| `SchemaFacts.FieldsPlaced` | go/data/compiler.go:599-801 | every compiled field has its number path and its segment, at every depth |
| `SchemaFacts.FieldsOk` | go/data/compiler.go:928-971 | every compiled node carries names that re-validation derives from its identity |
| `SchemaEvolution.Certify` | go/data/compiler.go:284-382 | what one successful compilation guarantees: ids from the allocator, the state-free fields, the retired list and its reservations |
| `SchemaEvolution.ActiveIff` | go/data/compiler.go:284-382 | the active identities are exactly those of the fields produced |
| `SchemaEvolution.StillActive` | go/data/compiler.go:1210-1241 | an identity active in both versions keeps its entry and its logical shape |
| `SchemaEvolution.RetiredStaysInactive` | go/data/compiler.go:1182-1208 | a retired identity is never active again |
| `SchemaReload.LastIsHighest` | go/data/compiler.go:472-483 | the last id of an output is the highest id in it |
| `SchemaReload.ReloadsIff` | go/data/compiler.go:396-597 | an output passes re-validation exactly when its synthetic names are not owned by others |
| `SchemaRuns.RunReloads` | go/data/compiler.go:396-597 | over every sequence of successful compilations, each output passes the whole re-validation of the loader |
| `SchemaRuns.RunKeeps` | go/data/compiler.go:284-382 | every entry of an earlier version is still in every later one, retired ones in place |
| `SchemaRuns.IdentityForLife` | go/data/compiler.go:1182-1208 | over every such sequence: one identity, one id and one name in its scope, for life; no two identities ever share either |
| `SchemaRuns.RetiredForLife` | go/data/compiler.go:284-382 | a retired identity stays in the retired list and never becomes a field again |
| `SchemaRuns.ShapeForLife` | go/data/compiler.go:1243-1299 | two fields of one identity, in any two versions, have compatible shapes |
| `SchemaRecompile.RecompileIsIdentity` | go/data/compiler.go:284-382 | compiling the same descriptor against a loadable output gives that output |
| `SchemaRecompile.RunIsStable` | go/data/compiler.go:284-382 | so every version of a sequence is a fixed point of its own descriptor |
| `SchemaCycles.WalkIsSimple` | go/data/compiler.go:1107-1180 | a walk through messages under compilation meets no message twice |
| `SchemaCycles.CompiledIsAcyclic` | go/data/compiler.go:1107-1180 | compilation succeeds only if no walk from the root through singular, list or map fields repeats a message |
| `SchemaOrphans.OrphanOutputIsRefused` | go/data/compiler.go:697-729 | a previous schema the loader accepts whose next output the loader refuses: a retired child without a parent owns a synthetic name |
| `SchemaOutline.CompiledOutline` | go/data/compiler.go:599-801 | the identities compiled are the preorder of the descriptor, and each id is determined by its position |
| `SchemaOutline.OutputReloadsIff` | go/data/compiler.go:396-597 | the output passes re-validation exactly when no synthetic child of the descriptor finds its name owned by another identity |
| `SchemaReservations.RemovedFieldsStayReserved` | go/data/compiler.go:1048-1098 | each retired field of a message still in the schema has its number and its name reserved there |
| `SchemaRetiring.AnyOrderSorts` | go/data/compiler.go:342-367 | whatever order the maps are walked in, the sorted retired list is the same |
| `SchemaBundles.OutputIndexable` | go/data/compiler.go:1326-1345 | a compiled bundle can be indexed again and lists exactly the selected roots |
| `SchemaBundles.RootsAppendOnly` | go/data/compiler.go:44-144 | a root once compiled is in every later bundle |
| `SchemaBundles.RootHistoryIsRun` | go/data/compiler.go:44-144 | the versions of one root in a history of bundles are a sequence of compilations, so all of the above holds of it |
| `DatasetCompilers.DatasetCompiler.RegisterHistoricalName` | go/data/compiler.go:1027-1042 | a name is registered unless another identity owns it in the scope |
| `DatasetCompilers.DatasetCompiler.LoadRetired` | go/data/compiler.go:434-465 | the loop accepts exactly the valid retired lists |
| `DatasetCompilers.DatasetCompiler.IndexField` | go/data/compiler.go:487-597 | indexing a field accepts exactly a well-placed field that keeps the ledger valid, with the whole new state |
| `DatasetCompilers.DatasetCompiler.IndexType` | go/data/compiler.go:560-597 | the same for the children of a type |
| `DatasetCompilers.DatasetCompiler.IndexFields` | go/data/compiler.go:487-597 | the same for a list of fields |
| `DatasetCompilers.DatasetCompiler.HighestReserved` | go/data/compiler.go:472-477 | the loop finds the highest reserved id |
| `DatasetCompilers.DatasetCompiler.Load` | go/data/compiler.go:409-485 | loading accepts exactly the valid datasets |
| `DatasetCompilers.DatasetCompiler.Allocate` | go/data/compiler.go:1182-1208 | the method in place does what the allocator function does |
| `DatasetCompilers.DatasetCompiler.StorageFieldName` | go/data/compiler.go:881-926 | the source of a storage name, refused exactly when the name belongs to another identity |
| `DatasetCompilers.DatasetCompiler.CompileProtoField` | go/data/compiler.go:599-695 | one field: same result, same state, stack restored |
| `DatasetCompilers.DatasetCompiler.CompileShape` | go/data/compiler.go:731-801 | list, map or singular shape: same result, same state, stack restored |
| `DatasetCompilers.DatasetCompiler.CompileSyntheticField` | go/data/compiler.go:697-729 | elements, keys and values: same result, same state, stack restored |
| `DatasetCompilers.DatasetCompiler.CompileRefinedValueType` | go/data/compiler.go:803-879 | refinements: same result, same state, stack restored |
| `DatasetCompilers.DatasetCompiler.CompileValueType` | go/data/compiler.go:1107-1180 | value types and the message stack: same result, same state, stack restored |
| `DatasetCompilers.DatasetCompiler.CompileChildren` | go/data/compiler.go:1107-1180 | the fields of a message in number order: same result, same state, stack restored |
| `DatasetCompilers.DatasetCompiler.ReserveTopLevel` | go/data/compiler.go:310-327 | a first compilation reserves the top-level field numbers as ids |
| `DatasetCompilers.DatasetCompiler.Begin` | go/data/compiler.go:305-327 | the initial state, for a first and for a later compilation |
| `DatasetCompilers.DatasetCompiler.CollectRetired` | go/data/compiler.go:342-361 | the two map walks list exactly the entries to retire |
| `DatasetCompilers.DatasetCompiler.Retire` | go/data/compiler.go:342-367 | the retired list of the output |
| `DatasetCompilers.CompileDataset` | go/data/compiler.go:284-382 | the object-based compiler, on every graph, cyclic ones included, terminates and computes the specification |
| `SqliteChecks.UnsignedMeans` | go/data/sqlite/schema.go:216-218 | the generated expression holds exactly of canonical unsigned decimals |
| `SqliteChecks.UInt64CheckIsExact` | go/data/sqlite/schema.go:104-106 | the uint64 check accepts exactly the canonical spellings of 0 to 2^64-1, over every stored value |
| `SqliteDecimals.DecimalCheckMeans` | go/data/sqlite/schema.go:139-161 | what the decimal(p, s) check accepts of a text, as a recognizer |
| `SqliteDecimals.DecimalCheckIsExact` | go/data/sqlite/schema.go:139-161 | it accepts exactly the fixed-scale renderings of integers below 10^p in magnitude |
| `SqliteDecimals.NoNegativeZero` | go/data/sqlite/schema.go:159-160 | no rendering is a negative zero |
| `SqliteDecimals.FixedInjective` | go/data/sqlite/schema.go:139-161 | different integers have different renderings at one scale |
| `SqliteUuids.UuidCheckIsExact` | go/data/sqlite/schema.go:162-167 | the UUID check accepts exactly the canonical lowercase spellings |
| `McpSession.StepPreserves` | go/mcp.go:86-174 | every step of the reader or of a call keeps the session invariant, whatever ids the client sends |
| `McpSession.CancelHits` | go/mcp.go:191-214 | a cancellation finds exactly the call that still holds the entry of its id |
| `McpRuns.Reachable` | go/mcp.go:86-174 | the invariant holds after every interleaving |
| `McpRuns.OneResponseEach` | go/mcp.go:86-174 | in every interleaving each call gets at most one response, none once a cancellation has found it, and when run returns exactly one otherwise |
| `McpRuns.NoStrayResponses` | go/mcp.go:86-174 | nothing but a call that was read is answered |
| `McpRuns.InflightIsRegistered` | go/mcp.go:155-169 | in every interleaving the inflight map holds exactly the calls whose entry was not taken since |
| `McpRuns.InflightIsUnfinishedIff` | go/mcp.go:155-169 | it holds exactly the unfinished calls exactly when no unfinished call has lost its entry |
| `McpRuns.ReachedIff` | go/mcp.go:191-214 | a call cancelled in flight is found by the cancellation exactly when it had not lost its entry before |
| `McpRuns.PromiseIff` | go/mcp.go:86-174 | for every call of every run that returned: no response if cancelled in flight and one otherwise, exactly when its cancellation was not lost |
| `McpRuns.NothingAfterReturn` | go/mcp.go:86-174 | no step follows the return of run |
| `McpRuns.CanReturn` | go/mcp.go:86-174 | from every state after end of input, finishing the calls leads to a return |
| `McpRuns.ReuseLosesCancellation` | go/mcp.go:155-169 | from every state in which an id is read while a call with it is unfinished, a run in which the new call is cancelled in flight and answered |
| `McpRuns.ReuseIff` | go/mcp.go:155-169 | reading an id exposes the new call to a lost cancellation exactly when a call with that id is unfinished |
| `McpRuns.NoReuseKeepsPromise` | go/mcp.go:86-174 | a client that never does so gets every promise: the inflight map is the unfinished calls, and no response or exactly one |
| `McpRuns.LosingRun` | go/mcp.go:155-169 | a literal run of two calls with one id that breaks the promise |
| `McpRuns.HarmlessRun` | go/mcp.go:155-169 | a literal run that reuses an id and keeps it |
| `McpInflight.InflightTable.Register` | go/mcp.go:146-158 | registering a call in place is the read step |
| `McpInflight.InflightTable.HandleCancelled` | go/mcp.go:191-214 | marking a call cancelled in place is the cancel step |
| `McpInflight.InflightTable.Complete` | go/mcp.go:165-169 | the locked section in place is the finish step |
| `McpIds.KeysAreInjective` | go/mcp.go:344-361 | different ids have different keys, 7 and "7" included |
| `McpStreamCollector.SizeIsExact` | go/mcp.go:534-574 | the running size is the length of the full encoded response and within the limit, after any handler |
| `McpStreamCollector.FailureFreezes` | go/stream.go:117-142 | after a failed send nothing more is collected, whatever the handler does |
| `McpStreamCollector.CollectsDelivered` | go/mcp.go:534-574 | the content is the blocks of the sends that succeeded, in order |
| `McpStreamCollector.ExceededIff` | go/mcp.go:534-574 | the limit is reported exactly when some send would have made the response too long |
| `McpStreamCollector.StreamCollector.Collect` | go/mcp.go:550-572 | the callback in place, with what it leaves alone |
| `McpStreamCollector.StreamCollector.SendMsg` | go/stream.go:117-142 | one send in place |
| `McpStreamCollector.CollectStream` | go/mcp.go:534-574 | the whole call: the limit error, the delivered blocks, or the delivered blocks and the error; a success is within the limit |
| `McpStreamCollector.BodyIsBounded` | go/http.go:425-484 | over HTTP, whatever the handler does and however it fails, the body written is within the limit; it is the whole response unless that is too long |
| `ConnectFrames.EnvelopeReads` | go/http.go:547-574 | the header of a written envelope announces its payload, and the rest follows it |
| `ConnectFrames.ReadEnvelopeIff` | go/http.go:512-544 | reading a request yields a payload exactly when the body is that one uncompressed envelope within the limit |
| `ConnectFrames.FrameIsEnvelope` | typescript/src/http.ts:431-437 | a complete frame is the envelope of its payload |
| `ConnectReframer.BoundConnectStreamBody` | typescript/src/http.ts:421-454 | the nested loops output a function of the concatenated chunks only |
| `ConnectReframer.OutputIsBounded` | typescript/src/http.ts:438-452 | every output frame is complete and within its limit, and an end-stream frame is last |
| `ConnectReframer.WellFormedPasses` | typescript/src/http.ts:421-454 | a well-formed stream within the limits passes unchanged up to its first end-stream frame |
| `ConnectReframer.OutputFollowsInput` | typescript/src/http.ts:421-463 | the output is a prefix of the input, possibly closed by the exhausted frame |
| `HttpStreams.StateTracks` | go/stream.go:68-142 | the stream state after any handler run |
| `HttpStreams.WireShape` | go/http.go:297-353 | the wire is headers once with all accepted metadata, one envelope per successful send in order, one end-stream envelope |
| `HttpStreams.DeliveredBounded` | go/http.go:297-353 | every delivered payload is within the limits |
| `HttpStreams.StickyFailure` | go/stream.go:117-142 | the stream is failed exactly when the context ended or a protobuf send failed |
| `HttpStreams.SuccessIff` | go/stream.go:175-194 | success is reported exactly when the handler succeeded, trailers fit and no protobuf send failed, ignored errors included |
| `HttpStreams.IgnoredNonProtoSucceeds` | go/stream.go:117-124 | a failed send of something that is not a protobuf message is forgotten |
| `HttpStreamBodies.BodyPassesReframer` | typescript/src/http.ts:421-454 | the bytes of every served stream pass the re-framer unchanged |
| `HttpStreamBodies.HttpStream.CommitHeaders` | go/http.go:302-311 | headers are written once |
| `HttpStreamBodies.HttpStream.SetHeader` | go/stream.go:68-76 | metadata is joined until headers are sent |
| `HttpStreamBodies.HttpStream.SendHeader` | go/stream.go:78-92 | headers are sent once |
| `HttpStreamBodies.HttpStream.SetTrailer` | go/stream.go:100-104 | trailers are joined |
| `HttpStreamBodies.HttpStream.SendEnvelope` | go/http.go:312-333 | which messages reach the wire |
| `HttpStreamBodies.HttpStream.SendMsg` | go/stream.go:117-142 | one send in place |
| `HttpStreamBodies.HttpStream.End` | go/http.go:342-353 | the closing of the stream in place |
| `HttpStreamBodies.ServeStream` | go/http.go:297-353 | a whole handler run in place writes the specified wire |
| `Globs.MatchesIff` | go/server.go:368-391 | a pattern matches exactly the texts got by filling its stars |
| `Globs.GlobMatch` | go/server.go:368-391 | the Go matcher computes that |
| `Globs.GlobMatches` | rust/src/server.rs:1315-1340 | the Rust loop terminates and computes the greedy matcher |
| `Globs.GreedyIsMatching` | rust/src/server.rs:1315-1340 | greedy matching with a single backtrack point is matching, on candidates with no star before the last character |
| `Globs.AgreementIff` | rust/src/server.rs:1315-1340 | the two matchers agree on every pattern exactly for those candidates |
| `Globs.StarInCandidate` | rust/src/server.rs:1321-1324 | the pattern * and the candidate *a separate the two matchers |
| `Globs.ShouldInclude` | go/server.go:330-363 | the include and exclude loops compute the filter |
| `Globs.FiltersAgree` | rust/src/server.rs:1299-1313 | the Rust filter and the Go filter select the same methods |
| `Reachability.Walker.Add` | go/registration.go:326-346 | the depth-first walk terminates on cycles, adds exactly reachable messages and their files, and leaves what it added closed |
| `Reachability.ReachableServiceFiles` | go/registration.go:306-318 | the files are exactly those of messages reachable from the methods, and of their enums |
| `Reachability.AddFileDependencies` | rust/src/descriptor.rs:343-358 | the worklist computes the least superset of the paths that is closed under dependencies |
| `ServiceRegistry.CommitKeepsCatalog` | go/registration.go:75-139 | a committed group keeps the catalog exact |
| `ServiceRegistry.FiltersKeepCatalog` | go/server.go:138-148 | filters change only while nothing is registered, so they keep it too |
| `ServiceRegistry.CatalogExactIff` | go/registration.go:75-177 | after any operations, interrupted registrations included, the catalog is exactly the filter of the registered services' projectable methods exactly when no registration was accepted with an unbuildable tool |
| `ServiceRegistry.FrozenForever` | go/registration.go:483-491 | after freeze nothing changes, in any run |
| `ServiceRegistryObject.InvariantServer.UpdateConfiguration` | go/server.go:129-136 | settings change only before freeze |
| `ServiceRegistryObject.InvariantServer.Include` | go/server.go:138-148 | include patterns change only before freeze and registration |
| `ServiceRegistryObject.InvariantServer.Exclude` | go/server.go:138-148 | exclude patterns likewise |
| `ServiceRegistryObject.InvariantServer.Freeze` | go/registration.go:483-491 | the freeze |
| `ServiceRegistryObject.InvariantServer.ToolsForService` | go/registration.go:141-177 | the staged tools of a service are its filtered projectable methods |
| `ServiceRegistryObject.InvariantServer.Claim` | go/registration.go:93-123 | tool names are claimed exactly when none is taken |
| `ServiceRegistryObject.InvariantServer.Stage` | go/registration.go:90-124 | a group is staged exactly when its services and tools are new |
| `ServiceRegistryObject.InvariantServer.AddTool` | go/server.go:457-492 | a tool is added exactly when its request can be built |
| `ServiceRegistryObject.InvariantServer.AddTools` | go/registration.go:128-136 | tools are added in order, up to the first that cannot be |
| `ServiceRegistryObject.InvariantServer.RegisterServices` | go/registration.go:75-139 | every outcome of a group registration: refused and unchanged, committed, or stopped at the first unbuildable tool |
| `ServiceRegistryObject.AtomicIff` | go/registration.go:75-139 | an accepted group changes all or nothing exactly when every staged tool has a request factory |
| `DescriptorImages.ServiceCoversMessages` | go/registration.go:184-299 | agreement of the files that a service reaches is agreement of the files that each of its request and response types reaches |
| `ServiceRegistryCallers.CallersAreBuildable` | go/server.go:540-620 | whatever a generated service, ConnectGRPC or ConnectHTTP registers, each staged tool has a request factory |
| `ServiceRegistryCallers.PublicRunsAreExact` | go/registration.go:75-177 | over every sequence of public calls each registration changes nothing or commits its whole group, and the catalog is exact in every state |
| `HttpRequests.BuildRequest` | go/http_client.go:481-586 | the imperative request builder computes its specification |
| `HttpConservation.DeleteLeaves` | go/http_client.go:721-736 | deleting a nested field removes exactly its leaves |
| `HttpConservation.PathLeaves` | go/http_client.go:525-557 | with distinct variables, arguments are the leaves left plus the leaves in the path |
| `HttpConservation.QueryMembers` | go/http_client.go:755-792 | the query holds exactly the leaves it is given, in order |
| `HttpConservation.RequestConserves` | go/http_client.go:481-523 | with distinct variables every scalar leaf lands in exactly one of path, body and query |
| `HttpConservation.ConservedIff` | go/http_client.go:481-523 | leaves are conserved exactly when the template repeats no variable |
| `HttpConservation.RepeatedVariable` | go/http_client.go:525-557 | a literal template with one variable twice sends its scalar twice |
| `ReflectionFiles.ServiceMoves` | go/grpc_server.go:133-182 | a retained service is at the index it is remapped to, with its retained methods |
| `ReflectionFiles.MethodMoves` | go/grpc_server.go:133-182 | a retained method is at the index it is remapped to |
| `ReflectionFiles.RemapInjective` | go/grpc_server.go:133-182 | no two source paths are remapped to one |
| `ReflectionFiles.CommentMoves` | go/grpc_server.go:133-182 | looking up a remapped path finds what the original path had |
| `ReflectionFiles.NoStrayComment` | go/grpc_server.go:133-182 | every surviving comment comes from the retained element it now names |
| `ReflectionFiles.MethodKeepsComment` | go/grpc_server.go:133-182 | every retained service and method keeps exactly its own comment at its new index |
| `ReflectionFiles.FilterMethods` | go/grpc_server.go:133-182 | the method loop keeps the registered methods and their index map |
| `ReflectionFiles.FilterServices` | go/grpc_server.go:133-182 | the service loop keeps the registered services and both index maps |
| `ReflectionFiles.FilterFile` | go/grpc_server.go:133-182 | the nested loops compute the filtered file |
| `ReflectionPathKeys.PathKeyInjective` | go/descriptor.go:211-217 | two descriptor paths never share a key |

## Left out

- Arrow, Parquet and Postgres renderers, and the SQLite kinds other than uint64, decimal and UUID: tables of cases over libraries.
- Protobuf, JSON, base64 and URL encoding and the grpc library: values and byte strings stand for their results; a JSON scalar in an HTTP request is its text.
- Sockets, files, environment variables, health and catalog endpoints: plumbing.
- Error texts, comments, defaults of columns and DDL layout: an error is `Err` without a text.
- Discovery of annotated datasets, option-number validation, trimming of root names and the version of a `SchemaBundle`: the bundle model starts from the selected roots.
- The OpenAPI importer, change-data fixtures, JSON Schema generators and the TypeScript glob matcher.
- Nil entries in lists of fields: the type `Unset` stands for a missing entry too, and every path refuses both. A type message without a kind is `Kindless`, which the loader indexes and everything else refuses.
- The Iceberg types of the plan: the Iceberg renderer is modelled as far as it accepts or refuses a dataset; the plan's expressions, discriminators and children are modelled.
- ClickHouse's own comparison of `Float` values: floats are bit patterns, so the `map_keys` check compares Float keys by bits and not by value (zeros and NaN).
- Unicode normalisation: names are sequences of characters, checked as the source checks them.
- SQLite results that no generated constraint depends on are one value `Other`; text with an embedded NUL follows `length`, `substr` and `GLOB` as SQLite documents them.
- The mutex, goroutine scheduling and cancellation contexts inside handlers: a locked section is one step, and a handler may finish at any time.
- Requests other than `tools/call`, parse errors and lifecycle checks of the MCP session: they are answered inside the reader and never enter the inflight map.
- McpIds.KeysAreInjective: an id is a decoded string or integer; the JSON text of an id is not parsed.
- HttpStreams.WireShape: writes to the connection succeed and a handler's calls on one stream are sequential; metadata filtering for reserved header names is not modelled.
- ConnectReframer.BoundConnectStreamBody: the asynchronous source of chunks is a sequence, so back-pressure and early return by the consumer are not modelled.
- HttpRequests.BuildRequest: deleting a nested field works on values, so aliasing between the working map and its nested maps is not modelled; field paths are lists of names, so a name that itself contains a dot does not occur.
- Reachability.Walker.Add: extensions and nested message declarations are reached only through fields, as in the walk; `add_message_files` in Rust has the same shape and is not modelled a second time.
- ReflectionFiles.FilterFile: which files are gathered, and the rebuilding of descriptors, are not modelled; paths and comments of one file are.
- ServiceRegistryCallers.PublicRunsAreExact: handlers, native gRPC registration and validity of a handler type are facts about a service given with it; the files and the message types linked into the binary are one image; the error cases of building the loaded image are not modelled.
- ClickHouseStray.TableDecidesIff: stated for a database in which some text is valid UTF-8 and some is valid JSON, which every ClickHouse is.
- ClickHouseReading.ParseUndoesRender: the parser covers the fragment that is emitted, with SQL precedence; it is not ClickHouse's whole grammar.
