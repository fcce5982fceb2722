# Shared analyses and kernels of Phorj, modelled and proved

Phorj compiles one front end to three backends that must agree. They agree because each question with
more than one possible answer is decided once, by a shared analysis or kernel. This project models those
and proves what they are for.

| files | what they model |
|---|---|
| `Types`, `TypeNormalForm`, `TypeOrder` | assignability between types, and the normal form of unions and intersections |
| `Ast`, `Walk`, `Subexprs` | the syntax tree, the closure-capture walk, the `this` walk, the child enumerator |
| `Interp`, `Capture*`, `Totality` | a fuel-indexed evaluator (after `src/interpreter`), the soundness of capture by value, and the checker's rule for blocks that never fall through |
| `LowerUsing`, `UsingGuarantee` | the lowering of `using` and its release guarantee |
| `Graph`, `Declarations`, `ClassHierarchy`, `SearchOrders` | reachability, supertypes, interfaces, breadth-first and depth-first orders |
| `MethodTables`, `MethodOrigins`, `MethodAgreement` | the method dispatch table, its memoised computation, and its agreement with the search orders |
| `MemberLookup`, `ClassStatics`, `ClassLayout` | constants, static owners, field layout, constructor plans, field initializers |
| `Dispatch`, `DispatchOracle` | overload selection and the emitted branch order |
| `Utf8`, `Charset`, `PhStr` | UTF-8, the charset codecs, the string representation |
| `Crc32`, `Container` | the checksum and the container it guards |
| `JsonGrammar`, `JsonParser`, `JsonRoundTrip`, `JsonSurrogates`, `JsonFaults`, `Diagnostics` | the JSON parser and printers |
| `Inspect` | the secure renderer |
| `Order` | string order, sorted lists |

A loop of the source is a method with its invariants, proved equal to a function or to a closed
description of the result; the properties are then lemmas about that function or description. Objects
the source updates in place are classes (`Walk.Collector`, `MethodOrigins.Ctx`, `JsonParser.ParseState`,
`PhStr.HeapStr`, `PhStr.Variables`, `Inspect.Renderer`).

## Where the code and its documentation differ

The model follows the code in each case.

- `free_vars` says that missing a capture is a bug. It misses one in two shapes of tree: a three-clause
  `for` whose step is a declaration (the body sees the step's name bound although its first iteration
  runs before the step), and a destructuring `else` that falls through. `CaptureReport.StepHidesItsNames`
  and `DestructureHidesItsNames` state exactly what each costs; `CaptureTheorems.DeclaringStepUnderReports`
  and `FallingElseUnderReports` run the failing programs. Capture is proved sound for every body whose
  report holds the names it needs (`Capture.FitBody`).
- The checker rejects an `else` that falls through (src/checker/stmt/flow.rs:233-243), which would exclude
  the second shape, but its rule accepts one kind that does fall through: a `do` loop counts as terminating
  when its body holds a terminating statement, even if the body leaves the loop before it
  (`Totality.RuleAcceptsLeavingLoop`; the under-reporting program above is of this kind). Without such a
  loop the rule is sound (`Totality.TerminatesNeverCompletes`, `RuleIsCareful`).
- `lambda_uses_this` does not look for `parent` calls, which need the receiver too. A closure loses a
  receiver it can read exactly when its body calls `parent` and nowhere mentions `this`
  (`CaptureTheorems.ReceiverLostIff`, with `ParentCallLosesReceiver` as the failing run).
- `union_of` promises an order-independent result. That needs rendering to be injective on the members:
  a type parameter and a class of the same name render alike (`TypeNormalForm.RenderingClash`). The exact
  condition for a whole member list is `TypeOrder.OrderIndependentIff`.
- `Json::parse` promises to be total. On `\uD8xx` followed by an escape below `\uDC00` the subtraction at
  src/json.rs:198 underflows: a build with overflow checks panics, one without them wraps, and either
  way nothing checks that the second half is a low surrogate (`JsonSurrogates.CombineExactly`). Which
  documents fault is `JsonFaults.DocumentFaultsIff`.
- The renderer's strings are said to be unable to inject terminal escapes and to stay on one line. Only the
  controls below U+0020, the quote and the backslash are escaped: U+007F, the C1 controls U+0080 to U+009F
  and the separators U+2028 and U+2029 come through as they are (`Inspect.ShownIsPrintable`).
- The agreement between overload selection and the emitted if-chain is for resolvable calls; an
  ambiguous call takes the first branch of the chain (`Dispatch.IncomparableDiffer`).
- The child enumerator calls itself one level; it counts the expressions inside a lambda's nested
  statements as that level, and the model does the same.

## Model

| member | source | states |
|---|---|---|
| Types.NeverIsBottom | src/types.rs:196-288 | `never` flows into every well-formed type, whatever arm decides it |
| Types.UnionIsLeastUpperBound | src/types.rs:207-214 | a union flows into a type exactly when each of its members does |
| Types.IntersectionIsGreatestLowerBound | src/types.rs:215-224 | a type flows into an intersection exactly when it flows into each member |
| Types.MemberSuffices | src/types.rs:207-214 | a type that is not a union flows into a union exactly when some member accepts it |
| Types.AssignableReflexive | src/types.rs:196-288 | assignability is reflexive on well-formed types under a nominal order |
| Types.AssignableTransitive | src/types.rs:196-288 | assignability is transitive on well-formed types under a nominal order, through every pair of arms |
| Types.OptionalOnlyIntoOptional | src/types.rs:201-206 | an optional flows only into an optional |
| Types.FunctionInto | src/types.rs:230-244 | a function type flows into another exactly when signatures are equal and every thrown type is covered |
| Types.PoisonBreaksTransitivity | src/types.rs:196-266 | with the error type admitted, at the top or as an argument, transitivity fails |
| TypeNormalForm.Normalize | src/types.rs:133-187 | the flattening, deduplicating, sorting loop computes the normal form |
| TypeNormalForm.NormalizedOrderIndependent | src/types.rs:128-157 | two member lists with the same parts, rendered injectively, have one normal form |
| TypeOrder.OrderIndependentIff | src/types.rs:128-187 | a member list has one normal form in every order if and only if members holding two parts that render alike agree on which comes first |
| TypeOrder.FlatOrderIndependentIff | src/types.rs:128-187 | for members that are no composites themselves, if and only if rendering is injective on them |
| TypeOrder.SortLeads | src/types.rs:151-181 | the sort by rendering is stable |
| TypeNormalForm.PairOrderIndependentIff | src/types.rs:128-157 | for two members, order does not matter if and only if they are equal or render differently |
| TypeNormalForm.RenderingClash | src/types.rs:151-151 | a type parameter and a class of one name give two different unions |
| TypeNormalForm.NormalizedIdempotent | src/types.rs:128-187 | normalising a normalised type changes nothing |
| TypeNormalForm.NormalizedWellFormed | src/types.rs:128-187 | the normal form of well-formed members is well-formed |
| TypeNormalForm.UnionOfIsJoin | src/types.rs:133-157 | `union_of` accepts every member and flows into a type exactly when all members do |
| TypeNormalForm.IntersectionOfIsMeet | src/types.rs:163-187 | `intersection_of` flows into every member, and a type flows into it exactly when into all members |
| Walk.Collector.Expr | src/ast/walk.rs:28-152 | the expression walk adds exactly the free names of the expression |
| Walk.Collector.Block | src/ast/walk.rs:153-162 | a block's declarations bind the statements after them |
| Walk.Collector.Stmt | src/ast/walk.rs:163-290 | a statement adds its free names and binds what it declares |
| Walk.Collector.Pattern | src/ast/walk.rs:588-627 | a pattern binds exactly the names it mentions |
| Walk.FreeVarsSorted | src/ast/walk.rs:17-26 | the capture list is sorted, free of repeats, and exactly the free names |
| Capture.ExprMinus | src/ast/walk.rs:28-152 | binding more names removes exactly those from the report, nothing else |
| Capture.StmtMinus | src/ast/walk.rs:163-290 | the same for statements, through every scope they open |
| Capture.AnyExprMonotone | src/ast/walk.rs:439-509 | the total walk is monotone in its predicate |
| CaptureReport.StepHidesItsNames | src/ast/walk.rs:218-237 | a declaring step makes the report lose its own names and no other: complete if and only if the body reads none of them or a clause reports those it reads |
| CaptureReport.DestructureHidesItsNames | src/ast/walk.rs:251-269 | the report of a destructuring and what follows it is what its parts report less its binders: complete if and only if what follows reads none of them or the initializer or `else` reports those it reads |
| CaptureReport.NeedsAreReported | src/ast/walk.rs:17-26 | a body with neither form, nested lambdas included, has its needs reported exactly |
| CaptureReport.StmtReported | src/ast/walk.rs:163-290 | the same for statements, through every scope they open |
| CaptureReport.ReadingReceiverFaults | src/interpreter/expr.rs:38-41 | without a receiver neither `this` nor a `parent` call evaluates to a value |
| Totality.TerminatesNeverCompletes | src/checker/program/totality.rs:9-74 | a block the rule accepts never falls through in any run, if no `do` loop in it relies on a body that can leave the loop |
| Totality.RuleIsCareful | src/checker/program/totality.rs:27-39 | the checker's rule is that one wherever no `do` loop can be left |
| Totality.RuleAcceptsLeavingLoop | src/checker/program/totality.rs:31-39 | the checker's rule accepts a `do` loop that is left before its terminating statement, and such a block always falls through |
| Totality.ExecKeepsControl | src/checker/common_flow.rs:34-79 | a statement without a loose `break` (or `continue`) never ends in one |
| Totality.CheckedIsRight | src/checker/stmt/flow.rs:233-243 | so the rule is a right account of which `else` blocks may fall through |
| CaptureSound.EvalInStep | src/ast/walk.rs:28-152 | two evaluations of an expression in environments alike on the names it needs stay in step |
| CaptureSound.ExecInStep | src/ast/walk.rs:163-290 | the same for statements, with the environments they leave behind |
| CaptureSound.ValueInStep | src/ast/walk.rs:17-26 | calling alike closures on alike arguments stays in step |
| CaptureTheorems.ReportedNamesSuffice | src/ast/walk.rs:6-26 | when the report holds every name a body needs, a closure over any environment that agrees on the reported names behaves as the closure over all of it |
| CaptureTheorems.UnusedReceiverIgnored | src/ast/walk.rs:291-419 | the receiver does not matter to a body without `this` |
| CaptureTheorems.CapturingModesAgree | src/ast/walk.rs:6-26 | whole programs behave alike whether lambdas capture the reported names or everything |
| CaptureTheorems.CheckedModesAgree | src/ast/walk.rs:6-26 | in particular programs without declaring steps whose destructuring `else` blocks pass the checker's rule |
| CaptureTheorems.SameGround | src/ast/walk.rs:13-16 | values in step that hold no closure are equal |
| CaptureTheorems.DeclaringStepUnderReports | src/ast/walk.rs:218-237 | a loop on which capturing only the reported names faults and capturing all does not |
| CaptureTheorems.FallingElseUnderReports | src/ast/walk.rs:251-269 | the same for a destructuring whose `else` the checker accepts and which falls through |
| CaptureTheorems.ReceiverLostIff | src/ast/walk.rs:291-361 | for every body, the closure lacks a receiver it can read if and only if the body calls `parent` and nowhere mentions `this` |
| CaptureTheorems.ParentCallLosesReceiver | src/ast/walk.rs:291-361 | a lambda that only calls `parent` is built without its receiver and faults |
| UsingGuarantee.ExecKeeps | src/ast/lower_using.rs:49-57 | code that does not assign a name leaves its binding as it was |
| UsingGuarantee.GuardedReleases | src/ast/lower_using.rs:75-80 | the guarded body runs, then `close` runs once on the held value |
| UsingGuarantee.UsingReleases | src/ast/lower_using.rs:48-82 | `close` runs once, on the acquired value, after every outcome of the body; the outcome stands unless `close` does not return; a failed initializer closes nothing |
| UsingGuarantee.NestReleasesInnerFirst | src/ast/stmts.rs:115-134 | any nesting, for every body and every `close`, is the body or failed initializer followed by unwinding the acquired handles, innermost first |
| UsingGuarantee.UnwindClosesEach | src/ast/stmts.rs:115-134 | unwinding calls `close` on every handle, in the world the inner ones left, whether or not those returned; the last `close` that did not return decides the outcome, else the body does |
| UsingGuarantee.QuietNestReleases | src/ast/stmts.rs:115-134 | with `close` methods that only return, the outcome stands and the trace gains one call per handle, innermost first |
| UsingGuarantee.TwoHandles | src/ast/stmts.rs:115-134 | two nested handles of a class with an empty `close` |
| ClassHierarchy.ClassSupertypes | src/ast/class_hierarchy.rs:78-110 | each class's list is sorted and holds exactly the names one or more `extends` steps away, cycles included |
| ClassHierarchy.Closure | src/ast/class_hierarchy.rs:38-51 | the guarded walk adds everything reached and nothing else, and ends on every graph |
| ClassHierarchy.Ancestors | src/ast/class_hierarchy.rs:88-100 | the walk adds the strict ancestors; the name itself only through a cycle |
| ClassHierarchy.ClassImplements | src/ast/class_hierarchy.rs:17-70 | each class's list is exactly the interface closure over the class and its ancestors |
| ClassHierarchy.InstanceofTable | src/ast/class_hierarchy.rs:119-134 | the table is sorted, free of repeats, and exactly interfaces plus ancestor classes |
| ClassHierarchy.InstanceOfTransitive | src/ast/class_hierarchy.rs:112-118 | the table is transitively closed |
| ClassHierarchy.TableOracleIsNominalOrder | src/ast/class_hierarchy.rs:112-134 | on an acyclic hierarchy the table is the order that assignability asks of its oracle |
| SearchOrders.Mro | src/ast/class_hierarchy.rs:157-171 | the growing-queue walk lists what is reached, once each, nearest first |
| SearchOrders.ClassMro | src/ast/class_hierarchy.rs:144-176 | every class has its breadth-first order |
| SearchOrders.MroIsAbove | src/ast/class_hierarchy.rs:136-143 | the order lists the same names as the supertypes table, on cyclic graphs too |
| SearchOrders.MroIsSearchOrder | src/ast/class_hierarchy.rs:140-143 | the class followed by its order is a search order |
| SearchOrders.Walk | src/ast/static_owners.rs:117-133 | the depth-first walk extends its list by a search from the class; on an acyclic graph it is the plain depth-first order |
| SearchOrders.ClassLookupOrder | src/ast/static_owners.rs:111-137 | the lookup order starts at the class, visits each reached name once, and reaches all |
| MethodTables.ClausesKeepOrigins | src/ast/class_hierarchy.rs:351-384 | `use`, `rename` and `exclude` filter and rename, and never change where a method comes from |
| MethodTables.Least | src/ast/class_hierarchy.rs:390-404 | the deterministic pick is the least pair |
| MethodOrigins.ApplyClause | src/ast/class_hierarchy.rs:352-383 | one clause acts on the contributions as on the set of arrivals |
| MethodOrigins.Ctx.Resolve | src/ast/class_hierarchy.rs:308-411 | resolution ends on every hierarchy, every entry is sound, and on an acyclic one the result is the plain recursion whatever was resolved before |
| MethodOrigins.Ctx.Gather | src/ast/class_hierarchy.rs:323-350 | the contributions are the parents' tables and the traits' methods, less what the class declares |
| MethodOrigins.Ctx.Finalize | src/ast/class_hierarchy.rs:385-407 | each surviving name gets its least origin; a conflict is recorded once, exactly when two origins survive |
| MethodOrigins.ClassMethodOrigins | src/ast/class_hierarchy.rs:283-467 | the table's entries are declared by the class, an ancestor or a used trait; on an acyclic hierarchy table and conflicts are exactly the plain recursion's |
| MethodAgreement.OriginDeclares | src/ast/class_hierarchy.rs:270-281 | the origin of an untouched name declares that name |
| MethodAgreement.DiamondNeverConflicts | src/ast/class_hierarchy.rs:276-279 | a method one class declares never conflicts, whatever the hierarchy's shape |
| MethodAgreement.QuietDeclarerWins | src/ast/class_hierarchy.rs:316-350 | the first declarer on any path is the table's answer |
| MethodAgreement.SearchFindsTable | src/ast/class_hierarchy.rs:140-143 | every search order finds the table's answer, or nothing when it has none |
| MethodAgreement.OrdersAgree | src/ast/class_hierarchy.rs:136-176 | table, breadth-first order and depth-first order name the same method |
| MethodAgreement.ResolveParentMethod | src/ast/class_hierarchy.rs:225-268 | when each of the five results is returned |
| MethodAgreement.BareParentIsNearest | src/ast/class_hierarchy.rs:218-220 | an unambiguous bare `parent` call reaches the first declarer in the resolution order, strictly above |
| MethodAgreement.ParentTargetIsAbove | src/ast/class_hierarchy.rs:208-220 | the target of any `parent` call is supplied strictly above the calling class |
| MethodAgreement.ParentChainIsFinite | src/ast/class_hierarchy.rs:208-224 | chains of `parent` calls are no longer than the number of ancestors |
| MemberLookup.FlattenedIsFirstHit | src/ast/class_layout.rs:273-304 | the unguarded recursion binds each name to the first hit along the depth-first order |
| ClassStatics.Flatten | src/ast/class_layout.rs:274-304 | the path-guarded flattening ends on every graph and is the plain merge on a regular one |
| ClassStatics.ClassConsts | src/ast/class_layout.rs:227-315 | each constant is the first hit along the lookup order, each class before its traits |
| ClassStatics.StaticFieldOwners | src/ast/static_owners.rs:18-48 | each static's owner is the first hit along the same order |
| ClassStatics.OwnerOwnsItself | src/ast/static_owners.rs:12-17 | the owner is an ancestor that owns the field in its own name, so all inheritors share one slot |
| ClassStatics.OwnersAreMerged | src/ast/static_owners.rs:111-115 | the owner is also what merging each class over its parents gives |
| ClassLayout.Gather | src/ast/class_layout.rs:182-202 | the guarded walk adds the fields of exactly the components it reaches |
| ClassLayout.ClassFieldLayout | src/ast/class_layout.rs:135-212 | a class's layout is the sorted list of the storage names of everything it is composed of |
| ClassLayout.PartSlots | src/ast/class_layout.rs:128-134 | a layout contains the layouts of parents and traits |
| ClassLayout.PlanHasSlots | src/ast/class_layout.rs:317-372 | every promoted parameter of every constructor that runs has a slot |
| ClassLayout.OwnInitializers | src/ast/field_inits.rs:15-33 | every initialised field of a member list is storage of it |
| ClassLayout.OwnWithTraits | src/ast/field_inits.rs:38-50 | the traits' initializers in order, then the class's own |
| ClassLayout.FieldInitializers | src/ast/field_inits.rs:81-108 | every initializer that runs has a slot, on any hierarchy; on an acyclic one the path guard cuts nothing off |
| Dispatch.DominatesIsStrict | src/dispatch.rs:110-118 | dominating is being different and nowhere less specific |
| Dispatch.DominatesIsStrictOrder | src/dispatch.rs:106-118 | dominance is irreflexive, asymmetric and transitive |
| Dispatch.MatchingIsMonotone | src/dispatch.rs:70-104 | arguments a signature takes, every less specific signature takes |
| Dispatch.MostSpecificUnique | src/dispatch.rs:131-134 | distinct signatures have at most one most specific match |
| Dispatch.SelectsMostSpecific | src/dispatch.rs:135-170 | selection returns an index exactly when it is the unique most specific match, and no match exactly when none matches |
| Dispatch.OrderIndependent | src/dispatch.rs:131-170 | permuting the candidates selects the same signature |
| Dispatch.ChainPicksSelected | src/dispatch.rs:106-109 | in any branch order without a branch after one it dominates, the first matching branch is the selected one |
| Dispatch.IncomparableDiffer | src/dispatch.rs:126-128 | two incomparable matches are ambiguous although a chain takes the first |
| Dispatch.AmbiguousCallExists | src/dispatch.rs:126-128 | such a call exists |
| DispatchOracle.TableIsHierarchical | src/dispatch.rs:63-67 | the instance-of table is an oracle selection can rely on |
| Utf8.DecodeEncoded | src/phstr.rs:11-15 | decoding an encoded text gives it back |
| Utf8.EncodeDecoded | src/phstr.rs:11-15 | valid bytes are the encoding of what they decode to |
| Utf8.ValidIffEncoded | src/phstr.rs:11-15 | bytes decode to a text exactly when the text encodes to them |
| Utf8.EncodeConcat | src/phstr.rs:11-12 | concatenated encodings are the encoding of the concatenation |
| Utf8.ByteOrderIsCodePointOrder | src/phstr.rs:17-19 | comparing bytes and comparing code points give the same order |
| Charset.SingleByteInverse | src/charset.rs:83-138 | in each single-byte charset a byte means a character exactly when the character is written as that byte |
| Charset.Utf16Inverse | src/charset.rs:140-161 | UTF-16 in either byte order decodes to a text exactly when the text encodes to those bytes |
| Charset.PartialInverses | src/charset.rs:163-205 | decoding and encoding are partial inverses in all seven charsets |
| Charset.DecodeBytes | src/charset.rs:164-179 | the decoding loop computes the decoding |
| Charset.EncodeText | src/charset.rs:182-205 | the encoding loop computes the encoding |
| PhStr.Fnv1a | src/phstr.rs:52-59 | the loop computes the hash of the bytes |
| PhStr.TextHash | src/phstr.rs:89-93 | a stored hash is never 0 |
| PhStr.New | src/phstr.rs:72-83 | a new value denotes its text, inline or in a cell of its own |
| PhStr.Literal | src/phstr.rs:89-98 | a literal is on the heap with a true hash |
| PhStr.Concat | src/phstr.rs:200-218 | concatenation denotes the concatenated texts, in either representation |
| PhStr.AppendInPlace | src/phstr.rs:186-198 | appending in place happens exactly for a sole owner and valid bytes, and then equals concatenation |
| PhStr.CachedHash | src/phstr.rs:152-171 | the hash is that of the text; the cache is filled with it and nothing else changes |
| PhStr.Equal | src/phstr.rs:271-282 | equality is equality of texts, across representations |
| PhStr.CompareIsTextOrder | src/phstr.rs:321-327 | comparison is code-point order of the texts |
| PhStr.Variables.HashOf | src/phstr.rs:150-171 | equal texts have equal hashes however they are held |
| PhStr.Variables.TryAppend | src/phstr.rs:181-198 | an in-place append happens exactly for a sole owner and valid bytes, and changes that variable and no other |
| PhStr.Variables.Perform | src/phstr.rs:61-218 | each operation acts on the variables as on plain texts |
| PhStr.Variables.Run | src/phstr.rs:61-218 | so does every sequence of operations: sharing is never observable |
| Crc32.Compute | src/bundle/container.rs:9-19 | the nested loops compute the checksum |
| Crc32.RoundLinear | src/bundle/container.rs:14-15 | a round is linear over exclusive or |
| Crc32.RoundInjective | src/bundle/container.rs:14-15 | a round is injective |
| Crc32.FourBytesDiffer | src/bundle/container.rs:9-19 | four bytes read from one register leave it different exactly when they differ |
| Crc32.BurstDetected | src/bundle/container.rs:9-19 | a change confined to four consecutive bytes changes the checksum, at any length |
| Crc32.ByteDetected | src/bundle/container.rs:9-19 | any single changed byte changes the checksum |
| Container.EncodeContainerWith | src/bundle/container.rs:31-46 | the appends build header, checksums and payload |
| Container.IntactHeader | src/bundle/container.rs:56-89 | with an intact header decoding comes down to the payload checksum |
| Container.RoundTrip | src/bundle/container.rs:31-89 | a container decodes to exactly its source and profile, whatever follows it |
| Container.PrefixRejected | src/bundle/container.rs:48-82 | every proper prefix is rejected |
| Container.PayloadBurstRejected | src/bundle/container.rs:83-86 | changing at most four consecutive payload bytes is rejected |
| Container.ByteChangeRejected | src/bundle/container.rs:48-89 | changing any one byte of the container is rejected |
| JsonGrammar.Document | src/json.rs:21-38 | an accepted document nests at most 511 deep |
| JsonGrammar.Value | src/json.rs:101-123 | at any depth, what is accepted stays within the limit; an unchecked build never faults |
| JsonParser.ParseState.ReadValue | src/json.rs:101-123 | the cursor reads what the grammar says, stops where it says, and restores its depth |
| JsonParser.ParseState.ReadObject | src/json.rs:125-153 | the member loop collects exactly the grammar's members |
| JsonParser.ParseState.ReadArray | src/json.rs:155-173 | the element loop collects exactly the grammar's elements |
| JsonParser.ParseState.ReadContent | src/json.rs:175-223 | the string loop collects exactly the grammar's content |
| JsonParser.ParseState.ReadUnicodeEscape | src/json.rs:190-203 | the escape reads the code the grammar gives, fault included |
| JsonParser.ParseState.ReadHex4 | src/json.rs:225-232 | four digits fold into their value |
| JsonParser.ParseState.ReadNumber | src/json.rs:255-268 | a number is the longest run of number bytes that parses |
| JsonParser.ParseState.ReadKeyword | src/json.rs:234-253 | the three keywords |
| JsonParser.Parse | src/json.rs:22-38 | parsing a text is what the grammar says of its bytes |
| JsonRoundTrip.JsonEscape | src/diagnostic.rs:278-292 | the loop computes the escaping |
| JsonRoundTrip.ContentOfEscaped | src/diagnostic.rs:275-292 | escaping any text and reading it back is the identity |
| JsonRoundTrip.NumberOfDecimal | src/diagnostic.rs:235-240 | a printed unsigned number is read back as itself |
| JsonRoundTrip.PrintParses | src/json.rs:101-173 | a printed value parses back at any depth the limit allows and leaves what follows |
| JsonRoundTrip.PrintTooDeep | src/json.rs:106-108 | a printed value past the limit is rejected, wherever in it the limit is passed |
| JsonRoundTrip.DocumentRoundTrip | src/json.rs:22-38 | a printed document parses back exactly when it nests at most 511 deep |
| JsonSurrogates.CombineExactly | src/json.rs:193-199 | the arithmetic faults exactly below 0xDC00 in a checked build; otherwise it accepts exactly when its formula is a scalar value |
| JsonSurrogates.UncheckedAcceptsNonPair | src/json.rs:192-199 | a pair that is no surrogate pair is accepted |
| JsonSurrogates.StringWithPair | src/json.rs:190-203 | what a document whose string starts with any text and such a pair does, in either build |
| JsonSurrogates.CleanNeverFaults | src/json.rs:21-38 | bytes that nowhere spell such a pair never fault, a guard that needs no parsing; nothing faults in an unchecked build |
| JsonFaults.ContentTells | src/json.rs:160-215 | reading a string's content faults in a checked build if and only if it reads such a pair as an escape; else the two builds agree |
| JsonFaults.DocumentFaultsIff | src/json.rs:21-38 | the same for whole documents |
| Diagnostics.TextIsPrinted | src/diagnostic.rs:227-242 | the hand-written format is the printed document |
| Diagnostics.DiagnosticsRoundTrip | src/diagnostic.rs:294-304 | the printed diagnostics parse to the errors then the warnings, each with its message, code, hint and position |
| Subexprs.PushSubexprs | src/ast/subexprs.rs:16-100 | the arms push exactly the children, in order |
| Subexprs.PushStmtExprs | src/ast/subexprs.rs:103-185 | the same for what statements hold |
| Subexprs.ChildrenOneLevel | src/ast/subexprs.rs:11-15 | children are smaller, are what the recursive test descends into, and carry every free name but an identifier's own |
| Subexprs.Worklist | src/ast/subexprs.rs:11-100 | iterating the enumerator ends and visits exactly what the recursive walk tests, and every free name |
| Subexprs.UsesThisIffReached | src/ast/walk.rs:297-419 | a lambda uses `this` exactly when a reached node is `this` |
| Subexprs.CapturedNamesReached | src/ast/walk.rs:17-26 | every captured name is a reached identifier |
| Inspect.Renderer.RenderInto | src/inspect.rs:58-125 | rendering appends the value's text and ends whatever the graph |
| Inspect.Renderer.PushSeq | src/inspect.rs:128-155 | delimiters, caps and the count of what is left out |
| Inspect.Renderer.PushQuotedStr | src/inspect.rs:167-187 | the counting loop shows the capped, escaped text |
| Inspect.Renderer.PushBytes | src/inspect.rs:190-201 | the length, the shown octets and the ellipsis |
| Inspect.RenderWith | src/inspect.rs:52-56 | at most the sum of max_elements^k visits for k up to max_depth |
| Inspect.MostVisitsIsPowerSum | src/inspect.rs:24-32 | the recursive bound is that sum |
| Inspect.AlikeRenderAlike | src/inspect.rs:82-100 | values alike outside secrets render alike |
| Inspect.SecretsDoNotShow | src/inspect.rs:6-9 | two heaps that differ only inside secret instances render every value to the same text |
| Inspect.EscapedExactly | src/inspect.rs:172-180 | exactly the controls below U+0020, the quote and the backslash are escaped |
| Inspect.ShownIsPrintable | src/inspect.rs:165-183 | no control below U+0020 survives in a rendered string, and every shown character from U+007F on does |
| Inspect.ShownWithinCap | src/inspect.rs:167-184 | what is shown is an escaped prefix of the text, with an ellipsis exactly when something is left out, whose encoding reaches the cap in that case and never exceeds it by more than three bytes |

## Left out

- The evaluator evaluates an operator's operands before checking their types, and leaves out the bare-field
  fallback on instances, statics, module natives, property hooks, overload sets, constructor bodies, green
  threads, natives that call closures back, and the depth limits of the real one.
- The filter that drops global names from a capture list, which only removes what is over-reported.
- A two-binding `for` iterates maps only, and a tuple destructuring has as many names as components; the
  checker requires both.
- A `break` or `continue` outside any loop, which the checker rejects: the evaluator ends the call with a
  fault where the interpreter hands the signal on.
- Calls of natives and static methods of type `never`: `Totality.IsNever` knows the intrinsics and functions.
- UsingGuarantee.NestReleasesInnerFirst: for bodies that assign none of the handles' names, and an evaluator
  with fuel left for the releases; running out of fuel releases nothing.
- Source spans, and the order in which two different classes' conflicts are recorded.
- MethodAgreement.OrdersAgree: for names no trait declares and no clause mentions; with clauses the orders
  are not meant to agree with the table.
- Constant folding and the declared types in the constant table; initial expressions stand for them.
- `class_field_conflicts`, the same memoised resolution as for methods but without clauses or traits, and
  `static_runtime_inits`.
- ClassLayout.PlanHasSlots: classes and traits have distinct names, and the hierarchy is acyclic, since the
  constructor plan has no cycle guard.
- Floating-point rounding and overflow to infinity in JSON numbers: their value is the exact decimal.
- JsonSurrogates.CleanNeverFaults: a sufficient guard; the exact condition is `JsonFaults.DocumentFaultsIff`.
- `Json::get`, `as_str`, `as_array`, `as_i64`, diagnostic headlines, stack frames and value dumps.
- `param_kind`, and lazy JSON nodes in the renderer.
- Float and decimal formatting: such values carry the text they format to.
- Memory reclamation of string cells: a cell whose count reaches 0 is simply no longer held.
- The object-file readers around the container, and platforms whose word is wider than 64 bits.
- `any_expr` over whole programs (items and members), a shell around the expression walk.
