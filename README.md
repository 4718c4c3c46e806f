# Kotlin rules for Gazelle, modelled in Dafny

This project models the Kotlin extension of the Gazelle BUILD-file generator
and proves properties of the model. The extension works in two passes.

- **Generation.** For each directory, it parses the `.kt` and `.kts` files and
  classifies every parse result:
  - a test, when the basename ends in a configured suffix (default `Test.kt`);
  - otherwise a binary, when the file has a `main` function;
  - otherwise part of the directory's single library.

  It then emits one `kt_jvm_library` rule for the library, one `kt_jvm_binary`
  rule per binary (sorted by target name) and one `kt_jvm_test` rule per test
  (sorted by file). Each rule carries its Kotlin target as private import data.
- **Resolution.** For each generated rule, every import is resolved through a
  priority chain:
  1. a `gazelle:resolve` override;
  2. the rule index, with self-imports removed;
  3. the Kotlin and Java standard libraries;
  4. Maven.

  If none of these answers, the walk repeats on the identifier's parent, down
  to one component. A test also depends on the library of its own package. The
  resulting labels become the rule's `deps`.

The model also covers three things around these passes:

- the value types of the parser: identifiers, import headers and parse results;
- the per-directory configuration and the extension's constant tables;
- the string formatting of the `resolvedump` tool: the `gazelle:resolve`
  directives it prints, the package name it builds, and the caret display of a
  parse error.

Files:
- **Source models:** `parser.dfy`, `imports.dfy`, `kotlin.dfy`,
  `kotlinconfig.dfy`, `language.dfy`, `resolver.dfy`, `generate.dfy`,
  `resolvedump.dfy`.
- **Gazelle's `rule.Rule`:** `rules.dfy`.
- **Helpers:** `wrappers.dfy`, `text.dfy` (Go's string and path functions),
  `sorting.dfy` (a sort specified by a function) and `iteration.dfy`.
- **Collaborators:** the parts of Gazelle the extension calls are parameters.
  These are the rule index, overrides, collision checks, BUILD-file rules, the
  Java stdlib test, the Maven resolver and the Unicode letter class. They are
  the function-typed fields of `Generate.GenEnv` and `Resolver.Env`.

Imperative code keeps its form:
- KotlinTarget, KotlinLibTarget, KotlinConfig, `rule.Rule` and
  `language.GenerateResult` are classes with `modifies` clauses.
- Every loop in the source is a `while` loop with invariants. Each is proved
  against a function that specifies it: `ImportsAfter`, `LibFiles`, `BinsOf`,
  `TestsOf`, `ResolveAll`, `ResolveImportSpec`, `Kept` and others.
- Process exits, `log.Fatalf` and nil-pointer panics become error results.

## Model

| member | source | states |
|---|---|---|
| Parser.GrammarImpliesMatch | gazelle/kotlin/parser/parser.go:179-182 | every string of the grammar's unquoted-identifier form passes the identifier pattern |
| Parser.MatchIsUnanchored | gazelle/kotlin/parser/parser.go:150 | the check is an unanchored search: "a-b" passes it although it is not an identifier |
| Parser.NewSimpleIdentifier | gazelle/kotlin/parser/parser.go:149-154 | succeeds exactly when the pattern matches, keeping the literal unchanged; otherwise an error |
| Parser.Normalize | gazelle/kotlin/parser/parser.go:164-173 | a literal not starting with a backtick is kept; otherwise either it is kept or exactly its first and last characters are removed and the rest passes the pattern; never longer |
| Parser.NormalizeAsWritten | gazelle/kotlin/parser/parser.go:164-173 | the code as written fails (slice out of range) exactly for the literal "`"; otherwise it agrees with Normalize |
| Parser.NormalizeLoneBacktickPanics | gazelle/kotlin/parser/parser.go:168 | the lone backtick makes the written code fail, while Normalize keeps it |
| Parser.NormalizeQuoted | gazelle/kotlin/parser/parser.go:164-173 | quoting x in backticks and normalizing gives x back exactly when x passes the pattern |
| Parser.NormalizeStripsOneLayer | gazelle/kotlin/parser/parser.go:164-173 | only one pair of backticks is removed, so Normalize is not idempotent |
| Parser.PartLiterals | gazelle/kotlin/parser/parser.go:119-125 | the component literals, one per component, in order |
| Parser.Literal | gazelle/kotlin/parser/parser.go:119-125 | the loop's result is the component literals joined by "." |
| Parser.LiteralOfXYZ | gazelle/kotlin/parser/parser_test.go:18-24 | the identifier x, y, z prints as "x.y.z" |
| Parser.Parent | gazelle/kotlin/parser/parser.go:110-115 | nil exactly for at most one component; otherwise all components but the last |
| Parser.Child | gazelle/kotlin/parser/parser.go:131-137 | the components followed by the new one |
| Parser.ParentOfChild | gazelle/kotlin/parser/parser.go:110-137 | Parent inverts Child on an identifier with at least one component |
| Parser.ParentOfChildOfEmpty | gazelle/kotlin/parser/parser.go:110-137 | the child of an empty identifier has no parent |
| Parser.ChildOfParent | gazelle/kotlin/parser/parser.go:110-137 | Child with the removed component inverts Parent |
| Parser.LiteralOfChild | gazelle/kotlin/parser/parser.go:119-137 | a child's literal is the parent's literal, ".", and the new component |
| Parser.LiteralOfParent | gazelle/kotlin/parser/parser.go:110-125 | an identifier's literal extends its parent's by "." and its last component |
| Parser.HeaderString | gazelle/kotlin/parser/parser.go:85-94 | "lit as alias" with an alias, else "lit.*" for a star import, else "lit" |
| Parser.AliasHidesStar | gazelle/kotlin/parser/parser.go:86-90 | with an alias the star flag does not affect the rendering |
| Parser.HeaderStringStartsWithLiteral | gazelle/kotlin/parser/parser.go:85-94 | every rendering starts with the identifier's literal |
| Parser.Filter | gazelle/kotlin/parser/parser.go:453-461 | the loop keeps the elements that satisfy the predicate, in order (Kept) |
| Parser.KeptIsFilter | gazelle/kotlin/parser/parser.go:453-461 | each kept element satisfies the predicate, and each satisfying element is kept as often as it occurs |
| Parser.SequenceToSlice | gazelle/kotlin/parser/parser.go:445-451 | the slice holds the yielded items in order |
| Imports.ImportSpecForIdentifier | gazelle/kotlin/imports.go:20-25 | the spec's language is "kotlin" and its key is the identifier's literal |
| Imports.SpecDependsOnlyOnLiteral | gazelle/kotlin/imports.go:20-25 | two identifiers have the same spec exactly when their literals are equal |
| Kotlin.IsNativeImport | gazelle/kotlin/kotlin.go:15-26 | true under `kotlin.` or `kotlinx.`; otherwise exactly the Java stdlib test |
| Kotlin.NativeImportCases | gazelle/kotlin/kotlin_test.go:12-18 | the test table's Kotlin and Java cases, and two non-native imports, including the near miss `kotlinish.` |
| Kotlin.KotlinTarget.constructor | gazelle/kotlin/kotlin.go:28-30 | an empty import map |
| Kotlin.KotlinTarget.AddImport | gazelle/kotlin/kotlin.go:32-34 | the import is stored under its identifier's literal, replacing an earlier one; keying by literal is preserved |
| Kotlin.KotlinLibTarget.constructor | gazelle/kotlin/kotlin.go:61-69 | no imports, packages or files |
| Kotlin.KotlinLibTarget.AddFile | gazelle/kotlin/kotlin.go:53-55 | the file is added to the set, so adding a file already present changes nothing (idempotent); packages unchanged |
| Kotlin.KotlinLibTarget.AddPackage | gazelle/kotlin/kotlin.go:57-59 | the package is stored under its literal; files unchanged; keying by literal is preserved |
| Kotlin.KotlinBinTarget.constructor | gazelle/kotlin/kotlin.go:84-92 | the given file and package, no imports |
| Kotlin.KotlinTestTarget.constructor | gazelle/kotlin/generate.go:59 | the given files, package and class, no imports |
| Kotlin.ToBinaryTargetName | gazelle/kotlin/kotlin.go:98-103 | the name ends in "_bin" and has no upper-case ASCII letter; its value for every `.kt` and `.kts` file is stated by BinaryTargetNameOfFile |
| Kotlin.BinaryTargetNameOfFile | gazelle/kotlin/kotlin.go:98-103 | for `dir/Name.t`, with any extension `t` such as `kt` or `kts`, the name is lower-cased `Name` + "_bin" |
| KotlinConfig.DefaultTestSuffix | gazelle/kotlin/kotlinconfig/config.go:31 | the default suffix "Test.kt" accepts FooTest.kt and rejects Foo.kt and TestFoo.kt |
| KotlinConfig.Config.New | gazelle/kotlin/kotlinconfig/config.go:26-33 | generation enabled, suffixes ["Test.kt"], no parent, empty path |
| KotlinConfig.Config.Path | gazelle/kotlin/kotlinconfig/config.go:40-46 | the path is the node's own rel in both branches (the parent is never consulted) |
| KotlinConfig.Config.NewChild | gazelle/kotlin/kotlinconfig/config.go:50-57 | a fresh node with the same flag and suffixes, the given path and this node as parent |
| KotlinConfig.Config.SetGenerationEnabled | gazelle/kotlin/kotlinconfig/config.go:60-62 | sets the flag and nothing else |
| KotlinConfig.Config.IsTestBaseName | gazelle/kotlin/kotlinconfig/config.go:76-83 | true exactly when some configured suffix ends the basename |
| KotlinConfig.ParentKey | gazelle/kotlin/kotlinconfig/config.go:87-90 | the cleaned directory of the package (filepath.Dir): "" at top level, the directory itself when it is clean and relative, a rooted key for a rooted package; never "." |
| KotlinConfig.ParentKeyDoubleSlash | gazelle/kotlin/kotlinconfig/config.go:87 | "a//b" is looked up under "a" |
| KotlinConfig.ParentKeyDotElement | gazelle/kotlin/kotlinconfig/config.go:87 | "a/./b" is looked up under "a" |
| KotlinConfig.ParentKeyDotDot | gazelle/kotlin/kotlinconfig/config.go:87-90 | "a/../b" is looked up at the top level, "" |
| KotlinConfig.ParentKeyRooted | gazelle/kotlin/kotlinconfig/config.go:87-90 | "/a" is looked up under "/", not "" |
| KotlinConfig.ParentForPackage | gazelle/kotlin/kotlinconfig/config.go:86-93 | the configuration stored under the parent key, or nil when there is none |
| KotlinConfig.ParentKeyExamples | gazelle/kotlin/kotlinconfig/config.go:86-93 | "foo" has the root as parent key, "a/b" has "a" |
| Language.Kinds | gazelle/kotlin/language.go:50-79 | exactly the library and binary kinds, with their non-empty, mergeable and resolve attributes |
| Language.ApparentLoads | gazelle/kotlin/language.go:93-116 | one load of `//kotlin:jvm.bzl` from the apparent rules_kotlin name, or the WORKSPACE name when that is empty; fails only when the callback does |
| Language.ApparentLoadsAsksOnlyRulesKotlin | gazelle/kotlin/language.go:103 | the result depends only on the callback's answer for rules_kotlin |
| Language.WorkspaceRepositoryName | gazelle/kotlin/language.go:82-89 | rules_kotlin maps to io_bazel_rules_kotlin; any other module panics |
| Language.Loads | gazelle/kotlin/language.go:81-90 | the load from `@io_bazel_rules_kotlin//kotlin:jvm.bzl` of both kinds; the panic is never reached |
| Resolver.MatchLabels | gazelle/kotlin/resolver.go:247-253 | one label per rule-index hit, in order |
| Resolver.TargetListFromResults | gazelle/kotlin/resolver.go:247-253 | the loop's result is the hits' labels joined by ", " |
| Resolver.FilteredMatchesSpec | gazelle/kotlin/resolver.go:189-195 | a label survives the self-import filter exactly when a non-self hit carries it |
| Resolver.OverrideStep | gazelle/kotlin/resolver.go:183-185 | answers exactly when an override exists, with its label |
| Resolver.IndexStep | gazelle/kotlin/resolver.go:188-215 | answers exactly when the index has hits; then more than one label left after dropping self-imports is the ambiguity error carrying the literal, the context and every hit; none left is no dependency; exactly one left is that label |
| Resolver.NativeStep | gazelle/kotlin/resolver.go:218-220 | answers NativeKotlin exactly for native imports |
| Resolver.MavenStep | gazelle/kotlin/resolver.go:226-232 | answers exactly when a Maven resolver is configured and succeeds, with its label |
| Resolver.Step | gazelle/kotlin/resolver.go:181-232 | no step answers NotFound; nothing answers exactly when all four steps miss |
| Resolver.ResolveImport | gazelle/kotlin/resolver.go:174-242 | the method (including its filtering loop and the walk to the parent) computes ResolveImportSpec |
| Resolver.NotFoundIffAllStepsMiss | gazelle/kotlin/resolver.go:234-241 | the result is NotFound exactly when no prefix the walk visits gets an answer |
| Resolver.LongestAnsweringPrefixDecides | gazelle/kotlin/resolver.go:234-241 | the result is the answer of the longest prefix that gets one |
| Resolver.AnswerStopsWalk | gazelle/kotlin/resolver.go:181-241 | when the identifier itself gets an answer, no parent is consulted |
| Resolver.PriorityOrder | gazelle/kotlin/resolver.go:181-220 | an override wins; otherwise index hits decide; NativeKotlin only after override and index miss for that prefix |
| Resolver.NativeReachedOnlyAfterIndex | gazelle/kotlin/resolver.go:188-220 | a NativeKotlin result comes from a prefix where neither override nor index answered |
| Resolver.IndexOutcome | gazelle/kotlin/resolver.go:188-215 | in terms of the hits: ambiguous exactly when two hits are not self-imports, listing every hit; no dependency exactly when every hit is a self-import; a single hit that is not a self-import is the answer; a label found is a non-self hit; never NotFound or NativeKotlin |
| Resolver.MavenErrorFallsThrough | gazelle/kotlin/resolver.go:226-241 | a Maven error does not answer: the walk continues with the parent, or ends in NotFound |
| Resolver.ResolveImports | gazelle/kotlin/resolver.go:121-164 | the loop, with its early return and its `continue`s, computes ResolveAll |
| Resolver.ErrSticks | gazelle/kotlin/resolver.go:135-138 | once a prefix of the imports fails, the whole fails with the same error |
| Resolver.ResolveAllOk | gazelle/kotlin/resolver.go:121-164 | resolution succeeds exactly when no import is ambiguous |
| Resolver.ResolveAllDeps | gazelle/kotlin/resolver.go:121-164 | on success the set is the labels of the resolved imports other than `from` |
| Resolver.ResolveAllMeaning | gazelle/kotlin/resolver.go:121-164 | both of the above, and `from` is never a dependency |
| Resolver.ResolveAllFirstError | gazelle/kotlin/resolver.go:135-138 | the error reported is that of the first ambiguous import in visiting order |
| Resolver.ResolveAllOrderIndependent | gazelle/kotlin/kotlin.go:36-38 | the map-iteration order does not change success or the set of labels |
| Resolver.SortedLabels | gazelle/kotlin/resolver.go:112 | the labels of the set, each once, in strictly ascending order |
| Resolver.TargetFor | gazelle/kotlin/resolver.go:80-87 | the type assertion succeeds exactly when the import data has the rule kind's target type |
| Resolver.AssignDeps | gazelle/kotlin/resolver.go:102-113 | succeeds exactly when no import is ambiguous; then `deps` lists the resolved and extra labels other than `from`, in order, set only when non-empty; nothing else changes |
| Resolver.AddExtraDeps | gazelle/kotlin/resolver.go:107-109 | adds each extra label except `from` |
| Resolver.Resolve | gazelle/kotlin/resolver.go:72-117 | other kinds are untouched; a wrong import-data type, a test package that is nil or ambiguous, or an ambiguous import fails with no change; otherwise `deps` is as in AssignDeps |
| Resolver.SelectTarget | gazelle/kotlin/resolver.go:76-100 | fails on a wrong import-data type; otherwise yields the target and the extra dependencies, failing exactly when those do |
| Resolver.TestDeps | gazelle/kotlin/resolver.go:86-96 | a nil package fails, an ambiguous one fails with the fatal message, a resolved one gives its label, else none |
| Resolver.Imports | gazelle/kotlin/resolver.go:43-65 | nothing unless the private attribute holds a library; then one Kotlin spec per package, sorted by key, covering every package |
| Resolver.ProvidedSpecs | gazelle/kotlin/resolver.go:53-64 | sorting the package specs yields ProvidesPackages, and strictly ascending when the packages are keyed by literal |
| Resolver.SpecsCoverKeys | gazelle/kotlin/resolver.go:55-60 | with packages keyed by literal, the specs are exactly the Kotlin specs of the keys |
| Resolver.SpecsOfValues | gazelle/kotlin/resolver.go:55-60 | the specs of the listed packages are the specs of the map's values |
| Resolver.ImportsAreDistinct | gazelle/kotlin/resolver.go:55-60 | packages keyed by literal give specs with distinct keys |
| Generate.WorkerCount | gazelle/kotlin/generate.go:232 | between 1 and 12, at most one per two files plus one, and equal to one of those bounds |
| Generate.IsSourceFileType | gazelle/kotlin/generate.go:310-313 | true exactly when the extension is ".kt" or ".kts" |
| Generate.KotlinFilesAreSources | gazelle/kotlin/generate.go:310-313 | every `.kt` and `.kts` file is a source file |
| Generate.OtherFilesAreNotSources | gazelle/kotlin/generate.go:310-313 | a file with any other extension is not |
| Generate.MainClassOfKotlinFile | gazelle/kotlin/generate.go:169-172 | the main class followed by ".kt" is the file, qualified by the package literal when there is one |
| Generate.GuessClassName | gazelle/kotlin/generate.go:325-331 | none exactly when the stem fails the pattern; fails (nil package) exactly when it passes and there is no package; otherwise the package's child named by the stem |
| Generate.GuessedClassLiteral | gazelle/kotlin/generate.go:325-331 | the class literal is the package literal, ".", and the stem; its parent is the package |
| Generate.CategoryOf | gazelle/kotlin/generate.go:58-74 | test exactly for a test suffix; binary exactly for a non-test with main; library otherwise |
| Generate.HeaderLiteralsMembers | gazelle/kotlin/generate.go:76-81 | a literal is among the headers' literals exactly when some header has it |
| Generate.ImportsAfterKeys | gazelle/kotlin/generate.go:76-81 | the keys after a file's imports are the old keys plus the headers' literals |
| Generate.ImportsAfterLastWins | gazelle/kotlin/generate.go:76-81 | under a literal sits the last header of the file with that literal |
| Generate.ImportsAfterKeepsOthers | gazelle/kotlin/generate.go:76-81 | a key no header has keeps its statement |
| Generate.ImportsAfterKeyed | gazelle/kotlin/generate.go:76-81 | keying by literal survives a file's imports |
| Generate.AnyGuessFailsMeaning | gazelle/kotlin/generate.go:55-59 | some guess fails exactly when it fails for one of the parse results |
| Generate.ArrivesAsSnoc | gazelle/kotlin/generate.go:55-82 | an arrival in a longer sequence is one in the prefix or the last element |
| Generate.LibFilesMembers | gazelle/kotlin/generate.go:67-74 | a file is in the library exactly when it arrives as neither a test nor a binary |
| Generate.LibPackagesKeyed | gazelle/kotlin/generate.go:69-71 | the library's package map is keyed by literal |
| Generate.BinsOfMembers | gazelle/kotlin/generate.go:62-66 | a file is a binary exactly when it arrives as one; its entry is a binary parse result of that file |
| Generate.TestsTakePrecedence | gazelle/kotlin/generate.go:58-62 | a file that is always a test never joins the library or the binaries, even with a main function, and is among the tests |
| Generate.GenerateResult.constructor | gazelle/kotlin/generate.go:84 | no rules, markers or import data |
| Generate.MarkEmpty | gazelle/kotlin/generate.go:130-143 | a deletion marker of the name and kind is appended exactly when the BUILD file has such a rule; nothing else changes |
| Generate.AddLibraryRule | gazelle/kotlin/generate.go:122-159 | the collision is returned and nothing changes; no files adds at most the marker; otherwise one kt_jvm_library with srcs = the files, each once, `testonly` for a test library, and the target as private data |
| Generate.AddBinaryRule | gazelle/kotlin/generate.go:161-184 | the collision is returned and nothing changes; otherwise one kt_jvm_binary with the file and its main class |
| Generate.AddTestRule | gazelle/kotlin/generate.go:186-221 | the collision is returned; no files adds at most the marker; a nil class fails; otherwise one kt_jvm_test with the files and the class literal |
| Generate.MergeImports | gazelle/kotlin/generate.go:76-81 | the addImport loop computes ImportsAfter |
| Generate.LibStepOther | gazelle/kotlin/generate.go:58-74 | a non-library result leaves the library's files, packages and imports |
| Generate.LibStep | gazelle/kotlin/generate.go:67-81 | a library result adds its file, its package if any, and its imports |
| Generate.BinsStep | gazelle/kotlin/generate.go:62-66 | a binary result replaces the entry of its file; others leave the map |
| Generate.TestsStep | gazelle/kotlin/generate.go:58-61 | a test result is appended; others leave the tests |
| Generate.NewTestTarget | gazelle/kotlin/generate.go:59-61 | a fresh test target of the file, package and class, with the file's imports |
| Generate.NewBinTarget | gazelle/kotlin/generate.go:63-66 | a fresh binary target of the file and package, with its imports |
| Generate.TestsJoin | gazelle/kotlin/generate.go:58-61 | appending the new test target keeps the tests classified |
| Generate.BinsJoin | gazelle/kotlin/generate.go:62-66 | storing the new binary target under its file keeps the binaries classified |
| Generate.JoinLib | gazelle/kotlin/generate.go:67-81 | the library branch keeps the library classified and Valid |
| Generate.JoinTests | gazelle/kotlin/generate.go:58-61 | the test branch keeps the loop state |
| Generate.JoinBins | gazelle/kotlin/generate.go:62-66 | the binary branch keeps the loop state |
| Generate.JoinLibrary | gazelle/kotlin/generate.go:67-81 | the library branch keeps the loop state |
| Generate.ClassifyOne | gazelle/kotlin/generate.go:56-81 | one iteration fails exactly when the new result's class guess fails; otherwise the loop state covers it |
| Generate.AnyGuessFailsSnoc | gazelle/kotlin/generate.go:55-59 | a failure in a longer sequence is one in the prefix or in the last result |
| Generate.FailureStaysFailure | gazelle/kotlin/generate.go:55-59 | a failure in a prefix is a failure in the whole |
| Generate.PrefixStep | gazelle/kotlin/generate.go:55 | the loop's prefix plus the next element is the next prefix |
| Generate.ClassifiedNothing | gazelle/kotlin/generate.go:50-52 | the empty targets classify the empty sequence |
| Generate.Classify | gazelle/kotlin/generate.go:50-82 | fails exactly when some test's class guess fails; otherwise the library, binaries and tests are exactly those of the parse results |
| Generate.EmitBinary | gazelle/kotlin/generate.go:99-105 | one iteration: fails with the collision, or appends the binary's rule |
| Generate.EmitBinaries | gazelle/kotlin/generate.go:99-105 | succeeds exactly when no name collides; then one rule per binary, in order |
| Generate.BinRefs | gazelle/kotlin/generate.go:180 | one import datum per binary, in order |
| Generate.TestRefs | gazelle/kotlin/generate.go:217 | one import datum per test, in order |
| Generate.EmitTest | gazelle/kotlin/generate.go:111-117 | one iteration: fails exactly when the test cannot be emitted, else appends its rule |
| Generate.EmitTests | gazelle/kotlin/generate.go:111-117 | succeeds exactly when every test can be emitted; then one rule per test, in order |
| Generate.EmittableSorted | gazelle/kotlin/generate.go:95-109 | sorting does not change whether every rule can be emitted |
| Generate.EmitTargets | gazelle/kotlin/generate.go:99-117 | the binaries' rules, then the tests', after the existing ones, or failure exactly when one cannot be emitted |
| Generate.EmitInOrder | gazelle/kotlin/generate.go:86-117 | the library rule when it has files, then binaries, then tests; failure exactly when one cannot be emitted |
| Generate.EmitLibrary | gazelle/kotlin/generate.go:86-93 | a kt_jvm_library named by default when the library has files, failing exactly on a collision |
| Generate.Emit | gazelle/kotlin/generate.go:84-119 | the binaries sorted by target name, the tests by first file, and the rules emitted in that order; fails exactly when some rule cannot be emitted |
| Generate.SortBinaries | gazelle/kotlin/generate.go:95-97 | each binary once, in ascending order of target name |
| Generate.SortTests | gazelle/kotlin/generate.go:107-109 | a permutation of the tests in ascending order of first file |
| Generate.SortedBinaries | gazelle/kotlin/generate.go:95-97 | the sorted values of the binaries map have one entry per key and are sorted |
| Generate.GenerateRules | gazelle/kotlin/generate.go:32-120 | nothing when generation is disabled; a failing class guess fails; otherwise the classification is exact and the rules are those of Emit, failing exactly when one cannot be emitted |
| ResolveDump.ResolveComment | cmd/resolvedump/resolvedump.go:72 | the directive is the fixed prefix, the package, ".", the identifier, and " TODO_LABEL" |
| ResolveDump.ResolveCommentInjective | cmd/resolvedump/resolvedump.go:72 | in one package, different identifiers give different directives |
| ResolveDump.GazelleResolveComments | cmd/resolvedump/resolvedump.go:65-75 | nothing without a package; otherwise one directive per identifier, in order |
| ResolveDump.ExtractPackage | cmd/resolvedump/resolvedump.go:118-127 | the error exactly when there are no parts, and then the empty name |
| ResolveDump.ExtractPackageSplits | cmd/resolvedump/resolvedump.go:126 | splitting the joined name at "." gives back the parts when none has a dot |
| ResolveDump.ErrorLine | cmd/resolvedump/resolvedump.go:144-146 | the line exists exactly when the uint32 row difference indexes the content's lines, and it is that line of the content split at newlines; it has no newline; the same row always exists |
| ResolveDump.RowPrefix | cmd/resolvedump/resolvedump.go:148 | five spaces, the number, ": " |
| ResolveDump.RowNumberReadsBack | cmd/resolvedump/resolvedump.go:148 | the number is digits and reads back as row+1 modulo 2^32 |
| ResolveDump.RowPrefixPlain | cmd/resolvedump/resolvedump.go:148 | the prefix has no percent sign |
| ResolveDump.Caret | cmd/resolvedump/resolvedump.go:148-150 | the message is prefix + line; the arrow is spaces and one "^" in the column under `col` of the line |
| ResolveDump.SprintfPlainPrefix | cmd/resolvedump/resolvedump.go:152 | Sprintf copies text without a percent sign |
| ResolveDump.CaretMessageAsWritten | cmd/resolvedump/resolvedump.go:152 | without a percent sign in the line, the written Sprintf gives the intended text |
| ResolveDump.ArrowPlain | cmd/resolvedump/resolvedump.go:150 | the arrow line has no percent sign |
| ResolveDump.PlainCaret | cmd/resolvedump/resolvedump.go:144-152 | without a percent sign in the line, formatting leaves the display unchanged |
| ResolveDump.SprintfMissingVerb | cmd/resolvedump/resolvedump.go:152 | a `%d` with no operand prints `%!d(MISSING)` |
| ResolveDump.SprintfTrailingDot | cmd/resolvedump/resolvedump.go:152 | a format ending in "%." prints `%!.(MISSING)`: a final "." is the verb, not a precision |
| ResolveDump.CaretPercentCounterexample | cmd/resolvedump/resolvedump.go:152 | a line `a%db` is displayed with `%!d(MISSING)` in place of `%d`, so it differs from the intended display |

## Left out

- Tree-sitter parsing is not modelled: `Parse`, the node walks and the queries. Parse results are inputs: file, imports, package and main flag.
- The parse worker pool, its channels and goroutines are not modelled. GenerateRules takes the parse results as a sequence in arrival order, for any order. Only the worker-count formula is modelled.
- Reading files, walking the directory and `collectSourceFiles` are file-system work and are not modelled. Only `isSourceFileType` is.
- Logging, `String` methods for debugging and the timing in Resolve are not modelled. Neither are the "Resolution error" messages that resolveImports prints for imports it cannot find; they change nothing.
- os.Exit(1) and log.Fatalf become error results. So do these panics: the type assertion on a rule's import data, a test's nil package in Resolve and in guessClassName, a nil test class in addTestRule, the lone backtick in Normalize, and Loads on a module other than rules_kotlin. Their text is modelled only where it is a format of known values.
- A missing per-directory configuration is assumed present: GenerateRules takes a non-null Config, so the nil dereference at generate.go:35-39 is not modelled. Neither is the one at resolver.go:222-227, where Maven reads the configuration of `from`'s package; Resolver.MavenStep never fails.
- \p{L} is an abstract letter test (`isLetter`). `strings.ToLower` lower-cases ASCII only. `%q` quotes without escaping.
- Go's sort order for equal keys is not modelled. Binaries have distinct file names but may share a target name. The sort is a specified sort: sorted, and a permutation.
- Labels are strings. The self-import test is the index's own flag. The rule index, the overrides and the Maven resolver (with its excludes and repository name) are collaborators. Maven's view of the per-directory configuration is the `from` label it is given.
- KtJvmTest, KotlinTestTarget and toTestTargetName are used but not defined in the files modelled. They become a constant, a class and a collaborator.
- The embedded Java configuration of KotlinConfig, the `Configs` lookup by directory and `Directive_KotlinExtension` are not modelled. Config.GenerationEnabled is modelled without a contract of its own.
- Embeds, Name and Fix return constants and are not modelled.
- Generate.GenerateRules: when a class guess fails, it states only that generation fails, not the text of the error.
- Resolver.Resolve: it states when resolution fails, not the text of every fatal message.
- ResolveDump.SprintfNoArgs models Go's verbs: flags, width, precision, `%%`, a missing verb and a missing operand. It treats the `*` width and `[n]` argument indexes as verbs. It reads a width or precision of any size. Go gives up on a number above 10^6: it drops the rest of the format and prints `%!(NOVERB)`.
- ResolveDump.RowPrefix: rows and columns are uint32 in tree-sitter. Row+1 wraps around modulo 2^32. The column counts bytes, as here characters.
- The walk up the AST to the displayed node is not modelled, and neither are `main`, `mainErr`, `analyzeFile` and `matches`. ErrorLine takes the node's content and both rows as inputs.

## Findings

| source | as written | input that shows it | evidently intended | confidence | as-written member | corrected member |
|---|---|---|---|---|---|---|
| cmd/resolvedump/resolvedump.go:152 | the display is passed to `fmt.Sprintf` as the format | a source line containing `%d`, e.g. `val s = "%d"` | the line appears unchanged, e.g. `errs = append(errs, msg+"\n"+arw)` | not executed | ResolveDump.CaretMessageAsWritten, ResolveDump.CaretPercentCounterexample | ResolveDump.Caret, ResolveDump.PlainCaret |
| gazelle/kotlin/parser/parser.go:168 | `si.literal[1 : len(si.literal)-1]` after checking only the backtick prefix | the literal "`" (a lone backtick) | a literal shorter than two characters is kept | not executed | Parser.NormalizeAsWritten, Parser.NormalizeLoneBacktickPanics | Parser.Normalize |
