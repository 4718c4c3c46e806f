/**
 * Rule generation for one directory: parse results are classified into a
 * library, binaries and tests, and each becomes a rule.
 *
 * The name-collision check against the BUILD file, the default library
 * name, the test target naming and the BUILD file's existing rules are
 * collaborators; they are the fields of `GenEnv`.
 */
module Generate {
  import opened Wrappers
  import opened Text
  import opened Sorting
  import opened Iteration
  import opened Parser
  import opened Imports
  import opened Language
  import opened Kotlin
  import opened KotlinConfig
  import opened BuildRules

  /**
   * The collaborators: the collision error for a target name and kind, if
   * any; the default library name; the test target name of a test file;
   * the letter class of the identifier regexp; and the rules of the
   * directory's existing BUILD file, if there is one.
   */
  datatype GenEnv = GenEnv(
    collision: (string, string) -> Option<string>,
    libTargetName: string,
    testTargetName: string -> string,
    isLetter: char -> bool,
    buildFile: Option<seq<Rule>>)

  /** MaxWorkerCount */
  const MaxWorkerCount: nat := 12

  /** The number of parser workers for `n` files: one per two files plus one, at most twelve. */
  function WorkerCount(n: nat): (r: nat)
    ensures 1 <= r <= MaxWorkerCount
    ensures r <= 1 + n / 2
    ensures r == 1 + n / 2 || r == MaxWorkerCount
  {
    if 1 + n / 2 < MaxWorkerCount then 1 + n / 2 else MaxWorkerCount
  }

  /** isSourceFileType: the extension is ".kt" or ".kts". */
  function IsSourceFileType(f: string): (r: bool)
    ensures r <==> PathExt(f) == ".kt" || PathExt(f) == ".kts"
  {
    var ext := PathExt(f);
    ext == ".kt" || ext == ".kts"
  }

  /** Every Kotlin file and every Kotlin script is a source file. */
  lemma KotlinFilesAreSources(f: string)
    ensures HasSuffix(f, ".kt") ==> IsSourceFileType(f)
    ensures HasSuffix(f, ".kts") ==> IsSourceFileType(f)
  {
    if HasSuffix(f, ".kt") {
      PathExtOfKotlinFile(f);
    }
    if HasSuffix(f, ".kts") {
      assert "." + "kts" == ".kts";
      PathExtOf(f, "kts");
    }
  }

  /** A file with a different extension is not a source file. */
  lemma OtherFilesAreNotSources(f: string, t: string)
    requires forall i :: 0 <= i < |t| ==> t[i] != '.' && t[i] != '/'
    requires HasSuffix(f, "." + t) && t != "kt" && t != "kts"
    ensures !IsSourceFileType(f)
  {
    PathExtOf(f, t);
    assert ("." + t)[1..] == t;
    assert ".kt"[1..] == "kt" && ".kts"[1..] == "kts";
  }

  /** main_class: the file without ".kt", qualified by the package when there is one. */
  function MainClass(file: string, pkg: Option<Identifier>): (r: string) {
    var base := TrimSuffix(file, ".kt");
    if pkg.Some? then LiteralOf(pkg.value) + "." + base else base
  }

  /** The main class followed by ".kt" is the file, qualified by the package. */
  lemma MainClassOfKotlinFile(file: string, pkg: Option<Identifier>)
    requires HasSuffix(file, ".kt")
    ensures pkg.None? ==> MainClass(file, pkg) + ".kt" == file
    ensures pkg.Some? ==> MainClass(file, pkg) + ".kt" == LiteralOf(pkg.value) + "." + file
  {
    var base := TrimSuffix(file, ".kt");
    assert base + ".kt" == file;
    if pkg.Some? {
      assert LiteralOf(pkg.value) + "." + base + ".kt" == LiteralOf(pkg.value) + "." + (base + ".kt");
    }
  }

  /**
   * guessClassName: the basename without ".kt" as a component of the
   * package, or None when that name is rejected by the identifier regexp.
   * With no package the original dereferences nil; that is the error here.
   */
  function GuessClassName(isLetter: char -> bool, p: ParseResult): (r: Result<Option<Identifier>, string>)
    ensures var name := TrimSuffix(PathBase(p.file), ".kt");
      && (r == Ok(None) <==> !MatchesIdentifierPattern(isLetter, name))
      && (r.Err? <==> MatchesIdentifierPattern(isLetter, name) && p.pkg.None?)
      && (r.Ok? && r.value.Some? ==> r.value.value == Child(p.pkg.value, SimpleIdentifier(name)))
  {
    match NewSimpleIdentifier(isLetter, TrimSuffix(PathBase(p.file), ".kt"))
    case Err(_) => Ok(None)
    case Ok(id) =>
      if p.pkg.None? then Err("invalid memory address or nil pointer dereference")
      else Ok(Some(Child(p.pkg.value, id)))
  }

  /** The guessed class of a test in a package is that package's literal, a dot and the file's stem. */
  lemma GuessedClassLiteral(isLetter: char -> bool, p: ParseResult)
    requires GuessClassName(isLetter, p).Ok? && GuessClassName(isLetter, p).value.Some?
    requires |p.pkg.value.parts| >= 1
    ensures LiteralOf(GuessClassName(isLetter, p).value.value)
      == LiteralOf(p.pkg.value) + "." + TrimSuffix(PathBase(p.file), ".kt")
    ensures Parent(GuessClassName(isLetter, p).value.value) == p.pkg
  {
    var name := TrimSuffix(PathBase(p.file), ".kt");
    LiteralOfChild(p.pkg.value, SimpleIdentifier(name));
    ParentOfChild(p.pkg.value, SimpleIdentifier(name));
  }

  // ---------------------------------------------------------------------------
  // Classification

  /** Which target a parsed file joins. */
  datatype Category = TestFile | BinaryFile | LibraryFile

  /** A file is a test when its basename ends in one of the configured suffixes. */
  predicate IsTestFile(suffixes: seq<string>, p: ParseResult) {
    HasTestSuffix(suffixes, PathBase(p.file))
  }

  /** The classification: a test first, even with a main function; then a binary; else the library. */
  function CategoryOf(suffixes: seq<string>, p: ParseResult): (c: Category)
    ensures c == TestFile <==> IsTestFile(suffixes, p)
    ensures c == BinaryFile <==> !IsTestFile(suffixes, p) && p.hasMain
    ensures c == LibraryFile <==> !IsTestFile(suffixes, p) && !p.hasMain
  {
    if IsTestFile(suffixes, p) then TestFile
    else if p.hasMain then BinaryFile
    else LibraryFile
  }

  /** How the classification loop sees a parse result: its category and the guess of its test class. */
  datatype Classifier = Classifier(cat: ParseResult -> Category, guess: ParseResult -> Result<Option<Identifier>, string>)

  /** The classifier of the configured test suffixes and the identifier letter class. */
  function ClassifierOf(isLetter: char -> bool, suffixes: seq<string>): Classifier {
    Classifier(p => CategoryOf(suffixes, p), p => GuessClassName(isLetter, p))
  }

  /** The import map after adding the headers of one file in order, a later literal replacing an earlier one. */
  function ImportsAfter(m: map<string, ImportStatement>, file: string, hs: seq<ImportHeader>): (r: map<string, ImportStatement>)
    decreases |hs|
  {
    if |hs| == 0 then m
    else ImportsAfter(m, file, hs[..|hs| - 1])[LiteralOf(hs[|hs| - 1].identifier) := ImportStatement(file, hs[|hs| - 1])]
  }

  /** The literals of a sequence of headers. */
  function HeaderLiterals(hs: seq<ImportHeader>): set<string>
    decreases |hs|
  {
    if |hs| == 0 then {} else HeaderLiterals(hs[..|hs| - 1]) + {LiteralOf(hs[|hs| - 1].identifier)}
  }

  /** A literal is among the headers' literals exactly when some header has it. */
  lemma {:induction false} HeaderLiteralsMembers(hs: seq<ImportHeader>, k: string)
    ensures k in HeaderLiterals(hs) <==> exists i :: 0 <= i < |hs| && LiteralOf(hs[i].identifier) == k
    decreases |hs|
  {
    if |hs| > 0 {
      var init := hs[..|hs| - 1];
      HeaderLiteralsMembers(init, k);
      if k in HeaderLiterals(init) {
        var i :| 0 <= i < |init| && LiteralOf(init[i].identifier) == k;
        assert hs[i] == init[i];
      }
      if exists i :: 0 <= i < |hs| && LiteralOf(hs[i].identifier) == k {
        var i :| 0 <= i < |hs| && LiteralOf(hs[i].identifier) == k;
        if i < |init| {
          assert init[i] == hs[i];
        }
      }
    }
  }

  /** The import map after adding a file's headers holds the old keys and the headers' literals. */
  lemma {:induction false} ImportsAfterKeys(m: map<string, ImportStatement>, file: string, hs: seq<ImportHeader>)
    ensures ImportsAfter(m, file, hs).Keys == m.Keys + HeaderLiterals(hs)
    decreases |hs|
  {
    if |hs| > 0 {
      ImportsAfterKeys(m, file, hs[..|hs| - 1]);
    }
  }

  /** Under a header's literal sits the last header of the file with that literal. */
  lemma {:induction false} ImportsAfterLastWins(m: map<string, ImportStatement>, file: string, hs: seq<ImportHeader>, i: nat)
    requires i < |hs|
    requires forall j :: i < j < |hs| ==> LiteralOf(hs[j].identifier) != LiteralOf(hs[i].identifier)
    ensures LiteralOf(hs[i].identifier) in ImportsAfter(m, file, hs)
    ensures ImportsAfter(m, file, hs)[LiteralOf(hs[i].identifier)] == ImportStatement(file, hs[i])
    decreases |hs|
  {
    var n := |hs| - 1;
    if i < n {
      var init := hs[..n];
      assert init[i] == hs[i];
      forall j | i < j < |init| ensures LiteralOf(init[j].identifier) != LiteralOf(init[i].identifier) {
        assert init[j] == hs[j];
      }
      ImportsAfterLastWins(m, file, init, i);
    }
  }

  /** A key no header of the file has keeps its old statement. */
  lemma {:induction false} ImportsAfterKeepsOthers(m: map<string, ImportStatement>, file: string, hs: seq<ImportHeader>, k: string)
    requires k in m
    requires forall i :: 0 <= i < |hs| ==> LiteralOf(hs[i].identifier) != k
    ensures k in ImportsAfter(m, file, hs) && ImportsAfter(m, file, hs)[k] == m[k]
    decreases |hs|
  {
    if |hs| > 0 {
      var init := hs[..|hs| - 1];
      forall i | 0 <= i < |init| ensures LiteralOf(init[i].identifier) != k {
        assert init[i] == hs[i];
      }
      ImportsAfterKeepsOthers(m, file, init, k);
    }
  }

  /** Keying by literal survives adding a file's imports. */
  lemma {:induction false} ImportsAfterKeyed(m: map<string, ImportStatement>, file: string, hs: seq<ImportHeader>)
    requires KeyedByLiteral(m)
    ensures KeyedByLiteral(ImportsAfter(m, file, hs))
    decreases |hs|
  {
    if |hs| > 0 {
      ImportsAfterKeyed(m, file, hs[..|hs| - 1]);
    }
  }

  /** The files of the library: those classified as library files. */
  function LibFiles(c: Classifier, ps: seq<ParseResult>): set<string>
    decreases |ps|
  {
    if |ps| == 0 then {}
    else
      var last := ps[|ps| - 1];
      LibFiles(c, ps[..|ps| - 1]) + (if c.cat(last) == LibraryFile then {last.file} else {})
  }

  /** The library's packages: the non-nil packages of its files, keyed by literal, a later one replacing an earlier. */
  function LibPackages(c: Classifier, ps: seq<ParseResult>): map<string, Identifier>
    decreases |ps|
  {
    if |ps| == 0 then map[]
    else
      var last := ps[|ps| - 1];
      var m := LibPackages(c, ps[..|ps| - 1]);
      if c.cat(last) == LibraryFile && last.pkg.Some? then m[LiteralOf(last.pkg.value) := last.pkg.value] else m
  }

  /** The library's imports: the imports of its files, in order, merged by literal. */
  function LibImports(c: Classifier, ps: seq<ParseResult>): map<string, ImportStatement>
    decreases |ps|
  {
    if |ps| == 0 then map[]
    else
      var last := ps[|ps| - 1];
      var m := LibImports(c, ps[..|ps| - 1]);
      if c.cat(last) == LibraryFile then ImportsAfter(m, last.file, last.imports) else m
  }

  /** The binaries: for each file classified as a binary, the last parse result of that file. */
  function BinsOf(c: Classifier, ps: seq<ParseResult>): map<string, ParseResult>
    decreases |ps|
  {
    if |ps| == 0 then map[]
    else
      var last := ps[|ps| - 1];
      var m := BinsOf(c, ps[..|ps| - 1]);
      if c.cat(last) == BinaryFile then m[last.file := last] else m
  }

  /** The tests: the parse results classified as tests, in arrival order. */
  function TestsOf(c: Classifier, ps: seq<ParseResult>): seq<ParseResult> {
    Kept(ps, (p: ParseResult) => c.cat(p) == TestFile)
  }

  /** A test file whose class guess dereferences a nil package. */
  ghost predicate GuessFails(c: Classifier, p: ParseResult) {
    c.cat(p) == TestFile && c.guess(p).Err?
  }

  /** Some test file's class guess dereferences a nil package. */
  ghost predicate AnyGuessFails(c: Classifier, ps: seq<ParseResult>) {
    AnyOf(ps, p => GuessFails(c, p))
  }

  /** A guess fails in the sequence exactly when it fails for one of its elements. */
  lemma AnyGuessFailsMeaning(c: Classifier, ps: seq<ParseResult>)
    ensures AnyGuessFails(c, ps) <==> exists i :: 0 <= i < |ps| && GuessFails(c, ps[i])
  {
    var f := (p: ParseResult) => GuessFails(c, p);
    AnyOfMeaning(ps, f);
    assert (exists i :: 0 <= i < |ps| && f(ps[i])) <==> exists i :: 0 <= i < |ps| && GuessFails(c, ps[i]);
  }

  /** A result of category `k` for file `f` arrives at some index. */
  ghost predicate ArrivesAs(c: Classifier, ps: seq<ParseResult>, f: string, k: Category) {
    exists i :: 0 <= i < |ps| && ps[i].file == f && c.cat(ps[i]) == k
  }

  /** Arrivals in a prefix are arrivals in the whole, and the last element arrives too. */
  lemma ArrivesAsSnoc(c: Classifier, ps: seq<ParseResult>, f: string, k: Category)
    requires |ps| > 0
    ensures ArrivesAs(c, ps, f, k) <==>
      ArrivesAs(c, ps[..|ps| - 1], f, k) || (ps[|ps| - 1].file == f && c.cat(ps[|ps| - 1]) == k)
  {
    var init := ps[..|ps| - 1];
    if ArrivesAs(c, init, f, k) {
      var i :| 0 <= i < |init| && init[i].file == f && c.cat(init[i]) == k;
      assert ps[i] == init[i];
    }
    if ps[|ps| - 1].file == f && c.cat(ps[|ps| - 1]) == k {
      assert ArrivesAs(c, ps, f, k);
    }
    if ArrivesAs(c, ps, f, k) && !(ps[|ps| - 1].file == f && c.cat(ps[|ps| - 1]) == k) {
      var i :| 0 <= i < |ps| && ps[i].file == f && c.cat(ps[i]) == k;
      assert i < |init|;
      assert init[i] == ps[i];
      assert ArrivesAs(c, init, f, k);
    }
  }

  /** A file is in the library exactly when it arrives as a library file: neither a test nor with a main function. */
  lemma {:induction false} LibFilesMembers(c: Classifier, ps: seq<ParseResult>, f: string)
    ensures f in LibFiles(c, ps) <==> ArrivesAs(c, ps, f, LibraryFile)
    decreases |ps|
  {
    if |ps| > 0 {
      LibFilesMembers(c, ps[..|ps| - 1], f);
      ArrivesAsSnoc(c, ps, f, LibraryFile);
    }
  }

  /** The library's packages are keyed by their literals, so the library target stays Valid. */
  lemma {:induction false} LibPackagesKeyed(c: Classifier, ps: seq<ParseResult>)
    ensures LiteralKeyed(LibPackages(c, ps))
    decreases |ps|
  {
    if |ps| > 0 {
      LibPackagesKeyed(c, ps[..|ps| - 1]);
    }
  }

  /** A file is a binary exactly when it arrives with a main function and not as a test; its entry is a binary result of that file. */
  lemma {:induction false} BinsOfMembers(c: Classifier, ps: seq<ParseResult>, f: string)
    ensures f in BinsOf(c, ps) <==> ArrivesAs(c, ps, f, BinaryFile)
    ensures f in BinsOf(c, ps) ==>
      BinsOf(c, ps)[f].file == f && BinsOf(c, ps)[f] in ps && c.cat(BinsOf(c, ps)[f]) == BinaryFile
    decreases |ps|
  {
    if |ps| > 0 {
      var init := ps[..|ps| - 1];
      BinsOfMembers(c, init, f);
      ArrivesAsSnoc(c, ps, f, BinaryFile);
      if f in BinsOf(c, init) {
        assert BinsOf(c, init)[f] in init;
      }
    }
  }

  /** A file that is a test whenever it arrives never joins the library or the binaries, even with a main function. */
  lemma TestsTakePrecedence(c: Classifier, ps: seq<ParseResult>, i: nat)
    requires i < |ps| && c.cat(ps[i]) == TestFile
    requires forall j :: 0 <= j < |ps| && ps[j].file == ps[i].file ==> c.cat(ps[j]) == TestFile
    ensures ps[i].file !in LibFiles(c, ps)
    ensures ps[i].file !in BinsOf(c, ps)
    ensures ps[i] in TestsOf(c, ps)
  {
    LibFilesMembers(c, ps, ps[i].file);
    BinsOfMembers(c, ps, ps[i].file);
    KeptIsFilter(ps, (p: ParseResult) => c.cat(p) == TestFile);
    assert ps[i] in ps;
  }

  // ---------------------------------------------------------------------------
  // Rule emission

  /** language.GenerateResult: generated rules, deletion markers, and each generated rule's import data. */
  class GenerateResult {
    var gen: seq<Rule>
    var empty: seq<Rule>
    var imports: seq<TargetRef>

    constructor ()
      ensures gen == [] && empty == [] && imports == []
    {
      gen := [];
      empty := [];
      imports := [];
    }
  }

  /** The BUILD file has a rule of this name and kind. */
  predicate HasRule(buildFile: Option<seq<Rule>>, name: string, kind: string) {
    buildFile.Some? && exists i :: 0 <= i < |buildFile.value| && buildFile.value[i].name == name && buildFile.value[i].kind == kind
  }

  /**
   * The no-sources branch of addLibraryRule and addTestRule: when the BUILD
   * file has a rule of this name and kind, an empty rule of that name and
   * kind is appended to `empty`; `gen` and `imports` never change.
   */
  method MarkEmpty(env: GenEnv, targetName: string, kind: string, result: GenerateResult)
    modifies result
    ensures result.gen == old(result.gen) && result.imports == old(result.imports)
    ensures !HasRule(env.buildFile, targetName, kind) ==> result.empty == old(result.empty)
    ensures HasRule(env.buildFile, targetName, kind) ==>
      && |result.empty| == |old(result.empty)| + 1
      && result.empty[..|old(result.empty)|] == old(result.empty)
      && var e := result.empty[|old(result.empty)|];
         fresh(e) && e.kind == kind && e.name == targetName && e.attrs == map[] && e.privateAttrs == map[]
  {
    if env.buildFile.None? {
      return;
    }
    var rules := env.buildFile.value;
    var i := 0;
    while i < |rules|
      invariant 0 <= i <= |rules|
      invariant forall j :: 0 <= j < i ==> !(rules[j].name == targetName && rules[j].kind == kind)
    {
      if rules[i].name == targetName && rules[i].kind == kind {
        var e := new Rule(kind, targetName);
        result.empty := result.empty + [e];
        assert result.empty[..|result.empty| - 1] == old(result.empty);
        return;
      }
      i := i + 1;
    }
  }

  /** One more generated rule, with its import data; `empty` is unchanged. */
  twostate predicate AppendedGen(result: GenerateResult, data: TargetRef)
    reads result
  {
    && |result.gen| == |old(result.gen)| + 1
    && result.gen[..|old(result.gen)|] == old(result.gen)
    && result.imports == old(result.imports) + [data]
    && result.empty == old(result.empty)
  }

  /**
   * addLibraryRule: a collision is reported and nothing changes; with no
   * files only the deletion marker may be added; otherwise a kt_jvm_library
   * rule whose srcs are the library's files, each once, is generated, with
   * "testonly" set for a test library.
   */
  method AddLibraryRule(env: GenEnv, targetName: string, target: KotlinLibTarget, isTestRule: bool, result: GenerateResult)
    returns (err: Option<string>)
    modifies result
    ensures err == env.collision(targetName, KtJvmLibrary)
    ensures err.Some? ==> unchanged(result)
    ensures err.None? && target.files == {} ==>
      result.gen == old(result.gen) && result.imports == old(result.imports)
      && (!HasRule(env.buildFile, targetName, KtJvmLibrary) ==> result.empty == old(result.empty))
      && (HasRule(env.buildFile, targetName, KtJvmLibrary) ==>
            |result.empty| == |old(result.empty)| + 1 && result.empty[..|old(result.empty)|] == old(result.empty)
            && result.empty[|old(result.empty)|].kind == KtJvmLibrary && result.empty[|old(result.empty)|].name == targetName)
    ensures err.None? && target.files != {} ==>
      && AppendedGen(result, LibRef(target))
      && var r := result.gen[|old(result.gen)|];
      && fresh(r) && r.kind == KtJvmLibrary && r.name == targetName
      && r.attrs.Keys == {"srcs"} + (if isTestRule then {"testonly"} else {})
      && r.attrs["srcs"].Strs? && NoDuplicates(r.attrs["srcs"].strs)
      && (forall f :: f in r.attrs["srcs"].strs <==> f in target.files)
      && (isTestRule ==> r.attrs["testonly"] == Flag(true))
      && r.privateAttrs == map[PackagesKey := LibRef(target)]
  {
    err := env.collision(targetName, KtJvmLibrary);
    if err.Some? {
      return;
    }
    if target.files == {} {
      MarkEmpty(env, targetName, KtJvmLibrary, result);
      return;
    }
    var ktLibrary := new Rule(KtJvmLibrary, targetName);
    var srcs := SetToSeq(target.files);
    ktLibrary.SetAttr("srcs", Strs(srcs));
    ktLibrary.SetPrivateAttr(PackagesKey, LibRef(target));
    if isTestRule {
      ktLibrary.SetAttr("testonly", Flag(true));
    }
    result.gen := result.gen + [ktLibrary];
    result.imports := result.imports + [LibRef(target)];
    assert result.gen[..|result.gen| - 1] == old(result.gen);
  }

  /**
   * addBinaryRule: a collision is reported and nothing changes; otherwise a
   * kt_jvm_binary rule with the one source file and its main class is
   * generated.
   */
  method AddBinaryRule(env: GenEnv, targetName: string, target: KotlinBinTarget, result: GenerateResult)
    returns (err: Option<string>)
    modifies result
    ensures err == env.collision(targetName, KtJvmBinary)
    ensures err.Some? ==> unchanged(result)
    ensures err.None? ==>
      && AppendedGen(result, BinRef(target))
      && fresh(result.gen[|old(result.gen)|])
      && BinRule(result.gen[|old(result.gen)|], target, targetName)
  {
    err := env.collision(targetName, KtJvmBinary);
    if err.Some? {
      return;
    }
    var mainClass := TrimSuffix(target.file, ".kt");
    if target.pkg.Some? {
      var lit := Literal(target.pkg.value);
      mainClass := lit + "." + mainClass;
    }
    var ktBinary := new Rule(KtJvmBinary, targetName);
    ktBinary.SetAttr("srcs", Strs([target.file]));
    ktBinary.SetAttr("main_class", Str(mainClass));
    ktBinary.SetPrivateAttr(PackagesKey, BinRef(target));
    result.gen := result.gen + [ktBinary];
    result.imports := result.imports + [BinRef(target)];
    assert result.gen[..|result.gen| - 1] == old(result.gen);
  }

  /**
   * addTestRule: a collision is reported and nothing changes; with no files
   * only the deletion marker may be added; a nil test class is an error
   * (the original dereferences it) and nothing changes; otherwise a
   * kt_jvm_test rule with the files and the class literal is generated.
   */
  method AddTestRule(env: GenEnv, targetName: string, target: KotlinTestTarget, result: GenerateResult)
    returns (err: Option<string>)
    modifies result
    ensures env.collision(targetName, KtJvmTest).Some? ==> err == env.collision(targetName, KtJvmTest)
    ensures err.Some? ==> unchanged(result)
    ensures err.Some? <==> env.collision(targetName, KtJvmTest).Some? || (target.files != [] && target.testClass.None?)
    ensures err.None? && target.files == [] ==>
      result.gen == old(result.gen) && result.imports == old(result.imports)
      && (!HasRule(env.buildFile, targetName, KtJvmTest) ==> result.empty == old(result.empty))
      && (HasRule(env.buildFile, targetName, KtJvmTest) ==>
            |result.empty| == |old(result.empty)| + 1 && result.empty[..|old(result.empty)|] == old(result.empty)
            && result.empty[|old(result.empty)|].kind == KtJvmTest && result.empty[|old(result.empty)|].name == targetName)
    ensures err.None? && target.files != [] ==>
      && AppendedGen(result, TestRef(target))
      && fresh(result.gen[|old(result.gen)|])
      && TestRule(result.gen[|old(result.gen)|], target, targetName)
  {
    err := env.collision(targetName, KtJvmTest);
    if err.Some? {
      return;
    }
    if target.files == [] {
      MarkEmpty(env, targetName, KtJvmTest, result);
      return;
    }
    if target.testClass.None? {
      return Some("invalid memory address or nil pointer dereference");
    }
    var ktTest := new Rule(KtJvmTest, targetName);
    ktTest.SetAttr("srcs", Strs(target.files));
    var lit := Literal(target.testClass.value);
    ktTest.SetAttr("test_class", Str(lit));
    ktTest.SetPrivateAttr(PackagesKey, TestRef(target));
    result.gen := result.gen + [ktTest];
    result.imports := result.imports + [TestRef(target)];
    assert result.gen[..|result.gen| - 1] == old(result.gen);
  }

  // ---------------------------------------------------------------------------
  // The classification loop

  /** The addImport loop of one parse result: each header in order, under the file's path. */
  method MergeImports(target: KotlinTarget, file: string, hs: seq<ImportHeader>)
    modifies target
    ensures target.imports == ImportsAfter(old(target.imports), file, hs)
  {
    var j := 0;
    while j < |hs|
      invariant 0 <= j <= |hs|
      invariant target.imports == ImportsAfter(old(target.imports), file, hs[..j])
    {
      assert hs[..j + 1][..j] == hs[..j];
      target.AddImport(ImportStatement(file, hs[j]));
      j := j + 1;
    }
    assert hs[..j] == hs;
  }

  /** The library target holds the library files, their packages and their merged imports. */
  ghost predicate LibClassified(c: Classifier, ps: seq<ParseResult>, lib: KotlinLibTarget)
    reads lib, lib.target
  {
    && lib.files == LibFiles(c, ps)
    && lib.packages == LibPackages(c, ps)
    && lib.target.imports == LibImports(c, ps)
  }

  /** One binary target per binary file, made from the last parse result of that file. */
  ghost predicate BinsClassified(c: Classifier, ps: seq<ParseResult>, bins: map<string, KotlinBinTarget>)
    reads set f | f in bins :: bins[f].target
  {
    && bins.Keys == BinsOf(c, ps).Keys
    && forall f :: f in bins ==>
      && bins[f].file == f
      && bins[f].pkg == BinsOf(c, ps)[f].pkg
      && bins[f].target.imports == ImportsAfter(map[], f, BinsOf(c, ps)[f].imports)
  }

  /** One test target per test file, in arrival order, with its guessed class. */
  ghost predicate TestsClassified(c: Classifier, ps: seq<ParseResult>, tests: seq<KotlinTestTarget>)
    reads set i | 0 <= i < |tests| :: tests[i].target
  {
    var expected := TestsOf(c, ps);
    && |tests| == |expected|
    && forall i :: 0 <= i < |tests| ==>
      && tests[i].files == [expected[i].file]
      && tests[i].pkg == expected[i].pkg
      && Ok(tests[i].testClass) == c.guess(expected[i])
      && tests[i].target.imports == ImportsAfter(map[], expected[i].file, expected[i].imports)
  }

  /** No binary or test target shares the library's KotlinTarget, so adding to one leaves the others. */
  ghost predicate Separate(lib: KotlinLibTarget, bins: map<string, KotlinBinTarget>, tests: seq<KotlinTestTarget>) {
    && (forall f :: f in bins ==> bins[f].target != lib.target)
    && (forall i :: 0 <= i < |tests| ==> tests[i].target != lib.target)
  }

  /** The state of the loop after the parse results `done`. */
  ghost predicate ClassifiedSoFar(c: Classifier, done: seq<ParseResult>,
                                  lib: KotlinLibTarget, bins: map<string, KotlinBinTarget>, tests: seq<KotlinTestTarget>)
    reads lib, lib.target, set f | f in bins :: bins[f].target, set i | 0 <= i < |tests| :: tests[i].target
  {
    && lib.Valid()
    && LibClassified(c, done, lib)
    && BinsClassified(c, done, bins)
    && TestsClassified(c, done, tests)
    && Separate(lib, bins, tests)
  }

  /** How one more parse result that is not a library file leaves the library's files, packages and imports. */
  lemma LibStepOther(c: Classifier, done: seq<ParseResult>, p: ParseResult)
    requires c.cat(p) != LibraryFile
    ensures LibFiles(c, done + [p]) == LibFiles(c, done)
    ensures LibPackages(c, done + [p]) == LibPackages(c, done)
    ensures LibImports(c, done + [p]) == LibImports(c, done)
  {
    var all := done + [p];
    assert all[..|all| - 1] == done;
  }

  /** How one more library file joins the library's files, packages and imports. */
  lemma LibStep(c: Classifier, done: seq<ParseResult>, p: ParseResult)
    requires c.cat(p) == LibraryFile
    ensures LibFiles(c, done + [p]) == LibFiles(c, done) + {p.file}
    ensures LibPackages(c, done + [p])
      == if p.pkg.Some? then LibPackages(c, done)[LiteralOf(p.pkg.value) := p.pkg.value] else LibPackages(c, done)
    ensures LibImports(c, done + [p]) == ImportsAfter(LibImports(c, done), p.file, p.imports)
  {
    var all := done + [p];
    assert all[..|all| - 1] == done;
  }

  /** How one more parse result changes the binaries: a binary file replaces its entry, anything else leaves them. */
  lemma BinsStep(c: Classifier, done: seq<ParseResult>, p: ParseResult)
    ensures BinsOf(c, done + [p])
      == if c.cat(p) == BinaryFile then BinsOf(c, done)[p.file := p] else BinsOf(c, done)
  {
    var all := done + [p];
    assert all[..|all| - 1] == done;
  }

  /** How one more parse result changes the tests: a test file is appended, anything else leaves them. */
  lemma TestsStep(c: Classifier, done: seq<ParseResult>, p: ParseResult)
    ensures TestsOf(c, done + [p])
      == if c.cat(p) == TestFile then TestsOf(c, done) + [p] else TestsOf(c, done)
  {
    var all := done + [p];
    assert all[..|all| - 1] == done;
  }

  /** NewKotlinTestTarget for one test file, followed by the addImport loop. */
  method NewTestTarget(p: ParseResult, testClass: Option<Identifier>) returns (t: KotlinTestTarget)
    ensures fresh(t) && fresh(t.target)
    ensures t.files == [p.file] && t.pkg == p.pkg && t.testClass == testClass
    ensures t.target.imports == ImportsAfter(map[], p.file, p.imports)
  {
    t := new KotlinTestTarget([p.file], p.pkg, testClass);
    MergeImports(t.target, p.file, p.imports);
  }

  /** NewKotlinBinTarget for one binary file, followed by the addImport loop. */
  method NewBinTarget(p: ParseResult) returns (b: KotlinBinTarget)
    ensures fresh(b) && fresh(b.target)
    ensures b.file == p.file && b.pkg == p.pkg
    ensures b.target.imports == ImportsAfter(map[], p.file, p.imports)
  {
    b := new KotlinBinTarget(p.file, p.pkg);
    MergeImports(b.target, p.file, p.imports);
  }

  /** A test target made from the next test file extends the classified tests. */
  lemma TestsJoin(c: Classifier, done: seq<ParseResult>, p: ParseResult,
                  tests: seq<KotlinTestTarget>, t: KotlinTestTarget)
    requires c.cat(p) == TestFile && c.guess(p) == Ok(t.testClass)
    requires t.files == [p.file] && t.pkg == p.pkg && t.target.imports == ImportsAfter(map[], p.file, p.imports)
    requires TestsClassified(c, done, tests)
    ensures TestsClassified(c, done + [p], tests + [t])
  {
    TestsStep(c, done, p);
    var tests' := tests + [t];
    var expected := TestsOf(c, done + [p]);
    forall i | 0 <= i < |tests'|
      ensures tests'[i].files == [expected[i].file] && tests'[i].pkg == expected[i].pkg
      ensures Ok(tests'[i].testClass) == c.guess(expected[i])
      ensures tests'[i].target.imports == ImportsAfter(map[], expected[i].file, expected[i].imports)
    {
      if i < |tests| {
        assert tests'[i] == tests[i];
        assert expected[i] == TestsOf(c, done)[i];
      }
    }
  }

  /** A binary target made from the next binary file replaces the entry of its file. */
  lemma BinsJoin(c: Classifier, done: seq<ParseResult>, p: ParseResult,
                 bins: map<string, KotlinBinTarget>, b: KotlinBinTarget)
    requires c.cat(p) == BinaryFile
    requires b.file == p.file && b.pkg == p.pkg && b.target.imports == ImportsAfter(map[], p.file, p.imports)
    requires BinsClassified(c, done, bins)
    ensures BinsClassified(c, done + [p], bins[p.file := b])
  {
    BinsStep(c, done, p);
  }

  /** The library branch: the file and its package join the library, then its imports. */
  method JoinLib(ghost c: Classifier, ghost done: seq<ParseResult>, p: ParseResult, lib: KotlinLibTarget)
    requires c.cat(p) == LibraryFile
    requires lib.Valid() && LibClassified(c, done, lib)
    modifies lib, lib.target
    ensures lib.Valid() && LibClassified(c, done + [p], lib)
  {
    lib.AddFile(p.file);
    if p.pkg.Some? {
      lib.AddPackage(p.pkg.value);
    }
    MergeImports(lib.target, p.file, p.imports);
    LibStep(c, done, p);
  }

  /** The test branch, for a test whose class guess succeeds. */
  method JoinTests(ghost c: Classifier, ghost done: seq<ParseResult>, p: ParseResult,
                   testClass: Option<Identifier>, lib: KotlinLibTarget, bins: map<string, KotlinBinTarget>, tests: seq<KotlinTestTarget>)
    returns (tests': seq<KotlinTestTarget>)
    requires c.cat(p) == TestFile && c.guess(p) == Ok(testClass)
    requires ClassifiedSoFar(c, done, lib, bins, tests)
    ensures ClassifiedSoFar(c, done + [p], lib, bins, tests')
  {
    var t := NewTestTarget(p, testClass);
    TestsJoin(c, done, p, tests, t);
    LibStepOther(c, done, p);
    BinsStep(c, done, p);
    tests' := tests + [t];
  }

  /** The binary branch: the file's binary target replaces any earlier one. */
  method JoinBins(ghost c: Classifier, ghost done: seq<ParseResult>, p: ParseResult,
                  lib: KotlinLibTarget, bins: map<string, KotlinBinTarget>, tests: seq<KotlinTestTarget>)
    returns (bins': map<string, KotlinBinTarget>)
    requires c.cat(p) == BinaryFile
    requires ClassifiedSoFar(c, done, lib, bins, tests)
    ensures ClassifiedSoFar(c, done + [p], lib, bins', tests)
  {
    var b := NewBinTarget(p);
    BinsJoin(c, done, p, bins, b);
    LibStepOther(c, done, p);
    TestsStep(c, done, p);
    bins' := bins[p.file := b];
  }

  /** The library branch, with the binaries and tests left as they are. */
  method JoinLibrary(ghost c: Classifier, ghost done: seq<ParseResult>, p: ParseResult,
                     lib: KotlinLibTarget, bins: map<string, KotlinBinTarget>, tests: seq<KotlinTestTarget>)
    requires c.cat(p) == LibraryFile
    requires ClassifiedSoFar(c, done, lib, bins, tests)
    modifies lib, lib.target
    ensures ClassifiedSoFar(c, done + [p], lib, bins, tests)
  {
    assert lib.target !in set f | f in bins :: bins[f].target;
    assert lib.target !in set j | 0 <= j < |tests| :: tests[j].target;
    JoinLib(c, done, p, lib);
    BinsStep(c, done, p);
    TestsStep(c, done, p);
  }

  /** One iteration of the loop: classify `p` and add its imports; a failing class guess is an error and changes nothing. */
  method ClassifyOne(c: Classifier, ghost done: seq<ParseResult>, p: ParseResult,
                     lib: KotlinLibTarget, bins: map<string, KotlinBinTarget>, tests: seq<KotlinTestTarget>)
    returns (err: Option<string>, bins': map<string, KotlinBinTarget>, tests': seq<KotlinTestTarget>)
    requires ClassifiedSoFar(c, done, lib, bins, tests)
    requires !AnyGuessFails(c, done)
    modifies lib, lib.target
    ensures err.Some? <==> AnyGuessFails(c, done + [p])
    ensures err.None? ==> ClassifiedSoFar(c, done + [p], lib, bins', tests')
  {
    bins', tests' := bins, tests;
    AnyGuessFailsSnoc(c, done, p);
    match c.cat(p) {
      case TestFile =>
        var testClass := c.guess(p);
        if testClass.Err? {
          return Some(testClass.error), bins', tests';
        }
        tests' := JoinTests(c, done, p, testClass.value, lib, bins, tests);
      case BinaryFile =>
        bins' := JoinBins(c, done, p, lib, bins, tests);
      case LibraryFile =>
        JoinLibrary(c, done, p, lib, bins, tests);
    }
    return None, bins', tests';
  }

  /** The failures of `done + [p]` are those of `done` and that of `p`. */
  lemma AnyGuessFailsSnoc(c: Classifier, done: seq<ParseResult>, p: ParseResult)
    ensures AnyGuessFails(c, done + [p])
      <==> AnyGuessFails(c, done) || GuessFails(c, p)
  {
    var next := done + [p];
    assert next[..|next| - 1] == done;
  }

  /** A failure in a prefix is a failure of the whole sequence. */
  lemma {:induction false} FailureStaysFailure(c: Classifier, ps: seq<ParseResult>, n: nat)
    requires n <= |ps| && AnyGuessFails(c, ps[..n])
    ensures AnyGuessFails(c, ps)
    decreases |ps| - n
  {
    if n < |ps| {
      var next := ps[..n + 1];
      assert next[..|next| - 1] == ps[..n];
      FailureStaysFailure(c, ps, n + 1);
    } else {
      assert ps[..n] == ps;
    }
  }

  /** `ps[..i] + [ps[i]]` is `ps[..i + 1]`, for the loop's two predicates. */
  lemma PrefixStep(c: Classifier, ps: seq<ParseResult>, i: nat,
                   lib: KotlinLibTarget, bins: map<string, KotlinBinTarget>, tests: seq<KotlinTestTarget>)
    requires i < |ps|
    ensures AnyGuessFails(c, ps[..i] + [ps[i]]) <==> AnyGuessFails(c, ps[..i + 1])
    ensures ClassifiedSoFar(c, ps[..i] + [ps[i]], lib, bins, tests)
      <==> ClassifiedSoFar(c, ps[..i + 1], lib, bins, tests)
  {
    assert ps[..i] + [ps[i]] == ps[..i + 1];
  }

  /** Before the loop: an empty library, no binaries, no tests. */
  lemma ClassifiedNothing(c: Classifier, lib: KotlinLibTarget)
    requires lib.files == {} && lib.packages == map[] && lib.target.imports == map[]
    ensures ClassifiedSoFar(c, [], lib, map[], [])
  {
  }

  /**
   * The loop over parse results in GenerateRules: each file joins the test
   * targets, the binaries or the library, and its imports are added to the
   * target it joined. A test whose class guess dereferences a nil package
   * stops the loop with an error.
   */
  method Classify(c: Classifier, ps: seq<ParseResult>)
    returns (err: Option<string>, lib: KotlinLibTarget, bins: map<string, KotlinBinTarget>, tests: seq<KotlinTestTarget>)
    ensures fresh(lib) && fresh(lib.target)
    ensures err.Some? <==> AnyGuessFails(c, ps)
    ensures err.None? ==> ClassifiedSoFar(c, ps, lib, bins, tests)
  {
    lib := new KotlinLibTarget();
    bins := map[];
    tests := [];
    ClassifiedNothing(c, lib);
    var i := 0;
    while i < |ps|
      invariant 0 <= i <= |ps|
      invariant fresh(lib) && fresh(lib.target)
      invariant !AnyGuessFails(c, ps[..i])
      invariant ClassifiedSoFar(c, ps[..i], lib, bins, tests)
    {
      err, bins, tests := ClassifyOne(c, ps[..i], ps[i], lib, bins, tests);
      PrefixStep(c, ps, i, lib, bins, tests);
      if err.Some? {
        FailureStaysFailure(c, ps, i + 1);
        return;
      }
      i := i + 1;
    }
    assert ps[..i] == ps;
    return None, lib, bins, tests;
  }

  // ---------------------------------------------------------------------------
  // Emitting the rules

  /** The sort key of a binary: its target name. */
  function BinKey(b: KotlinBinTarget): string {
    ToBinaryTargetName(b.file)
  }

  /** The sort key of a test: its first file (every classified test has exactly one). */
  function TestKey(t: KotlinTestTarget): string {
    if |t.files| > 0 then t.files[0] else ""
  }

  /** The kt_jvm_library rule of the library target, as addLibraryRule makes it for a non-test library. */
  ghost predicate LibRule(env: GenEnv, r: Rule, lib: KotlinLibTarget)
    reads r, lib
  {
    && r.kind == KtJvmLibrary && r.name == env.libTargetName
    && r.attrs.Keys == {"srcs"} && r.attrs["srcs"].Strs?
    && NoDuplicates(r.attrs["srcs"].strs)
    && (forall f :: f in r.attrs["srcs"].strs <==> f in lib.files)
    && r.privateAttrs == map[PackagesKey := LibRef(lib)]
  }

  /** The kt_jvm_binary rule of a binary target, under the given name. */
  ghost predicate BinRule(r: Rule, b: KotlinBinTarget, name: string)
    reads r
  {
    && r.kind == KtJvmBinary && r.name == name
    && r.attrs == map["srcs" := Strs([b.file]), "main_class" := Str(MainClass(b.file, b.pkg))]
    && r.privateAttrs == map[PackagesKey := BinRef(b)]
  }

  /** The kt_jvm_test rule of a test target with a class. */
  ghost predicate TestRule(r: Rule, t: KotlinTestTarget, name: string)
    reads r
  {
    && t.testClass.Some?
    && r.kind == KtJvmTest && r.name == name
    && r.attrs == map["srcs" := Strs(t.files), "test_class" := Str(LiteralOf(t.testClass.value))]
    && r.privateAttrs == map[PackagesKey := TestRef(t)]
  }

  /**
   * After the rules `gen0` (with import data `imports0`), `result` holds the
   * rules of `done`, named by `name`, in order, with their import data.
   */
  ghost predicate BinsEmitted(result: GenerateResult, gen0: seq<Rule>, imports0: seq<TargetRef>,
                              done: seq<KotlinBinTarget>, name: KotlinBinTarget -> string)
    reads result, result.gen
  {
    && |result.gen| == |gen0| + |done|
    && result.gen[..|gen0|] == gen0
    && result.imports == imports0 + BinRefs(done)
    && forall k :: 0 <= k < |done| ==> BinRule(result.gen[|gen0| + k], done[k], name(done[k]))
  }

  /** One iteration of the binaries loop. */
  method EmitBinary(env: GenEnv, b: KotlinBinTarget, name: KotlinBinTarget -> string, result: GenerateResult,
                    ghost gen0: seq<Rule>, ghost imports0: seq<TargetRef>, ghost done: seq<KotlinBinTarget>)
    returns (err: Option<string>)
    requires BinsEmitted(result, gen0, imports0, done, name)
    modifies result
    ensures result.empty == old(result.empty)
    ensures err == env.collision(name(b), KtJvmBinary)
    ensures err.None? ==> BinsEmitted(result, gen0, imports0, done + [b], name)
  {
    ghost var before := result.gen;
    err := AddBinaryRule(env, name(b), b, result);
    if err.Some? {
      return;
    }
    BinRefsSnoc(done, b);
    assert result.gen[..|before|] == before;
    assert before[..|gen0|] == gen0;
    forall k | 0 <= k < |done| + 1 ensures BinRule(result.gen[|gen0| + k], (done + [b])[k], name((done + [b])[k])) {
      if k < |done| {
        assert result.gen[|gen0| + k] == before[|gen0| + k];
      }
    }
  }

  /** The loop over the sorted binaries: one rule each, named by `name`, in order, stopping at the first collision. */
  method EmitBinaries(env: GenEnv, bs: seq<KotlinBinTarget>, name: KotlinBinTarget -> string, result: GenerateResult)
    returns (err: Option<string>)
    modifies result
    ensures result.empty == old(result.empty)
    ensures err.None? <==> forall k :: 0 <= k < |bs| ==> env.collision(name(bs[k]), KtJvmBinary).None?
    ensures err.None? ==> BinsEmitted(result, old(result.gen), old(result.imports), bs, name)
  {
    ghost var gen0, imports0 := result.gen, result.imports;
    assert result.gen[..|gen0|] == gen0;
    var i := 0;
    while i < |bs|
      invariant 0 <= i <= |bs|
      invariant result.empty == old(result.empty)
      invariant forall k :: 0 <= k < i ==> env.collision(name(bs[k]), KtJvmBinary).None?
      invariant BinsEmitted(result, gen0, imports0, bs[..i], name)
    {
      err := EmitBinary(env, bs[i], name, result, gen0, imports0, bs[..i]);
      if err.Some? {
        return;
      }
      assert bs[..i + 1] == bs[..i] + [bs[i]];
      i := i + 1;
    }
    assert bs[..i] == bs;
    return None;
  }

  /** The import data of a sequence of binaries. */
  function BinRefs(bs: seq<KotlinBinTarget>): (r: seq<TargetRef>)
    ensures |r| == |bs| && forall k :: 0 <= k < |bs| ==> r[k] == BinRef(bs[k])
  {
    seq(|bs|, k requires 0 <= k < |bs| => BinRef(bs[k]))
  }

  lemma BinRefsSnoc(bs: seq<KotlinBinTarget>, b: KotlinBinTarget)
    ensures BinRefs(bs + [b]) == BinRefs(bs) + [BinRef(b)]
  {
    assert (bs + [b])[..|bs|] == bs;
  }

  /** The import data of a sequence of tests. */
  function TestRefs(ts: seq<KotlinTestTarget>): (r: seq<TargetRef>)
    ensures |r| == |ts| && forall k :: 0 <= k < |ts| ==> r[k] == TestRef(ts[k])
  {
    seq(|ts|, k requires 0 <= k < |ts| => TestRef(ts[k]))
  }

  lemma TestRefsSnoc(ts: seq<KotlinTestTarget>, t: KotlinTestTarget)
    ensures TestRefs(ts + [t]) == TestRefs(ts) + [TestRef(t)]
  {
    assert (ts + [t])[..|ts|] == ts;
  }

  /** The name of a test's rule: the test target name of its first file. */
  function TestName(env: GenEnv, t: KotlinTestTarget): string {
    env.testTargetName(TestKey(t))
  }

  /** The test target can become a rule: its name does not collide and it has a class. */
  predicate TestEmittable(env: GenEnv, t: KotlinTestTarget) {
    env.collision(TestName(env, t), KtJvmTest).None? && t.testClass.Some?
  }

  /**
   * After the rules `gen0` (with import data `imports0`), `result` holds the
   * rules of `done`, in order, with their import data.
   */
  ghost predicate TestsEmitted(env: GenEnv, result: GenerateResult, gen0: seq<Rule>, imports0: seq<TargetRef>,
                               done: seq<KotlinTestTarget>)
    reads result, result.gen
  {
    && |result.gen| == |gen0| + |done|
    && result.gen[..|gen0|] == gen0
    && result.imports == imports0 + TestRefs(done)
    && forall k :: 0 <= k < |done| ==> TestRule(result.gen[|gen0| + k], done[k], TestName(env, done[k]))
  }

  /** One iteration of the tests loop. */
  method EmitTest(env: GenEnv, t: KotlinTestTarget, result: GenerateResult,
                  ghost gen0: seq<Rule>, ghost imports0: seq<TargetRef>, ghost done: seq<KotlinTestTarget>)
    returns (err: Option<string>)
    requires |t.files| > 0
    requires TestsEmitted(env, result, gen0, imports0, done)
    modifies result
    ensures result.empty == old(result.empty)
    ensures err.None? <==> TestEmittable(env, t)
    ensures err.None? ==> TestsEmitted(env, result, gen0, imports0, done + [t])
  {
    ghost var before := result.gen;
    err := AddTestRule(env, env.testTargetName(t.files[0]), t, result);
    if err.Some? {
      return;
    }
    TestRefsSnoc(done, t);
    assert result.gen[..|before|] == before;
    assert before[..|gen0|] == gen0;
    forall k | 0 <= k < |done| + 1 ensures TestRule(result.gen[|gen0| + k], (done + [t])[k], TestName(env, (done + [t])[k])) {
      if k < |done| {
        assert result.gen[|gen0| + k] == before[|gen0| + k];
      }
    }
  }

  /**
   * The loop over the sorted tests: one rule each, named after its first
   * file, in order, stopping at the first collision or missing class.
   */
  method EmitTests(env: GenEnv, ts: seq<KotlinTestTarget>, result: GenerateResult) returns (err: Option<string>)
    requires forall k :: 0 <= k < |ts| ==> |ts[k].files| > 0
    modifies result
    ensures result.empty == old(result.empty)
    ensures err.None? <==> forall k :: 0 <= k < |ts| ==> TestEmittable(env, ts[k])
    ensures err.None? ==> TestsEmitted(env, result, old(result.gen), old(result.imports), ts)
  {
    ghost var gen0, imports0 := result.gen, result.imports;
    assert result.gen[..|gen0|] == gen0;
    var i := 0;
    while i < |ts|
      invariant 0 <= i <= |ts|
      invariant result.empty == old(result.empty)
      invariant forall k :: 0 <= k < i ==> TestEmittable(env, ts[k])
      invariant TestsEmitted(env, result, gen0, imports0, ts[..i])
    {
      err := EmitTest(env, ts[i], result, gen0, imports0, ts[..i]);
      if err.Some? {
        return;
      }
      assert ts[..i + 1] == ts[..i] + [ts[i]];
      i := i + 1;
    }
    assert ts[..i] == ts;
    return None;
  }

  /** Every name the library, binaries and tests would get is free, and every test has a class. */
  ghost predicate Emittable(env: GenEnv, lib: KotlinLibTarget, bins: map<string, KotlinBinTarget>, tests: seq<KotlinTestTarget>)
    reads lib
  {
    && (lib.files != {} ==> env.collision(env.libTargetName, KtJvmLibrary).None?)
    && (forall b :: b in bins.Values ==> env.collision(BinKey(b), KtJvmBinary).None?)
    && (forall t :: t in tests ==> TestEmittable(env, t))
  }

  /** Emittable, stated over the sorted sequences and a naming function for the binaries. */
  ghost predicate EmittableInOrder(env: GenEnv, lib: KotlinLibTarget, bs: seq<KotlinBinTarget>,
                                   name: KotlinBinTarget -> string, ts: seq<KotlinTestTarget>)
    reads lib
  {
    && (lib.files != {} ==> env.collision(env.libTargetName, KtJvmLibrary).None?)
    && (forall k :: 0 <= k < |bs| ==> env.collision(name(bs[k]), KtJvmBinary).None?)
    && (forall k :: 0 <= k < |ts| ==> TestEmittable(env, ts[k]))
  }

  /** Sorting neither adds nor drops a target, so it does not change whether everything can be emitted. */
  lemma EmittableSorted(env: GenEnv, lib: KotlinLibTarget, bins: map<string, KotlinBinTarget>, bs: seq<KotlinBinTarget>,
                        tests: seq<KotlinTestTarget>, ts: seq<KotlinTestTarget>)
    requires forall b :: b in bs <==> b in bins.Values
    requires forall t :: t in ts <==> t in tests
    ensures EmittableInOrder(env, lib, bs, BinKey, ts) <==> Emittable(env, lib, bins, tests)
  {
    if EmittableInOrder(env, lib, bs, BinKey, ts) {
      forall b | b in bins.Values ensures env.collision(BinKey(b), KtJvmBinary).None? {
        var k :| 0 <= k < |bs| && bs[k] == b;
      }
      forall t | t in tests ensures TestEmittable(env, t) {
        var k :| 0 <= k < |ts| && ts[k] == t;
      }
    }
  }

  /** The binaries' rules in the given order, then the tests' rules, after the rules already there. */
  method EmitTargets(env: GenEnv, bs: seq<KotlinBinTarget>, name: KotlinBinTarget -> string,
                     ts: seq<KotlinTestTarget>, result: GenerateResult)
    returns (err: Option<string>)
    requires forall k :: 0 <= k < |ts| ==> |ts[k].files| > 0
    modifies result
    ensures err.None? <==>
      (forall k :: 0 <= k < |bs| ==> env.collision(name(bs[k]), KtJvmBinary).None?)
      && (forall k :: 0 <= k < |ts| ==> TestEmittable(env, ts[k]))
    ensures err.None? ==>
      var off := |old(result.gen)|;
      && result.empty == old(result.empty)
      && |result.gen| == off + |bs| + |ts|
      && result.gen[..off] == old(result.gen)
      && result.imports == old(result.imports) + BinRefs(bs) + TestRefs(ts)
      && (forall k :: 0 <= k < |bs| ==> BinRule(result.gen[off + k], bs[k], name(bs[k])))
      && (forall k :: 0 <= k < |ts| ==> TestRule(result.gen[off + |bs| + k], ts[k], TestName(env, ts[k])))
  {
    ghost var off := |result.gen|;
    err := EmitBinaries(env, bs, name, result);
    if err.Some? {
      return;
    }
    ghost var binGen, binImports := result.gen, result.imports;
    label Binaries:
    err := EmitTests(env, ts, result);
    if err.Some? {
      return;
    }
    assert result.gen[..|binGen|] == binGen;
    assert binGen[..off] == old(result.gen);
    assert result.gen[..off] == binGen[..off];
    assert result.imports == binImports + TestRefs(ts);
    forall k | 0 <= k < |bs| ensures BinRule(result.gen[off + k], bs[k], name(bs[k])) {
      var r := binGen[off + k];
      assert old@Binaries(BinRule(r, bs[k], name(bs[k])));
      assert result.gen[..|binGen|][off + k] == r;
    }
  }

  /**
   * `result` holds exactly the library's rule (when the library has files),
   * then the rules of `bs`, named by `name`, then the rules of `ts`, each with
   * its import data, and no deletion marker.
   */
  ghost predicate EmittedInOrder(env: GenEnv, lib: KotlinLibTarget, bs: seq<KotlinBinTarget>, name: KotlinBinTarget -> string,
                                 ts: seq<KotlinTestTarget>, result: GenerateResult)
    reads result, result.gen, lib
  {
    var nl := if lib.files != {} then 1 else 0;
    && result.empty == []
    && |result.gen| == nl + |bs| + |ts|
    && result.imports == (if lib.files != {} then [LibRef(lib)] else []) + BinRefs(bs) + TestRefs(ts)
    && (lib.files != {} ==> LibRule(env, result.gen[0], lib))
    && (forall k :: 0 <= k < |bs| ==> BinRule(result.gen[nl + k], bs[k], name(bs[k])))
    && (forall k :: 0 <= k < |ts| ==> TestRule(result.gen[nl + |bs| + k], ts[k], TestName(env, ts[k])))
  }

  /**
   * The rules of the library (when it has files), then of the binaries in
   * the given order, then of the tests in the given order, into an empty
   * result; the first failure ends generation.
   */
  method EmitInOrder(env: GenEnv, lib: KotlinLibTarget, bs: seq<KotlinBinTarget>, name: KotlinBinTarget -> string,
                     ts: seq<KotlinTestTarget>, result: GenerateResult)
    returns (err: Option<string>)
    requires forall k :: 0 <= k < |ts| ==> |ts[k].files| > 0
    requires result.gen == [] && result.imports == [] && result.empty == []
    modifies result
    ensures err.None? <==> EmittableInOrder(env, lib, bs, name, ts)
    ensures err.None? ==> EmittedInOrder(env, lib, bs, name, ts, result)
  {
    err := EmitLibrary(env, lib, result);
    if err.Some? {
      return;
    }
    ghost var libGen := result.gen;
    ghost var libImports := result.imports;
    ghost var nl := if lib.files != {} then 1 else 0;
    label Library:
    err := EmitTargets(env, bs, name, ts, result);
    if err.Some? {
      return;
    }
    assert result.imports == libImports + BinRefs(bs) + TestRefs(ts);
    assert |result.gen| == nl + |bs| + |ts|;
    if lib.files != {} {
      assert old@Library(LibRule(env, libGen[0], lib));
      assert result.gen[..1][0] == libGen[0];
    }
  }

  /** The library part of GenerateRules: a kt_jvm_library rule when the library has files, into an empty result. */
  method EmitLibrary(env: GenEnv, lib: KotlinLibTarget, result: GenerateResult) returns (err: Option<string>)
    requires result.gen == [] && result.imports == [] && result.empty == []
    modifies result
    ensures err.None? <==> (lib.files != {} ==> env.collision(env.libTargetName, KtJvmLibrary).None?)
    ensures err.None? ==>
      && result.empty == []
      && |result.gen| == (if lib.files != {} then 1 else 0)
      && result.imports == (if lib.files != {} then [LibRef(lib)] else [])
      && (lib.files != {} ==> LibRule(env, result.gen[0], lib))
  {
    err := None;
    if lib.files != {} {
      err := AddLibraryRule(env, env.libTargetName, lib, false, result);
    }
  }

  /**
   * The second half of GenerateRules: the library rule when the library has
   * files, then the binaries in ascending order of target name, then the
   * tests in ascending order of first file. The first failure ends
   * generation (the original exits the process).
   */
  method Emit(env: GenEnv, lib: KotlinLibTarget, bins: map<string, KotlinBinTarget>, tests: seq<KotlinTestTarget>)
    returns (err: Option<string>, result: GenerateResult, ghost sortedBins: seq<KotlinBinTarget>, ghost sortedTests: seq<KotlinTestTarget>)
    requires forall k :: 0 <= k < |tests| ==> |tests[k].files| > 0
    ensures fresh(result)
    ensures |sortedBins| == |bins| && (forall b :: b in sortedBins <==> b in bins.Values) && SortedBy(sortedBins, BinKey)
    ensures multiset(sortedTests) == multiset(tests) && SortedBy(sortedTests, TestKey)
    ensures err.None? <==> Emittable(env, lib, bins, tests)
    ensures err.None? ==> EmittedInOrder(env, lib, sortedBins, BinKey, sortedTests, result)
  {
    result := new GenerateResult();
    var bs := SortBinaries(bins);
    var ts := SortTests(tests);
    assert forall t :: t in ts <==> t in tests by {
      assert forall t :: t in ts <==> t in multiset(tests);
    }
    sortedBins, sortedTests := bs, ts;
    forall k | 0 <= k < |ts| ensures |ts[k].files| > 0 {
      assert ts[k] in tests;
      var j :| 0 <= j < |tests| && tests[j] == ts[k];
    }
    err := EmitInOrder(env, lib, bs, BinKey, ts, result);
    EmittableSorted(env, lib, bins, bs, tests, ts);
  }

  /** slices.SortedFunc over maps.Values(binTargets), by target name. */
  method SortBinaries(bins: map<string, KotlinBinTarget>) returns (bs: seq<KotlinBinTarget>)
    ensures |bs| == |bins| && (forall b :: b in bs <==> b in bins.Values) && SortedBy(bs, BinKey)
  {
    var values := MapValues(bins);
    bs := SortBy(values, BinKey);
    SortedBinaries(bins, values, bs);
  }

  /** sort.Slice over the tests, by first file. */
  method SortTests(tests: seq<KotlinTestTarget>) returns (ts: seq<KotlinTestTarget>)
    ensures multiset(ts) == multiset(tests) && SortedBy(ts, TestKey)
  {
    ts := SortBy(tests, TestKey);
    SortBySorted(tests, TestKey);
  }

  /** The sorted values of the binaries map: each value once per key, in ascending order of name. */
  lemma SortedBinaries(bins: map<string, KotlinBinTarget>, values: seq<KotlinBinTarget>, sorted: seq<KotlinBinTarget>)
    requires (forall v :: v in values <==> v in bins.Values) && |values| == |bins|
    requires sorted == SortBy(values, BinKey)
    ensures |sorted| == |bins| && (forall b :: b in sorted <==> b in bins.Values) && SortedBy(sorted, BinKey)
  {
    SortBySorted(values, BinKey);
    assert forall b :: b in sorted <==> b in multiset(values);
  }

  // ---------------------------------------------------------------------------
  // GenerateRules

  /**
   * GenerateRules for one directory, given the parse results in the order
   * they arrive: nothing when generation is disabled; otherwise the results
   * are classified and the rules emitted. A failing class guess or a
   * failing rule ends generation with the error.
   */
  method GenerateRules(env: GenEnv, cfg: Config, ps: seq<ParseResult>)
    returns (err: Option<string>, result: GenerateResult,
             ghost lib: KotlinLibTarget?, ghost bins: map<string, KotlinBinTarget>, ghost tests: seq<KotlinTestTarget>,
             ghost sortedBins: seq<KotlinBinTarget>, ghost sortedTests: seq<KotlinTestTarget>)
    ensures fresh(result)
    ensures !cfg.GenerationEnabled() ==> err.None? && result.gen == [] && result.empty == [] && result.imports == []
    ensures cfg.GenerationEnabled() && AnyGuessFails(ClassifierOf(env.isLetter, cfg.testFileSuffixes), ps) ==> err.Some?
    ensures cfg.GenerationEnabled() && !AnyGuessFails(ClassifierOf(env.isLetter, cfg.testFileSuffixes), ps) ==>
      && lib != null
      && ClassifiedSoFar(ClassifierOf(env.isLetter, cfg.testFileSuffixes), ps, lib, bins, tests)
      && |sortedBins| == |bins| && (forall b :: b in sortedBins <==> b in bins.Values) && SortedBy(sortedBins, BinKey)
      && multiset(sortedTests) == multiset(tests) && SortedBy(sortedTests, TestKey)
      && (err.None? <==> Emittable(env, lib, bins, tests))
      && (err.None? ==> EmittedInOrder(env, lib, sortedBins, BinKey, sortedTests, result))
  {
    lib, bins, tests, sortedBins, sortedTests := null, map[], [], [], [];
    if !cfg.GenerationEnabled() {
      err := None;
      result := new GenerateResult();
      return;
    }
    ghost var c := ClassifierOf(env.isLetter, cfg.testFileSuffixes);
    var classifyErr, libTarget, binTargets, testTargets := Classify(ClassifierOf(env.isLetter, cfg.testFileSuffixes), ps);
    lib, bins, tests := libTarget, binTargets, testTargets;
    if classifyErr.Some? {
      err := classifyErr;
      result := new GenerateResult();
      return;
    }
    label Classified:
    forall k | 0 <= k < |testTargets| ensures |testTargets[k].files| > 0 {
      assert testTargets[k].files == [TestsOf(c, ps)[k].file];
    }
    err, result, sortedBins, sortedTests := Emit(env, libTarget, binTargets, testTargets);
    assert ClassifiedSoFar(c, ps, lib, bins, tests) by {
      assert old@Classified(ClassifiedSoFar(c, ps, lib, bins, tests));
    }
  }
}
