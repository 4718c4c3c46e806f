/**
 * Kotlin targets: the per-directory aggregates (library, binary, test) that
 * parsed files are grouped into, and the native-import test.
 */
module Kotlin {
  import opened Wrappers
  import opened Text
  import opened Parser
  import opened Imports

  /**
   * IsNativeImport: true for anything under the `kotlin.` or `kotlinx.`
   * prefixes; otherwise the Java standard-library test `isStdlib` decides.
   */
  function IsNativeImport(isStdlib: string -> bool, impt: string): (r: bool)
    ensures HasPrefix(impt, "kotlin.") || HasPrefix(impt, "kotlinx.") ==> r
    ensures !HasPrefix(impt, "kotlin.") && !HasPrefix(impt, "kotlinx.") ==> r == isStdlib(impt)
  {
    if HasPrefix(impt, "kotlin.") || HasPrefix(impt, "kotlinx.") then true
    else isStdlib(impt)
  }

  /** The cases of the native-import tests: Kotlin namespaces, and Java ones through `isStdlib`. */
  lemma NativeImportCases(isStdlib: string -> bool)
    requires isStdlib("java.foo") && isStdlib("javax.net") && isStdlib("org.xml.sax")
    requires !isStdlib("com.example.Foo") && !isStdlib("kotlinish.Foo")
    ensures IsNativeImport(isStdlib, "kotlin.io") && IsNativeImport(isStdlib, "kotlinx.foo")
    ensures IsNativeImport(isStdlib, "java.foo") && IsNativeImport(isStdlib, "javax.net")
    ensures IsNativeImport(isStdlib, "org.xml.sax")
    ensures !IsNativeImport(isStdlib, "com.example.Foo")
    ensures !IsNativeImport(isStdlib, "kotlinish.Foo")
  {
    assert "kotlin.io"[..7] == "kotlin.";
    assert "kotlinx.foo"[..8] == "kotlinx.";
    assert "com.example.Foo"[..7][0] != "kotlin."[0];
    assert "com.example.Foo"[..8][0] != "kotlinx."[0];
    assert "kotlinish.Foo"[..7][6] != "kotlin."[6];
    assert "kotlinish.Foo"[..8][6] != "kotlinx."[6];
  }

  /** Every key of an import map is the literal of the identifier it holds. */
  ghost predicate KeyedByLiteral(m: map<string, ImportStatement>) {
    forall k :: k in m ==> LiteralOf(m[k].importHeader.identifier) == k
  }

  /** Every package of a package map is stored under its own literal. */
  ghost predicate LiteralKeyed(m: map<string, Identifier>) {
    forall k :: k in m ==> LiteralOf(m[k]) == k
  }

  /** KotlinTarget: the imports of a target, keyed by identifier literal. */
  class KotlinTarget {
    var imports: map<string, ImportStatement>

    constructor ()
      ensures imports == map[]
    {
      imports := map[];
    }

    /** addImport: stores the import under its literal; a later import with the same literal wins. */
    method AddImport(impt: ImportStatement)
      modifies this
      ensures imports == old(imports)[LiteralOf(impt.importHeader.identifier) := impt]
      ensures KeyedByLiteral(old(imports)) ==> KeyedByLiteral(imports)
    {
      var key := Literal(impt.importHeader.identifier);
      imports := imports[key := impt];
    }
  }

  /** KotlinLibTarget: the library of a directory, its files and the packages they declare. */
  class KotlinLibTarget {
    const target: KotlinTarget
    var packages: map<string, Identifier>
    var files: set<string>

    /** Every package is stored under its own literal. */
    ghost predicate Valid()
      reads this
    {
      LiteralKeyed(packages)
    }

    /** NewKotlinLibTarget: no imports, no packages, no files. */
    constructor ()
      ensures fresh(target) && target.imports == map[]
      ensures packages == map[] && files == {}
      ensures Valid()
    {
      target := new KotlinTarget();
      packages := map[];
      files := {};
    }

    /** addFile: set insertion, so adding a file already present changes nothing. */
    method AddFile(file: string)
      modifies this
      ensures files == old(files) + {file}
      ensures file in files
      ensures old(file in files) ==> files == old(files)
      ensures packages == old(packages)
    {
      files := files + {file};
    }

    /** addPackage: stores the package under its literal; a later package with the same literal wins. */
    method AddPackage(pkg: Identifier)
      modifies this
      ensures packages == old(packages)[LiteralOf(pkg) := pkg]
      ensures files == old(files)
      ensures old(Valid()) ==> Valid()
    {
      var key := Literal(pkg);
      packages := packages[key := pkg];
    }
  }

  /** KotlinBinTarget: one file with a main function, and its package. */
  class KotlinBinTarget {
    const target: KotlinTarget
    const file: string
    const pkg: Option<Identifier>

    /** NewKotlinBinTarget: the given file and package, no imports. */
    constructor (file: string, pkg: Option<Identifier>)
      ensures fresh(target) && target.imports == map[]
      ensures this.file == file && this.pkg == pkg
    {
      target := new KotlinTarget();
      this.file := file;
      this.pkg := pkg;
    }
  }

  /** KotlinTestTarget: test files, their package and the guessed test class. */
  class KotlinTestTarget {
    const target: KotlinTarget
    const files: seq<string>
    const pkg: Option<Identifier>
    const testClass: Option<Identifier>

    /** NewKotlinTestTarget: the given files, package and class, no imports. */
    constructor (files: seq<string>, pkg: Option<Identifier>, testClass: Option<Identifier>)
      ensures fresh(target) && target.imports == map[]
      ensures this.files == files && this.pkg == pkg && this.testClass == testClass
    {
      target := new KotlinTarget();
      this.files := files;
      this.pkg := pkg;
      this.testClass := testClass;
    }
  }

  /** The name of the private rule attribute that holds a rule's target. */
  const PackagesKey: string := "_kotlin_package"

  /** toBinaryTargetName: the lower-cased basename without its extension, then "_bin". */
  function ToBinaryTargetName(mainFile: string): (r: string)
    ensures HasSuffix(r, "_bin")
    ensures forall i :: 0 <= i < |r| ==> !('A' <= r[i] <= 'Z')
  {
    var low := ToLower(BaseStem(mainFile));
    var r := low + "_bin";
    assert r[|r| - 4..] == "_bin";
    assert forall i :: 0 <= i < |r| ==> !('A' <= r[i] <= 'Z') by {
      forall i | 0 <= i < |r| ensures !('A' <= r[i] <= 'Z') {
        if i < |low| {
          assert r[i] == low[i];
        } else {
          var j := i - |low|;
          assert r[i] == "_bin"[j];
          assert j == 0 || j == 1 || j == 2 || j == 3;
        }
      }
    }
    r
  }

  /** The basename of a path without its extension. */
  function BaseStem(p: string): string {
    TrimSuffix(PathBase(p), PathExt(p))
  }

  /** The last slash of `a + b` is in `a` when `b` has none. */
  lemma LastIndexAppend(a: string, b: string, c: char)
    requires forall i :: 0 <= i < |b| ==> b[i] != c
    ensures LastIndex(a + b, c) == LastIndex(a, c)
    decreases |b|
  {
    if |b| > 0 {
      assert (a + b)[..|a + b| - 1] == a + b[..|b| - 1];
      LastIndexAppend(a, b[..|b| - 1], c);
    } else {
      assert a + b == a;
    }
  }

  /** A path that ends in "." + `t`, where `t` has no dot or slash, has the extension "." + `t`. */
  lemma {:induction false} PathExtOf(p: string, t: string)
    requires forall i :: 0 <= i < |t| ==> t[i] != '.' && t[i] != '/'
    requires HasSuffix(p, "." + t)
    ensures PathExt(p) == "." + t
    decreases |t|
  {
    if |t| == 0 {
      assert p[|p| - 1] == ("." + t)[0];
    } else {
      var t' := t[..|t| - 1];
      var c := t[|t| - 1];
      assert p[|p| - 1] == ("." + t)[|t|] == c;
      var q := p[..|p| - 1];
      assert q[|q| - |"." + t'|..] == p[|p| - |"." + t|..][..|t|];
      assert ("." + t)[..|t|] == "." + t';
      PathExtOf(q, t');
      assert "." + t' + [c] == "." + t;
    }
  }

  /** The base of `dir + base`, for a directory prefix ending in a slash and a slash-free base. */
  lemma PathBaseOf(dir: string, base: string)
    requires dir == "" || dir[|dir| - 1] == '/'
    requires |base| > 0 && forall i :: 0 <= i < |base| ==> base[i] != '/'
    ensures PathBase(dir + base) == base
  {
    var f := dir + base;
    assert f[|f| - 1] == base[|base| - 1];
    assert TrimTrailingSlashes(f) == f;
    LastIndexAppend(dir, base, '/');
    if dir == "" {
      assert f == base;
    } else {
      assert LastIndex(dir, '/') == |dir| - 1;
      assert f[|dir|..] == base;
    }
  }

  /** A path ending in ".kt" has the extension ".kt". */
  lemma PathExtOfKotlinFile(p: string)
    requires HasSuffix(p, ".kt")
    ensures PathExt(p) == ".kt"
  {
    assert "." + "kt" == ".kt";
    PathExtOf(p, "kt");
  }

  /**
   * For a file `dir/Name.t`, with an extension `t` such as "kt" or "kts", the
   * binary target is the lower-cased `name` followed by "_bin".
   */
  lemma BinaryTargetNameOfFile(dir: string, base: string, t: string)
    requires dir == "" || dir[|dir| - 1] == '/'
    requires forall i :: 0 <= i < |t| ==> t[i] != '.' && t[i] != '/'
    requires HasSuffix(base, "." + t) && forall i :: 0 <= i < |base| ==> base[i] != '/'
    ensures ToBinaryTargetName(dir + base) == ToLower(base[..|base| - |t| - 1]) + "_bin"
  {
    var f := dir + base;
    var e := "." + t;
    assert PathBase(f) == base by { PathBaseOf(dir, base); }
    assert PathExt(f) == e by {
      assert f[|f| - |e|..] == base[|base| - |e|..];
      PathExtOf(f, t);
    }
    assert BaseStem(f) == base[..|base| - |e|];
  }
}
