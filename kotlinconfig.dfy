/**
 * The per-directory Kotlin configuration: a tree of nodes, each created as a
 * copy of its parent's with a back-pointer to it.
 */
module KotlinConfig {
  import opened Text

  /** A base name is a test file name when it ends with one of the suffixes. */
  predicate HasTestSuffix(suffixes: seq<string>, baseName: string) {
    exists i :: 0 <= i < |suffixes| && HasSuffix(baseName, suffixes[i])
  }

  /** The default suffix recognises "FooTest.kt" and not "Foo.kt" or "TestFoo.kt". */
  lemma DefaultTestSuffix()
    ensures HasTestSuffix(["Test.kt"], "FooTest.kt")
    ensures !HasTestSuffix(["Test.kt"], "Foo.kt")
    ensures !HasTestSuffix(["Test.kt"], "TestFoo.kt")
  {
    assert HasSuffix("FooTest.kt", ["Test.kt"][0]) by {
      assert "FooTest.kt"[3..] == "Test.kt";
    }
    assert !HasSuffix("TestFoo.kt", "Test.kt") by {
      assert "TestFoo.kt"[3..][0] != "Test.kt"[0];
    }
  }

  /** KotlinConfig; the embedded Java configuration is not part of this model. */
  class Config {
    var parent: Config?
    var rel: string
    var testFileSuffixes: seq<string>
    var generationEnabled: bool

    /** New: generation enabled, the single test suffix "Test.kt", no parent, the root path. */
    constructor New()
      ensures generationEnabled
      ensures testFileSuffixes == ["Test.kt"]
      ensures parent == null && rel == ""
    {
      parent := null;
      rel := "";
      testFileSuffixes := ["Test.kt"];
      generationEnabled := true;
    }

    /** path: the directory of this node, with or without a parent. */
    function Path(): (r: string)
      reads this
      ensures r == rel
    {
      if parent == null then rel else rel
    }

    /**
     * NewChild: a fresh node that copies the flag and the suffixes, has
     * `childPath` as its path and this node as its parent. This node is not
     * changed.
     */
    method NewChild(childPath: string) returns (child: Config)
      ensures fresh(child)
      ensures child.generationEnabled == generationEnabled
      ensures child.testFileSuffixes == testFileSuffixes
      ensures child.rel == childPath && child.parent == this
    {
      child := new Config.New();
      child.generationEnabled := generationEnabled;
      child.rel := childPath;
      child.parent := this;
      child.testFileSuffixes := [] + testFileSuffixes;
    }

    /** SetGenerationEnabled: sets the flag and nothing else. */
    method SetGenerationEnabled(enabled: bool)
      modifies this
      ensures generationEnabled == enabled
      ensures parent == old(parent) && rel == old(rel) && testFileSuffixes == old(testFileSuffixes)
    {
      generationEnabled := enabled;
    }

    /** GenerationEnabled: the flag. */
    function GenerationEnabled(): bool
      reads this
    {
      generationEnabled
    }

    /** IsTestBaseName: scans the suffixes and stops at the first that ends the name. */
    method IsTestBaseName(baseName: string) returns (r: bool)
      ensures r <==> HasTestSuffix(testFileSuffixes, baseName)
    {
      var i := 0;
      while i < |testFileSuffixes|
        invariant 0 <= i <= |testFileSuffixes|
        invariant forall k :: 0 <= k < i ==> !HasSuffix(baseName, testFileSuffixes[k])
      {
        if HasSuffix(baseName, testFileSuffixes[i]) {
          return true;
        }
        i := i + 1;
      }
      return false;
    }
  }

  /** The directory key ParentForPackage looks up: the directory of `pkg`, "" for the top level. */
  function ParentKey(pkg: string): (r: string)
    ensures LastIndex(pkg, '/') == -1 ==> r == ""
    ensures LastIndex(pkg, '/') >= 0 && IsCleanRelative(pkg[..LastIndex(pkg, '/')]) ==> r == pkg[..LastIndex(pkg, '/')]
    ensures pkg != "" && pkg[0] == '/' ==> r != "" && r[0] == '/'
    ensures r != "."
  {
    DotIsNotCleanRelative();
    var dir := Dir(pkg);
    if dir == "." then "" else dir
  }

  /** ParentForPackage: the configuration of the directory containing `pkg`, or nil. */
  function ParentForPackage(c: map<string, Config>, pkg: string): (r: Config?)
    ensures ParentKey(pkg) in c ==> r == c[ParentKey(pkg)]
    ensures ParentKey(pkg) !in c ==> r == null
  {
    var dir := ParentKey(pkg);
    if dir in c then c[dir] else null
  }

  /** A top-level package's parent is the root; "a/b"'s is "a". */
  lemma ParentKeyExamples()
    ensures ParentKey("foo") == ""
    ensures ParentKey("a/b") == "a"
  {
    assert LastIndex("foo", '/') == -1;
    assert LastIndex("a/b", '/') == 1;
    assert "a/b"[..1] == "a";
    assert IsCleanRelative("a") by {
      assert Split("", '/') == [""];
      assert "" + ['a'] == "a";
      SplitChar("", 'a');
      assert Split("a", '/') == ["a"];
    }
  }

  /** The pieces of "a/". */
  lemma SplitASlash()
    ensures Split("a/", '/') == ["a", ""]
  {
    assert Split("", '/') == [""];
    SplitChar("", 'a');
    assert "" + ['a'] == "a";
    SplitSlash("a");
    assert "a" + "/" == "a/";
  }

  /** The pieces of "a//". */
  lemma SplitADoubleSlash()
    ensures Split("a//", '/') == ["a", "", ""]
  {
    SplitASlash();
    SplitSlash("a/");
    assert "a/" + "/" == "a//";
  }

  /** The pieces of "a/./". */
  lemma SplitADotSlash()
    ensures Split("a/./", '/') == ["a", ".", ""]
  {
    SplitASlash();
    SplitChar("a/", '.');
    assert "a/" + ['.'] == "a/.";
    assert "" + ['.'] == ".";
    SplitSlash("a/.");
    assert "a/." + "/" == "a/./";
  }

  /** The pieces of "a/../". */
  lemma SplitADotDotSlash()
    ensures Split("a/../", '/') == ["a", "..", ""]
  {
    SplitASlash();
    SplitChar("a/", '.');
    assert "a/" + ['.'] == "a/.";
    assert "" + ['.'] == ".";
    SplitChar("a/.", '.');
    assert "a/." + ['.'] == "a/..";
    assert "." + ['.'] == "..";
    SplitSlash("a/..");
    assert "a/.." + "/" == "a/../";
  }

  /** Doubled slashes are cleaned away before the lookup. */
  lemma ParentKeyDoubleSlash()
    ensures ParentKey("a//b") == "a"
  {
    SplitADoubleSlash();
    assert LastIndex("a//b", '/') == 2 && "a//b"[..3] == "a//";
    assert CleanElems(["a", "", ""], false) == ["a"] by {
      assert ["a", "", ""][..2] == ["a", ""] && ["a", ""][..1] == ["a"] && ["a"][..0] == [];
    }
  }

  /** A "." element is cleaned away before the lookup. */
  lemma ParentKeyDotElement()
    ensures ParentKey("a/./b") == "a"
  {
    SplitADotSlash();
    assert LastIndex("a/./b", '/') == 3 && "a/./b"[..4] == "a/./";
    assert CleanElems(["a", ".", ""], false) == ["a"] by {
      assert ["a", ".", ""][..2] == ["a", "."] && ["a", "."][..1] == ["a"] && ["a"][..0] == [];
    }
  }

  /** A ".." element removes the name before it, leaving the top level. */
  lemma ParentKeyDotDot()
    ensures ParentKey("a/../b") == ""
  {
    SplitADotDotSlash();
    assert LastIndex("a/../b", '/') == 4 && "a/../b"[..5] == "a/../";
    assert CleanElems(["a", "..", ""], false) == [] by {
      assert ["a", "..", ""][..2] == ["a", ".."] && ["a", ".."][..1] == ["a"] && ["a"][..0] == [];
    }
  }

  /** A rooted top-level package has the root "/" as its key, not "". */
  lemma ParentKeyRooted()
    ensures ParentKey("/a") == "/"
  {
    assert LastIndex("/a", '/') == 0 && "/a"[..1] == "/";
    assert "/"[..0] == "" && Split("", '/') == [""];
    assert Split("/", '/') == ["", ""];
    assert CleanElems(["", ""], true) == [] by {
      assert ["", ""][..1] == [""] && [""][..0] == [];
    }
  }
}
