/** The extension's constant tables: language name, rule kinds and load statements. */
module Language {
  import opened Wrappers

  const LanguageName: string := "kotlin"
  const KtJvmLibrary: string := "kt_jvm_library"
  const KtJvmBinary: string := "kt_jvm_binary"
  /** The test rule kind; the files modelled refer to it but do not define it (see README). */
  const KtJvmTest: string := "kt_jvm_test"
  /** The three rule kinds are different names. */
  lemma KindsDiffer()
    ensures KtJvmLibrary != KtJvmBinary && KtJvmLibrary != KtJvmTest && KtJvmBinary != KtJvmTest
  {
    assert KtJvmLibrary[7] != KtJvmBinary[7];
    assert KtJvmLibrary[7] != KtJvmTest[7];
    assert KtJvmBinary[7] != KtJvmTest[7];
  }

  /** The canonical name of the rules_kotlin repository for WORKSPACE-based projects. */
  const RulesKotlinWorkspaceBasedRepositoryName: string := "io_bazel_rules_kotlin"
  /** The name of the rules_kotlin bzlmod module. */
  const RulesKotlinModuleName: string := "rules_kotlin"

  /** rule.KindInfo; each `map[string]bool` of the original holds only `true`, so it is a set. */
  datatype KindInfo = KindInfo(
    matchAny: bool,
    nonEmptyAttrs: set<string>,
    substituteAttrs: set<string>,
    mergeableAttrs: set<string>,
    resolveAttrs: set<string>)

  /** rule.LoadInfo: a .bzl file and the symbols loaded from it. */
  datatype LoadInfo = LoadInfo(name: string, symbols: seq<string>)

  /** kotlinKinds, as returned by Kinds. */
  function Kinds(): (r: map<string, KindInfo>)
    ensures r.Keys == {KtJvmLibrary, KtJvmBinary}
    ensures r[KtJvmLibrary] == KindInfo(false, {"srcs"}, {}, {"srcs"}, {"deps"})
    ensures r[KtJvmBinary] == KindInfo(false, {"srcs", "main_class"}, {}, {}, {})
  {
    map[
      KtJvmLibrary := KindInfo(false, {"srcs"}, {}, {"srcs"}, {"deps"}),
      KtJvmBinary := KindInfo(false, {"srcs", "main_class"}, {}, {}, {})
    ]
  }

  /**
   * ApparentLoads. `moduleToApparentName` gives the apparent repository name of
   * a module ("" when there is none), or `None` when it panics. The rules_kotlin
   * name is used when non-empty, else the WORKSPACE name.
   */
  function ApparentLoads(moduleToApparentName: string -> Option<string>): (r: Option<seq<LoadInfo>>)
    ensures r.None? <==> moduleToApparentName(RulesKotlinModuleName).None?
    ensures r.Some? ==>
      var given := moduleToApparentName(RulesKotlinModuleName).value;
      var repo := if given == "" then RulesKotlinWorkspaceBasedRepositoryName else given;
      r.value == [LoadInfo("@" + repo + "//kotlin:jvm.bzl", [KtJvmLibrary, KtJvmBinary])]
  {
    match moduleToApparentName(RulesKotlinModuleName)
    case None => None
    case Some(given) =>
      var repo := if given == "" then RulesKotlinWorkspaceBasedRepositoryName else given;
      Some([LoadInfo("@" + repo + "//kotlin:jvm.bzl", [KtJvmLibrary, KtJvmBinary])])
  }

  /** ApparentLoads asks only for rules_kotlin: callbacks that agree on it give the same loads. */
  lemma ApparentLoadsAsksOnlyRulesKotlin(f: string -> Option<string>, g: string -> Option<string>)
    requires f(RulesKotlinModuleName) == g(RulesKotlinModuleName)
    ensures ApparentLoads(f) == ApparentLoads(g)
  {
  }

  /** The module-name switch of Loads: rules_kotlin has its WORKSPACE name, any other module panics. */
  function WorkspaceRepositoryName(moduleName: string): (r: Option<string>)
    ensures r.Some? <==> moduleName == RulesKotlinModuleName
    ensures r.Some? ==> r.value == RulesKotlinWorkspaceBasedRepositoryName
  {
    if moduleName == RulesKotlinModuleName then Some(RulesKotlinWorkspaceBasedRepositoryName) else None
  }

  /** Loads: ApparentLoads with the WORKSPACE switch; it never reaches the panicking branch. */
  function Loads(): (r: Option<seq<LoadInfo>>)
    ensures r == Some([LoadInfo("@" + RulesKotlinWorkspaceBasedRepositoryName + "//kotlin:jvm.bzl", [KtJvmLibrary, KtJvmBinary])])
  {
    ApparentLoads(WorkspaceRepositoryName)
  }
}
