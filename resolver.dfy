/**
 * Dependency resolution: how one import identifier becomes a label, how the
 * imports of a target become its `deps`, and which import specs a library
 * provided to the rule index.
 *
 * Gazelle's override directives, its rule index, the Maven resolver and the
 * Java standard-library test are collaborators; they are the fields of `Env`.
 */
module Resolver {
  import opened Wrappers
  import opened Text
  import opened Sorting
  import opened Iteration
  import opened Parser
  import opened ImportDecls = Imports
  import opened Language
  import opened Kotlin
  import opened BuildRules

  /** A rule-index hit: a label that provided the import, and whether it is a self-import of `from`. */
  datatype Match = Match(targetLabel: Label, isSelf: bool)

  /**
   * The collaborators: the `gazelle:resolve` overrides, the rule index (its
   * hits for a spec, seen from a label), the Java standard-library test, and
   * the Maven resolver if one is configured (it sees the package name and
   * the label whose package's configuration it reads).
   */
  datatype Env = Env(
    override: ImportSpec -> Option<Label>,
    findRules: (ImportSpec, Label) -> seq<Match>,
    isStdlib: string -> bool,
    maven: Option<(string, Label) -> Result<Label, string>>)

  /** The ambiguity error: the identifier, the import context and every index hit. */
  datatype Ambiguity = Ambiguity(identifier: string, context: string, matches: seq<Match>)

  /**
   * The outcome of resolving one identifier. The constants Resolution_Error,
   * _None, _NotFound, _Label and _NativeKotlin become the constructors;
   * only `Failed` carries an error and only `Resolved` carries a label.
   */
  datatype Resolution =
    | Failed(error: Ambiguity)
    | NoDependency
    | NotFound
    | Resolved(dep: Label)
    | NativeKotlin

  // ---------------------------------------------------------------------------
  // targetListFromResults and the error message

  /** The labels of the hits, in order. */
  function MatchLabels(ms: seq<Match>): (r: seq<Label>)
    ensures |r| == |ms|
    ensures forall i :: 0 <= i < |ms| ==> r[i] == ms[i].targetLabel
  {
    if |ms| == 0 then [] else MatchLabels(ms[..|ms| - 1]) + [ms[|ms| - 1].targetLabel]
  }

  /** targetListFromResults: the labels of all hits, in order, separated by ", ". */
  method TargetListFromResults(results: seq<Match>) returns (r: string)
    ensures r == Join(MatchLabels(results), ", ")
  {
    var list: seq<Label> := [];
    var i := 0;
    while i < |results|
      invariant 0 <= i <= |results|
      invariant list == MatchLabels(results[..i])
    {
      assert results[..i + 1][..i] == results[..i];
      list := list + [results[i].targetLabel];
      i := i + 1;
    }
    assert results[..i] == results;
    r := Join(list, ", ");
  }

  /** The text of the ambiguity error. */
  function Message(e: Ambiguity): string {
    "Importing identifier " + Quote(e.identifier) + " (from " + e.context
      + ") resolved to multiple targets (" + Join(MatchLabels(e.matches), ", ")
      + ") - this must be fixed using the \"gazelle:resolve\" directive"
  }

  // ---------------------------------------------------------------------------
  // resolveImport

  predicate NotSelf(m: Match) {
    !m.isSelf
  }

  /** filteredMatches: the labels of the hits that are not self-imports, in order. */
  function FilteredMatches(ms: seq<Match>): seq<Label> {
    MatchLabels(Kept(ms, NotSelf))
  }

  /** A label survives the filter exactly when some hit that is not a self-import carries it. */
  lemma FilteredMatchesSpec(ms: seq<Match>)
    ensures forall l :: l in FilteredMatches(ms) <==> exists i :: 0 <= i < |ms| && !ms[i].isSelf && ms[i].targetLabel == l
  {
    var kept := Kept(ms, NotSelf);
    KeptIsFilter(ms, NotSelf);
    forall l ensures l in FilteredMatches(ms) <==> exists i :: 0 <= i < |ms| && !ms[i].isSelf && ms[i].targetLabel == l {
      if l in FilteredMatches(ms) {
        var j :| 0 <= j < |kept| && FilteredMatches(ms)[j] == l;
        assert kept[j] in kept;
        assert multiset(ms)[kept[j]] > 0;
        var i :| 0 <= i < |ms| && ms[i] == kept[j];
        assert !ms[i].isSelf && ms[i].targetLabel == l;
      }
      if exists i :: 0 <= i < |ms| && !ms[i].isSelf && ms[i].targetLabel == l {
        var i :| 0 <= i < |ms| && !ms[i].isSelf && ms[i].targetLabel == l;
        assert ms[i] in ms;
        assert multiset(kept)[ms[i]] > 0;
        var j :| 0 <= j < |kept| && kept[j] == ms[i];
        assert FilteredMatches(ms)[j] == l;
      }
    }
  }

  /** Step 1: an override directive answers with its label. */
  function OverrideStep(env: Env, id: Identifier): (r: Option<Resolution>)
    ensures r.Some? <==> env.override(ImportSpecForIdentifier(id)).Some?
    ensures r.Some? ==> r.value == Resolved(env.override(ImportSpecForIdentifier(id)).value)
  {
    match env.override(ImportSpecForIdentifier(id))
    case Some(l) => Some(Resolved(l))
    case None => None
  }

  /**
   * Step 2: when the index has hits, self-imports are dropped; more than one
   * left is ambiguous, none left needs no dependency, one left is the answer.
   */
  function IndexStep(env: Env, id: Identifier, from: Label, ctx: string): (r: Option<Resolution>)
    ensures r.Some? <==> |env.findRules(ImportSpecForIdentifier(id), from)| > 0
    ensures var ms := env.findRules(ImportSpecForIdentifier(id), from);
      r.Some? ==>
        && (r.value.Failed? <==> |FilteredMatches(ms)| > 1)
        && (r.value.Failed? ==> r.value.error == Ambiguity(LiteralOf(id), ctx, ms))
        && (r.value == NoDependency <==> |FilteredMatches(ms)| == 0)
        && (|FilteredMatches(ms)| == 1 ==> r.value == Resolved(FilteredMatches(ms)[0]))
  {
    var ms := env.findRules(ImportSpecForIdentifier(id), from);
    if |ms| == 0 then None
    else
      var kept := FilteredMatches(ms);
      if |kept| > 1 then Some(Failed(Ambiguity(LiteralOf(id), ctx, ms)))
      else if |kept| == 0 then Some(NoDependency)
      else Some(Resolved(kept[0]))
  }

  /** Step 3: Kotlin and Java standard-library imports need no dependency. */
  function NativeStep(env: Env, id: Identifier): (r: Option<Resolution>)
    ensures r.Some? <==> IsNativeImport(env.isStdlib, LiteralOf(id))
    ensures r.Some? ==> r.value == NativeKotlin
  {
    if IsNativeImport(env.isStdlib, LiteralOf(id)) then Some(NativeKotlin) else None
  }

  /** Step 4: a Maven hit answers; a Maven error answers nothing. */
  function MavenStep(env: Env, id: Identifier, from: Label): (r: Option<Resolution>)
    ensures r.Some? <==> env.maven.Some? && env.maven.value(LiteralOf(id), from).Ok?
    ensures r.Some? ==> r.value == Resolved(env.maven.value(LiteralOf(id), from).value)
  {
    match env.maven
    case None => None
    case Some(m) =>
      match m(LiteralOf(id), from)
      case Ok(l) => Some(Resolved(l))
      case Err(_) => None
  }

  /** Steps 1 to 4 on one identifier, the first that answers; none of them answers NotFound. */
  function Step(env: Env, id: Identifier, from: Label, ctx: string): (r: Option<Resolution>)
    ensures r.Some? ==> !r.value.NotFound?
    ensures r.None? <==>
      OverrideStep(env, id).None? && IndexStep(env, id, from, ctx).None?
      && NativeStep(env, id).None? && MavenStep(env, id, from).None?
  {
    if OverrideStep(env, id).Some? then OverrideStep(env, id)
    else if IndexStep(env, id, from, ctx).Some? then IndexStep(env, id, from, ctx)
    else if NativeStep(env, id).Some? then NativeStep(env, id)
    else MavenStep(env, id, from)
  }

  /**
   * resolveImport as a function: the first step that answers, else the
   * same on the parent identifier, else NotFound. It terminates because the
   * parent has one component fewer.
   */
  function ResolveImportSpec(env: Env, id: Identifier, from: Label, ctx: string): Resolution
    decreases |id.parts|
  {
    match Step(env, id, from, ctx)
    case Some(r) => r
    case None =>
      match Parent(id)
      case None => NotFound
      case Some(p) => ResolveImportSpec(env, p, from, ctx)
  }

  /** resolveImport: the priority chain, the filtering loop and the walk to the parent. */
  method ResolveImport(env: Env, id: Identifier, from: Label, ctx: string) returns (r: Resolution)
    ensures r == ResolveImportSpec(env, id, from, ctx)
    decreases |id.parts|
  {
    var spec := ImportSpecForIdentifier(id);
    var ov := env.override(spec);
    if ov.Some? {
      return Resolved(ov.value);
    }
    var matches := env.findRules(spec, from);
    if |matches| > 0 {
      var filtered: seq<Label> := [];
      var i := 0;
      while i < |matches|
        invariant 0 <= i <= |matches|
        invariant filtered == MatchLabels(Kept(matches[..i], NotSelf))
      {
        assert matches[..i + 1][..i] == matches[..i];
        if !matches[i].isSelf {
          filtered := filtered + [matches[i].targetLabel];
        }
        i := i + 1;
      }
      assert matches[..i] == matches;
      if |filtered| > 1 {
        var lit := Literal(id);
        return Failed(Ambiguity(lit, ctx, matches));
      }
      if |filtered| == 0 {
        return NoDependency;
      }
      return Resolved(filtered[0]);
    }
    var lit := Literal(id);
    if IsNativeImport(env.isStdlib, lit) {
      return NativeKotlin;
    }
    if env.maven.Some? {
      var found := env.maven.value(lit, from);
      if found.Ok? {
        return Resolved(found.value);
      }
    }
    var parent := Parent(id);
    if parent.None? {
      return NotFound;
    }
    r := ResolveImport(env, parent.value, from, ctx);
  }

  /** The first `k` components of `id`. */
  function Prefix(id: Identifier, k: nat): (p: Identifier)
    requires k <= |id.parts|
    ensures |p.parts| == k
  {
    Identifier(id.parts[..k])
  }

  /** The shortest prefix the walk reaches: one component, or none for an empty identifier. */
  function Lowest(id: Identifier): nat {
    if |id.parts| == 0 then 0 else 1
  }

  /** No prefix the walk visits gets an answer from steps 1 to 4. */
  ghost predicate AllStepsMiss(env: Env, id: Identifier, from: Label, ctx: string) {
    forall k :: Lowest(id) <= k <= |id.parts| ==> Step(env, Prefix(id, k), from, ctx).None?
  }

  /** The parent's prefixes are the identifier's own shorter prefixes. */
  lemma PrefixOfParent(id: Identifier, k: nat)
    requires Parent(id).Some? && k <= |id.parts| - 1
    ensures Prefix(Parent(id).value, k) == Prefix(id, k)
  {
    assert id.parts[..|id.parts| - 1][..k] == id.parts[..k];
  }

  lemma PrefixWhole(id: Identifier)
    ensures Prefix(id, |id.parts|) == id
  {
    assert id.parts[..|id.parts|] == id.parts;
  }

  /** Resolution ends in NotFound exactly when every prefix, longest first, gets no answer. */
  lemma {:induction false} NotFoundIffAllStepsMiss(env: Env, id: Identifier, from: Label, ctx: string)
    ensures ResolveImportSpec(env, id, from, ctx) == NotFound <==> AllStepsMiss(env, id, from, ctx)
    decreases |id.parts|
  {
    PrefixWhole(id);
    match Parent(id)
    case None =>
    case Some(p) =>
      NotFoundIffAllStepsMiss(env, p, from, ctx);
      forall k | 1 <= k <= |p.parts| ensures Prefix(p, k) == Prefix(id, k) {
        PrefixOfParent(id, k);
      }
  }

  /**
   * The answer is the one of the longest prefix that gets an answer: if
   * prefix `k` answers and every longer one misses, that is the result.
   */
  lemma {:induction false} LongestAnsweringPrefixDecides(env: Env, id: Identifier, from: Label, ctx: string, k: nat)
    requires Lowest(id) <= k <= |id.parts|
    requires Step(env, Prefix(id, k), from, ctx).Some?
    requires forall j :: k < j <= |id.parts| ==> Step(env, Prefix(id, j), from, ctx).None?
    ensures ResolveImportSpec(env, id, from, ctx) == Step(env, Prefix(id, k), from, ctx).value
    decreases |id.parts|
  {
    PrefixWhole(id);
    if k < |id.parts| {
      var p := Parent(id).value;
      forall j | k <= j <= |p.parts| ensures Prefix(p, j) == Prefix(id, j) {
        PrefixOfParent(id, j);
      }
      LongestAnsweringPrefixDecides(env, p, from, ctx, k);
    }
  }

  /** Once a prefix answers, nothing shorter is consulted and the walk stops there. */
  lemma {:induction false} AnswerStopsWalk(env: Env, id: Identifier, from: Label, ctx: string)
    requires Step(env, id, from, ctx).Some?
    ensures ResolveImportSpec(env, id, from, ctx) == Step(env, id, from, ctx).value
    ensures !ResolveImportSpec(env, id, from, ctx).NotFound?
  {
  }

  /** The priority order of steps 1 to 4 on one identifier. */
  lemma PriorityOrder(env: Env, id: Identifier, from: Label, ctx: string)
    ensures env.override(ImportSpecForIdentifier(id)).Some? ==>
      ResolveImportSpec(env, id, from, ctx) == Resolved(env.override(ImportSpecForIdentifier(id)).value)
    ensures env.override(ImportSpecForIdentifier(id)).None? && |env.findRules(ImportSpecForIdentifier(id), from)| > 0 ==>
      ResolveImportSpec(env, id, from, ctx) == IndexStep(env, id, from, ctx).value
    ensures ResolveImportSpec(env, id, from, ctx) == NativeKotlin ==>
      exists k :: (Lowest(id) <= k <= |id.parts| && NativeStep(env, Prefix(id, k)).Some?
        && OverrideStep(env, Prefix(id, k)).None? && IndexStep(env, Prefix(id, k), from, ctx).None?)
  {
    if ResolveImportSpec(env, id, from, ctx) == NativeKotlin {
      NativeReachedOnlyAfterIndex(env, id, from, ctx);
    }
  }

  lemma {:induction false} NativeReachedOnlyAfterIndex(env: Env, id: Identifier, from: Label, ctx: string)
    requires ResolveImportSpec(env, id, from, ctx) == NativeKotlin
    ensures exists k :: (Lowest(id) <= k <= |id.parts| && NativeStep(env, Prefix(id, k)).Some?
      && OverrideStep(env, Prefix(id, k)).None? && IndexStep(env, Prefix(id, k), from, ctx).None?)
    decreases |id.parts|
  {
    PrefixWhole(id);
    if Step(env, id, from, ctx).None? {
      var p := Parent(id).value;
      NativeReachedOnlyAfterIndex(env, p, from, ctx);
      var k :| Lowest(p) <= k <= |p.parts| && NativeStep(env, Prefix(p, k)).Some?
        && OverrideStep(env, Prefix(p, k)).None? && IndexStep(env, Prefix(p, k), from, ctx).None?;
      PrefixOfParent(id, k);
    } else {
      var n := |id.parts|;
      assert NativeStep(env, Prefix(id, n)).Some? && OverrideStep(env, Prefix(id, n)).None?
        && IndexStep(env, Prefix(id, n), from, ctx).None?;
    }
  }

  /**
   * What the index step answers, in terms of the hits themselves: two hits
   * that are not self-imports are ambiguous, and the error lists every hit,
   * self-imports included; only self-imports means no dependency; a single
   * hit that is not a self-import is the answer; a label found is always
   * one that is not a self-import.
   */
  lemma IndexOutcome(env: Env, id: Identifier, from: Label, ctx: string)
    requires |env.findRules(ImportSpecForIdentifier(id), from)| > 0
    ensures var ms := env.findRules(ImportSpecForIdentifier(id), from);
      var r := IndexStep(env, id, from, ctx).value;
      && (r.Failed? <==> exists i, j :: 0 <= i < j < |ms| && !ms[i].isSelf && !ms[j].isSelf)
      && (r.Failed? ==> r.error.matches == ms && r.error.identifier == LiteralOf(id) && r.error.context == ctx)
      && (r == NoDependency <==> forall i :: 0 <= i < |ms| ==> ms[i].isSelf)
      && (forall k :: 0 <= k < |ms| && !ms[k].isSelf && (forall j :: 0 <= j < |ms| && j != k ==> ms[j].isSelf)
            ==> r == Resolved(ms[k].targetLabel))
      && (r.Resolved? ==> exists i :: 0 <= i < |ms| && !ms[i].isSelf && ms[i].targetLabel == r.dep)
      && !r.NotFound? && !r.NativeKotlin?
  {
    var ms := env.findRules(ImportSpecForIdentifier(id), from);
    FilteredMatchesSpec(ms);
    KeptEmptyIff(ms, NotSelf);
    KeptTwoIff(ms, NotSelf);
    var kept := FilteredMatches(ms);
    if |kept| == 1 {
      assert kept[0] in kept;
    }
    forall k | 0 <= k < |ms| && !ms[k].isSelf && (forall j :: 0 <= j < |ms| && j != k ==> ms[j].isSelf)
      ensures IndexStep(env, id, from, ctx).value == Resolved(ms[k].targetLabel)
    {
      KeptSingle(ms, NotSelf, k);
    }
  }

  /** Nothing is kept exactly when no element passes. */
  lemma {:induction false} KeptEmptyIff<T>(s: seq<T>, f: T -> bool)
    ensures |Kept(s, f)| == 0 <==> forall i :: 0 <= i < |s| ==> !f(s[i])
    decreases |s|
  {
    if |s| > 0 {
      var init := s[..|s| - 1];
      KeptEmptyIff(init, f);
      assert forall i :: 0 <= i < |init| ==> init[i] == s[i];
    }
  }

  /** At least two elements are kept exactly when two positions pass. */
  lemma {:induction false} KeptTwoIff<T>(s: seq<T>, f: T -> bool)
    ensures |Kept(s, f)| >= 2 <==> exists i, j :: 0 <= i < j < |s| && f(s[i]) && f(s[j])
    decreases |s|
  {
    if |s| > 0 {
      var n := |s| - 1;
      var init := s[..n];
      KeptTwoIff(init, f);
      KeptEmptyIff(init, f);
      if |Kept(s, f)| >= 2 {
        if f(s[n]) {
          var i :| 0 <= i < n && f(init[i]);
          assert f(s[i]) && f(s[n]);
        } else {
          var i, j :| 0 <= i < j < n && f(init[i]) && f(init[j]);
          assert f(s[i]) && f(s[j]);
        }
      }
      if exists i, j :: 0 <= i < j < |s| && f(s[i]) && f(s[j]) {
        var i, j :| 0 <= i < j < |s| && f(s[i]) && f(s[j]);
        assert init[i] == s[i];
        if j < n {
          assert init[j] == s[j];
        }
      }
    }
  }

  /** When only position `k` passes, exactly its element is kept. */
  lemma {:induction false} KeptSingle<T>(s: seq<T>, f: T -> bool, k: nat)
    requires k < |s| && f(s[k])
    requires forall j :: 0 <= j < |s| && j != k ==> !f(s[j])
    ensures Kept(s, f) == [s[k]]
    decreases |s|
  {
    var n := |s| - 1;
    var init := s[..n];
    assert forall i :: 0 <= i < n ==> init[i] == s[i];
    if k == n {
      KeptEmptyIff(init, f);
    } else {
      KeptSingle(init, f, k);
    }
  }

  /** A Maven error falls through: with no earlier answer the result is that of the walk up. */
  lemma MavenErrorFallsThrough(env: Env, id: Identifier, from: Label, ctx: string)
    requires OverrideStep(env, id).None? && IndexStep(env, id, from, ctx).None? && NativeStep(env, id).None?
    requires env.maven.Some? && env.maven.value(LiteralOf(id), from).Err?
    ensures Parent(id).None? ==> ResolveImportSpec(env, id, from, ctx) == NotFound
    ensures Parent(id).Some? ==> ResolveImportSpec(env, id, from, ctx) == ResolveImportSpec(env, Parent(id).value, from, ctx)
  {
  }

  // ---------------------------------------------------------------------------
  // resolveImports

  /** The import context of an import statement, as used in the ambiguity error. */
  function ImportContext(impt: ImportStatement): string {
    "the " + Quote(HeaderString(impt.importHeader)) + " import statement in " + Quote(impt.sourcePath)
  }

  /** The resolution of one import statement, with its context. */
  function ResolveOne(env: Env, impt: ImportStatement, from: Label): Resolution {
    ResolveImportSpec(env, impt.importHeader.identifier, from, ImportContext(impt))
  }

  /**
   * resolveImports as a function of the order the imports are visited in:
   * the first ambiguity aborts; a label is added unless it is `from`;
   * NotFound, NativeKotlin and NoDependency add nothing.
   */
  function ResolveAll(env: Env, imps: seq<ImportStatement>, from: Label): Result<set<Label>, Ambiguity>
    decreases |imps|
  {
    if |imps| == 0 then Ok({})
    else
      match ResolveAll(env, imps[..|imps| - 1], from)
      case Err(e) => Err(e)
      case Ok(deps) =>
        match ResolveOne(env, imps[|imps| - 1], from)
        case Failed(e) => Err(e)
        case Resolved(l) => Ok(if l == from then deps else deps + {l})
        case _ => Ok(deps)
  }

  /** resolveImports: the loop with its early return and its `continue`s. */
  method ResolveImports(env: Env, imports: seq<ImportStatement>, from: Label) returns (r: Result<set<Label>, Ambiguity>)
    ensures r == ResolveAll(env, imports, from)
  {
    var deps: set<Label> := {};
    var i := 0;
    while i < |imports|
      invariant 0 <= i <= |imports|
      invariant ResolveAll(env, imports[..i], from) == Ok(deps)
    {
      assert imports[..i + 1][..i] == imports[..i];
      var impt := imports[i];
      var res := ResolveImport(env, impt.importHeader.identifier, from, ImportContext(impt));
      if res.Failed? {
        assert ResolveAll(env, imports[..i + 1], from) == Err(res.error);
        assert ResolveAll(env, imports, from) == Err(res.error) by {
          ErrSticks(env, imports, from, i + 1);
        }
        return Err(res.error);
      }
      if res.NotFound? || res.NativeKotlin? || res.NoDependency? {
        i := i + 1;
        continue;
      }
      if res.dep != from {
        deps := deps + {res.dep};
      }
      i := i + 1;
    }
    assert imports[..i] == imports;
    r := Ok(deps);
  }

  /** Once a prefix of the imports fails, the whole fails with the same error. */
  lemma {:induction false} ErrSticks(env: Env, imps: seq<ImportStatement>, from: Label, n: nat)
    requires n <= |imps| && ResolveAll(env, imps[..n], from).Err?
    ensures ResolveAll(env, imps, from) == ResolveAll(env, imps[..n], from)
    decreases |imps| - n
  {
    if n == |imps| {
      assert imps[..n] == imps;
    } else {
      assert imps[..n + 1][..n] == imps[..n];
      ErrSticks(env, imps, from, n + 1);
    }
  }

  /** The labels the imports resolve to, without `from`. */
  ghost function DepsOf(env: Env, imps: set<ImportStatement>, from: Label): set<Label> {
    set x | x in imps && ResolveOne(env, x, from).Resolved? && ResolveOne(env, x, from).dep != from
      :: ResolveOne(env, x, from).dep
  }

  /** No import resolves to an ambiguity. */
  ghost predicate NoneFails(env: Env, imps: set<ImportStatement>, from: Label) {
    forall x :: x in imps ==> !ResolveOne(env, x, from).Failed?
  }

  ghost function Elements<T>(s: seq<T>): set<T> {
    set x | x in s
  }

  /** resolveImports succeeds exactly when no import is ambiguous. */
  lemma {:induction false} ResolveAllOk(env: Env, imps: seq<ImportStatement>, from: Label)
    ensures ResolveAll(env, imps, from).Ok? <==> NoneFails(env, Elements(imps), from)
    decreases |imps|
  {
    if |imps| > 0 {
      var init := imps[..|imps| - 1];
      var last := imps[|imps| - 1];
      assert imps == init + [last];
      assert Elements(imps) == Elements(init) + {last};
      ResolveAllOk(env, init, from);
      if ResolveAll(env, init, from).Err? {
        var x :| x in Elements(init) && ResolveOne(env, x, from).Failed?;
        assert x in Elements(imps);
      }
    }
  }

  /** When resolveImports succeeds, its set is the labels of the resolved imports other than `from`. */
  lemma {:induction false} ResolveAllDeps(env: Env, imps: seq<ImportStatement>, from: Label)
    requires ResolveAll(env, imps, from).Ok?
    ensures ResolveAll(env, imps, from).value == DepsOf(env, Elements(imps), from)
    decreases |imps|
  {
    if |imps| > 0 {
      var init := imps[..|imps| - 1];
      var last := imps[|imps| - 1];
      assert imps == init + [last];
      assert Elements(imps) == Elements(init) + {last};
      ResolveAllDeps(env, init, from);
      DepsOfAdd(env, Elements(init), last, from);
    }
  }

  /** One more import adds its label, if it resolves to one other than `from`. */
  lemma DepsOfAdd(env: Env, imps: set<ImportStatement>, x: ImportStatement, from: Label)
    ensures DepsOf(env, imps + {x}, from)
      == DepsOf(env, imps, from) + (if ResolveOne(env, x, from).Resolved? && ResolveOne(env, x, from).dep != from
                                    then {ResolveOne(env, x, from).dep} else {})
  {
  }

  /**
   * resolveImports succeeds exactly when no import is ambiguous, and then
   * its set is the labels of the resolved imports other than `from`.
   */
  lemma ResolveAllMeaning(env: Env, imps: seq<ImportStatement>, from: Label)
    ensures ResolveAll(env, imps, from).Ok? <==> NoneFails(env, Elements(imps), from)
    ensures ResolveAll(env, imps, from).Ok? ==> ResolveAll(env, imps, from).value == DepsOf(env, Elements(imps), from)
    ensures ResolveAll(env, imps, from).Ok? ==> from !in ResolveAll(env, imps, from).value
  {
    ResolveAllOk(env, imps, from);
    if ResolveAll(env, imps, from).Ok? {
      ResolveAllDeps(env, imps, from);
    }
  }

  /** Import `i` is the first ambiguous one, and its error is `e`. */
  ghost predicate FirstFailureAt(env: Env, imps: seq<ImportStatement>, from: Label, i: int, e: Ambiguity) {
    && 0 <= i < |imps|
    && ResolveOne(env, imps[i], from) == Failed(e)
    && forall j :: 0 <= j < i ==> !ResolveOne(env, imps[j], from).Failed?
  }

  /** The first ambiguity in visiting order is the error reported. */
  lemma {:induction false} ResolveAllFirstError(env: Env, imps: seq<ImportStatement>, from: Label)
    requires ResolveAll(env, imps, from).Err?
    ensures exists i :: FirstFailureAt(env, imps, from, i, ResolveAll(env, imps, from).error)
    decreases |imps|
  {
    var n := |imps| - 1;
    var init := imps[..n];
    var e := ResolveAll(env, imps, from).error;
    if ResolveAll(env, init, from).Err? {
      assert ResolveAll(env, init, from).error == e;
      ResolveAllFirstError(env, init, from);
      var i :| FirstFailureAt(env, init, from, i, e);
      assert FirstFailureAt(env, imps, from, i, e) by {
        forall j | 0 <= j <= i ensures imps[j] == init[j] {
        }
      }
    } else {
      assert ResolveOne(env, imps[n], from) == Failed(e);
      ResolveAllMeaning(env, init, from);
      forall j | 0 <= j < n ensures !ResolveOne(env, imps[j], from).Failed? {
        assert imps[j] == init[j] && init[j] in Elements(init);
      }
      assert FirstFailureAt(env, imps, from, n, e);
    }
  }

  /** Whether resolution succeeds, and the set it yields, do not depend on the visiting order. */
  lemma ResolveAllOrderIndependent(env: Env, a: seq<ImportStatement>, b: seq<ImportStatement>, from: Label)
    requires Elements(a) == Elements(b)
    ensures ResolveAll(env, a, from).Ok? <==> ResolveAll(env, b, from).Ok?
    ensures ResolveAll(env, a, from).Ok? ==> ResolveAll(env, a, from) == ResolveAll(env, b, from)
  {
    ResolveAllMeaning(env, a, from);
    ResolveAllMeaning(env, b, from);
  }

  // ---------------------------------------------------------------------------
  // Resolve

  function Identity(s: string): string {
    s
  }

  /** `l` lists the labels of `s`, each once, in ascending order. */
  ghost predicate ListsInOrder(l: seq<Label>, s: set<Label>) {
    (forall x :: x in l <==> x in s) && StrictlySortedBy(l, Identity)
  }

  /** LabelSet.Labels: the labels of the set in ascending order. */
  method SortedLabels(s: set<Label>) returns (l: seq<Label>)
    ensures ListsInOrder(l, s)
  {
    var items := SetToSeq(s);
    l := SortBy(items, Identity);
    assert forall x :: x in l <==> x in multiset(items);
    SortByStrict(items, Identity);
  }

  /** The import context of a test's implicit dependency on the library of its package. */
  function TestContext(lit: string): string {
    "implicit test dependency on library that provides the Kotlin/Java package " + Quote(lit)
  }

  /** The embedded KotlinTarget of the import data of a rule of this kind; None where the type assertion panics. */
  function TargetFor(kind: string, data: Option<TargetRef>): (t: Option<KotlinTarget>)
    ensures kind == KtJvmLibrary ==> (t.Some? <==> data.Some? && data.value.LibRef?)
    ensures kind == KtJvmBinary ==> (t.Some? <==> data.Some? && data.value.BinRef?)
    ensures kind != KtJvmLibrary && kind != KtJvmBinary ==> (t.Some? <==> data.Some? && data.value.TestRef?)
  {
    if kind == KtJvmLibrary then
      (if data.Some? && data.value.LibRef? then Some(data.value.lib.target) else None)
    else if kind == KtJvmBinary then
      (if data.Some? && data.value.BinRef? then Some(data.value.bin.target) else None)
    else
      (if data.Some? && data.value.TestRef? then Some(data.value.test.target) else None)
  }

  /**
   * The extra dependency of a test on the library of its package: an error
   * for a nil package (a panic) or an ambiguous one (fatal), else the label
   * when the package resolved to one.
   */
  function TestExtraDep(env: Env, t: KotlinTestTarget, from: Label): Result<Option<Label>, string> {
    match t.pkg
    case None => Err("invalid memory address or nil pointer dereference")
    case Some(pkg) =>
      match ResolveImportSpec(env, pkg, from, TestContext(LiteralOf(pkg)))
      case Failed(e) => Err("error resolving library dependency of test: " + Message(e))
      case Resolved(l) => Ok(Some(l))
      case _ => Ok(None)
  }

  /** The extra dependencies of a rule: only a test has one, the library of its package. */
  function ExtraDeps(env: Env, kind: string, data: Option<TargetRef>, from: Label): Result<seq<Label>, string> {
    if kind == KtJvmTest && data.Some? && data.value.TestRef? then
      match TestExtraDep(env, data.value.test, from)
      case Err(e) => Err(e)
      case Ok(l) => Ok(if l.Some? then [l.value] else [])
    else Ok([])
  }

  ghost predicate KotlinKind(kind: string) {
    kind == KtJvmLibrary || kind == KtJvmBinary || kind == KtJvmTest
  }

  /** The dependency set: what the imports resolve to, and the extra labels, never `from`. */
  ghost function DepsWith(env: Env, imports: set<ImportStatement>, extra: seq<Label>, from: Label): set<Label> {
    DepsOf(env, imports, from) + (set x | x in extra && x != from)
  }

  /** The attributes after assigning `deps`: unchanged for no dependency, else `deps` lists them in order. */
  ghost predicate DepsAssigned(attrs: map<string, AttrValue>, before: map<string, AttrValue>, deps: set<Label>) {
    if deps == {} then attrs == before
    else
      && "deps" in attrs && attrs["deps"].Labels?
      && ListsInOrder(attrs["deps"].labels, deps)
      && attrs == before["deps" := attrs["deps"]]
  }

  /** The shared tail of Resolve: resolve the imports, add the extra labels, set `deps` if non-empty. */
  method AssignDeps(env: Env, r: Rule, target: KotlinTarget, extraDeps: seq<Label>, from: Label)
    returns (res: Result<(), string>)
    modifies r
    ensures r.privateAttrs == old(r.privateAttrs)
    ensures res.Ok? <==> NoneFails(env, target.imports.Values, from)
    ensures res.Err? ==> r.attrs == old(r.attrs)
    ensures res.Ok? ==> DepsAssigned(r.attrs, old(r.attrs), DepsWith(env, target.imports.Values, extraDeps, from))
  {
    var imports := MapValues(target.imports);
    assert Elements(imports) == target.imports.Values;
    ResolveAllMeaning(env, imports, from);
    var resolved := ResolveImports(env, imports, from);
    if resolved.Err? {
      return Err("Resolution Error: " + Message(resolved.error));
    }
    var deps := AddExtraDeps(resolved.value, extraDeps, from);
    if deps != {} {
      var labels := SortedLabels(deps);
      r.SetAttr("deps", Labels(labels));
    }
    return Ok(());
  }

  /** The loop adding the extra labels to the resolved ones, skipping `from`. */
  method AddExtraDeps(deps: set<Label>, extra: seq<Label>, from: Label) returns (r: set<Label>)
    ensures r == deps + (set x | x in extra && x != from)
  {
    r := deps;
    var i := 0;
    while i < |extra|
      invariant 0 <= i <= |extra|
      invariant r == deps + (set x | x in extra[..i] && x != from)
    {
      assert extra[..i + 1] == extra[..i] + [extra[i]];
      if extra[i] != from {
        r := r + {extra[i]};
      }
      i := i + 1;
    }
    assert extra[..i] == extra;
  }

  /**
   * Resolve, for the Kotlin rule kinds. It fails when the import data has
   * the wrong type, when the test's package is nil or ambiguous, or when
   * any import is ambiguous; otherwise the dependencies are the labels the
   * imports (and a test's package) resolve to, without `from`, and `deps`
   * is set to them in order only when there is at least one. Other kinds
   * are left alone. Whatever order the imports are visited in, the outcome
   * is the same.
   */
  method Resolve(env: Env, r: Rule, importData: Option<TargetRef>, from: Label) returns (res: Result<(), string>)
    modifies r
    ensures r.privateAttrs == old(r.privateAttrs)
    ensures !KotlinKind(r.kind) ==> res.Ok? && r.attrs == old(r.attrs)
    ensures KotlinKind(r.kind) && TargetFor(r.kind, importData).None? ==> res.Err?
    ensures res.Err? ==> r.attrs == old(r.attrs)
    ensures KotlinKind(r.kind) && TargetFor(r.kind, importData).Some? ==>
      var imports := TargetFor(r.kind, importData).value.imports.Values;
      var extra := ExtraDeps(env, r.kind, importData, from);
      && (res.Ok? <==> extra.Ok? && NoneFails(env, imports, from))
      && (res.Ok? ==> DepsAssigned(r.attrs, old(r.attrs), DepsWith(env, imports, extra.value, from)))
  {
    if r.kind != KtJvmLibrary && r.kind != KtJvmBinary && r.kind != KtJvmTest {
      return Ok(());
    }
    var selected := SelectTarget(env, r.kind, importData, from);
    if selected.Err? {
      return Err(selected.error);
    }
    res := AssignDeps(env, r, selected.value.0, selected.value.1, from);
  }

  /**
   * The part of Resolve before the imports: the type assertion on the import
   * data, and for a test the resolution of its package to the library it
   * depends on.
   */
  method SelectTarget(env: Env, kind: string, importData: Option<TargetRef>, from: Label)
    returns (res: Result<(KotlinTarget, seq<Label>), string>)
    requires KotlinKind(kind)
    ensures TargetFor(kind, importData).None? ==> res.Err?
    ensures TargetFor(kind, importData).Some? ==>
      && (res.Ok? <==> ExtraDeps(env, kind, importData, from).Ok?)
      && (res.Ok? ==> res.value == (TargetFor(kind, importData).value, ExtraDeps(env, kind, importData, from).value))
  {
    KindsDiffer();
    if kind == KtJvmLibrary {
      if importData.None? || !importData.value.LibRef? {
        return Err("interface conversion: importData is not *KotlinLibTarget");
      }
      return Ok((importData.value.lib.target, []));
    } else if kind == KtJvmBinary {
      if importData.None? || !importData.value.BinRef? {
        return Err("interface conversion: importData is not *KotlinBinTarget");
      }
      return Ok((importData.value.bin.target, []));
    }
    if importData.None? || !importData.value.TestRef? {
      return Err("interface conversion: importData is not *KotlinTestTarget");
    }
    var extraDeps := TestDeps(env, importData.value.test, from);
    if extraDeps.Err? {
      return Err(extraDeps.error);
    }
    return Ok((importData.value.test.target, extraDeps.value));
  }

  /** The test branch of Resolve: the package of the test must be set and resolve without ambiguity. */
  method TestDeps(env: Env, t: KotlinTestTarget, from: Label) returns (res: Result<seq<Label>, string>)
    ensures res == ExtraDeps(env, KtJvmTest, Some(TestRef(t)), from)
  {
    if t.pkg.None? {
      return Err("invalid memory address or nil pointer dereference");
    }
    var pkg := t.pkg.value;
    var lit := Literal(pkg);
    var resolution := ResolveImport(env, pkg, from, TestContext(lit));
    if resolution.Failed? {
      return Err("error resolving library dependency of test: " + Message(resolution.error));
    }
    return Ok(if resolution.Resolved? then [resolution.dep] else []);
  }

  // ---------------------------------------------------------------------------
  // Imports

  function ImpOf(s: ImportSpec): string {
    s.imp
  }

  /**
   * Imports: nothing unless the `_kotlin_package` private attribute holds a
   * library target; else one spec per package, in ascending order of `imp`.
   */
  method Imports(r: Rule) returns (provided: seq<ImportSpec>)
    ensures !(PackagesKey in r.privateAttrs && r.privateAttrs[PackagesKey].LibRef?) ==> provided == []
    ensures PackagesKey in r.privateAttrs && r.privateAttrs[PackagesKey].LibRef? ==>
      ProvidesPackages(r.privateAttrs[PackagesKey].lib.packages, provided)
  {
    if PackagesKey !in r.privateAttrs {
      return [];
    }
    var data := r.privateAttrs[PackagesKey];
    if !data.LibRef? {
      return [];
    }
    var pkgs := MapValues(data.lib.packages);
    var specs: seq<ImportSpec> := [];
    var i := 0;
    while i < |pkgs|
      invariant 0 <= i <= |pkgs|
      invariant |specs| == i
      invariant forall j :: 0 <= j < i ==> specs[j] == ImportSpecForIdentifier(pkgs[j])
    {
      var lit := Literal(pkgs[i]);
      specs := specs + [ImportSpec(LanguageName, lit)];
      i := i + 1;
    }
    provided := SortBy(specs, ImpOf);
    ProvidedSpecs(data.lib.packages, pkgs, specs);
  }

  /**
   * What a library provides: one spec per package, all in the Kotlin
   * language, each the spec of some package and every package's spec among
   * them, in ascending order of `imp`; when the packages are keyed by their
   * literals, in strictly ascending order and covering exactly the keys.
   */
  ghost predicate ProvidesPackages(m: map<string, Identifier>, provided: seq<ImportSpec>) {
    && |provided| == |m|
    && (forall i :: 0 <= i < |provided| ==> provided[i].lang == LanguageName)
    && (forall s :: s in provided <==> exists p :: p in m.Values && s == ImportSpecForIdentifier(p))
    && SortedBy(provided, ImpOf)
    && (LiteralKeyed(m) ==>
          StrictlySortedBy(provided, ImpOf) && forall s :: s in provided <==> s.lang == LanguageName && s.imp in m)
  }

  lemma ProvidedSpecs(m: map<string, Identifier>, pkgs: seq<Identifier>, specs: seq<ImportSpec>)
    requires |pkgs| == |m| && forall v :: v in pkgs <==> v in m.Values
    requires |specs| == |pkgs| && forall j :: 0 <= j < |pkgs| ==> specs[j] == ImportSpecForIdentifier(pkgs[j])
    ensures ProvidesPackages(m, SortBy(specs, ImpOf))
  {
    var provided := SortBy(specs, ImpOf);
    SortBySorted(specs, ImpOf);
    SpecsOfValues(m, pkgs, specs);
    assert forall s :: s in provided <==> s in specs by {
      assert forall s :: s in provided <==> s in multiset(specs);
    }
    if LiteralKeyed(m) {
      ImportsAreDistinct(m, pkgs, specs);
      SortByStrict(specs, ImpOf);
      SpecsCoverKeys(m, provided);
    }
  }

  /** With packages keyed by literal, the specs of the values are the Kotlin specs of the keys. */
  lemma SpecsCoverKeys(m: map<string, Identifier>, provided: seq<ImportSpec>)
    requires LiteralKeyed(m)
    requires forall s :: s in provided <==> exists p :: p in m.Values && s == ImportSpecForIdentifier(p)
    ensures forall s :: s in provided <==> s.lang == LanguageName && s.imp in m
  {
    forall s | s in provided ensures s.lang == LanguageName && s.imp in m {
      var p :| p in m.Values && s == ImportSpecForIdentifier(p);
      var k :| k in m && m[k] == p;
    }
    forall s: ImportSpec | s.lang == LanguageName && s.imp in m ensures s in provided {
      var p := m[s.imp];
      assert p in m.Values;
      assert s == ImportSpecForIdentifier(p);
    }
  }

  /** The specs of the listed values are exactly the specs of the map's values. */
  lemma SpecsOfValues(m: map<string, Identifier>, pkgs: seq<Identifier>, specs: seq<ImportSpec>)
    requires forall v :: v in pkgs <==> v in m.Values
    requires |specs| == |pkgs| && forall j :: 0 <= j < |pkgs| ==> specs[j] == ImportSpecForIdentifier(pkgs[j])
    ensures forall s :: s in specs <==> exists p :: p in m.Values && s == ImportSpecForIdentifier(p)
  {
    forall s | s in specs ensures exists p :: p in m.Values && s == ImportSpecForIdentifier(p) {
      var j :| 0 <= j < |specs| && specs[j] == s;
      assert pkgs[j] in pkgs;
    }
    forall p | p in m.Values ensures ImportSpecForIdentifier(p) in specs {
      var j :| 0 <= j < |pkgs| && pkgs[j] == p;
      assert specs[j] == ImportSpecForIdentifier(p);
    }
  }

  /** Packages keyed by their literals have distinct literals, so their specs have distinct `imp`s. */
  lemma ImportsAreDistinct(m: map<string, Identifier>, pkgs: seq<Identifier>, specs: seq<ImportSpec>)
    requires LiteralKeyed(m)
    requires |pkgs| == |m| && forall v :: v in pkgs <==> v in m.Values
    requires |specs| == |pkgs| && forall j :: 0 <= j < |pkgs| ==> specs[j] == ImportSpecForIdentifier(pkgs[j])
    ensures DistinctKeys(specs, ImpOf)
  {
    var vals := set j | 0 <= j < |pkgs| :: LiteralOf(pkgs[j]);
    assert m.Keys <= vals by {
      forall k | k in m ensures k in vals {
        assert m[k] in m.Values;
        var j :| 0 <= j < |pkgs| && pkgs[j] == m[k];
        assert LiteralOf(pkgs[j]) == k;
      }
    }
    SubsetCard(m.Keys, vals);
    forall i, j | 0 <= i < j < |specs| ensures ImpOf(specs[i]) != ImpOf(specs[j]) {
      if LiteralOf(pkgs[i]) == LiteralOf(pkgs[j]) {
        Pigeonhole(pkgs, i, j, vals);
        assert false;
      }
    }
  }

  /** A sequence with two equal-literal positions covers fewer literals than its length. */
  lemma Pigeonhole(pkgs: seq<Identifier>, i: nat, j: nat, vals: set<string>)
    requires i < j < |pkgs| && LiteralOf(pkgs[i]) == LiteralOf(pkgs[j])
    requires vals == set k | 0 <= k < |pkgs| :: LiteralOf(pkgs[k])
    ensures |vals| < |pkgs|
  {
    var rest := pkgs[..j] + pkgs[j + 1..];
    var rvals := set k | 0 <= k < |rest| :: LiteralOf(rest[k]);
    assert vals <= rvals by {
      forall v | v in vals ensures v in rvals {
        var k :| 0 <= k < |pkgs| && LiteralOf(pkgs[k]) == v;
        if k < j {
          assert rest[k] == pkgs[k];
        } else if k == j {
          assert rest[i] == pkgs[i];
        } else {
          assert rest[k - 1] == pkgs[k];
        }
      }
    }
    ImageBound(rest, rvals);
    SubsetCard(vals, rvals);
  }

  /** The literals of a sequence are at most as many as its elements. */
  lemma {:induction false} ImageBound(s: seq<Identifier>, vals: set<string>)
    requires vals == set k | 0 <= k < |s| :: LiteralOf(s[k])
    ensures |vals| <= |s|
    decreases |s|
  {
    if |s| > 0 {
      var init := s[..|s| - 1];
      var ivals := set k | 0 <= k < |init| :: LiteralOf(init[k]);
      assert vals <= ivals + {LiteralOf(s[|s| - 1])} by {
        forall v | v in vals ensures v in ivals + {LiteralOf(s[|s| - 1])} {
          var k :| 0 <= k < |s| && LiteralOf(s[k]) == v;
          if k < |s| - 1 {
            assert init[k] == s[k];
          }
        }
      }
      ImageBound(init, ivals);
      SubsetCard(vals, ivals + {LiteralOf(s[|s| - 1])});
    } else {
      assert vals == {};
    }
  }

  lemma SubsetCard<T>(a: set<T>, b: set<T>)
    requires a <= b
    ensures |a| <= |b|
  {
    assert b == a + (b - a);
  }
}
