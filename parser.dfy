/**
 * The value types of the Kotlin parser: simple identifiers, dotted
 * identifiers, import headers and per-file parse results, following the
 * `simpleIdentifier`, `identifier` and `importHeader` rules of the Kotlin
 * grammar. The tree-sitter parser that produces them is not modelled.
 */
module Parser {
  import opened Wrappers
  import opened Text

  /** A name component as it appears in the source, backticks included. */
  datatype SimpleIdentifier = SimpleIdentifier(literal: string)

  /** A dotted name: the sequence of its components. */
  datatype Identifier = Identifier(parts: seq<SimpleIdentifier>)

  /** One import header: `import a.b.c`, `import a.b.*` or `import a.b.C as D`. */
  datatype ImportHeader = ImportHeader(identifier: Identifier, isStarImport: bool, alias: Option<SimpleIdentifier>)

  /** What the parser reports about one file. */
  datatype ParseResult = ParseResult(file: string, imports: seq<ImportHeader>, pkg: Option<Identifier>, hasMain: bool)

  // ---------------------------------------------------------------------------
  // The identifier regular expression `[\p{L}_][\p{L}_\d]*`, used unanchored.
  // `isLetter` stands for the Unicode letter class \p{L}.

  /** A character that can start a match: a letter or `_`. */
  predicate IsIdentifierStart(isLetter: char -> bool, c: char) {
    isLetter(c) || c == '_'
  }

  /** A character that can continue a match: a letter, `_` or an ASCII digit (RE2's `\d`). */
  predicate IsIdentifierPart(isLetter: char -> bool, c: char) {
    IsIdentifierStart(isLetter, c) || '0' <= c <= '9'
  }

  /**
   * Regexp.MatchString with the identifier pattern: it looks for a match
   * anywhere in `s`, and every match starts with a letter or `_`, so it
   * succeeds exactly when `s` contains one.
   */
  predicate MatchesIdentifierPattern(isLetter: char -> bool, s: string) {
    exists i :: 0 <= i < |s| && IsIdentifierStart(isLetter, s[i])
  }

  /** The grammar's unquoted identifier: the whole string matches the pattern. */
  predicate IsUnquotedIdentifier(isLetter: char -> bool, s: string) {
    |s| > 0 && IsIdentifierStart(isLetter, s[0]) &&
    forall i :: 1 <= i < |s| ==> IsIdentifierPart(isLetter, s[i])
  }

  /** Every grammatical identifier passes the check. */
  lemma GrammarImpliesMatch(isLetter: char -> bool, s: string)
    requires IsUnquotedIdentifier(isLetter, s)
    ensures MatchesIdentifierPattern(isLetter, s)
  {
    assert IsIdentifierStart(isLetter, s[0]);
  }

  /** The check is weaker than the grammar: "a-b" passes it without being an identifier. */
  lemma MatchIsUnanchored(isLetter: char -> bool)
    requires isLetter('a') && !isLetter('-')
    ensures MatchesIdentifierPattern(isLetter, "a-b")
    ensures !IsUnquotedIdentifier(isLetter, "a-b")
  {
    assert IsIdentifierStart(isLetter, "a-b"[0]);
    assert !IsIdentifierPart(isLetter, "a-b"[1]);
  }

  // ---------------------------------------------------------------------------
  // SimpleIdentifier

  /** NewSimpleIdentifier: accepts `value` unchanged exactly when the pattern matches it. */
  function NewSimpleIdentifier(isLetter: char -> bool, value: string): (r: Result<SimpleIdentifier, string>)
    ensures r.Ok? <==> MatchesIdentifierPattern(isLetter, value)
    ensures r.Ok? ==> r.value.literal == value
  {
    if MatchesIdentifierPattern(isLetter, value) then Ok(SimpleIdentifier(value))
    else Err("NewSimpleIdentifier only supports identifiers that match [\\p{L}_][\\p{L}_\\d]*; "
             + Quote(value) + " doesn't match")
  }

  /**
   * Normalize: a literal that starts with a backtick loses its first and last
   * characters when what lies between them passes the pattern; every other
   * literal is returned unchanged. (A literal that is a lone backtick is kept.)
   */
  function Normalize(isLetter: char -> bool, si: SimpleIdentifier): (r: SimpleIdentifier)
    ensures !HasPrefix(si.literal, "`") ==> r == si
    ensures r == si ||
            (HasPrefix(si.literal, "`") && |si.literal| >= 2 &&
             r.literal == si.literal[1..|si.literal| - 1] && MatchesIdentifierPattern(isLetter, r.literal))
    ensures |r.literal| <= |si.literal|
  {
    var lit := si.literal;
    if !HasPrefix(lit, "`") || |lit| < 2 then si
    else
      var between := lit[1..|lit| - 1];
      if MatchesIdentifierPattern(isLetter, between) then SimpleIdentifier(between) else si
  }

  /**
   * Normalize as the code is written: `literal[1:len(literal)-1]` is taken
   * without checking the length, so a lone backtick makes the slice bounds
   * invalid and the program panics (`None`).
   */
  function NormalizeAsWritten(isLetter: char -> bool, si: SimpleIdentifier): (r: Option<SimpleIdentifier>)
    ensures r.None? <==> si.literal == "`"
    ensures r.Some? ==> r.value == Normalize(isLetter, si)
  {
    var lit := si.literal;
    if !HasPrefix(lit, "`") then Some(si)
    else if |lit| - 1 < 1 then None
    else
      var between := lit[1..|lit| - 1];
      if MatchesIdentifierPattern(isLetter, between) then Some(SimpleIdentifier(between)) else Some(si)
  }

  /** The panic: a one-backtick literal, as the parser would hand it over. */
  lemma NormalizeLoneBacktickPanics(isLetter: char -> bool)
    ensures NormalizeAsWritten(isLetter, SimpleIdentifier("`")).None?
    ensures Normalize(isLetter, SimpleIdentifier("`")) == SimpleIdentifier("`")
  {
  }

  /** Quoting and normalizing round-trip exactly for the names the pattern accepts. */
  lemma NormalizeQuoted(isLetter: char -> bool, x: string)
    ensures var q := SimpleIdentifier("`" + x + "`");
            Normalize(isLetter, q) == (if MatchesIdentifierPattern(isLetter, x) then SimpleIdentifier(x) else q)
  {
    var lit := "`" + x + "`";
    assert HasPrefix(lit, "`");
    assert lit[1..|lit| - 1] == x;
  }

  /** Normalize strips one pair of backticks only, so it is not idempotent. */
  lemma NormalizeStripsOneLayer(isLetter: char -> bool)
    requires isLetter('a')
    ensures Normalize(isLetter, SimpleIdentifier("``a``")) == SimpleIdentifier("`a`")
    ensures Normalize(isLetter, SimpleIdentifier("`a`")) == SimpleIdentifier("a")
  {
    assert IsIdentifierStart(isLetter, "`a`"[1]);
    assert IsIdentifierStart(isLetter, "a"[0]);
    assert "``a``" == "`" + "`a`" + "`";
    assert "`a`" == "`" + "a" + "`";
    NormalizeQuoted(isLetter, "`a`");
    NormalizeQuoted(isLetter, "a");
  }

  // ---------------------------------------------------------------------------
  // Identifier

  /** The literals of the components, in order. */
  function PartLiterals(parts: seq<SimpleIdentifier>): (r: seq<string>)
    ensures |r| == |parts|
    ensures forall k :: 0 <= k < |parts| ==> r[k] == parts[k].literal
  {
    if |parts| == 0 then [] else PartLiterals(parts[..|parts| - 1]) + [parts[|parts| - 1].literal]
  }

  /** The source form of an identifier: its components joined by ".". */
  function LiteralOf(id: Identifier): (r: string) {
    Join(PartLiterals(id.parts), ".")
  }

  /** Identifier.Literal: collects the component literals in a loop, then joins them. */
  method Literal(id: Identifier) returns (lit: string)
    ensures lit == Join(PartLiterals(id.parts), ".")
  {
    var strs: seq<string> := [];
    var i := 0;
    while i < |id.parts|
      invariant 0 <= i <= |id.parts|
      invariant strs == PartLiterals(id.parts[..i])
    {
      assert id.parts[..i + 1][..i] == id.parts[..i];
      strs := strs + [id.parts[i].literal];
      i := i + 1;
    }
    assert id.parts[..i] == id.parts;
    lit := Join(strs, ".");
  }

  /** The literal of the identifier in the parser's tests. */
  lemma LiteralOfXYZ()
    ensures LiteralOf(Identifier([SimpleIdentifier("x"), SimpleIdentifier("y"), SimpleIdentifier("z")])) == "x.y.z"
  {
    var ps := [SimpleIdentifier("x"), SimpleIdentifier("y"), SimpleIdentifier("z")];
    assert PartLiterals(ps) == ["x", "y", "z"];
    assert ["x", "y", "z"][1..] == ["y", "z"];
    assert ["y", "z"][1..] == ["z"];
  }

  /** Identifier.Parent: nil for at most one component, else all components but the last. */
  function Parent(id: Identifier): (r: Option<Identifier>)
    ensures r.None? <==> |id.parts| <= 1
    ensures r.Some? ==> r.value.parts == id.parts[..|id.parts| - 1]
    ensures r.Some? ==> |r.value.parts| == |id.parts| - 1
  {
    if |id.parts| <= 1 then None else Some(Identifier(id.parts[0..|id.parts| - 1]))
  }

  /** Identifier.Child: a new identifier with one more component at the end. */
  function Child(id: Identifier, c: SimpleIdentifier): (r: Identifier)
    ensures r.parts == id.parts + [c]
    ensures |r.parts| == |id.parts| + 1 && r.parts[|id.parts|] == c
  {
    Identifier([] + id.parts + [c])
  }

  /** Child then Parent gives back the identifier, when it has a component. */
  lemma ParentOfChild(id: Identifier, c: SimpleIdentifier)
    requires |id.parts| >= 1
    ensures Parent(Child(id, c)) == Some(id)
  {
    assert (id.parts + [c])[..|id.parts|] == id.parts;
  }

  /** An identifier with no component has a one-component child, which has no parent. */
  lemma ParentOfChildOfEmpty(c: SimpleIdentifier)
    ensures Parent(Child(Identifier([]), c)) == None
  {
  }

  /** Parent then Child with the removed component gives back the identifier. */
  lemma ChildOfParent(id: Identifier)
    requires Parent(id).Some?
    ensures Child(Parent(id).value, id.parts[|id.parts| - 1]) == id
  {
    assert id.parts[..|id.parts| - 1] + [id.parts[|id.parts| - 1]] == id.parts;
  }

  /** The literal of a child is the parent's literal, a dot and the new component. */
  lemma LiteralOfChild(id: Identifier, c: SimpleIdentifier)
    requires |id.parts| >= 1
    ensures LiteralOf(Child(id, c)) == LiteralOf(id) + "." + c.literal
  {
    assert PartLiterals(id.parts + [c]) == PartLiterals(id.parts) + [c.literal];
    JoinSnoc(PartLiterals(id.parts), c.literal, ".");
  }

  /** The literal of an identifier with a parent extends the parent's literal by one component. */
  lemma LiteralOfParent(id: Identifier)
    requires Parent(id).Some?
    ensures LiteralOf(id) == LiteralOf(Parent(id).value) + "." + id.parts[|id.parts| - 1].literal
  {
    ChildOfParent(id);
    LiteralOfChild(Parent(id).value, id.parts[|id.parts| - 1]);
  }

  // ---------------------------------------------------------------------------
  // ImportHeader

  /** ImportStatement.String: "lit as alias" when aliased, else "lit.*" for a star import, else "lit". */
  function HeaderString(h: ImportHeader): (r: string)
    ensures h.alias.Some? ==> r == LiteralOf(h.identifier) + " as " + h.alias.value.literal
    ensures h.alias.None? && h.isStarImport ==> r == LiteralOf(h.identifier) + ".*"
    ensures h.alias.None? && !h.isStarImport ==> r == LiteralOf(h.identifier)
  {
    match h.alias
    case Some(a) => LiteralOf(h.identifier) + " as " + a.literal
    case None => if h.isStarImport then LiteralOf(h.identifier) + ".*" else LiteralOf(h.identifier)
  }

  /** With an alias the star flag does not show in the rendered import. */
  lemma AliasHidesStar(h: ImportHeader)
    requires h.alias.Some?
    ensures HeaderString(h) == HeaderString(h.(isStarImport := !h.isStarImport))
  {
  }

  /** Every rendering begins with the identifier's literal. */
  lemma HeaderStringStartsWithLiteral(h: ImportHeader)
    ensures HasPrefix(HeaderString(h), LiteralOf(h.identifier))
  {
    var l := LiteralOf(h.identifier);
    var r := HeaderString(h);
    assert r[..|l|] == l;
  }

  // ---------------------------------------------------------------------------
  // Slice helpers

  /** The elements of `s` that satisfy `f`, in order. */
  function Kept<T>(s: seq<T>, f: T -> bool): (r: seq<T>) {
    if |s| == 0 then []
    else Kept(s[..|s| - 1], f) + (if f(s[|s| - 1]) then [s[|s| - 1]] else [])
  }

  /** filter: appends the elements that satisfy `f` to a new slice, in order. */
  method Filter<T>(s: seq<T>, f: T -> bool) returns (r: seq<T>)
    ensures r == Kept(s, f)
  {
    r := [];
    var i := 0;
    while i < |s|
      invariant 0 <= i <= |s|
      invariant r == Kept(s[..i], f)
    {
      assert s[..i + 1][..i] == s[..i];
      if f(s[i]) {
        r := r + [s[i]];
      }
      i := i + 1;
    }
    assert s[..i] == s;
  }

  /** What Filter keeps: every kept element satisfies `f`, and each one is kept as often as it occurs. */
  lemma {:induction false} KeptIsFilter<T>(s: seq<T>, f: T -> bool)
    ensures forall x :: x in Kept(s, f) ==> f(x)
    ensures forall x :: multiset(Kept(s, f))[x] == if f(x) then multiset(s)[x] else 0
  {
    if |s| > 0 {
      var init := s[..|s| - 1];
      KeptIsFilter(init, f);
      assert s == init + [s[|s| - 1]];
    }
  }

  /** sequenceToSlice: collects the items an iterator yields, in the order it yields them. */
  method SequenceToSlice<T>(items: seq<T>) returns (r: seq<T>)
    ensures r == items
  {
    r := [];
    var i := 0;
    while i < |items|
      invariant 0 <= i <= |items|
      invariant r == items[..i]
    {
      r := r + [items[i]];
      i := i + 1;
    }
  }
}
