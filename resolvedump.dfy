/**
 * The string formatting of the resolvedump tool: the `# gazelle:resolve`
 * directives for a file's top-level identifiers, the package name built from
 * the captured parts of the package header, and the caret display of a
 * parse error.
 */
module ResolveDump {
  import opened Wrappers
  import opened Text

  /** analysis: the package and the top-level identifiers of one file. */
  datatype Analysis = Analysis(pkg: string, topLevelIdentifiers: seq<string>)

  const ResolvePrefix: string := "# gazelle:resolve kotlin kotlin "
  const ResolveSuffix: string := " TODO_LABEL"

  /** One directive: the package, a dot and the identifier, between the fixed prefix and suffix. */
  function ResolveComment(pkg: string, id: string): (r: string)
    ensures |r| == |ResolvePrefix| + |pkg| + 1 + |id| + |ResolveSuffix|
    ensures HasPrefix(r, ResolvePrefix) && HasSuffix(r, ResolveSuffix)
    ensures r[|ResolvePrefix|..|r| - |ResolveSuffix|] == pkg + "." + id
  {
    var r := ResolvePrefix + pkg + "." + id + ResolveSuffix;
    assert r[..|ResolvePrefix|] == ResolvePrefix;
    assert r[|r| - |ResolveSuffix|..] == ResolveSuffix;
    r
  }

  /** Within one package, different identifiers give different directives. */
  lemma ResolveCommentInjective(pkg: string, a: string, b: string)
    requires ResolveComment(pkg, a) == ResolveComment(pkg, b)
    ensures a == b
  {
    var r := ResolveComment(pkg, a);
    var mid := r[|ResolvePrefix|..|r| - |ResolveSuffix|];
    assert mid == pkg + "." + a && mid == pkg + "." + b;
    assert a == mid[|pkg| + 1..];
    assert b == mid[|pkg| + 1..];
  }

  /**
   * gazelleResolveComments: nothing without a package; otherwise one
   * directive per top-level identifier, in order.
   */
  method GazelleResolveComments(a: Analysis) returns (out: seq<string>)
    ensures a.pkg == "" ==> out == []
    ensures a.pkg != "" ==> |out| == |a.topLevelIdentifiers|
    ensures a.pkg != "" ==> forall i :: 0 <= i < |out| ==> out[i] == ResolveComment(a.pkg, a.topLevelIdentifiers[i])
  {
    if a.pkg == "" {
      return [];
    }
    out := [];
    var i := 0;
    while i < |a.topLevelIdentifiers|
      invariant 0 <= i <= |a.topLevelIdentifiers|
      invariant |out| == i
      invariant forall k :: 0 <= k < i ==> out[k] == ResolveComment(a.pkg, a.topLevelIdentifiers[k])
    {
      out := out + [ResolveComment(a.pkg, a.topLevelIdentifiers[i])];
      i := i + 1;
    }
  }

  const NoPackageError: string := "source file doesn't have a package statement"

  /**
   * extractPackage over the captured package identifier parts: the parts
   * joined by dots, or the empty name and an error when there are none.
   */
  function ExtractPackage(parts: seq<string>): (r: (string, Option<string>))
    ensures r.1.Some? <==> |parts| == 0
    ensures |parts| == 0 ==> r == ("", Some(NoPackageError))
  {
    if |parts| == 0 then ("", Some(NoPackageError)) else (Join(parts, "."), None)
  }

  /** Splitting the package name at its dots gives back the parts, when no part has a dot. */
  lemma ExtractPackageSplits(parts: seq<string>)
    requires |parts| > 0
    requires forall i, k :: 0 <= i < |parts| && 0 <= k < |parts[i]| ==> parts[i][k] != '.'
    ensures ExtractPackage(parts).1.None?
    ensures Split(ExtractPackage(parts).0, '.') == parts
  {
    SplitJoin(parts, '.');
  }

  /** `Split(Join(parts, [c]), c)` is `parts` when no part contains `c`. */
  lemma {:induction false} SplitJoin(parts: seq<string>, c: char)
    requires |parts| > 0
    requires forall i, k :: 0 <= i < |parts| && 0 <= k < |parts[i]| ==> parts[i][k] != c
    ensures Split(Join(parts, [c]), c) == parts
    decreases |parts|
  {
    var init := parts[..|parts| - 1];
    var x := parts[|parts| - 1];
    assert forall k :: 0 <= k < |x| ==> x[k] != c;
    if |parts| == 1 {
      SplitOfPlain(x, c);
    } else {
      assert parts == init + [x];
      JoinSnoc(init, x, [c]);
      SplitJoin(init, c);
      SplitAppendPlain(Join(init, [c]), x, c);
    }
  }

  /** A string without `c` splits into itself. */
  lemma {:induction false} SplitOfPlain(x: string, c: char)
    requires forall k :: 0 <= k < |x| ==> x[k] != c
    ensures Split(x, c) == [x]
    decreases |x|
  {
    if |x| > 0 {
      SplitOfPlain(x[..|x| - 1], c);
      assert x[..|x| - 1] + [x[|x| - 1]] == x;
    }
  }

  /** Appending a separator and a piece without `c` adds exactly that piece. */
  lemma {:induction false} SplitAppendPlain(a: string, x: string, c: char)
    requires forall k :: 0 <= k < |x| ==> x[k] != c
    ensures Split(a + [c] + x, c) == Split(a, c) + [x]
    decreases |x|
  {
    var s := a + [c] + x;
    if |x| == 0 {
      assert s[..|s| - 1] == a;
    } else {
      var x' := x[..|x| - 1];
      assert s[..|s| - 1] == a + [c] + x';
      SplitAppendPlain(a, x', c);
      assert x' + [x[|x| - 1]] == x;
    }
  }

  // ---------------------------------------------------------------------------
  // The caret display of a parse error

  /** Tree-sitter rows and columns are uint32. */
  const Uint32Modulus: nat := 0x1_0000_0000

  /**
   * The source line of the error: line `atRow - showRow` (uint32
   * arithmetic) of the content of the node shown; None where the index is
   * out of range and the original panics.
   */
  function ErrorLine(content: string, atRow: nat, showRow: nat): (r: Option<string>)
    requires atRow < Uint32Modulus && showRow < Uint32Modulus
    ensures r.Some? <==> (atRow - showRow) % Uint32Modulus < |Split(content, '\n')|
    ensures r.Some? ==> r.value == Split(content, '\n')[(atRow - showRow) % Uint32Modulus]
    ensures r.Some? ==> forall i :: 0 <= i < |r.value| ==> r.value[i] != '\n'
    ensures atRow == showRow ==> r.Some?
  {
    var lines := Split(content, '\n');
    var lineI := (atRow - showRow) % Uint32Modulus;
    if lineI < |lines| then
      SplitPiecesPlain(content, '\n');
      Some(lines[lineI])
    else None
  }

  /** No percent sign: fmt copies such text unchanged. */
  predicate NoPercent(s: string) {
    forall i :: 0 <= i < |s| ==> s[i] != '%'
  }

  lemma NoPercentAppend(a: string, b: string)
    requires NoPercent(a) && NoPercent(b)
    ensures NoPercent(a + b)
  {
    forall i | 0 <= i < |a + b| ensures (a + b)[i] != '%' {
      if i < |a| {
        assert (a + b)[i] == a[i];
      } else {
        assert (a + b)[i] == b[i - |a|];
      }
    }
  }

  /** The row prefix `"     %d: "` of the one-based row; `Row+1` is computed in uint32. */
  function RowPrefix(row: nat): (r: string)
    requires row < Uint32Modulus
    ensures |r| >= 8 && r[..5] == "     " && r[|r| - 2..] == ": "
  {
    "     " + NatToString((row + 1) % Uint32Modulus) + ": "
  }

  /** The number between the indent and the colon reads back as the one-based row, modulo 2^32. */
  lemma RowNumberReadsBack(row: nat)
    requires row < Uint32Modulus
    ensures var r := RowPrefix(row);
      (forall i :: 5 <= i < |r| - 2 ==> '0' <= r[i] <= '9') &&
      DigitsValue(r[5..|r| - 2]) == (row + 1) % Uint32Modulus
  {
    var n := NatToString((row + 1) % Uint32Modulus);
    NatToStringValue((row + 1) % Uint32Modulus);
    var r := RowPrefix(row);
    assert r == "     " + n + ": ";
    forall i | 5 <= i < |r| - 2 ensures '0' <= r[i] <= '9' {
      assert r[i] == n[i - 5];
    }
    assert r[5..|r| - 2] == n;
  }

  /** The row prefix has no percent sign. */
  lemma RowPrefixPlain(row: nat)
    requires row < Uint32Modulus
    ensures NoPercent(RowPrefix(row))
  {
    var n := NatToString((row + 1) % Uint32Modulus);
    assert NoPercent(n);
    assert NoPercent("     ") by {
      forall i | 0 <= i < 5 ensures "     "[i] != '%' {
        assert i == 0 || i == 1 || i == 2 || i == 3 || i == 4;
      }
    }
    assert NoPercent(": ") by {
      forall i | 0 <= i < 2 ensures ": "[i] != '%' {
        assert i == 0 || i == 1;
      }
    }
    NoPercentAppend("     ", n);
    NoPercentAppend("     " + n, ": ");
  }

  /**
   * The two lines of the display: the prefixed source line, and an arrow
   * whose `^` stands under column `col` of that line.
   */
  function Caret(row: nat, col: nat, line: string): (r: (string, string))
    requires row < Uint32Modulus
    ensures var (msg, arw) := r;
      && msg == RowPrefix(row) + line
      && |arw| == |RowPrefix(row)| + col + 1
      && arw[|arw| - 1] == '^'
      && (forall i :: 0 <= i < |arw| - 1 ==> arw[i] == ' ')
      && (col < |line| ==> msg[|arw| - 1] == line[col])
  {
    var pre := RowPrefix(row);
    (pre + line, Repeat(' ', |pre| + col) + "^")
  }

  /** The error text the display intends: the message line, a newline and the arrow line. */
  function CaretMessage(row: nat, col: nat, line: string): string
    requires row < Uint32Modulus
  {
    var (msg, arw) := Caret(row, col, line);
    msg + "\n" + arw
  }

  // fmt.Sprintf with a format and no operands

  /** The flag characters of a fmt verb. */
  predicate IsFlag(ch: char) {
    ch == '#' || ch == '0' || ch == '+' || ch == '-' || ch == ' '
  }

  predicate IsDigitChar(ch: char) {
    '0' <= ch <= '9'
  }

  /** The index after the flags that start at `i`. */
  function SkipFlags(s: string, i: nat): (j: nat)
    requires i <= |s|
    ensures i <= j <= |s|
    decreases |s| - i
  {
    if i < |s| && IsFlag(s[i]) then SkipFlags(s, i + 1) else i
  }

  /** The index after the decimal digits that start at `i`. */
  function SkipDigits(s: string, i: nat): (j: nat)
    requires i <= |s|
    ensures i <= j <= |s|
    decreases |s| - i
  {
    if i < |s| && IsDigitChar(s[i]) then SkipDigits(s, i + 1) else i
  }

  /**
   * The index of the verb after a percent sign at `i - 1`: flags, a width,
   * then a precision; a '.' is read as a precision only when something
   * follows it.
   */
  function VerbIndex(s: string, i: nat): (j: nat)
    requires i <= |s|
    ensures i <= j <= |s|
  {
    var w := SkipDigits(s, SkipFlags(s, i));
    if w + 1 < |s| && s[w] == '.' then SkipDigits(s, w + 1) else w
  }

  /**
   * fmt.Sprintf(format) with no operands: text is copied; `%%` is a
   * percent sign; any other verb has no operand and prints
   * `%!v(MISSING)` for verb `v`; a percent sign with no verb after it
   * prints `%!(NOVERB)` and ends the output.
   */
  function SprintfNoArgs(s: string): string
    decreases |s|
  {
    if |s| == 0 then ""
    else if s[0] != '%' then [s[0]] + SprintfNoArgs(s[1..])
    else
      var j := VerbIndex(s, 1);
      if j == |s| then "%!(NOVERB)"
      else if s[j] == '%' then "%" + SprintfNoArgs(s[j + 1..])
      else "%!" + [s[j]] + "(MISSING)" + SprintfNoArgs(s[j + 1..])
  }

  /** A format ending in "%." has '.' as its verb, not a precision. */
  lemma SprintfTrailingDot()
    ensures SprintfNoArgs("%.") == "%!.(MISSING)"
  {
    assert SkipFlags("%.", 1) == 1;
    assert SkipDigits("%.", 1) == 1;
    assert VerbIndex("%.", 1) == 1;
    assert "%."[2..] == "";
  }

  /** A leading run of text without a percent sign is copied as it is. */
  lemma {:induction false} SprintfPlainPrefix(a: string, b: string)
    requires forall i :: 0 <= i < |a| ==> a[i] != '%'
    ensures SprintfNoArgs(a + b) == a + SprintfNoArgs(b)
    decreases |a|
  {
    if |a| > 0 {
      assert (a + b)[1..] == a[1..] + b;
      SprintfPlainPrefix(a[1..], b);
      assert [a[0]] + a[1..] == a;
    } else {
      assert a + b == b;
    }
  }

  /** The caret display as written: the message is used as the format of Sprintf. */
  function CaretMessageAsWritten(row: nat, col: nat, line: string): (r: string)
    requires row < Uint32Modulus
    ensures NoPercent(line) ==> r == CaretMessage(row, col, line)
  {
    var (msg, arw) := Caret(row, col, line);
    PlainCaret(row, col, line);
    SprintfNoArgs(msg + "\n" + arw)
  }

  /** The arrow line has no percent sign. */
  lemma ArrowPlain(row: nat, col: nat, line: string)
    requires row < Uint32Modulus
    ensures NoPercent("\n" + Caret(row, col, line).1)
  {
    var arw := Caret(row, col, line).1;
    forall i | 0 <= i < |"\n" + arw| ensures ("\n" + arw)[i] != '%' {
      if i > 0 {
        assert ("\n" + arw)[i] == arw[i - 1];
      }
    }
  }

  /** A display without a percent sign in the source line has none at all, so Sprintf copies it. */
  lemma PlainCaret(row: nat, col: nat, line: string)
    requires row < Uint32Modulus
    ensures NoPercent(line) ==> SprintfNoArgs(CaretMessage(row, col, line)) == CaretMessage(row, col, line)
  {
    if NoPercent(line) {
      var s := CaretMessage(row, col, line);
      var pre := RowPrefix(row);
      var arw := Caret(row, col, line).1;
      assert s == (pre + line) + ("\n" + arw);
      RowPrefixPlain(row);
      NoPercentAppend(pre, line);
      ArrowPlain(row, col, line);
      NoPercentAppend(pre + line, "\n" + arw);
      SprintfPlainPrefix(s, "");
      assert s + "" == s;
    }
  }

  /** A `%d` with no operand between plain text prints `%!d(MISSING)`. */
  lemma SprintfMissingVerb(p: string, t: string)
    requires NoPercent(p) && NoPercent(t)
    ensures SprintfNoArgs(p + ("%d" + t)) == p + ("%!d(MISSING)" + t)
  {
    SprintfPlainPrefix(p, "%d" + t);
    var rest := "%d" + t;
    assert rest[1..] == "d" + t;
    assert VerbIndex(rest, 1) == 1;
    assert rest[2..] == t;
    SprintfPlainPrefix(t, "");
    assert t + "" == t;
    assert SprintfNoArgs(rest) == ("%!" + [rest[1]] + "(MISSING)") + SprintfNoArgs(t);
    assert "%!" + [rest[1]] + "(MISSING)" == "%!d(MISSING)";
  }

  /** Regrouping a concatenation of six parts. */
  lemma Regroup(p: string, a: string, m: string, t: string, b: string, u: string, w: string)
    requires t == b + u + w
    ensures (p + a) + (m + t) == p + a + m + b + u + w
  {
  }

  /**
   * A source line `a + "%d" + b` is displayed with `%!d(MISSING)` in place of
   * `%d`, so the display no longer shows the line as it is.
   */
  lemma CaretPercentCounterexample(row: nat, col: nat, a: string, b: string)
    requires row < Uint32Modulus
    requires NoPercent(a) && NoPercent(b)
    ensures CaretMessageAsWritten(row, col, a + "%d" + b)
      == RowPrefix(row) + a + "%!d(MISSING)" + b + "\n" + Caret(row, col, a + "%d" + b).1
    ensures CaretMessageAsWritten(row, col, a + "%d" + b) != CaretMessage(row, col, a + "%d" + b)
  {
    var line := a + "%d" + b;
    var pre := RowPrefix(row);
    var arw := Caret(row, col, line).1;
    var tail := b + "\n" + arw;
    var s := CaretMessage(row, col, line);
    assert s == (pre + a) + ("%d" + tail);
    RowPrefixPlain(row);
    NoPercentAppend(pre, a);
    ArrowPlain(row, col, line);
    NoPercentAppend(b, "\n" + arw);
    assert tail == b + ("\n" + arw);
    SprintfMissingVerb(pre + a, tail);
    assert CaretMessageAsWritten(row, col, line) == SprintfNoArgs(s);
    Regroup(pre, a, "%!d(MISSING)", tail, b, "\n", arw);
    assert |CaretMessageAsWritten(row, col, line)| == |s| + 10;
  }
}
