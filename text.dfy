/** The pieces of Go's `strings`, `path` and `fmt` packages that the model needs, on `seq<char>`. */
module Text {

  /** strings.HasPrefix */
  predicate HasPrefix(s: string, prefix: string) {
    |prefix| <= |s| && s[..|prefix|] == prefix
  }

  /** strings.HasSuffix */
  predicate HasSuffix(s: string, suffix: string) {
    |suffix| <= |s| && s[|s| - |suffix|..] == suffix
  }

  /** strings.TrimSuffix: removes one occurrence of `suffix` at the end, if present. */
  function TrimSuffix(s: string, suffix: string): (r: string)
    ensures HasSuffix(s, suffix) ==> r + suffix == s
    ensures !HasSuffix(s, suffix) ==> r == s
  {
    if HasSuffix(s, suffix) then s[..|s| - |suffix|] else s
  }

  /** strings.Join */
  function Join(parts: seq<string>, sep: string): string
    decreases |parts|
  {
    if |parts| == 0 then ""
    else if |parts| == 1 then parts[0]
    else parts[0] + sep + Join(parts[1..], sep)
  }

  /** Joining one more element puts one separator between the old join and it. */
  lemma {:induction false} JoinSnoc(parts: seq<string>, x: string, sep: string)
    requires |parts| > 0
    ensures Join(parts + [x], sep) == Join(parts, sep) + sep + x
    decreases |parts|
  {
    if |parts| == 1 {
      assert parts + [x] == [parts[0], x];
      assert ([parts[0], x])[1..] == [x];
    } else {
      assert (parts + [x])[1..] == parts[1..] + [x];
      JoinSnoc(parts[1..], x, sep);
    }
  }

  /** strings.Split around a one-character separator; the empty string is one empty piece. */
  function Split(s: string, c: char): (r: seq<string>)
    ensures |r| >= 1
    decreases |s|
  {
    if |s| == 0 then [""]
    else
      var init := Split(s[..|s| - 1], c);
      if s[|s| - 1] == c then init + [""]
      else init[..|init| - 1] + [init[|init| - 1] + [s[|s| - 1]]]
  }

  /** A trailing separator starts a new, empty piece. */
  lemma SplitSlash(s: string)
    ensures Split(s + "/", '/') == Split(s, '/') + [""]
  {
    assert (s + "/")[..|s|] == s;
  }

  /** Any other character extends the last piece. */
  lemma SplitChar(s: string, ch: char)
    requires ch != '/'
    ensures var init := Split(s, '/');
      Split(s + [ch], '/') == init[..|init| - 1] + [init[|init| - 1] + [ch]]
  {
    assert (s + [ch])[..|s|] == s;
  }

  /** No piece of a split holds the separator. */
  lemma {:induction false} SplitPiecesPlain(s: string, c: char)
    ensures forall i, k :: 0 <= i < |Split(s, c)| && 0 <= k < |Split(s, c)[i]| ==> Split(s, c)[i][k] != c
    decreases |s|
  {
    if |s| > 0 {
      SplitPiecesPlain(s[..|s| - 1], c);
    }
  }

  /** Joining the pieces of a split with the separator gives back the string. */
  lemma {:induction false} JoinSplit(s: string, c: char)
    ensures Join(Split(s, c), [c]) == s
    decreases |s|
  {
    if |s| > 0 {
      var pre := s[..|s| - 1];
      var ch := s[|s| - 1];
      var init := Split(pre, c);
      JoinSplit(pre, c);
      if ch == c {
        JoinSnoc(init, "", [c]);
      } else {
        var q := init[..|init| - 1];
        var y := init[|init| - 1];
        assert init == q + [y];
        if |q| == 0 {
          assert Split(s, c) == [y + [ch]];
        } else {
          JoinSnoc(q, y, [c]);
          JoinSnoc(q, y + [ch], [c]);
        }
      }
      assert pre + [ch] == s;
    }
  }

  /** strings.Repeat of a one-character string. */
  function Repeat(c: char, n: nat): (r: string)
    ensures |r| == n
    ensures forall i :: 0 <= i < n ==> r[i] == c
  {
    if n == 0 then "" else Repeat(c, n - 1) + [c]
  }

  /** The decimal digit for 0 <= d < 10. */
  function Digit(d: nat): (c: char)
    requires d < 10
    ensures '0' <= c <= '9'
  {
    "0123456789"[d]
  }

  /** fmt's `%d` of a non-negative integer. */
  function NatToString(n: nat): (r: string)
    ensures |r| >= 1
    ensures forall i :: 0 <= i < |r| ==> '0' <= r[i] <= '9'
    ensures n < 10 ==> |r| == 1
  {
    if n < 10 then [Digit(n)] else NatToString(n / 10) + [Digit(n % 10)]
  }

  /** The value of a string of decimal digits. */
  function DigitsValue(s: string): nat
    requires forall i :: 0 <= i < |s| ==> '0' <= s[i] <= '9'
  {
    if |s| == 0 then 0 else 10 * DigitsValue(s[..|s| - 1]) + (s[|s| - 1] as int - '0' as int)
  }

  /** `%d` is read back as the number it prints. */
  lemma {:induction false} NatToStringValue(n: nat)
    ensures DigitsValue(NatToString(n)) == n
  {
    var r := NatToString(n);
    if n < 10 {
      assert r[..0] == "";
      DigitValue(n);
    } else {
      NatToStringValue(n / 10);
      assert r[..|r| - 1] == NatToString(n / 10);
      DigitValue(n % 10);
      assert n == 10 * (n / 10) + n % 10;
    }
  }

  /** A digit is read back as its value. */
  lemma DigitValue(d: nat)
    requires d < 10
    ensures Digit(d) as int - '0' as int == d
  {
    assert d == 0 || d == 1 || d == 2 || d == 3 || d == 4 || d == 5 || d == 6 || d == 7 || d == 8 || d == 9;
  }

  /** strings.ToLower on ASCII letters; other characters are kept. */
  function ToLower(s: string): (r: string)
    ensures |r| == |s|
    ensures forall i :: 0 <= i < |s| ==> !('A' <= r[i] <= 'Z')
    ensures forall i :: 0 <= i < |s| && !('A' <= s[i] <= 'Z') ==> r[i] == s[i]
  {
    if |s| == 0 then ""
    else
      var c := s[0];
      [if 'A' <= c <= 'Z' then (c as int + 32) as char else c] + ToLower(s[1..])
  }

  /** The index of the last `c` in `s`, or -1. */
  function LastIndex(s: string, c: char): (r: int)
    ensures -1 <= r < |s|
    ensures r >= 0 ==> s[r] == c
    ensures forall i :: r < i < |s| ==> s[i] != c
  {
    if |s| == 0 then -1
    else if s[|s| - 1] == c then |s| - 1
    else LastIndex(s[..|s| - 1], c)
  }

  /** `s` without its trailing slashes. */
  function TrimTrailingSlashes(s: string): (r: string)
    ensures |r| <= |s| && r == s[..|r|]
    ensures |r| > 0 ==> r[|r| - 1] != '/'
    ensures forall i :: |r| <= i < |s| ==> s[i] == '/'
  {
    if |s| > 0 && s[|s| - 1] == '/' then TrimTrailingSlashes(s[..|s| - 1]) else s
  }

  /**
   * path.Base (and filepath.Base on a slash-separated system): the last element
   * of the path, trailing slashes removed; "." for the empty path and "/" for a
   * path of slashes only.
   */
  function PathBase(p: string): (r: string)
    ensures |r| > 0
    ensures p != "" && LastIndex(p, '/') == -1 ==> r == p
  {
    if p == "" then "."
    else
      var t := TrimTrailingSlashes(p);
      if t == "" then "/"
      else t[LastIndex(t, '/') + 1..]
  }

  /**
   * path.Ext: the suffix beginning at the final dot of the final element of the
   * path, or "" when that element has no dot.
   */
  function PathExt(p: string): (r: string)
    ensures HasSuffix(p, r)
    ensures r != "" ==> r[0] == '.' && forall i :: 0 <= i < |r| ==> r[i] != '/'
  {
    if |p| == 0 || p[|p| - 1] == '/' then ""
    else if p[|p| - 1] == '.' then "."
    else
      var r := PathExt(p[..|p| - 1]);
      if r == "" then "" else r + [p[|p| - 1]]
  }

  /**
   * One element of filepath.Clean's scan: empty and "." elements vanish; ".."
   * removes the previous name, is dropped at a root, and is kept when nothing
   * can be removed in a relative path; any other name is kept.
   */
  function CleanStep(out: seq<string>, e: string, rooted: bool): seq<string> {
    if e == "" || e == "." then out
    else if e == ".." then
      if |out| > 0 && out[|out| - 1] != ".." then out[..|out| - 1]
      else if rooted then out
      else out + [".."]
    else out + [e]
  }

  /** The elements filepath.Clean keeps, scanning left to right. */
  function CleanElems(elems: seq<string>, rooted: bool): seq<string>
    decreases |elems|
  {
    if |elems| == 0 then []
    else CleanStep(CleanElems(elems[..|elems| - 1], rooted), elems[|elems| - 1], rooted)
  }

  /**
   * filepath.Clean on a slash-separated system: the shortest equivalent path,
   * "/" for a rooted path that cleans away and "." for a relative one.
   */
  function Clean(p: string): (r: string)
    ensures p != "" && p[0] == '/' ==> |r| > 0 && r[0] == '/'
  {
    if p == "" then "."
    else
      var rooted := p[0] == '/';
      var out := CleanElems(Split(p, '/'), rooted);
      if rooted then "/" + Join(out, "/")
      else if out == [] then "."
      else Join(out, "/")
  }

  /** A relative path with no empty, "." or ".." element: what filepath.Clean leaves alone. */
  predicate IsCleanRelative(d: string) {
    d != "" && d[0] != '/'
    && forall e :: e in Split(d, '/') ==> e != "" && e != "." && e != ".."
  }

  /** Names that are neither empty, "." nor ".." survive the scan unchanged. */
  lemma {:induction false} CleanElemsOfNames(elems: seq<string>, rooted: bool)
    requires forall e :: e in elems ==> e != "" && e != "." && e != ".."
    ensures CleanElems(elems, rooted) == elems
    decreases |elems|
  {
    if |elems| > 0 {
      var init := elems[..|elems| - 1];
      assert forall e :: e in init ==> e in elems;
      CleanElemsOfNames(init, rooted);
      assert elems[|elems| - 1] in elems;
      assert init + [elems[|elems| - 1]] == elems;
    }
  }

  /** "." is not a clean relative directory: its one element is ".". */
  lemma DotIsNotCleanRelative()
    ensures !IsCleanRelative(".")
  {
    assert Split("", '/') == [""];
    assert "" + ['.'] == ".";
    SplitChar("", '.');
    assert Split(".", '/') == ["."];
    assert "." in Split(".", '/');
  }

  /** A clean relative directory with a slash appended cleans back to itself. */
  lemma CleanOfCleanDir(d: string)
    requires IsCleanRelative(d)
    ensures Clean(d + "/") == d
  {
    var p := d + "/";
    assert p[..|p| - 1] == d;
    assert Split(p, '/') == Split(d, '/') + [""];
    var elems := Split(d, '/') + [""];
    assert elems[..|elems| - 1] == Split(d, '/');
    CleanElemsOfNames(Split(d, '/'), false);
    assert CleanElems(elems, false) == Split(d, '/');
    JoinSplit(d, '/');
    assert ['/'] == "/";
  }

  /** The cleaned directory part of `p` is the part itself when that is clean and relative. */
  lemma CleanDirPart(p: string)
    ensures var i := LastIndex(p, '/');
      i >= 0 && IsCleanRelative(p[..i]) ==> Clean(p[..i + 1]) == p[..i]
  {
    var i := LastIndex(p, '/');
    if i >= 0 && IsCleanRelative(p[..i]) {
      assert p[..i + 1] == p[..i] + "/";
      CleanOfCleanDir(p[..i]);
    }
  }

  /** filepath.Dir: everything up to the last slash, cleaned; "." when there is no slash. */
  function Dir(p: string): (r: string)
    ensures LastIndex(p, '/') == -1 ==> r == "."
    ensures LastIndex(p, '/') >= 0 && IsCleanRelative(p[..LastIndex(p, '/')]) ==> r == p[..LastIndex(p, '/')]
    ensures p != "" && p[0] == '/' ==> |r| > 0 && r[0] == '/'
  {
    CleanDirPart(p);
    Clean(p[..LastIndex(p, '/') + 1])
  }

  /** fmt's `%q` on a string with nothing to escape. */
  function Quote(s: string): string {
    "\"" + s + "\""
  }
}
