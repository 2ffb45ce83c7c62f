/** String helpers shared by the frontend and backend models: the option and
    result wrappers, prefix/suffix/substring tests, the two whitespace classes
    (JavaScript's and Python's) and Python's `str.strip`. */
module Text {

  datatype Option<+T> = None | Some(value: T)

  /** A value or an error message (a Python exception reduced to `str(e)`). */
  datatype Either<+R, +E> = Ok(value: R) | Err(error: E)

  /** JavaScript `startsWith` / Python `startswith`. */
  predicate StartsWith(s: string, p: string) {
    |p| <= |s| && s[..|p|] == p
  }

  /** JavaScript `endsWith` / Python `endswith` with one suffix. */
  predicate EndsWith(s: string, p: string) {
    |p| <= |s| && s[|s| - |p|..] == p
  }

  /** `sub` occurs in `s` at some position (JavaScript `includes`, Python `in`). */
  predicate Contains(s: string, sub: string)
    decreases |s|
  {
    StartsWith(s, sub) || (|s| > 0 && Contains(s[1..], sub))
  }

  /** The whitespace class `\s` of JavaScript regular expressions. */
  predicate JsSpace(c: char) {
    c == '\t' || c == '\n' || c == '\U{000B}' || c == '\U{000C}' || c == '\r' || c == ' '
    || c == '\U{00A0}' || c == '\U{1680}' || ('\U{2000}' <= c <= '\U{200A}')
    || c == '\U{2028}' || c == '\U{2029}' || c == '\U{202F}' || c == '\U{205F}'
    || c == '\U{3000}' || c == '\U{FEFF}'
  }

  /** The line terminators after which `^` matches in a JavaScript `m`-flag regex. */
  predicate JsLineTerminator(c: char) {
    c == '\n' || c == '\r' || c == '\U{2028}' || c == '\U{2029}'
  }

  /** Python's `str.isspace` character class, which is also `\s` of a `str` regex
      and the set `str.strip()` removes. */
  predicate PySpace(c: char) {
    ('\t' <= c <= '\r') || ('\U{001C}' <= c <= '\U{001F}') || c == ' ' || c == '\U{0085}'
    || c == '\U{00A0}' || c == '\U{1680}' || ('\U{2000}' <= c <= '\U{200A}')
    || c == '\U{2028}' || c == '\U{2029}' || c == '\U{202F}' || c == '\U{205F}'
    || c == '\U{3000}'
  }

  /** End of the longest run of characters satisfying `p` that starts at `i`
      (a greedy `\s*` that stops at the first character outside the class). */
  function RunEnd(s: string, i: nat, p: char -> bool): (j: nat)
    requires i <= |s|
    ensures i <= j <= |s|
    ensures forall k :: i <= k < j ==> p(s[k])
    ensures j < |s| ==> !p(s[j])
    decreases |s| - i
  {
    if i == |s| || !p(s[i]) then i else RunEnd(s, i + 1, p)
  }

  /** A character of a suffix is a character of the whole text. */
  lemma InSuffix(s: string, n: nat, c: char)
    requires n <= |s| && c in s[n..]
    ensures c in s
  {
    var k :| 0 <= k < |s[n..]| && s[n..][k] == c;
    assert s[n + k] == c;
  }

  /** The run is determined by where the first character outside the class sits. */
  lemma RunEndAt(s: string, i: nat, j: nat, p: char -> bool)
    requires i <= j <= |s|
    requires forall k :: i <= k < j ==> p(s[k])
    requires j < |s| ==> !p(s[j])
    ensures RunEnd(s, i, p) == j
  {
  }

  /** Every character is Python whitespace. */
  predicate Blank(s: string) {
    forall i :: 0 <= i < |s| ==> PySpace(s[i])
  }

  /** Start of the longest run of Python whitespace that ends at `j`. */
  function BlankRunStart(s: string, j: nat): (i: nat)
    requires j <= |s|
    ensures i <= j
    ensures forall k :: i <= k < j ==> PySpace(s[k])
    ensures i > 0 ==> !PySpace(s[i - 1])
    decreases j
  {
    if j == 0 || !PySpace(s[j - 1]) then j else BlankRunStart(s, j - 1)
  }

  /** Python `s.lstrip()` with no argument: the leading whitespace run goes. */
  function TrimStart(s: string): (r: string)
    ensures |r| <= |s|
    ensures r == [] || !PySpace(r[0])
  {
    s[RunEnd(s, 0, PySpace)..]
  }

  /** Python `s.rstrip()` with no argument: the trailing whitespace run goes. */
  function TrimEnd(s: string): (r: string)
    ensures |r| <= |s|
    ensures r == [] || !PySpace(r[|r| - 1])
  {
    s[..BlankRunStart(s, |s|)]
  }

  /** Python `s.strip()` with no argument: the text between the leading and the
      trailing whitespace. */
  function Strip(s: string): (r: string)
    ensures |r| <= |s|
    ensures r == [] || (!PySpace(r[0]) && !PySpace(r[|r| - 1]))
    ensures var a := |s| - |TrimStart(s)|;
      && a + |r| <= |s| && r == s[a..a + |r|]
      && Blank(s[..a]) && Blank(s[a + |r|..])
  {
    var a := RunEnd(s, 0, PySpace);
    var t := s[a..];
    var b := BlankRunStart(t, |t|);
    var r := t[..b];
    assert |TrimStart(s)| == |t|;
    assert r == s[a..a + b];
    assert r != [] ==> r[0] == s[a] && r[b - 1] == t[b - 1];
    var lead, trail := s[..a], s[a + b..];
    forall i | 0 <= i < |lead| ensures PySpace(lead[i]) {
      assert lead[i] == s[i];
    }
    forall i | 0 <= i < |trail| ensures PySpace(trail[i]) {
      assert trail[i] == t[b + i];
    }
    r
  }

  /** `not s.strip()` holds exactly for the all-whitespace strings (the empty one included). */
  lemma StripEmptyIffBlank(s: string)
    ensures Strip(s) == [] <==> Blank(s)
  {
    var a := |s| - |TrimStart(s)|;
    if Strip(s) == [] {
      forall i | 0 <= i < |s| ensures PySpace(s[i]) {
        assert s[i] == s[..a][i];
      }
    }
    if Blank(s) {
      RunEndAt(s, 0, |s|, PySpace);
    }
  }
}
