/** The study-guide view of the web client (frontend/src/components/StudyGuide.jsx):
    the text prepared for narration, the listen/stop toggle, and the cache of
    translations keyed by language name. */
module StudyGuide {
  import opened Text
  import opened Narration

  // ---------------------------------------------------------------------------
  // Narration text: the four `.replace` calls of `handleSpeak`, in order.
  // ---------------------------------------------------------------------------

  /** The character class `[#*`_~]`. */
  predicate MarkdownSymbol(c: char) {
    c == '#' || c == '*' || c == '`' || c == '_' || c == '~'
  }

  /** `.replace(/[#*`_~]/g, '')`. */
  function RemoveSymbols(s: string): (r: string)
    ensures |r| <= |s|
    ensures forall i :: 0 <= i < |r| ==> !MarkdownSymbol(r[i])
  {
    if s == [] then []
    else (if MarkdownSymbol(s[0]) then [] else [s[0]]) + RemoveSymbols(s[1..])
  }

  /** Nothing is added: every character left comes from the input. */
  lemma {:induction false} RemoveSymbolsChars(s: string)
    ensures forall i :: 0 <= i < |RemoveSymbols(s)| ==> RemoveSymbols(s)[i] in s
  {
    if s != [] {
      var rest := RemoveSymbols(s[1..]);
      RemoveSymbolsChars(s[1..]);
      forall i | 0 <= i < |rest| ensures rest[i] in s {
        InSuffix(s, 1, rest[i]);
      }
    }
  }

  /** A text without symbols goes through unchanged. */
  lemma {:induction false} RemoveSymbolsPlain(s: string)
    requires forall i :: 0 <= i < |s| ==> !MarkdownSymbol(s[i])
    ensures RemoveSymbols(s) == s
  {
    if s != [] {
      RemoveSymbolsPlain(s[1..]);
    }
  }

  /** The removal works character by character: it distributes over concatenation. */
  lemma {:induction false} RemoveSymbolsAppend(a: string, b: string)
    ensures RemoveSymbols(a + b) == RemoveSymbols(a) + RemoveSymbols(b)
  {
    if a != [] {
      var head := if MarkdownSymbol(a[0]) then [] else [a[0]];
      assert (a + b)[0] == a[0] && (a + b)[1..] == a[1..] + b;
      assert RemoveSymbols(a + b) == head + RemoveSymbols(a[1..] + b);
      RemoveSymbolsAppend(a[1..], b);
      assert RemoveSymbols(a) == head + RemoveSymbols(a[1..]);
    } else {
      assert a + b == b;
    }
  }

  /** First index at or after `from` that holds `c`. */
  function IndexOf(s: string, c: char, from: nat): (r: Option<nat>)
    requires from <= |s|
    ensures r.Some? ==> from <= r.value < |s| && s[r.value] == c
    ensures forall k :: from <= k < |s| && (r.None? || k < r.value) ==> s[k] != c
    decreases |s| - from
  {
    if from == |s| then None
    else if s[from] == c then Some(from)
    else IndexOf(s, c, from + 1)
  }

  /** `IndexOf` finds the first occurrence: any index holding `c` with no earlier one from `from` on. */
  lemma {:induction false} IndexOfAt(s: string, c: char, from: nat, j: nat)
    requires from <= j < |s| && s[j] == c
    requires forall k :: from <= k < j ==> s[k] != c
    ensures IndexOf(s, c, from) == Some(j)
    decreases j - from
  {
    if from < j {
      IndexOfAt(s, c, from + 1, j);
    }
  }

  /** A regex match: the text captured by the group and the length of the whole match. */
  datatype LinkMatch = LinkMatch(linkText: string, length: nat)

  /** A match of `\[([^\]]+)\]\([^)]+\)` at the start of `s`. */
  function LinkPrefix(s: string): (r: Option<LinkMatch>)
    ensures r.Some? ==>
      var linkText, n := r.value.linkText, r.value.length;
      && 0 < |linkText| && |linkText| + 4 < n <= |s|
      && s[0] == '[' && s[1..|linkText| + 1] == linkText
      && s[|linkText| + 1] == ']' && s[|linkText| + 2] == '(' && s[n - 1] == ')'
      && (forall k :: 1 <= k <= |linkText| ==> s[k] != ']')
      && (forall k :: |linkText| + 3 <= k < n - 1 ==> s[k] != ')')
  {
    if |s| > 0 && s[0] == '[' then
      match IndexOf(s, ']', 1)
      case None => None
      case Some(j) =>
        if 1 < j && j + 1 < |s| && s[j + 1] == '(' then
          match IndexOf(s, ')', j + 2)
          case None => None
          case Some(k) => if j + 2 < k then Some(LinkMatch(s[1..j], k + 1)) else None
        else None
    else None
  }

  /** Every `[label](target)` with a non-empty label free of `]` and a
      non-empty target free of `)` is a match, whatever follows it. */
  lemma LinkPrefixOf(linkText: string, target: string, rest: string)
    requires 0 < |linkText| && forall k :: 0 <= k < |linkText| ==> linkText[k] != ']'
    requires 0 < |target| && forall k :: 0 <= k < |target| ==> target[k] != ')'
    ensures LinkPrefix("[" + linkText + "](" + target + ")" + rest) == Some(LinkMatch(linkText, |linkText| + |target| + 4))
  {
    var s := "[" + linkText + "](" + target + ")" + rest;
    var j := |linkText| + 1;
    assert forall k :: 1 <= k < j ==> s[k] == linkText[k - 1];
    IndexOfAt(s, ']', 1, j);
    var k := j + 2 + |target|;
    assert forall m :: j + 2 <= m < k ==> s[m] == target[m - j - 2];
    IndexOfAt(s, ')', j + 2, k);
    assert s[1..j] == linkText;
  }

  /** `.replace(/\[([^\]]+)\]\([^)]+\)/g, '$1')`: every link becomes its label. */
  function ReplaceLinks(s: string): (r: string)
    ensures |r| <= |s|
    decreases |s|
  {
    if s == [] then []
    else match LinkPrefix(s)
      case Some(LinkMatch(linkText, n)) => linkText + ReplaceLinks(s[n..])
      case None => [s[0]] + ReplaceLinks(s[1..])
  }

  /** Nothing is added: a label is text of the input, and so is every character kept. */
  lemma {:induction false} ReplaceLinksChars(s: string)
    ensures forall i :: 0 <= i < |ReplaceLinks(s)| ==> ReplaceLinks(s)[i] in s
    decreases |s|
  {
    if s != [] {
      match LinkPrefix(s)
      case Some(LinkMatch(linkText, n)) =>
        var rest := ReplaceLinks(s[n..]);
        ReplaceLinksChars(s[n..]);
        assert ReplaceLinks(s) == linkText + rest;
        forall i | 0 <= i < |linkText| ensures linkText[i] in s {
          assert linkText[i] == s[i + 1];
        }
        forall i | 0 <= i < |rest| ensures rest[i] in s {
          InSuffix(s, n, rest[i]);
        }
      case None =>
        var rest := ReplaceLinks(s[1..]);
        ReplaceLinksChars(s[1..]);
        assert ReplaceLinks(s) == [s[0]] + rest;
        forall i | 0 <= i < |rest| ensures rest[i] in s {
          InSuffix(s, 1, rest[i]);
        }
    }
  }

  /** A match starts with `[`. */
  lemma NoLinkWithoutBracket(s: string)
    requires s != [] && s[0] != '['
    ensures LinkPrefix(s).None?
  {
  }

  /** A link at the front is replaced by its label and the rest is processed on its own. */
  lemma ReplaceLinksOfLink(linkText: string, target: string, rest: string)
    requires 0 < |linkText| && forall k :: 0 <= k < |linkText| ==> linkText[k] != ']'
    requires 0 < |target| && forall k :: 0 <= k < |target| ==> target[k] != ')'
    ensures ReplaceLinks("[" + linkText + "](" + target + ")" + rest) == linkText + ReplaceLinks(rest)
  {
    var s := "[" + linkText + "](" + target + ")" + rest;
    LinkPrefixOf(linkText, target, rest);
    assert s[|linkText| + |target| + 4..] == rest;
  }

  /** A text without `[` holds no link and goes through unchanged. */
  lemma {:induction false} ReplaceLinksPlain(s: string)
    requires forall i :: 0 <= i < |s| ==> s[i] != '['
    ensures ReplaceLinks(s) == s
    decreases |s|
  {
    if s != [] {
      ReplaceLinksPlain(s[1..]);
    }
  }

  /** Text before the first `[` is copied as it is, wherever the first link then sits. */
  lemma {:induction false} ReplaceLinksPrefix(p: string, s: string)
    requires forall k :: 0 <= k < |p| ==> p[k] != '['
    ensures ReplaceLinks(p + s) == p + ReplaceLinks(s)
    decreases |p|
  {
    if p == [] {
      assert p + s == s;
    } else {
      var t := p + s;
      assert t[0] == p[0] && t[1..] == p[1..] + s;
      NoLinkWithoutBracket(t);
      ReplaceLinksNoMatch(t);
      ReplaceLinksPrefix(p[1..], s);
      assert [p[0]] + (p[1..] + ReplaceLinks(s)) == p + ReplaceLinks(s);
    }
  }

  /** A `[` that opens no link is kept, and scanning goes on from the next character. */
  lemma ReplaceLinksNoMatch(s: string)
    requires s != [] && LinkPrefix(s).None?
    ensures ReplaceLinks(s) == [s[0]] + ReplaceLinks(s[1..])
  {
  }

  /** A text without `]` holds no link and is left as it is, `[` included. */
  lemma {:induction false} ReplaceLinksNoClose(s: string)
    requires forall i :: 0 <= i < |s| ==> s[i] != ']'
    ensures ReplaceLinks(s) == s
    decreases |s|
  {
    if s != [] {
      assert LinkPrefix(s).None?;
      ReplaceLinksNoClose(s[1..]);
    }
  }

  /** A bracketed word not followed by `(` is no link: "[a]b" is left as it is. */
  lemma StrayBracketKept()
    ensures ReplaceLinks("[a]b") == "[a]b"
  {
    var s := "[a]b";
    IndexOfAt(s, ']', 1, 2);
    assert LinkPrefix(s).None?;
    ReplaceLinksNoMatch(s);
    assert s[1..] == "a]b" + [];
    ReplaceLinksPrefix("a]b", []);
  }

  /** `^` of an `m`-flag regex: the start of the text or just after a line terminator. */
  predicate AtLineStart(s: string, i: nat) {
    i == 0 || (0 < i <= |s| && JsLineTerminator(s[i - 1]))
  }

  /** The text from i to k is a match of `\s*[-+]\s+`: blanks, one `-` or `+`
      at j, then blanks up to k, the last run taken whole. */
  predicate BulletShape(s: string, i: nat, j: nat, k: nat) {
    && i <= j && j + 1 < k <= |s|
    && (forall m :: i <= m < j ==> JsSpace(s[m]))
    && (s[j] == '-' || s[j] == '+')
    && (forall m :: j < m < k ==> JsSpace(s[m]))
    && (k < |s| ==> !JsSpace(s[k]))
  }

  /** A match of `\s*[-+]\s+` at index i: where the match ends. */
  function BulletAt(s: string, i: nat): (r: Option<nat>)
    requires i <= |s|
    ensures r.Some? ==> i < r.value <= |s| && BulletShape(s, i, RunEnd(s, i, JsSpace), r.value)
  {
    var j := RunEnd(s, i, JsSpace);
    if j < |s| && (s[j] == '-' || s[j] == '+') then
      var k := RunEnd(s, j + 1, JsSpace);
      if j + 1 < k then Some(k) else None
    else None
  }

  /** There is no match only when no text from i has the bullet shape. */
  lemma BulletAtNone(s: string, i: nat)
    requires i <= |s| && BulletAt(s, i).None?
    ensures forall j, k :: !BulletShape(s, i, j, k)
  {
    forall j, k | BulletShape(s, i, j, k) ensures false {
      BulletAtShape(s, i, j, k);
    }
  }

  /** `.replace(/^\s*[-+]\s+/gm, '')` applied to the text from index i on; the
      line starts are those of the whole text. */
  function StripBulletsFrom(s: string, i: nat): (r: string)
    requires i <= |s|
    ensures |r| <= |s| - i
    decreases |s| - i
  {
    if i == |s| then []
    else if AtLineStart(s, i) && BulletAt(s, i).Some? then StripBulletsFrom(s, BulletAt(s, i).value)
    else [s[i]] + StripBulletsFrom(s, i + 1)
  }

  /** Nothing is added: every character kept comes from the input. */
  lemma {:induction false} StripBulletsChars(s: string, i: nat)
    requires i <= |s|
    ensures forall m :: 0 <= m < |StripBulletsFrom(s, i)| ==> StripBulletsFrom(s, i)[m] in s
    decreases |s| - i
  {
    if i < |s| {
      if AtLineStart(s, i) && BulletAt(s, i).Some? {
        StripBulletsChars(s, BulletAt(s, i).value);
      } else {
        StripBulletsChars(s, i + 1);
      }
    }
  }

  function StripBullets(s: string): string {
    StripBulletsFrom(s, 0)
  }

  /** Any text of the bullet shape is the match `BulletAt` finds. */
  lemma BulletAtShape(s: string, i: nat, j: nat, k: nat)
    requires i <= |s| && BulletShape(s, i, j, k)
    ensures BulletAt(s, i) == Some(k)
  {
    RunEndAt(s, i, j, JsSpace);
    RunEndAt(s, j + 1, k, JsSpace);
  }

  /** At a line start, a match is dropped: when the text from i to k has the
      bullet shape, the output from i is the output from k. */
  lemma BulletRemoved(s: string, i: nat, j: nat, k: nat)
    requires i <= |s| && AtLineStart(s, i) && BulletShape(s, i, j, k)
    ensures StripBulletsFrom(s, i) == StripBulletsFrom(s, k)
  {
    BulletAtShape(s, i, j, k);
  }

  /** Where no bullet opens, the character is kept and scanning goes on from the next one. */
  lemma StripBulletsNoMatch(s: string, i: nat)
    requires i < |s| && !(AtLineStart(s, i) && BulletAt(s, i).Some?)
    ensures StripBulletsFrom(s, i) == [s[i]] + StripBulletsFrom(s, i + 1)
  {
  }

  /** A text without `-` and `+` goes through unchanged. */
  lemma {:induction false} StripBulletsPlain(s: string, i: nat)
    requires i <= |s|
    requires forall k :: i <= k < |s| ==> s[k] != '-' && s[k] != '+'
    ensures StripBulletsFrom(s, i) == s[i..]
    decreases |s| - i
  {
    if i < |s| {
      StripBulletsPlain(s, i + 1);
      assert s[i..] == [s[i]] + s[i + 1..];
    }
  }

  /** Where no line start from i on opens a bullet, nothing is removed: a `-`
      or `+` inside a line, as in "well-known", stays. */
  lemma {:induction false} StripBulletsKeepsAll(s: string, i: nat)
    requires i <= |s|
    requires forall k :: i <= k < |s| && AtLineStart(s, k) ==> BulletAt(s, k).None?
    ensures StripBulletsFrom(s, i) == s[i..]
    decreases |s| - i
  {
    if i < |s| {
      StripBulletsKeepsAll(s, i + 1);
      assert s[i..] == [s[i]] + s[i + 1..];
    }
  }

  /** A single line that starts with a character other than a blank, `-` or `+` loses nothing. */
  lemma OneLineKept(s: string)
    requires forall k :: 0 <= k < |s| ==> !JsLineTerminator(s[k])
    requires s == [] || (!JsSpace(s[0]) && s[0] != '-' && s[0] != '+')
    ensures StripBullets(s) == s
  {
    if s != [] {
      assert RunEnd(s, 0, JsSpace) == 0;
    }
    StripBulletsKeepsAll(s, 0);
  }

  /** "well-known" keeps its hyphen. */
  lemma HyphenInWordKept()
    ensures StripBullets("well-known") == "well-known"
  {
    OneLineKept("well-known");
  }

  /** The text after its leading newlines. */
  function DropNewlines(s: string): (r: string)
    ensures |r| <= |s|
    ensures r == [] || r[0] != '\n'
  {
    if s == [] || s[0] != '\n' then s else DropNewlines(s[1..])
  }

  /** What is dropped is a run of newlines at the front: the result is a suffix of the text. */
  lemma {:induction false} DropNewlinesSuffix(s: string)
    ensures DropNewlines(s) == s[|s| - |DropNewlines(s)|..]
    ensures forall k :: 0 <= k < |s| - |DropNewlines(s)| ==> s[k] == '\n'
    decreases |s|
  {
    if s != [] && s[0] == '\n' {
      DropNewlinesSuffix(s[1..]);
    }
  }

  /** `.replace(/\n+/g, ' ')`: each maximal run of newlines becomes one space. */
  function CollapseNewlines(s: string): (r: string)
    ensures forall i :: 0 <= i < |r| ==> r[i] != '\n'
    decreases |s|
  {
    if s == [] then []
    else if s[0] == '\n' then " " + CollapseNewlines(DropNewlines(s))
    else [s[0]] + CollapseNewlines(s[1..])
  }

  /** Every character of the collapsed text is a space or comes from the input. */
  lemma {:induction false} CollapseNewlinesChars(s: string)
    ensures forall i :: 0 <= i < |CollapseNewlines(s)| ==> CollapseNewlines(s)[i] == ' ' || CollapseNewlines(s)[i] in s
    decreases |s|
  {
    if s == [] {
    } else if s[0] == '\n' {
      var t := DropNewlines(s);
      var rest := CollapseNewlines(t);
      CollapseNewlinesChars(t);
      DropNewlinesSuffix(s);
      forall i | 0 <= i < |rest| && rest[i] != ' ' ensures rest[i] in s {
        InSuffix(s, |s| - |t|, rest[i]);
      }
    } else {
      var rest := CollapseNewlines(s[1..]);
      CollapseNewlinesChars(s[1..]);
      forall i | 0 <= i < |rest| && rest[i] != ' ' ensures rest[i] in s {
        InSuffix(s, 1, rest[i]);
      }
    }
  }

  /** n newlines. */
  function Newlines(n: nat): (r: string)
    ensures |r| == n && forall k :: 0 <= k < n ==> r[k] == '\n'
  {
    if n == 0 then [] else "\n" + Newlines(n - 1)
  }

  /** Dropping the leading newlines of a run followed by a non-newline leaves what follows. */
  lemma {:induction false} DropNewlinesRun(n: nat, b: string)
    requires b == [] || b[0] != '\n'
    ensures DropNewlines(Newlines(n) + b) == b
  {
    if n == 0 {
      assert Newlines(n) + b == b;
    } else {
      assert (Newlines(n) + b)[1..] == Newlines(n - 1) + b;
      DropNewlinesRun(n - 1, b);
    }
  }

  /** Leading newlines of `a` are all there is to drop when `a` holds another character. */
  lemma {:induction false} DropNewlinesAppend(a: string, t: string)
    requires DropNewlines(a) != []
    ensures DropNewlines(a + t) == DropNewlines(a) + t
  {
    assert a != [];
    assert (a + t)[0] == a[0];
    if a[0] == '\n' {
      assert DropNewlines(a) == DropNewlines(a[1..]);
      assert (a + t)[1..] == a[1..] + t;
      assert DropNewlines(a + t) == DropNewlines(a[1..] + t);
      DropNewlinesAppend(a[1..], t);
    } else {
      assert DropNewlines(a) == a;
    }
  }

  /** A maximal run of newlines between two pieces becomes exactly one space,
      and the pieces on either side are collapsed on their own. */
  lemma {:induction false} CollapseRun(a: string, n: nat, b: string)
    requires 0 < n
    requires a == [] || a[|a| - 1] != '\n'
    requires b == [] || b[0] != '\n'
    ensures CollapseNewlines(a + (Newlines(n) + b)) == CollapseNewlines(a) + (" " + CollapseNewlines(b))
    decreases |a|
  {
    var t, u := Newlines(n) + b, " " + CollapseNewlines(b);
    if a == [] {
      assert a + t == t;
      CollapseRunFirst(n, b);
    } else if a[0] != '\n' {
      CollapseRun(a[1..], n, b);
      CollapseStep(a, t, u);
    } else {
      DropNewlinesLeavesLast(a);
      CollapseRun(DropNewlines(a), n, b);
      CollapseSkip(a, t, u);
    }
  }

  /** A run of newlines at the very start becomes one space. */
  lemma CollapseRunFirst(n: nat, b: string)
    requires 0 < n
    requires b == [] || b[0] != '\n'
    ensures CollapseNewlines(Newlines(n) + b) == " " + CollapseNewlines(b)
  {
    var s := Newlines(n) + b;
    assert s[0] == '\n';
    assert CollapseNewlines(s) == " " + CollapseNewlines(DropNewlines(s));
    DropNewlinesRun(n, b);
  }

  /** A character other than a newline in front is copied. */
  lemma CollapseHead(s: string)
    requires s != [] && s[0] != '\n'
    ensures CollapseNewlines(s) == [s[0]] + CollapseNewlines(s[1..])
  {
  }

  /** A leading non-newline character is copied, whatever follows. */
  lemma CollapseStep(a: string, t: string, u: string)
    requires a != [] && a[0] != '\n'
    requires CollapseNewlines(a[1..] + t) == CollapseNewlines(a[1..]) + u
    ensures CollapseNewlines(a + t) == CollapseNewlines(a) + u
  {
    assert (a + t)[0] == a[0] && (a + t)[1..] == a[1..] + t;
    CollapseHead(a + t);
    CollapseHead(a);
    var x := CollapseNewlines(a[1..]);
    assert [a[0]] + (x + u) == ([a[0]] + x) + u;
  }

  /** A leading run of newlines inside `a` becomes one space, whatever follows `a`. */
  lemma CollapseSkip(a: string, t: string, u: string)
    requires a != [] && a[0] == '\n' && DropNewlines(a) != []
    requires CollapseNewlines(DropNewlines(a) + t) == CollapseNewlines(DropNewlines(a)) + u
    ensures CollapseNewlines(a + t) == CollapseNewlines(a) + u
  {
    DropNewlinesAppend(a, t);
  }

  /** A text that does not end in a newline keeps its last character when its leading newlines go. */
  lemma DropNewlinesLeavesLast(a: string)
    requires a != [] && a[|a| - 1] != '\n'
    ensures DropNewlines(a) != []
    ensures DropNewlines(a)[|DropNewlines(a)| - 1] != '\n'
  {
    var d := DropNewlines(a);
    DropNewlinesSuffix(a);
    assert d != [] by {
      assert !(forall k :: 0 <= k < |a| ==> a[k] == '\n') by {
        assert a[|a| - 1] != '\n';
      }
    }
    assert d[|d| - 1] == a[|a| - 1];
  }

  /** A text without newlines goes through unchanged. */
  lemma {:induction false} CollapsePlain(s: string)
    requires forall i :: 0 <= i < |s| ==> s[i] != '\n'
    ensures CollapseNewlines(s) == s
  {
    if s != [] {
      CollapsePlain(s[1..]);
    }
  }

  /** The text `handleSpeak` hands to the narrator: no markdown symbol and no
      newline is left in it. */
  function NarrationText(s: string): (r: string)
    ensures forall i :: 0 <= i < |r| ==> !MarkdownSymbol(r[i]) && r[i] != '\n'
  {
    var plain := RemoveSymbols(s);
    var unlinked := ReplaceLinks(plain);
    var unlisted := StripBullets(unlinked);
    var r := CollapseNewlines(unlisted);
    assert forall i :: 0 <= i < |r| ==> !MarkdownSymbol(r[i]) by {
      ReplaceLinksChars(plain);
      StripBulletsChars(unlinked, 0);
      CollapseNewlinesChars(unlisted);
      forall i | 0 <= i < |r| ensures !MarkdownSymbol(r[i]) {
        if r[i] != ' ' {
          var a :| 0 <= a < |unlisted| && unlisted[a] == r[i];
          var b :| 0 <= b < |unlinked| && unlinked[b] == r[i];
          var c :| 0 <= c < |plain| && plain[c] == r[i];
        }
      }
    }
    r
  }

  /** The lang code computed for `speak`. */
  function LangCode(language: string): (r: string)
    ensures r == "hi-IN" <==> language == "Hindi"
    ensures r != "hi-IN" ==> r == "en-US"
  {
    if language == "Hindi" then "hi-IN" else "en-US"
  }

  // ---------------------------------------------------------------------------
  // The component's state: the translation cache and the narration toggle.
  // ---------------------------------------------------------------------------

  /** `translations[language]` is truthy: present and not the empty string. */
  predicate Cached(translations: map<string, string>, language: string) {
    language in translations && translations[language] != []
  }

  /** The saved cache belongs to this content: its English entry equals it. */
  predicate SavedFor(saved: Option<map<string, string>>, content: string) {
    saved.Some? && "English" in saved.value && saved.value["English"] == content
  }

  class Guide {
    /** The `content` prop: the English study guide. */
    var content: string
    var currentLanguage: string
    var translations: map<string, string>
    /** The session-storage entry "study_guide_translations", decoded. */
    var saved: Option<map<string, string>>
    var isTranslating: bool
    /** The languages a translation request has been sent for. */
    ghost var asked: set<string>
    /** The narration hook this view uses. */
    const tts: Narrator

    /** The English entry is always cached. */
    ghost predicate Valid()
      reads this, tts
    {
      tts.Valid() && "English" in translations
    }

    /** Mounting: the initial state, then the content effect. */
    constructor (content: string, saved: Option<map<string, string>>, tts: Narrator)
      requires tts.Valid()
      ensures Valid() && this.content == content && this.tts == tts
      ensures SavedFor(saved, content) ==>
        translations == saved.value && this.saved == saved && currentLanguage == "English"
      ensures !SavedFor(saved, content) ==>
        translations == map["English" := content] && this.saved == Some(translations)
        && currentLanguage == "English"
    {
      this.content := content;
      this.currentLanguage := "English";
      this.translations := map["English" := content];
      this.saved := saved;
      this.isTranslating := false;
      this.asked := {};
      this.tts := tts;
      new;
      ContentChanged(content);
    }

    /** The effect on `content`: reuse the saved cache when it is for this
        content, otherwise start over from the English text alone. */
    method ContentChanged(newContent: string)
      requires Valid()
      modifies this`content, this`translations, this`saved, this`currentLanguage
      ensures Valid() && content == newContent
      ensures SavedFor(old(saved), newContent) ==>
        translations == old(saved).value && saved == old(saved) && currentLanguage == old(currentLanguage)
      ensures !SavedFor(old(saved), newContent) ==>
        translations == map["English" := newContent] && saved == Some(translations)
        && currentLanguage == "English"
    {
      content := newContent;
      if SavedFor(saved, newContent) {
        translations := saved.value;
        return;
      }
      translations := map["English" := newContent];
      saved := Some(translations);
      currentLanguage := "English";
    }

    /** `handleTranslate(language)` up to its `await`: switch to the language,
        and send a request only when the cache has no text for it. The view
        shows the new language while the request is in flight. */
    method TranslateStart(language: string) returns (requested: bool)
      requires Valid()
      modifies this`currentLanguage, this`isTranslating, this`asked
      ensures Valid() && currentLanguage == language
      ensures requested <==> !Cached(translations, language)
      ensures requested ==> isTranslating && asked == old(asked) + {language}
      ensures !requested ==> isTranslating == old(isTranslating) && asked == old(asked)
    {
      currentLanguage := language;
      if Cached(translations, language) {
        return false;
      }
      isTranslating := true;
      asked := asked + {language};
      return true;
    }

    /** The rest of `handleTranslate(language)`, when the request sent for
        `language` settles: `response` is the translated text, or None when
        the request fails. */
    method TranslateDone(language: string, response: Option<string>)
      requires Valid() && language in asked
      modifies this`currentLanguage, this`translations, this`saved, this`isTranslating
      ensures Valid() && !isTranslating
      ensures response.Some? ==>
        translations == old(translations)[language := response.value] && saved == Some(translations)
        && currentLanguage == old(currentLanguage)
      ensures response.None? ==>
        currentLanguage == "English" && translations == old(translations) && saved == old(saved)
    {
      if response.Some? {
        translations := translations[language := response.value];
        saved := Some(translations);
      } else {
        currentLanguage := "English";
      }
      isTranslating := false;
    }

    /** `handleSpeak()`: while speaking, stop; otherwise narrate the current
        language's text, stripped of markdown. The lang code is computed and
        returned but `speak` drops it. `ok` is false when the cache holds no
        entry for the current language, as while a translation is in flight:
        `.replace` on `undefined` throws and nothing is sent. */
    method HandleSpeak(voices: seq<Voice>) returns (ok: bool, lang: Option<string>)
      requires Valid()
      modifies tts
      ensures Valid()
      ensures old(tts.isSpeaking) ==>
        ok && lang == None && tts.log == old(tts.log) + [CancelSpeech] && !tts.isSpeaking
      ensures !old(tts.isSpeaking) && currentLanguage in translations ==>
        var text := NarrationText(translations[currentLanguage]);
        && ok && lang == Some(LangCode(currentLanguage))
        && tts.log == old(tts.log) + (if text == [] then [] else [CancelSpeech, Submit(Utterance(text, PickVoice(voices)))])
      ensures !old(tts.isSpeaking) && currentLanguage !in translations ==>
        !ok && lang == None && tts.log == old(tts.log)
    {
      if tts.isSpeaking {
        tts.Cancel();
        return true, None;
      }
      if currentLanguage !in translations {
        return false, None;
      }
      var text := NarrationText(translations[currentLanguage]);
      var code := LangCode(currentLanguage);
      tts.Speak(text, voices);
      return true, Some(code);
    }
  }

  /** Listening while a translation is in flight: the view already shows the
      new language, the cache has no entry for it yet, and `handleSpeak` throws
      before sending anything. */
  method SpeakWhileTranslating(content: string, tts: Narrator, voices: seq<Voice>) returns (ok: bool)
    requires tts.Valid() && !tts.isSpeaking
    modifies tts
    ensures !ok && tts.log == old(tts.log)
  {
    var g := new Guide(content, None, tts);
    var requested := g.TranslateStart("Hindi");
    var lang;
    ok, lang := g.HandleSpeak(voices);
  }
}
