/**
 * The JavaScript string operations the content layer relies on: `trim`, the
 * `\s` character class, `replace(/\s+/g, " ")`, `split(/\n{2,}/)[0]`,
 * ASCII case mapping, code-unit comparison with `<`, `includes`, `join`,
 * `endsWith` and integer-to-decimal conversion.
 */
module Text {

  /**
   * The code points JavaScript counts as white space or line terminators:
   * the set `String.prototype.trim` removes and the regular-expression class
   * `\s` matches.
   */
  predicate IsSpace(c: char) {
    || c == '\t' || c == '\n' || c == '\U{000B}' || c == '\U{000C}' || c == '\r'
    || c == ' ' || c == '\U{00A0}' || c == '\U{1680}'
    || ('\U{2000}' <= c <= '\U{200A}')
    || c == '\U{2028}' || c == '\U{2029}' || c == '\U{202F}' || c == '\U{205F}'
    || c == '\U{3000}' || c == '\U{FEFF}'
  }

  /** Every character is white space (the empty string included). */
  predicate IsBlank(s: string) {
    forall k :: 0 <= k < |s| ==> IsSpace(s[k])
  }

  /** Neither end of `s` is white space. */
  predicate IsTrimmed(s: string) {
    s == [] || (!IsSpace(s[0]) && !IsSpace(s[|s| - 1]))
  }

  /** `s` with its leading white space removed. */
  function TrimStart(s: string): (r: string)
    ensures |r| <= |s| && r == s[|s| - |r|..]
    ensures IsBlank(s[..|s| - |r|])
    ensures r == [] || !IsSpace(r[0])
  {
    if |s| > 0 && IsSpace(s[0]) then
      var t := s[1..];
      var r := TrimStart(t);
      assert t[|t| - |r|..] == s[|s| - |r|..];
      assert s[..|s| - |r|] == [s[0]] + t[..|t| - |r|];
      r
    else
      assert s[..0] == [];
      s
  }

  /** `s` with its trailing white space removed. */
  function TrimEnd(s: string): (r: string)
    ensures |r| <= |s| && r == s[..|r|]
    ensures IsBlank(s[|r|..])
    ensures r == [] || !IsSpace(r[|r| - 1])
  {
    if |s| > 0 && IsSpace(s[|s| - 1]) then
      var r := TrimEnd(s[..|s| - 1]);
      assert s[|r|..] == s[..|s| - 1][|r|..] + [s[|s| - 1]];
      r
    else
      s
  }

  /** `String.prototype.trim`. */
  function Trim(s: string): (r: string)
    ensures |r| <= |s|
  {
    TrimEnd(TrimStart(s))
  }

  /**
   * The result of `trim` starts and ends with a character that is not white
   * space, and it is empty exactly when the input is all white space.
   */
  lemma TrimMeaning(s: string)
    ensures IsTrimmed(Trim(s))
    ensures Trim(s) == [] <==> IsBlank(s)
  {
    TrimmedEnds(s);
    TrimmedBlank(s);
  }

  /** Trimming both ends leaves neither end white space. */
  lemma TrimmedEnds(s: string)
    ensures IsTrimmed(TrimEnd(TrimStart(s)))
  {
    var t := TrimStart(s);
    var r := TrimEnd(t);
    assert r != [] ==> r[0] == t[0];
  }

  /** Trimming both ends leaves nothing exactly when the string is blank. */
  lemma TrimmedBlank(s: string)
    ensures TrimEnd(TrimStart(s)) == [] <==> IsBlank(s)
  {
    var t := TrimStart(s);
    var r := TrimEnd(t);
    var n := |s| - |t|;
    if r == [] {
      assert t[|r|..] == t;
      forall k | 0 <= k < |s|
        ensures IsSpace(s[k])
      {
        if k < n {
          assert s[k] == s[..n][k];
        } else {
          assert s[k] == t[k - n];
        }
      }
    } else {
      assert t[0] == s[n];
    }
  }

  /** Trimming twice is trimming once. */
  lemma TrimIdempotent(s: string)
    ensures Trim(Trim(s)) == Trim(s)
  {
    var r := Trim(s);
    if r != [] {
      assert TrimStart(r) == r;
      assert TrimEnd(r) == r;
    }
  }

  /** `Trim(s)` is a slice of `s`, starting after its leading white space. */
  lemma TrimSlice(s: string)
    ensures |s| - |TrimStart(s)| + |Trim(s)| <= |s|
    ensures Trim(s) == s[|s| - |TrimStart(s)|..|s| - |TrimStart(s)| + |Trim(s)|]
  {
  }

  /** Trimming removes white space only, so it keeps the visible characters. */
  lemma VisibleTrim(s: string)
    ensures Visible(Trim(s)) == Visible(s)
  {
    VisibleTrimStart(s);
    VisibleTrimEnd(TrimStart(s));
  }

  /** Removing leading white space keeps the visible characters. */
  lemma VisibleTrimStart(s: string)
    ensures Visible(TrimStart(s)) == Visible(s)
  {
    var t := TrimStart(s);
    VisibleSplit(s, |s| - |t|);
    VisibleOfBlank(s[..|s| - |t|]);
  }

  /** Removing trailing white space keeps the visible characters. */
  lemma VisibleTrimEnd(t: string)
    ensures Visible(TrimEnd(t)) == Visible(t)
  {
    var r := TrimEnd(t);
    VisibleSplit(t, |r|);
    VisibleOfBlank(t[|r|..]);
  }

  /** No two neighbouring characters are both white space. */
  predicate NoSpaceRuns(s: string) {
    forall k :: 0 < k < |s| ==> !(IsSpace(s[k - 1]) && IsSpace(s[k]))
  }

  /** The characters of `s` that are not white space, in order. */
  function Visible(s: string): string {
    if s == [] then [] else (if IsSpace(s[0]) then [] else [s[0]]) + Visible(s[1..])
  }

  lemma {:induction false} VisibleOfBlank(s: string)
    requires IsBlank(s)
    ensures Visible(s) == []
  {
    if s != [] {
      VisibleOfBlank(s[1..]);
    }
  }

  lemma {:induction false} VisibleSplit(s: string, n: nat)
    requires n <= |s|
    ensures Visible(s) == Visible(s[..n]) + Visible(s[n..])
  {
    if n > 0 {
      VisibleSplit(s[1..], n - 1);
      assert s[1..][..n - 1] == s[1..n];
      assert s[1..][n - 1..] == s[n..];
      assert s[..n][1..] == s[1..n];
    } else {
      assert s[n..] == s;
    }
  }

  /**
   * `s.replace(/\s+/g, " ")`: each maximal run of white space becomes one
   * space.  The visible characters are kept in order, every remaining white
   * space character is a plain space, and no two are adjacent.
   */
  function CollapseSpaces(s: string): (r: string)
    ensures forall k :: 0 <= k < |r| && IsSpace(r[k]) ==> r[k] == ' '
    ensures NoSpaceRuns(r)
    ensures s == [] <==> r == []
    ensures s != [] ==> (IsSpace(r[0]) <==> IsSpace(s[0]))
    decreases |s|
  {
    if s == [] then []
    else if IsSpace(s[0]) then " " + CollapseSpaces(TrimStart(s[1..]))
    else [s[0]] + CollapseSpaces(s[1..])
  }

  /** Collapsing keeps the visible characters, in order. */
  lemma {:induction false} CollapseKeepsVisible(s: string)
    ensures Visible(CollapseSpaces(s)) == Visible(s)
    decreases |s|, 1
  {
    if s != [] {
      if IsSpace(s[0]) {
        CollapseKeepsVisibleAfterSpace(s);
      } else {
        CollapseKeepsVisible(s[1..]);
        assert CollapseSpaces(s) == [s[0]] + CollapseSpaces(s[1..]);
      }
    }
  }

  /** `CollapseKeepsVisible` for a string that starts with white space. */
  lemma {:induction false} CollapseKeepsVisibleAfterSpace(s: string)
    requires s != [] && IsSpace(s[0])
    ensures Visible(CollapseSpaces(s)) == Visible(s)
    decreases |s|, 0
  {
    var t := s[1..];
    var rest := TrimStart(t);
    CollapseKeepsVisible(rest);
    VisibleSplit(t, |t| - |rest|);
    VisibleOfBlank(t[..|t| - |rest|]);
    assert CollapseSpaces(s) == " " + CollapseSpaces(rest);
    assert Visible(s) == Visible(t);
  }

  /** The collapsed string ends in white space exactly when the input does. */
  lemma {:induction false} CollapseEnd(s: string)
    requires s != []
    ensures IsSpace(CollapseSpaces(s)[|CollapseSpaces(s)| - 1]) <==> IsSpace(s[|s| - 1])
    decreases |s|, 1
  {
    if IsSpace(s[0]) {
      CollapseEndAfterSpace(s);
    } else {
      CollapseEndAfterVisible(s);
    }
  }

  /** `CollapseEnd` for a string that starts with white space. */
  lemma {:induction false} CollapseEndAfterSpace(s: string)
    requires s != [] && IsSpace(s[0])
    ensures IsSpace(CollapseSpaces(s)[|CollapseSpaces(s)| - 1]) <==> IsSpace(s[|s| - 1])
    decreases |s|, 0
  {
    var r := CollapseSpaces(s);
    var t := s[1..];
    var rest := TrimStart(t);
    var c := CollapseSpaces(rest);
    assert r == " " + c;
    if rest == [] {
      assert c == [];
      assert IsBlank(t[..|t|]);
      assert t[..|t|] == t;
      assert |s| > 1 ==> s[|s| - 1] == t[|t| - 1];
    } else {
      CollapseEnd(rest);
      assert r[|r| - 1] == c[|c| - 1];
      assert rest[|rest| - 1] == s[|s| - 1];
    }
  }

  /** `CollapseEnd` for a string that starts with a visible character. */
  lemma {:induction false} CollapseEndAfterVisible(s: string)
    requires s != [] && !IsSpace(s[0])
    ensures IsSpace(CollapseSpaces(s)[|CollapseSpaces(s)| - 1]) <==> IsSpace(s[|s| - 1])
    decreases |s|, 0
  {
    var r := CollapseSpaces(s);
    var c := CollapseSpaces(s[1..]);
    assert r == [s[0]] + c;
    if |s| > 1 {
      CollapseEnd(s[1..]);
      assert r[|r| - 1] == c[|c| - 1];
      assert s[1..][|s| - 2] == s[|s| - 1];
    }
  }

  /** Collapsing is idempotent: a collapsed string has nothing left to collapse. */
  lemma {:induction false} CollapseIdempotent(s: string)
    requires NoSpaceRuns(s)
    requires forall k :: 0 <= k < |s| && IsSpace(s[k]) ==> s[k] == ' '
    ensures CollapseSpaces(s) == s
    decreases |s|
  {
    if s != [] {
      if IsSpace(s[0]) {
        assert |s| > 1 ==> !IsSpace(s[1]);
        assert TrimStart(s[1..]) == s[1..];
      }
      CollapseIdempotent(s[1..]);
    }
  }

  /** The longest prefix of `s` that holds no white space. */
  function TakeWord(s: string): (w: string)
    ensures w <= s
    ensures forall k :: 0 <= k < |w| ==> !IsSpace(w[k])
    ensures |w| < |s| ==> IsSpace(s[|w|])
    ensures s != [] && !IsSpace(s[0]) ==> w != []
  {
    if s == [] || IsSpace(s[0]) then [] else [s[0]] + TakeWord(s[1..])
  }

  /**
   * The words of `s`: its maximal runs of characters that are not white
   * space, in order.  This is the reference the white-space collapse is
   * measured against.
   */
  function Tokens(s: string): seq<string>
    decreases |s|
  {
    if s == [] then []
    else if IsSpace(s[0]) then Tokens(s[1..])
    else
      var w := TakeWord(s);
      [w] + Tokens(s[|w|..])
  }

  /** A character that is not white space either starts a new word or extends the first one. */
  lemma TokensCons(c: char, t: string)
    requires !IsSpace(c)
    ensures t == [] || IsSpace(t[0]) ==> Tokens([c] + t) == [[c]] + Tokens(t)
    ensures t != [] && !IsSpace(t[0]) ==>
      Tokens(t) != [] && Tokens([c] + t) == [[c] + Tokens(t)[0]] + Tokens(t)[1..]
  {
    var s := [c] + t;
    assert s[1..] == t;
    if t == [] || IsSpace(t[0]) {
      assert TakeWord(t) == [];
      assert TakeWord(s) == [c];
      assert Tokens(s) == [[c]] + Tokens(s[1..]);
    } else {
      var w := TakeWord(t);
      assert TakeWord(s) == [c] + w;
      assert s[|[c] + w|..] == t[|w|..];
      assert Tokens(t) == [w] + Tokens(t[|w|..]);
      assert Tokens(s) == [[c] + w] + Tokens(t[|w|..]);
    }
  }

  /** A blank string has no words. */
  lemma {:induction false} TokensOfBlank(s: string)
    requires IsBlank(s)
    ensures Tokens(s) == []
  {
    if s != [] {
      TokensOfBlank(s[1..]);
    }
  }

  /** Leading white space does not change the words. */
  lemma {:induction false} TokensSkipBlank(s: string, n: nat)
    requires n <= |s| && IsBlank(s[..n])
    ensures Tokens(s[n..]) == Tokens(s)
  {
    if n > 0 {
      assert s[..n][0] == s[0];
      assert s[1..][..n - 1] == s[1..n];
      TokensSkipBlank(s[1..], n - 1);
      assert s[1..][n - 1..] == s[n..];
    }
  }

  /** Trailing white space does not change the words. */
  lemma {:induction false} TokensAppendBlank(a: string, b: string)
    requires IsBlank(b)
    ensures Tokens(a + b) == Tokens(a)
    decreases |a|
  {
    if a == [] {
      assert a + b == b;
      TokensOfBlank(b);
    } else {
      TokensAppendBlank(a[1..], b);
      assert (a + b)[1..] == a[1..] + b;
      if !IsSpace(a[0]) {
        assert a + b == [a[0]] + (a[1..] + b);
        assert a == [a[0]] + a[1..];
        TokensCons(a[0], a[1..] + b);
        TokensCons(a[0], a[1..]);
      }
    }
  }

  /** Trimming keeps the words. */
  lemma TokensTrim(s: string)
    ensures Tokens(Trim(s)) == Tokens(s)
  {
    TokensTrimStart(s);
    TokensTrimEnd(TrimStart(s));
  }

  /** Dropping leading white space keeps the words. */
  lemma TokensTrimStart(s: string)
    ensures Tokens(TrimStart(s)) == Tokens(s)
  {
    var t := TrimStart(s);
    TokensSkipBlank(s, |s| - |t|);
  }

  /** Dropping trailing white space keeps the words. */
  lemma TokensTrimEnd(t: string)
    ensures Tokens(TrimEnd(t)) == Tokens(t)
  {
    var r := TrimEnd(t);
    assert t == r + t[|r|..];
    TokensAppendBlank(r, t[|r|..]);
  }

  /**
   * Collapsing keeps the words: together with the shape `CollapseSpaces`
   * ensures (single plain spaces, white space at an end exactly where the
   * input has it), the result is the words joined by single spaces.
   */
  lemma {:induction false} CollapseKeepsTokens(s: string)
    ensures Tokens(CollapseSpaces(s)) == Tokens(s)
    decreases |s|
  {
    if s != [] {
      var r := CollapseSpaces(s);
      if IsSpace(s[0]) {
        var rest := TrimStart(s[1..]);
        CollapseKeepsTokens(rest);
        TokensSkipBlank(s[1..], |s[1..]| - |rest|);
        assert r == " " + CollapseSpaces(rest);
        assert r[1..] == CollapseSpaces(rest);
      } else {
        var t := s[1..];
        CollapseKeepsTokens(t);
        assert s == [s[0]] + t;
        assert r == [s[0]] + CollapseSpaces(t);
        TokensCons(s[0], t);
        TokensCons(s[0], CollapseSpaces(t));
      }
    }
  }

  /** Only single plain spaces: no run, and no white space other than ' '. */
  predicate SingleSpaced(s: string) {
    NoSpaceRuns(s) && forall k :: 0 <= k < |s| && IsSpace(s[k]) ==> s[k] == ' '
  }

  /** A suffix of a single-spaced string is single-spaced. */
  lemma SingleSpacedSuffix(s: string, i: nat)
    requires i <= |s| && SingleSpaced(s)
    ensures SingleSpaced(s[i..])
  {
    var r := s[i..];
    forall k | 0 < k < |r|
      ensures !(IsSpace(r[k - 1]) && IsSpace(r[k]))
    {
      assert r[k - 1] == s[i + k - 1] && r[k] == s[i + k];
    }
    forall k | 0 <= k < |r| && IsSpace(r[k])
      ensures r[k] == ' '
    {
      assert r[k] == s[i + k];
    }
  }

  /** A word followed by one space and more text: the word, then the words of the rest. */
  lemma TokensAfterWord(s: string, rest: string)
    requires s != [] && !IsSpace(s[0])
    requires |TakeWord(s)| < |s| && rest == s[|TakeWord(s)| + 1..]
    ensures Tokens(s) == [TakeWord(s)] + Tokens(rest)
  {
    var i := |TakeWord(s)|;
    assert s[i..][..1] == [s[i]];
    TokensSkipBlank(s[i..], 1);
    assert s[i..][1..] == rest;
  }

  /** A string that starts with a visible character has a first word. */
  lemma TokensStart(s: string)
    requires s != [] && !IsSpace(s[0])
    ensures Tokens(s) != []
  {
  }

  /**
   * A trimmed single-spaced string that is more than one word is its first
   * word, one space, and a trimmed single-spaced rest.
   */
  lemma CollapsedSplit(s: string)
    requires s != [] && IsTrimmed(s) && SingleSpaced(s)
    requires |TakeWord(s)| < |s|
    ensures var i := |TakeWord(s)|;
      i + 1 < |s| && s == TakeWord(s) + " " + s[i + 1..] &&
      IsTrimmed(s[i + 1..]) && SingleSpaced(s[i + 1..]) && !IsSpace(s[i + 1])
  {
    var i := |TakeWord(s)|;
    assert s[i] == ' ';
    assert i + 1 < |s| && !IsSpace(s[i + 1]);
    var rest := s[i + 1..];
    SingleSpacedSuffix(s, i + 1);
    assert rest[0] == s[i + 1] && rest[|rest| - 1] == s[|s| - 1];
    assert s == s[..i] + [s[i]] + s[i + 1..];
  }

  /**
   * A string with no white space at either end and only single plain
   * spaces inside is its words joined by " ".
   */
  lemma {:induction false} CollapsedIsJoin(s: string)
    requires IsTrimmed(s) && SingleSpaced(s)
    ensures Join(Tokens(s), " ") == s
    decreases |s|
  {
    if s != [] {
      var w := TakeWord(s);
      if |w| < |s| {
        CollapsedSplit(s);
        var rest := s[|w| + 1..];
        CollapsedIsJoin(rest);
        TokensAfterWord(s, rest);
        TokensStart(rest);
        JoinCons(w, Tokens(rest), " ");
      } else {
        TokensWhole(s);
      }
    }
  }

  /** A string without white space is one word. */
  lemma TokensWhole(s: string)
    requires s != [] && !IsSpace(s[0]) && |TakeWord(s)| == |s|
    ensures Tokens(s) == [s]
  {
    var w := TakeWord(s);
    assert w == s;
    assert s[|w|..] == [];
    assert Tokens(s) == [s] + Tokens([]);
  }

  /** `s` holds no run of two line feeds. */
  predicate NoBlankLine(s: string) {
    forall k :: 0 < k < |s| ==> !(s[k - 1] == '\n' && s[k] == '\n')
  }

  /**
   * `s.split(/\n{2,}/)[0]`: the text before the first run of two or more line
   * feeds, or all of `s` when there is none.
   */
  function FirstParagraph(s: string): (r: string)
    ensures r <= s
    ensures NoBlankLine(r)
    ensures |r| < |s| ==> |r| + 1 < |s| && s[|r|] == '\n' && s[|r| + 1] == '\n'
    ensures |r| < |s| && r != [] ==> r[|r| - 1] != '\n'
  {
    if |s| < 2 then s
    else if s[0] == '\n' && s[1] == '\n' then []
    else [s[0]] + FirstParagraph(s[1..])
  }

  /** ASCII `toLowerCase` on one character. */
  function LowerChar(c: char): char {
    if 'A' <= c <= 'Z' then (c as int + 32) as char else c
  }

  /** ASCII `toUpperCase` on one character. */
  function UpperChar(c: char): char {
    if 'a' <= c <= 'z' then (c as int - 32) as char else c
  }

  function Lower(s: string): (r: string)
    ensures |r| == |s|
    ensures forall k :: 0 <= k < |s| ==> r[k] == LowerChar(s[k])
  {
    seq(|s|, k requires 0 <= k < |s| => LowerChar(s[k]))
  }

  function Upper(s: string): (r: string)
    ensures |r| == |s|
    ensures forall k :: 0 <= k < |s| ==> r[k] == UpperChar(s[k])
  {
    seq(|s|, k requires 0 <= k < |s| => UpperChar(s[k]))
  }

  /**
   * JavaScript's `a < b` on strings: lexicographic by code unit, a proper
   * prefix coming first.
   */
  predicate StrLess(a: string, b: string) {
    if a == [] then b != []
    else if b == [] then false
    else if a[0] == b[0] then StrLess(a[1..], b[1..])
    else a[0] < b[0]
  }

  lemma {:induction false} StrLessIrreflexive(a: string)
    ensures !StrLess(a, a)
  {
    if a != [] {
      StrLessIrreflexive(a[1..]);
    }
  }

  lemma {:induction false} StrLessTrichotomy(a: string, b: string)
    ensures a == b || StrLess(a, b) || StrLess(b, a)
  {
    if a != [] && b != [] && a[0] == b[0] {
      StrLessTrichotomy(a[1..], b[1..]);
      if a[1..] == b[1..] {
        assert a == [a[0]] + a[1..] && b == [b[0]] + b[1..];
      }
    }
  }

  lemma {:induction false} StrLessTransitive(a: string, b: string, c: string)
    requires StrLess(a, b) && StrLess(b, c)
    ensures StrLess(a, c)
  {
    if a != [] && b != [] && c != [] && a[0] == b[0] && b[0] == c[0] {
      StrLessTransitive(a[1..], b[1..], c[1..]);
    }
  }

  lemma StrLessAsymmetric(a: string, b: string)
    requires StrLess(a, b)
    ensures !StrLess(b, a) && a != b
  {
    StrLessIrreflexive(a);
    if StrLess(b, a) {
      StrLessTransitive(a, b, a);
    }
  }

  /** `s.endsWith(suffix)`. */
  predicate EndsWith(s: string, suffix: string) {
    |suffix| <= |s| && s[|s| - |suffix|..] == suffix
  }

  /** `needle` occurs in `s` starting at `i`. */
  predicate OccursAt(s: string, needle: string, i: nat) {
    i + |needle| <= |s| && s[i..i + |needle|] == needle
  }

  /** `s.includes(needle)`: some position of `s` starts an occurrence. */
  predicate Includes(s: string, needle: string) {
    exists i: nat | i <= |s| :: OccursAt(s, needle, i)
  }

  /** `parts.join(sep)`. */
  function Join(parts: seq<string>, sep: string): (r: string)
    ensures parts == [] ==> r == []
    ensures |parts| == 1 ==> r == parts[0]
  {
    if parts == [] then []
    else if |parts| == 1 then parts[0]
    else parts[0] + sep + Join(parts[1..], sep)
  }

  /** Joining a part in front of a non-empty list puts one separator after it. */
  lemma JoinCons(w: string, ws: seq<string>, sep: string)
    requires ws != []
    ensures Join([w] + ws, sep) == w + sep + Join(ws, sep)
  {
    assert ([w] + ws)[1..] == ws;
  }

  /** Four parts join with one separator between each. */
  lemma JoinFour(a: string, b: string, c: string, d: string, sep: string)
    ensures Join([a, b, c, d], sep) == a + sep + b + sep + c + sep + d
  {
    assert [c, d][1..] == [d];
    assert Join([c, d], sep) == c + sep + d;
    assert [b, c, d][1..] == [c, d];
    assert Join([b, c, d], sep) == b + sep + (c + sep + d);
    assert [a, b, c, d][1..] == [b, c, d];
    assert Join([a, b, c, d], sep) == a + sep + (b + sep + (c + sep + d));
  }

  /** Joining two non-empty lists puts one separator between their joins. */
  lemma {:induction false} JoinAppend(a: seq<string>, b: seq<string>, sep: string)
    requires a != [] && b != []
    ensures Join(a + b, sep) == Join(a, sep) + sep + Join(b, sep)
    decreases |a|
  {
    if |a| == 1 {
      assert (a + b)[1..] == b;
    } else {
      JoinAppend(a[1..], b, sep);
      assert (a + b)[1..] == a[1..] + b;
    }
  }

  function DigitChar(d: nat): char
    requires d < 10
  {
    ('0' as int + d) as char
  }

  /** The decimal digits of `n`, without leading zeros. */
  function NatDigits(n: nat): (r: string)
    ensures 1 <= |r|
    ensures forall k :: 0 <= k < |r| ==> '0' <= r[k] <= '9'
    ensures n < 10 ==> |r| == 1
    ensures 10 <= n < 100 ==> |r| == 2
    ensures 100 <= n < 1000 ==> |r| == 3
  {
    if n < 10 then [DigitChar(n)] else NatDigits(n / 10) + [DigitChar(n % 10)]
  }

  /** `String(n)` for an integer. */
  function Decimal(n: int): string {
    if n < 0 then "-" + NatDigits(-n) else NatDigits(n)
  }

  /** The number a string of decimal digits denotes, most significant first. */
  function ParseDigits(s: string): nat
    requires forall k :: 0 <= k < |s| ==> '0' <= s[k] <= '9'
  {
    if s == [] then 0 else ParseDigits(s[..|s| - 1]) * 10 + (s[|s| - 1] as int - '0' as int)
  }

  /** Reading the digits back gives the number. */
  lemma {:induction false} ParseNatDigits(n: nat)
    ensures ParseDigits(NatDigits(n)) == n
  {
    if n >= 10 {
      ParseNatDigits(n / 10);
      var r := NatDigits(n);
      assert r[..|r| - 1] == NatDigits(n / 10);
    }
  }

  /** A decimal form starts with a minus sign exactly when the number is negative. */
  lemma DecimalSign(n: int)
    ensures |Decimal(n)| >= 1 && (Decimal(n)[0] == '-' <==> n < 0)
  {
    if n >= 0 {
      assert '0' <= NatDigits(n)[0] <= '9';
    }
  }

  /** Different integers have different decimal forms. */
  lemma DecimalInjective(a: int, b: int)
    ensures Decimal(a) == Decimal(b) ==> a == b
  {
    DecimalSign(a);
    DecimalSign(b);
    var da, db := Decimal(a), Decimal(b);
    if da == db {
      if a < 0 {
        assert NatDigits(-a) == da[1..] == db[1..] == NatDigits(-b);
        NatDigitsInjective(-a, -b);
      } else {
        NatDigitsInjective(a, b);
      }
    }
  }

  /** Different natural numbers have different digit strings. */
  lemma NatDigitsInjective(a: nat, b: nat)
    ensures NatDigits(a) == NatDigits(b) ==> a == b
  {
    ParseNatDigits(a);
    ParseNatDigits(b);
  }

  /** `s.padStart(width, c)`. */
  function PadStart(s: string, width: nat, c: char): (r: string)
    ensures |r| == if |s| < width then width else |s|
    ensures r[|r| - |s|..] == s
    ensures forall k :: 0 <= k < |r| - |s| ==> r[k] == c
  {
    if |s| < width then seq(width - |s|, _ => c) + s else s
  }
}
