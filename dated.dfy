/**
 * The summary the log and open-lab loaders derive from a body when the
 * front matter gives none: the first paragraph of the trimmed body, with
 * every white-space run collapsed to one space, trimmed again.
 */
module Summary {
  import opened Text

  function SummaryFromBody(content: string): (r: string)
    ensures IsBlank(content) ==> r == []
    ensures IsTrimmed(r) && NoSpaceRuns(r)
    ensures forall k :: 0 <= k < |r| && IsSpace(r[k]) ==> r[k] == ' '
    ensures '\n' !in r
  {
    TrimMeaning(content);
    var body := Trim(content);
    if body == [] then []
    else
      var c := CollapseSpaces(FirstParagraph(body));
      TrimMeaning(c);
      TrimKeepsCollapsed(c);
      Trim(c)
  }

  /** Trimming a collapsed string leaves it collapsed. */
  lemma TrimKeepsCollapsed(c: string)
    requires NoSpaceRuns(c)
    requires forall k :: 0 <= k < |c| && IsSpace(c[k]) ==> c[k] == ' '
    ensures NoSpaceRuns(Trim(c))
    ensures forall k :: 0 <= k < |Trim(c)| && IsSpace(Trim(c)[k]) ==> Trim(c)[k] == ' '
    ensures '\n' !in Trim(c)
  {
    TrimSlice(c);
    var i := |c| - |TrimStart(c)|;
    var r := Trim(c);
    assert i + |r| <= |c| && r == c[i..i + |r|];
    SliceKeepsCollapsed(c, i, r);
  }

  lemma SliceKeepsCollapsed(c: string, i: nat, r: string)
    requires i + |r| <= |c| && r == c[i..i + |r|]
    requires NoSpaceRuns(c)
    requires forall k :: 0 <= k < |c| && IsSpace(c[k]) ==> c[k] == ' '
    ensures NoSpaceRuns(r)
    ensures forall k :: 0 <= k < |r| && IsSpace(r[k]) ==> r[k] == ' '
    ensures '\n' !in r
  {
    forall k | 0 < k < |r|
      ensures !(IsSpace(r[k - 1]) && IsSpace(r[k]))
    {
      assert r[k - 1] == c[i + k - 1] && r[k] == c[i + k];
    }
    forall k | 0 <= k < |r| && IsSpace(r[k])
      ensures r[k] == ' '
    {
      assert r[k] == c[i + k];
    }
  }

  /**
   * The summary is the words of the body's first paragraph joined by single
   * spaces, so it keeps exactly that paragraph's visible characters, in order.
   */
  lemma SummaryKeepsWords(content: string)
    ensures SummaryFromBody(content) == Join(Tokens(FirstParagraph(Trim(content))), " ")
    ensures Visible(SummaryFromBody(content)) == Visible(FirstParagraph(Trim(content)))
  {
    SummaryKeepsVisible(content);
    var body := Trim(content);
    if body != [] {
      var p := FirstParagraph(body);
      var c := CollapseSpaces(p);
      TrimMeaning(c);
      TrimKeepsCollapsed(c);
      CollapsedIsJoin(Trim(c));
      TokensTrim(c);
      CollapseKeepsTokens(p);
    }
  }

  /** The summary keeps exactly the visible characters of the body's first paragraph, in order. */
  lemma SummaryKeepsVisible(content: string)
    ensures Visible(SummaryFromBody(content)) == Visible(FirstParagraph(Trim(content)))
  {
    var body := Trim(content);
    if body != [] {
      var p := FirstParagraph(body);
      var c := CollapseSpaces(p);
      VisibleTrim(c);
      CollapseKeepsVisible(p);
    }
  }

  /**
   * The summary never crosses a blank line: the visible characters it
   * holds are a prefix of those before the first run of two line feeds.
   */
  lemma SummaryStopsAtBlankLine(content: string, prefix: string)
    requires prefix + "\n\n" <= Trim(content)
    ensures Visible(SummaryFromBody(content)) <= Visible(prefix)
    ensures |Visible(SummaryFromBody(content))| <= |Visible(prefix)|
  {
    SummaryKeepsVisible(content);
    FirstParagraphBefore(Trim(content), prefix);
    PrefixKeepsVisible(FirstParagraph(Trim(content)), prefix);
  }

  /** The visible characters of a prefix are a prefix of the visible characters. */
  lemma PrefixKeepsVisible(p: string, s: string)
    requires p <= s
    ensures Visible(p) <= Visible(s)
    ensures |Visible(p)| <= |Visible(s)|
  {
    assert s[..|p|] == p;
    VisibleSplit(s, |p|);
  }

  /** The first paragraph ends no later than any blank line. */
  lemma {:induction false} FirstParagraphBefore(s: string, prefix: string)
    requires prefix + "\n\n" <= s
    ensures |FirstParagraph(s)| <= |prefix|
    ensures FirstParagraph(s) <= prefix
  {
    if |s| >= 2 && !(s[0] == '\n' && s[1] == '\n') {
      assert prefix != [];
      assert (prefix[1..] + "\n\n") == (prefix + "\n\n")[1..];
      FirstParagraphBefore(s[1..], prefix[1..]);
    }
  }
}

/**
 * The "newest first" order of the log and the open-lab listings: stamps
 * compared as strings with `<`, the later stamp first, and titles in
 * collation order when the stamps are equal.
 */
module Chronology {
  import opened Text
  import opened Sorting

  predicate NewestFirst(stampA: string, titleA: string, stampB: string, titleB: string, collate: (string, string) -> bool) {
    StrLess(stampB, stampA) || (stampA == stampB && collate(titleA, titleB))
  }

  lemma NewestFirstTransitive(sa: string, ta: string, sb: string, tb: string, sc: string, tc: string,
                              collate: (string, string) -> bool)
    requires TotalPreorder(collate)
    requires NewestFirst(sa, ta, sb, tb, collate) && NewestFirst(sb, tb, sc, tc, collate)
    ensures NewestFirst(sa, ta, sc, tc, collate)
  {
    if StrLess(sb, sa) && StrLess(sc, sb) {
      StrLessTransitive(sc, sb, sa);
    } else if sa == sb && sb == sc {
      assert collate(ta, tb) && collate(tb, tc) ==> collate(ta, tc);
    }
  }

  lemma NewestFirstTotal(sa: string, ta: string, sb: string, tb: string, collate: (string, string) -> bool)
    requires TotalPreorder(collate)
    ensures NewestFirst(sa, ta, sb, tb, collate) || NewestFirst(sb, tb, sa, ta, collate)
  {
    StrLessTrichotomy(sa, sb);
    assert collate(ta, tb) || collate(tb, ta);
  }

  /** Ordered neighbours under `NewestFirst` never have the earlier stamp first. */
  lemma NewestFirstStamps(sa: string, ta: string, sb: string, tb: string, collate: (string, string) -> bool)
    requires NewestFirst(sa, ta, sb, tb, collate)
    ensures !StrLess(sa, sb)
  {
    if StrLess(sb, sa) {
      StrLessAsymmetric(sb, sa);
    } else {
      StrLessIrreflexive(sa);
    }
  }
}
