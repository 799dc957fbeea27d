/**
 * The reshaping the publications page does: the year and tag options, the
 * filter driven by the search box and the three selects, the year
 * sections, and the count label.
 */
module PublicationsList {
  import opened Text
  import opened Content
  import opened Sorting
  import opened Grouping
  import opened Publications

  /** `pub.year`. */
  function YearOf(p: Publication): int {
    NumKey(p.year)
  }

  /** The newer-first order of the year options and sections. */
  function Newer(): (int, int) -> bool {
    (a: int, b: int) => a >= b
  }

  lemma NewerIsTotalPreorder()
    ensures TotalPreorder(Newer())
  {
  }

  /**
   * Sorting distinct years newer first: the years come out strictly
   * decreasing and none is lost or added.
   */
  method SortYears(distinct: seq<int>) returns (years: seq<int>)
    requires Distinct(distinct)
    ensures multiset(years) == multiset(distinct)
    ensures forall i, j :: 0 <= i < j < |years| ==> years[i] > years[j]
  {
    NewerIsTotalPreorder();
    years := Sort(distinct, Newer());
    PermutationKeepsDistinct(distinct, years);
    assert forall i, j :: 0 <= i < j < |years| ==> years[i] >= years[j] && years[i] != years[j];
  }

  /**
   * `allYears`: the set of years in first-occurrence order, sorted newer
   * first, so each year of the input once and strictly decreasing.
   */
  method AllYears(pubs: seq<Publication>) returns (years: seq<int>)
    ensures forall y :: y in years <==> exists i :: 0 <= i < |pubs| && YearOf(pubs[i]) == y
    ensures forall i, j :: 0 <= i < j < |years| ==> years[i] > years[j]
  {
    KeysInOrderMeaning(pubs, YearOf);
    var distinct := KeysInOrder(pubs, YearOf);
    years := SortYears(distinct);
    forall y
      ensures y in years <==> y in distinct
    {
      assert y in years <==> y in multiset(years);
      assert y in distinct <==> y in multiset(distinct);
    }
  }

  /** Every tag of every publication, in order. */
  function AllTagOccurrences(pubs: seq<Publication>): seq<string> {
    if pubs == [] then [] else AllTagOccurrences(pubs[..|pubs| - 1]) + pubs[|pubs| - 1].tags
  }

  /** A tag occurs in the list exactly when some publication carries it. */
  lemma {:induction false} AllTagOccurrencesMeaning(pubs: seq<Publication>)
    ensures forall t :: t in AllTagOccurrences(pubs) <==> exists i :: 0 <= i < |pubs| && t in pubs[i].tags
  {
    if pubs != [] {
      var n := |pubs| - 1;
      AllTagOccurrencesMeaning(pubs[..n]);
      assert forall i :: 0 <= i < n ==> pubs[..n][i] == pubs[i];
    }
  }

  function Identity(t: string): string {
    t
  }

  /** `p.tags.forEach((t) => tags.add(t))`: the set grows by the tags it did not hold yet. */
  method AddTags(seen: seq<string>, ghost before: seq<string>, own: seq<string>) returns (grown: seq<string>)
    requires seen == KeysInOrder(before, Identity)
    ensures grown == KeysInOrder(before + own, Identity)
  {
    grown := seen;
    assert before + own[..0] == before;
    for j := 0 to |own|
      invariant grown == KeysInOrder(before + own[..j], Identity)
    {
      assert (before + own[..j + 1])[..|before + own[..j + 1]| - 1] == before + own[..j];
      if own[j] !in grown {
        grown := grown + [own[j]];
      }
    }
    assert own[..|own|] == own;
  }

  /** The tag set after the `forEach` over the publications, in insertion order. */
  method CollectTags(pubs: seq<Publication>) returns (seen: seq<string>)
    ensures seen == KeysInOrder(AllTagOccurrences(pubs), Identity)
  {
    seen := [];
    for i := 0 to |pubs|
      invariant seen == KeysInOrder(AllTagOccurrences(pubs[..i]), Identity)
    {
      assert pubs[..i + 1][..i] == pubs[..i];
      seen := AddTags(seen, AllTagOccurrences(pubs[..i]), pubs[i].tags);
    }
    assert pubs[..|pubs|] == pubs;
  }

  /** The tag set holds each tag carried by some publication, once. */
  lemma TagSetMeaning(pubs: seq<Publication>)
    ensures Distinct(KeysInOrder(AllTagOccurrences(pubs), Identity))
    ensures forall t :: t in KeysInOrder(AllTagOccurrences(pubs), Identity) <==> exists i :: 0 <= i < |pubs| && t in pubs[i].tags
  {
    var occurrences := AllTagOccurrences(pubs);
    AllTagOccurrencesMeaning(pubs);
    KeysInOrderMeaning(occurrences, Identity);
    forall t
      ensures t in KeysInOrder(occurrences, Identity) <==> t in occurrences
    {
      if t in occurrences {
        var k :| 0 <= k < |occurrences| && occurrences[k] == t;
        assert Identity(occurrences[k]) == t;
      }
    }
  }

  /**
   * `allTags`: every tag of every publication added to a set, then sorted
   * with `localeCompare`, so each tag that occurs is listed exactly once.
   */
  method AllTags(pubs: seq<Publication>, collate: (string, string) -> bool) returns (tags: seq<string>)
    requires TotalPreorder(collate)
    ensures forall t :: t in tags <==> exists i :: 0 <= i < |pubs| && t in pubs[i].tags
    ensures Distinct(tags)
    ensures SortedBy(tags, collate)
  {
    var seen := CollectTags(pubs);
    TagSetMeaning(pubs);
    tags := Sort(seen, collate);
    PermutationKeepsDistinct(seen, tags);
    forall t
      ensures t in tags <==> t in seen
    {
      assert t in tags <==> t in multiset(tags);
      assert t in seen <==> t in multiset(seen);
    }
  }

  /** The state of the search box and the three selects. */
  datatype Filters = Filters(query: string, year: string, kind: string, tag: string)

  /**
   * `yearFilter === "all" || pub.year.toString() === yearFilter`: the text
   * of the year, whatever its type, against the selected option.
   */
  predicate YearPasses(p: Publication, f: Filters) {
    f.year == "all" || (!IsNullish(p.year) && ToText(p.year) == f.year)
  }

  predicate KindPasses(p: Publication, f: Filters) {
    f.kind == "all" || p.kind == Str(f.kind)
  }

  predicate TagPasses(p: Publication, f: Filters) {
    f.tag == "all" || f.tag in p.tags
  }

  /** `query.trim().toLowerCase()`. */
  function Needle(f: Filters): string {
    Lower(Trim(f.query))
  }

  /** The texts `pub.authors.join(" ")` puts together, one per author. */
  function AuthorNames(p: Publication): (names: seq<string>)
    ensures p.authors.List? ==> |names| == |p.authors.items|
    ensures p.authors.List? ==> forall k :: 0 <= k < |names| ==> names[k] == JoinText(p.authors.items[k])
  {
    if p.authors.List? then seq(|p.authors.items|, k requires 0 <= k < |p.authors.items| => JoinText(p.authors.items[k]))
    else []
  }

  /** Title, venue (or ""), the authors and the tags, each list joined by spaces, all joined by a space. */
  function Haystack(p: Publication): string {
    Join([JoinText(p.title), JoinText(Coalesce(p.venue, Str(""))), Join(AuthorNames(p), " "), Join(p.tags, " ")], " ")
  }

  /**
   * The haystack is the four parts with one space between each: the title's
   * text, the venue's text (or ""), the authors and the tags.
   */
  lemma HaystackParts(p: Publication)
    ensures Haystack(p) == JoinText(p.title) + " " + JoinText(Coalesce(p.venue, Str(""))) + " " +
      Join(AuthorNames(p), " ") + " " + Join(p.tags, " ")
  {
    JoinFour(JoinText(p.title), JoinText(Coalesce(p.venue, Str(""))), Join(AuthorNames(p), " "), Join(p.tags, " "), " ");
  }

  /** The text search: passes when the query is blank, else the lower-cased haystack must contain it. */
  predicate QueryPasses(p: Publication, f: Filters) {
    Needle(f) == [] || Includes(Lower(Haystack(p)), Needle(f))
  }

  /** The predicate of `filtered`, in the order the source checks it. */
  predicate Keep(p: Publication, f: Filters) {
    YearPasses(p, f) && KindPasses(p, f) && TagPasses(p, f) && QueryPasses(p, f)
  }

  /** `filtered`: the publications the filters keep, in input order. */
  function Filtered(pubs: seq<Publication>, f: Filters): seq<Publication> {
    Members(pubs, p => Keep(p, f), true)
  }

  /**
   * `filtered` keeps a publication exactly when it passes every filter,
   * each as often as in the input, and it distributes over concatenation,
   * so it keeps input order.
   */
  lemma FilteredMeaning(pubs: seq<Publication>, more: seq<Publication>, f: Filters)
    ensures forall p :: multiset(Filtered(pubs, f))[p] == if Keep(p, f) then multiset(pubs)[p] else 0
    ensures forall p :: p in Filtered(pubs, f) <==> p in pubs && Keep(p, f)
    ensures Filtered(pubs + more, f) == Filtered(pubs, f) + Filtered(more, f)
  {
    MembersMeaning(pubs, p => Keep(p, f), true);
    MembersAppend(pubs, more, p => Keep(p, f), true);
    forall p
      ensures p in Filtered(pubs, f) <==> p in pubs && Keep(p, f)
    {
      assert p in Filtered(pubs, f) <==> p in multiset(Filtered(pubs, f));
      assert p in pubs <==> p in multiset(pubs);
    }
  }

  /** With every select on "all" and a blank query, nothing is filtered out. */
  lemma FilteredUnfiltered(pubs: seq<Publication>, query: string)
    requires IsBlank(query)
    ensures Filtered(pubs, Filters(query, "all", "all", "all")) == pubs
  {
    var f := Filters(query, "all", "all", "all");
    var keep := p => Keep(p, f);
    forall i | 0 <= i < |pubs|
      ensures keep(pubs[i])
    {
      AllPass(pubs[i], query);
    }
    MembersAllKept(pubs, keep);
  }

  /** Every publication passes the selects on "all" and a blank query. */
  lemma AllPass(p: Publication, query: string)
    requires IsBlank(query)
    ensures Keep(p, Filters(query, "all", "all", "all"))
  {
    assert Needle(Filters(query, "all", "all", "all")) == [];
  }

  /** Filtering with a predicate that every item passes returns the input. */
  lemma {:induction false} MembersAllKept<T>(items: seq<T>, keep: T -> bool)
    requires forall i :: 0 <= i < |items| ==> keep(items[i])
    ensures Members(items, keep, true) == items
  {
    if items != [] {
      var n := |items| - 1;
      assert forall i :: 0 <= i < n ==> items[..n][i] == items[i];
      MembersAllKept(items[..n], keep);
      assert items == items[..n] + [items[n]];
    }
  }

  /**
   * A non-blank query keeps exactly the publications whose lower-cased
   * haystack contains the trimmed, lower-cased query and that pass the
   * three selects; choosing a year from the options keeps exactly that
   * year's publications.
   */
  lemma KeepMeaning(p: Publication, f: Filters, year: int)
    ensures !IsBlank(f.query) ==>
      (Keep(p, f) <==> YearPasses(p, f) && KindPasses(p, f) && TagPasses(p, f) && Includes(Lower(Haystack(p)), Lower(Trim(f.query))))
    ensures p.year.Num? && f.year == Decimal(year) ==> (YearPasses(p, f) <==> YearOf(p) == year)
    ensures p.year.Str? ==> (YearPasses(p, f) <==> f.year == "all" || f.year == p.year.s)
    ensures IsNullish(p.year) ==> (YearPasses(p, f) <==> f.year == "all")
  {
    if !IsBlank(f.query) {
      QueryFilter(p, f);
    }
    if p.year.Num? && f.year == Decimal(year) {
      NumberYearFilter(p, f, year);
    } else if p.year.Str? {
      TextYearFilter(p, f);
    }
  }

  /** A text year passes a year filter set to that very text. */
  lemma TextYearFilter(p: Publication, f: Filters)
    requires p.year.Str?
    ensures YearPasses(p, f) <==> f.year == "all" || f.year == p.year.s
  {
    assert !IsNullish(p.year) && ToText(p.year) == p.year.s;
  }

  /** A non-blank query is searched for trimmed and lower-cased. */
  lemma QueryFilter(p: Publication, f: Filters)
    requires !IsBlank(f.query)
    ensures QueryPasses(p, f) <==> Includes(Lower(Haystack(p)), Lower(Trim(f.query)))
  {
    TrimMeaning(f.query);
    assert Needle(f) == Lower(Trim(f.query));
    assert Lower(Trim(f.query)) != [];
  }

  /** A year filter set to the text of `year` keeps a number year exactly when it is `year`. */
  lemma NumberYearFilter(p: Publication, f: Filters, year: int)
    requires p.year.Num? && f.year == Decimal(year)
    ensures YearPasses(p, f) <==> YearOf(p) == year
  {
    assert ToText(p.year) == Decimal(YearOf(p));
    DecimalInjective(YearOf(p), year);
    DecimalSign(year);
    if year >= 0 {
      assert '0' <= Decimal(year)[0] <= '9';
    }
  }

  /**
   * `groupByYear` over `filtered` and the sorted keys: one section per year
   * that occurs, strictly newer first, each holding that year's
   * publications in input order.
   */
  method YearSections(filtered: seq<Publication>) returns (years: seq<int>, groups: map<int, seq<Publication>>)
    ensures groups == GroupsOf(filtered, YearOf)
    ensures forall y :: y in years <==> y in groups
    ensures forall i, j :: 0 <= i < j < |years| ==> years[i] > years[j]
  {
    var keys;
    keys, groups := GroupBy(filtered, YearOf);
    KeysInOrderMeaning(filtered, YearOf);
    years := SortYears(keys);
    assert forall y :: y in years <==> y in multiset(years);
  }

  /** The count label: "N items", or "F of N items" when some are filtered out. */
  function CountLabel(shown: nat, total: nat): string {
    if shown == total then Decimal(total) + " items"
    else Decimal(shown) + " of " + Decimal(total) + " items"
  }

  /** The short label appears exactly when the filters keep every publication. */
  lemma CountLabelShort(pubs: seq<Publication>, f: Filters)
    ensures CountLabel(|Filtered(pubs, f)|, |pubs|) == Decimal(|pubs|) + " items" <==>
      forall i :: 0 <= i < |pubs| ==> Keep(pubs[i], f)
  {
    MembersLength(pubs, p => Keep(p, f), true);
    var n := |Filtered(pubs, f)|;
    if n != |pubs| {
      assert |CountLabel(n, |pubs|)| > |Decimal(|pubs|) + " items"|;
    }
  }
}
