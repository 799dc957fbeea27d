/**
 * The fixed tag vocabularies of the site configuration and the tag filter
 * the publication, project and research-area loaders apply to them.
 */
module Tags {
  import opened Content

  const ResearchTags: seq<string> := [
    "visualization",
    "interaction",
    "urban-data",
    "imaging",
    "neuroanalytics",
    "data-systems",
    "reproducibility",
    "responsible-ai"
  ]

  const ProjectTags: seq<string> := [
    "dashboards",
    "multimodal",
    "sensemaking",
    "urban-computing",
    "soundscapes",
    "maps",
    "provenance",
    "workflows",
    "debugging",
    "explainability",
    "fairness",
    "evaluation",
    "simulation",
    "planning",
    "scenarios",
    "open-science",
    "infrastructure"
  ]

  const PublicationTags: seq<string> := [
    "visualization",
    "databases",
    "machine-learning",
    "biomedical",
    "urban-data",
    "explainability"
  ]

  /** A raw tag the vocabulary's `includes` accepts: a string that is listed. */
  predicate Known(v: Value, vocabulary: seq<string>) {
    v.Str? && v.s in vocabulary
  }

  /**
   * `items.filter(tag => vocabulary.includes(tag))`: the listed strings among
   * the items, in their original order.
   */
  function KeepKnown(items: seq<Value>, vocabulary: seq<string>): (r: seq<string>)
    ensures |r| <= |items|
    ensures forall t :: t in r ==> t in vocabulary
    ensures forall k :: 0 <= k < |items| && Known(items[k], vocabulary) ==> items[k].s in r
    ensures forall t :: t in r ==> Str(t) in items
  {
    if items == [] then []
    else (if Known(items[0], vocabulary) then [items[0].s] else []) + KeepKnown(items[1..], vocabulary)
  }

  /** The filter works item by item, so it keeps the relative order of what it keeps. */
  lemma {:induction false} KeepKnownAppend(a: seq<Value>, b: seq<Value>, vocabulary: seq<string>)
    ensures KeepKnown(a + b, vocabulary) == KeepKnown(a, vocabulary) + KeepKnown(b, vocabulary)
  {
    if a != [] {
      assert (a + b)[1..] == a[1..] + b;
      KeepKnownAppend(a[1..], b, vocabulary);
    } else {
      assert a + b == b;
    }
  }

  /** A list whose items are all known tags passes through unchanged. */
  lemma {:induction false} KeepKnownAllKnown(tags: seq<string>, vocabulary: seq<string>)
    requires forall t :: t in tags ==> t in vocabulary
    ensures KeepKnown(seq(|tags|, k requires 0 <= k < |tags| => Str(tags[k])), vocabulary) == tags
  {
    var items := seq(|tags|, k requires 0 <= k < |tags| => Str(tags[k]));
    if tags != [] {
      var rest := seq(|tags| - 1, k requires 0 <= k < |tags| - 1 => Str(tags[1..][k]));
      assert items[1..] == rest;
      KeepKnownAllKnown(tags[1..], vocabulary);
      assert tags == [tags[0]] + tags[1..];
    }
  }

  /**
   * `((data.tags as string[]) ?? []).filter(...)`: an absent value gives no
   * tags, a list gives its known tags, and any other value throws because it
   * has no `filter` method.
   */
  function FilterTags(raw: Value, vocabulary: seq<string>): (r: Result<seq<string>>)
    ensures IsNullish(raw) ==> r == Ok([])
    ensures raw.List? ==> r == Ok(KeepKnown(raw.items, vocabulary))
    ensures r.Ok? <==> IsNullish(raw) || raw.List?
  {
    match Coalesce(raw, List([]))
    case List(items) => Ok(KeepKnown(items, vocabulary))
    case other => Fail(MethodError("rawTags", other, "filter"))
  }
}
