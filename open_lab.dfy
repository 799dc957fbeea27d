/**
 * The open-lab collection (datasets, repositories, software): the coercion
 * of one file into an `OpenLabResource` and the most-recently-updated-first
 * listing.
 */
module OpenLab {
  import opened Text
  import opened Content
  import opened Sorting
  import opened Loading
  import opened Summary
  import opened Chronology

  /** One resource; `tags` is taken as it is, with no vocabulary filter. */
  datatype OpenLabResource = OpenLabResource(
    slug: Value,
    title: Value,
    kind: Value,
    summary: Value,
    area: Value,
    link: Value,
    tags: Value,
    updated: Value)

  /**
   * `readOpenLabFile` after parsing; it cannot fail.  `updated` comes from
   * `updated`, else from `date`, else is "1970-01-01"; the summary is
   * derived from the body exactly as for the log, and only when absent.
   */
  function ReadOpenLab(data: FrontMatter, content: string): (r: Result<OpenLabResource>)
    ensures r.Ok?
    ensures !IsNullish(Get(data, "updated")) ==> r.value.updated == Get(data, "updated")
    ensures IsNullish(Get(data, "updated")) && !IsNullish(Get(data, "date")) ==> r.value.updated == Get(data, "date")
    ensures IsNullish(Get(data, "updated")) && IsNullish(Get(data, "date")) ==> r.value.updated == Str("1970-01-01")
    ensures !IsNullish(Get(data, "summary")) ==> r.value.summary == Get(data, "summary")
    ensures IsNullish(Get(data, "summary")) ==> r.value.summary == Str(SummaryFromBody(content))
    ensures IsNullish(Get(data, "kind")) ==> r.value.kind == Str("dataset")
    ensures !IsNullish(Get(data, "kind")) ==> r.value.kind == Get(data, "kind")
    ensures IsNullish(Get(data, "tags")) ==> r.value.tags == List([])
    ensures !IsNullish(Get(data, "tags")) ==> r.value.tags == Get(data, "tags")
    ensures r.value.slug == Get(data, "slug") && r.value.title == Get(data, "title")
    ensures r.value.area == Get(data, "area") && r.value.link == Get(data, "link")
  {
    Ok(OpenLabResource(
      slug := Get(data, "slug"),
      title := Get(data, "title"),
      kind := Coalesce(Get(data, "kind"), Str("dataset")),
      summary := Coalesce(Get(data, "summary"), Str(SummaryFromBody(content))),
      area := Get(data, "area"),
      link := Get(data, "link"),
      tags := Coalesce(Get(data, "tags"), List([])),
      updated := Coalesce(Coalesce(Get(data, "updated"), Get(data, "date")), Str("1970-01-01"))))
  }

  /** The `getOpenLabResources` comparator. */
  function OpenLabOrder(collate: (string, string) -> bool): (OpenLabResource, OpenLabResource) -> bool {
    (a: OpenLabResource, b: OpenLabResource) =>
      NewestFirst(TextKey(a.updated), TextKey(a.title), TextKey(b.updated), TextKey(b.title), collate)
  }

  lemma OpenLabOrderIsTotalPreorder(collate: (string, string) -> bool)
    requires TotalPreorder(collate)
    ensures TotalPreorder(OpenLabOrder(collate))
  {
    var leq := OpenLabOrder(collate);
    forall x, y, z | leq(x, y) && leq(y, z)
      ensures leq(x, z)
    {
      NewestFirstTransitive(TextKey(x.updated), TextKey(x.title), TextKey(y.updated), TextKey(y.title),
                            TextKey(z.updated), TextKey(z.title), collate);
    }
    forall x, y
      ensures leq(x, y) || leq(y, x)
    {
      NewestFirstTotal(TextKey(x.updated), TextKey(x.title), TextKey(y.updated), TextKey(y.title), collate);
    }
  }

  /**
   * `getOpenLabResources`: the loaded resources with no older `updated`
   * stamp (by string comparison) before a newer one, and equal stamps in
   * title order.
   */
  method GetOpenLabResources(dir: Directory, collate: (string, string) -> bool)
    returns (r: Result<seq<OpenLabResource>>)
    requires TotalPreorder(collate)
    ensures r.Fail? <==> Loaded(dir, ReadOpenLab).Fail?
    ensures r.Fail? ==> r == Loaded(dir, ReadOpenLab)
    ensures r.Ok? ==> multiset(r.value) == multiset(Loaded(dir, ReadOpenLab).value)
    ensures r.Ok? ==> forall i, j :: 0 <= i < j < |r.value| ==>
      !StrLess(TextKey(r.value[i].updated), TextKey(r.value[j].updated))
    ensures r.Ok? ==> forall i, j :: 0 <= i < j < |r.value| && TextKey(r.value[i].updated) == TextKey(r.value[j].updated) ==>
      collate(TextKey(r.value[i].title), TextKey(r.value[j].title))
  {
    OpenLabOrderIsTotalPreorder(collate);
    r := LoadSorted(dir, ReadOpenLab, OpenLabOrder(collate));
    if r.Ok? {
      var s := r.value;
      forall i, j | 0 <= i < j < |s|
        ensures !StrLess(TextKey(s[i].updated), TextKey(s[j].updated))
      {
        NewestFirstStamps(TextKey(s[i].updated), TextKey(s[i].title), TextKey(s[j].updated), TextKey(s[j].title), collate);
      }
      forall i, j | 0 <= i < j < |s| && TextKey(s[i].updated) == TextKey(s[j].updated)
        ensures collate(TextKey(s[i].title), TextKey(s[j].title))
      {
        StrLessIrreflexive(TextKey(s[i].updated));
      }
    }
  }
}
