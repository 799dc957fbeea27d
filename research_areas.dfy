/**
 * The research-areas collection: the coercion of one file into a
 * `ResearchArea` and the listing ordered by `order` alone.
 */
module ResearchAreas {
  import opened Text
  import opened Content
  import opened Sorting
  import opened Loading
  import opened Tags

  /** One research area; `tags` holds only vocabulary tags and `body` is trimmed. */
  datatype ResearchArea = ResearchArea(
    slug: Value,
    title: Value,
    shortTitle: Value,
    order: Value,
    tags: seq<string>,
    image: Value,
    video: Value,
    body: string)

  /**
   * `readResearchAreaFile` after parsing.  It throws only when `tags` is
   * present and not a list; `shortTitle` falls back to the title and
   * `order` to 0.
   */
  function ReadResearchArea(data: FrontMatter, content: string): (r: Result<ResearchArea>)
    ensures r.Ok? <==> IsNullish(Get(data, "tags")) || Get(data, "tags").List?
    ensures r.Fail? ==> r == Fail(MethodError("rawTags", Get(data, "tags"), "filter"))
    ensures r.Ok? && IsNullish(Get(data, "tags")) ==> r.value.tags == []
    ensures r.Ok? && Get(data, "tags").List? ==> r.value.tags == KeepKnown(Get(data, "tags").items, ResearchTags)
    ensures r.Ok? && IsNullish(Get(data, "shortTitle")) ==> r.value.shortTitle == Get(data, "title")
    ensures r.Ok? && !IsNullish(Get(data, "shortTitle")) ==> r.value.shortTitle == Get(data, "shortTitle")
    ensures r.Ok? && IsNullish(Get(data, "order")) ==> r.value.order == Num(0)
    ensures r.Ok? && !IsNullish(Get(data, "order")) ==> r.value.order == Get(data, "order")
    ensures r.Ok? ==> r.value.slug == Get(data, "slug") && r.value.title == Get(data, "title")
    ensures r.Ok? ==> r.value.image == Get(data, "image") && r.value.video == Get(data, "video")
    ensures r.Ok? ==> r.value.body == Trim(content)
    ensures r.Ok? ==> IsTrimmed(r.value.body) && (r.value.body == [] <==> IsBlank(content))
  {
    match FilterTags(Get(data, "tags"), ResearchTags)
    case Fail(m) => Fail(m)
    case Ok(tags) =>
      Ok(ResearchArea(
        slug := Get(data, "slug"),
        title := Get(data, "title"),
        shortTitle := Coalesce(Get(data, "shortTitle"), Get(data, "title")),
        order := Coalesce(Get(data, "order"), Num(0)),
        tags := tags,
        image := Get(data, "image"),
        video := Get(data, "video"),
        body := Trim(content)))
  }

  /** The `getResearchAreas` comparator: `order` only. */
  function AreaOrder(): (ResearchArea, ResearchArea) -> bool {
    (a: ResearchArea, b: ResearchArea) => NumKey(a.order) <= NumKey(b.order)
  }

  lemma AreaOrderIsTotalPreorder()
    ensures TotalPreorder(AreaOrder())
  {
  }

  /** `getResearchAreas`: the loaded areas with `order` never decreasing. */
  method GetResearchAreas(dir: Directory) returns (r: Result<seq<ResearchArea>>)
    ensures r.Fail? <==> Loaded(dir, ReadResearchArea).Fail?
    ensures r.Fail? ==> r == Loaded(dir, ReadResearchArea)
    ensures r.Ok? ==> multiset(r.value) == multiset(Loaded(dir, ReadResearchArea).value)
    ensures r.Ok? ==> forall i, j :: 0 <= i < j < |r.value| ==> NumKey(r.value[i].order) <= NumKey(r.value[j].order)
  {
    AreaOrderIsTotalPreorder();
    r := LoadSorted(dir, ReadResearchArea, AreaOrder());
  }
}
