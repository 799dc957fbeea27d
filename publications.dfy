/**
 * The publications collection: the coercion of one file into a
 * `Publication`, the year-then-title listing, and the slug lookup, which
 * reads the files one by one in directory order.
 */
module Publications {
  import opened Text
  import opened Content
  import opened Sorting
  import opened Loading
  import opened Tags

  /** One publication; `tags` holds only vocabulary tags and `body` is trimmed. */
  datatype Publication = Publication(
    slug: Value,
    title: Value,
    authors: Value,
    year: Value,
    venue: Value,
    kind: Value,
    externalUrl: Value,
    doi: Value,
    tags: seq<string>,
    featured: Value,
    thumbnail: Value,
    image: Value,
    video: Value,
    abstractText: Value,
    body: string)

  /**
   * `readPublicationFile` after parsing.  It throws only when `tags` is
   * present and not a list; otherwise the tags are those of the publication
   * vocabulary in their original order.
   */
  function ReadPublication(data: FrontMatter, content: string): (r: Result<Publication>)
    ensures r.Ok? <==> IsNullish(Get(data, "tags")) || Get(data, "tags").List?
    ensures r.Fail? ==> r == Fail(MethodError("rawTags", Get(data, "tags"), "filter"))
    ensures r.Ok? && IsNullish(Get(data, "tags")) ==> r.value.tags == []
    ensures r.Ok? && Get(data, "tags").List? ==> r.value.tags == KeepKnown(Get(data, "tags").items, PublicationTags)
    ensures r.Ok? ==> CopiesPublicationFields(data, content, r.value)
  {
    match FilterTags(Get(data, "tags"), PublicationTags)
    case Fail(m) => Fail(m)
    case Ok(tags) => Ok(BuildPublication(data, content, tags))
  }

  /**
   * `authors` falls back to [] and `kind` to "paper"; `year` and the optional
   * fields are copied as they are; `body` is the body without surrounding
   * white space.
   */
  ghost predicate CopiesPublicationFields(data: FrontMatter, content: string, p: Publication) {
    && p.authors == Coalesce(Get(data, "authors"), List([]))
    && p.kind == Coalesce(Get(data, "kind"), Str("paper"))
    && p.slug == Get(data, "slug") && p.title == Get(data, "title") && p.year == Get(data, "year")
    && p.venue == Get(data, "venue") && p.externalUrl == Get(data, "externalUrl") && p.doi == Get(data, "doi")
    && p.featured == Get(data, "featured") && p.thumbnail == Get(data, "thumbnail")
    && p.image == Get(data, "image") && p.video == Get(data, "video") && p.abstractText == Get(data, "abstract")
    && p.body == Trim(content) && IsTrimmed(p.body) && (p.body == [] <==> IsBlank(content))
  }

  function BuildPublication(data: FrontMatter, content: string, tags: seq<string>): (p: Publication)
    ensures CopiesPublicationFields(data, content, p) && p.tags == tags
  {
    Publication(
      slug := Get(data, "slug"),
      title := Get(data, "title"),
      authors := Coalesce(Get(data, "authors"), List([])),
      year := Get(data, "year"),
      venue := Get(data, "venue"),
      kind := Coalesce(Get(data, "kind"), Str("paper")),
      externalUrl := Get(data, "externalUrl"),
      doi := Get(data, "doi"),
      tags := tags,
      featured := Get(data, "featured"),
      thumbnail := Get(data, "thumbnail"),
      image := Get(data, "image"),
      video := Get(data, "video"),
      abstractText := Get(data, "abstract"),
      body := Trim(content))
  }

  /** The `getPublications` comparator: newer years first, then titles in collation order. */
  predicate PublicationLeq(a: Publication, b: Publication, collate: (string, string) -> bool) {
    || NumKey(a.year) > NumKey(b.year)
    || (NumKey(a.year) == NumKey(b.year) && collate(TextKey(a.title), TextKey(b.title)))
  }

  function PublicationOrder(collate: (string, string) -> bool): (Publication, Publication) -> bool {
    (a, b) => PublicationLeq(a, b, collate)
  }

  lemma PublicationOrderIsTotalPreorder(collate: (string, string) -> bool)
    requires TotalPreorder(collate)
    ensures TotalPreorder(PublicationOrder(collate))
  {
    var leq := PublicationOrder(collate);
    forall x, y, z | leq(x, y) && leq(y, z)
      ensures leq(x, z)
    {
      assert collate(TextKey(x.title), TextKey(y.title)) && collate(TextKey(y.title), TextKey(z.title))
        ==> collate(TextKey(x.title), TextKey(z.title));
    }
    forall x, y
      ensures leq(x, y) || leq(y, x)
    {
      assert collate(TextKey(x.title), TextKey(y.title)) || collate(TextKey(y.title), TextKey(x.title));
    }
  }

  /**
   * `getPublications`: the loaded publications, newest year first and by
   * title within a year, or the loading error.
   */
  method GetPublications(dir: Directory, collate: (string, string) -> bool) returns (r: Result<seq<Publication>>)
    requires TotalPreorder(collate)
    ensures r.Fail? <==> Loaded(dir, ReadPublication).Fail?
    ensures r.Fail? ==> r == Loaded(dir, ReadPublication)
    ensures r.Ok? ==> multiset(r.value) == multiset(Loaded(dir, ReadPublication).value)
    ensures r.Ok? ==> forall i, j :: 0 <= i < j < |r.value| ==> NumKey(r.value[i].year) >= NumKey(r.value[j].year)
    ensures r.Ok? ==> forall i, j :: 0 <= i < j < |r.value| && NumKey(r.value[i].year) == NumKey(r.value[j].year) ==>
      collate(TextKey(r.value[i].title), TextKey(r.value[j].title))
  {
    PublicationOrderIsTotalPreorder(collate);
    r := LoadSorted(dir, ReadPublication, PublicationOrder(collate));
  }

  /**
   * Where the slug scan stops: the first file that fails to load or whose
   * publication has the slug, or the number of files when there is none.
   */
  function ScanStop(files: seq<Entry>, slug: string): (k: nat)
    ensures k <= |files|
    ensures forall j :: 0 <= j < k ==> PassedOver(files[j], slug)
    ensures k < |files| ==> !PassedOver(files[k], slug)
  {
    match FindIndex(files, e => !PassedOver(e, slug))
    case None => |files|
    case Some(k) => k
  }

  /** The loop reads the file and goes on past it: it parses and carries another slug. */
  predicate PassedOver(e: Entry, slug: string) {
    var d := Decode(e, ReadPublication);
    d.Ok? && d.value.slug != Str(slug)
  }

  /**
   * `getPublicationBySlug`: reads the ".mdx" files in directory order and
   * returns the first publication with the slug, even when the listing
   * order is not the sorted one.  A file that fails before the match makes
   * the lookup fail; files after the match are not read.
   */
  method GetPublicationBySlug(dir: Directory, slug: string) returns (r: Result<Option<Publication>>)
    ensures dir.Unlistable? ==> r == Fail(dir.message)
    ensures dir.Listed? ==>
      var files := MdxEntries(dir.entries);
      var k := ScanStop(files, slug);
      && (k == |files| ==> r == Ok(None))
      && (k < |files| && Decode(files[k], ReadPublication).Fail? ==> r == Fail(Decode(files[k], ReadPublication).error))
      && (k < |files| && Decode(files[k], ReadPublication).Ok? ==> r == Ok(Some(Decode(files[k], ReadPublication).value)))
  {
    if dir.Unlistable? {
      return Fail(dir.message);
    }
    var files := MdxEntries(dir.entries);
    ghost var stop := ScanStop(files, slug);
    var i := 0;
    while i < |files|
      invariant 0 <= i <= stop
    {
      var pub := Decode(files[i], ReadPublication);
      if pub.Fail? || pub.value.slug == Str(slug) {
        assert i == stop;
        return if pub.Fail? then Fail(pub.error) else Ok(Some(pub.value));
      }
      i := i + 1;
    }
    r := Ok(None);
  }
}
