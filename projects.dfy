/**
 * The projects collection: the coercion of one file into a `Project`, the
 * title-ordered listing, and the lookup by slug over that listing.
 */
module Projects {
  import opened Text
  import opened Content
  import opened Sorting
  import opened Loading
  import opened Tags

  /** One project; `tags` holds only vocabulary tags and `body` is trimmed. */
  datatype Project = Project(
    slug: Value,
    title: Value,
    kind: Value,
    summary: Value,
    status: Value,
    externalUrl: Value,
    relatedAreas: Value,
    tags: seq<string>,
    image: Value,
    video: Value,
    body: string)

  /**
   * `readProjectFile` after parsing.  It throws only when `tags` is present
   * and not a list; otherwise the tags are those of the project vocabulary
   * in their original order.
   */
  function ReadProject(data: FrontMatter, content: string): (r: Result<Project>)
    ensures r.Ok? <==> IsNullish(Get(data, "tags")) || Get(data, "tags").List?
    ensures r.Fail? ==> r == Fail(MethodError("rawTags", Get(data, "tags"), "filter"))
    ensures r.Ok? && IsNullish(Get(data, "tags")) ==> r.value.tags == []
    ensures r.Ok? && Get(data, "tags").List? ==> r.value.tags == KeepKnown(Get(data, "tags").items, ProjectTags)
    ensures r.Ok? ==> CopiesProjectFields(data, content, r.value)
  {
    match FilterTags(Get(data, "tags"), ProjectTags)
    case Fail(m) => Fail(m)
    case Ok(tags) => Ok(BuildProject(data, content, tags))
  }

  /**
   * `kind`, `summary`, `status` and `relatedAreas` fall back to "project",
   * "", "active" and [] when absent; the other fields are copied; `body` is
   * the body without surrounding white space.
   */
  ghost predicate CopiesProjectFields(data: FrontMatter, content: string, p: Project) {
    && p.kind == Coalesce(Get(data, "kind"), Str("project"))
    && p.summary == Coalesce(Get(data, "summary"), Str(""))
    && p.status == Coalesce(Get(data, "status"), Str("active"))
    && p.relatedAreas == Coalesce(Get(data, "relatedAreas"), List([]))
    && p.slug == Get(data, "slug") && p.title == Get(data, "title")
    && p.externalUrl == Get(data, "externalUrl") && p.image == Get(data, "image") && p.video == Get(data, "video")
    && p.body == Trim(content) && IsTrimmed(p.body) && (p.body == [] <==> IsBlank(content))
  }

  function BuildProject(data: FrontMatter, content: string, tags: seq<string>): (p: Project)
    ensures CopiesProjectFields(data, content, p) && p.tags == tags
  {
    Project(
      slug := Get(data, "slug"),
      title := Get(data, "title"),
      kind := Coalesce(Get(data, "kind"), Str("project")),
      summary := Coalesce(Get(data, "summary"), Str("")),
      status := Coalesce(Get(data, "status"), Str("active")),
      externalUrl := Get(data, "externalUrl"),
      relatedAreas := Coalesce(Get(data, "relatedAreas"), List([])),
      tags := tags,
      image := Get(data, "image"),
      video := Get(data, "video"),
      body := Trim(content))
  }

  /** The `getProjects` comparator: titles in collation order, nothing else. */
  function ProjectOrder(collate: (string, string) -> bool): (Project, Project) -> bool {
    (a: Project, b: Project) => collate(TextKey(a.title), TextKey(b.title))
  }

  lemma ProjectOrderIsTotalPreorder(collate: (string, string) -> bool)
    requires TotalPreorder(collate)
    ensures TotalPreorder(ProjectOrder(collate))
  {
    var leq := ProjectOrder(collate);
    forall x, y, z | leq(x, y) && leq(y, z)
      ensures leq(x, z)
    {
      assert collate(TextKey(x.title), TextKey(y.title)) && collate(TextKey(y.title), TextKey(z.title))
        ==> collate(TextKey(x.title), TextKey(z.title));
    }
    forall x, y
      ensures leq(x, y) || leq(y, x)
    {
      assert collate(TextKey(x.title), TextKey(y.title)) || collate(TextKey(y.title), TextKey(x.title));
    }
  }

  /**
   * `getProjects`: every loaded project (projects sharing a slug or a title
   * are all kept) in title order, or the loading error.
   */
  method GetProjects(dir: Directory, collate: (string, string) -> bool) returns (r: Result<seq<Project>>)
    requires TotalPreorder(collate)
    ensures r.Fail? <==> Loaded(dir, ReadProject).Fail?
    ensures r.Fail? ==> r == Loaded(dir, ReadProject)
    ensures r.Ok? ==> multiset(r.value) == multiset(Loaded(dir, ReadProject).value)
    ensures r.Ok? ==> |r.value| == |Loaded(dir, ReadProject).value|
    ensures r.Ok? ==> forall i, j :: 0 <= i < j < |r.value| ==> collate(TextKey(r.value[i].title), TextKey(r.value[j].title))
    ensures r.Ok? ==> SortedBy(r.value, ProjectOrder(collate))
  {
    ProjectOrderIsTotalPreorder(collate);
    r := LoadSorted(dir, ReadProject, ProjectOrder(collate));
    if r.Ok? {
      assert |multiset(r.value)| == |multiset(Loaded(dir, ReadProject).value)|;
    }
  }

  /**
   * `getProjectBySlug`: the first project with the slug in title order, so
   * among the projects that share the slug, one whose title collates first;
   * `None` when no project has it.
   */
  method GetProjectBySlug(dir: Directory, collate: (string, string) -> bool, slug: string)
    returns (r: Result<Option<Project>>)
    requires TotalPreorder(collate)
    ensures r.Fail? <==> Loaded(dir, ReadProject).Fail?
    ensures r.Ok? ==> var found, loaded := r.value, Loaded(dir, ReadProject).value;
      && (found.None? <==> forall p :: p in loaded ==> p.slug != Str(slug))
      && (found.Some? ==> var q := found.value;
            && q in loaded && q.slug == Str(slug)
            && forall p :: p in loaded && p.slug == Str(slug) ==> collate(TextKey(q.title), TextKey(p.title)))
  {
    var projects := GetProjects(dir, collate);
    if projects.Fail? {
      return Fail(projects.error);
    }
    FindFirstWithSlug(projects.value, Loaded(dir, ReadProject).value, collate, slug);
    r := Ok(Find(projects.value, SlugIs(slug)));
  }

  /** The test `p => p.slug === slug`. */
  function SlugIs(slug: string): Project -> bool {
    (p: Project) => p.slug == Str(slug)
  }

  /** In a title-sorted permutation of `loaded`, `find` picks a project with the slug whose title collates first. */
  lemma FindFirstWithSlug(sorted: seq<Project>, loaded: seq<Project>, collate: (string, string) -> bool, slug: string)
    requires TotalPreorder(collate)
    requires SortedBy(sorted, ProjectOrder(collate))
    requires multiset(sorted) == multiset(loaded)
    ensures var found := Find(sorted, SlugIs(slug));
      && (found.None? <==> forall p :: p in loaded ==> p.slug != Str(slug))
      && (found.Some? ==> var q := found.value;
            && q in loaded && q.slug == Str(slug)
            && forall p :: p in loaded && p.slug == Str(slug) ==> collate(TextKey(q.title), TextKey(p.title)))
  {
    ProjectOrderIsTotalPreorder(collate);
    FindInSortedPermutation(sorted, loaded, SlugIs(slug), ProjectOrder(collate));
  }
}
