/**
 * The playground collection: audio-track mapping, the coercion of one file
 * into a `PlaygroundItem`, the three-key listing that swallows every
 * failure, and the lookup by slug over that listing.
 */
module Playground {
  import opened Text
  import opened Content
  import opened Sorting
  import opened Loading

  /** One audio track of an item. */
  datatype AudioTrack = AudioTrack(trackLabel: Value, src: Value)

  /** One playground item; `audio` is `None` unless the front matter holds a list. */
  datatype PlaygroundItem = PlaygroundItem(
    slug: Value,
    title: Value,
    kind: Value,
    summary: Value,
    body: string,
    order: Value,
    featured: Value,
    model: Value,
    video: Value,
    audio: Option<seq<AudioTrack>>,
    image: Value,
    instructions: Value,
    relatedProject: Value,
    tags: Value)

  /** `v.key` on a value that is not nullish: only objects carry named members. */
  function Member(v: Value, key: string): Value {
    if v.Obj? then Get(v.fields, key) else Undefined
  }

  /**
   * `({ label: track.label ?? "Audio", src: track.src ?? "" })`; a null or
   * undefined track throws on reading `label`.
   */
  function ReadTrack(track: Value): (r: Result<AudioTrack>)
    ensures r.Fail? <==> IsNullish(track)
    ensures r.Fail? ==> r == Fail(MethodError("track", track, "label"))
    ensures r.Ok? && IsNullish(Member(track, "label")) ==> r.value.trackLabel == Str("Audio")
    ensures r.Ok? && !IsNullish(Member(track, "label")) ==> r.value.trackLabel == Member(track, "label")
    ensures r.Ok? && IsNullish(Member(track, "src")) ==> r.value.src == Str("")
    ensures r.Ok? && !IsNullish(Member(track, "src")) ==> r.value.src == Member(track, "src")
  {
    if IsNullish(track) then Fail(MethodError("track", track, "label"))
    else Ok(AudioTrack(Coalesce(Member(track, "label"), Str("Audio")), Coalesce(Member(track, "src"), Str(""))))
  }

  /** `tracks.map(...)`: one track per item, in order, unless an item is nullish. */
  function ReadTracks(tracks: seq<Value>): (r: Result<seq<AudioTrack>>)
    ensures r.Ok? <==> forall k :: 0 <= k < |tracks| ==> !IsNullish(tracks[k])
    ensures r.Ok? ==> |r.value| == |tracks|
    ensures r.Ok? ==> forall k :: 0 <= k < |tracks| ==> ReadTrack(tracks[k]) == Ok(r.value[k])
  {
    if tracks == [] then Ok([])
    else
      match ReadTrack(tracks[0])
      case Fail(m) => Fail(m)
      case Ok(t) =>
        match ReadTracks(tracks[1..])
        case Fail(m) => Fail(m)
        case Ok(ts) =>
          assert forall k :: 1 <= k < |tracks| ==> tracks[k] == tracks[1..][k - 1];
          Ok([t] + ts)
  }

  /**
   * `readPlaygroundFile` after parsing.  It throws only when `audio` is a
   * list holding a null or undefined track.
   */
  function ReadPlayground(data: FrontMatter, content: string): (r: Result<PlaygroundItem>)
    ensures r.Ok? <==> !Get(data, "audio").List? || forall k :: 0 <= k < |Get(data, "audio").items| ==> !IsNullish(Get(data, "audio").items[k])
    ensures r.Ok? ==> (r.value.audio.Some? <==> Get(data, "audio").List?)
    ensures r.Ok? && r.value.audio.Some? ==> |r.value.audio.value| == |Get(data, "audio").items|
    ensures r.Ok? && r.value.audio.Some? ==> forall k :: 0 <= k < |r.value.audio.value| ==>
      ReadTrack(Get(data, "audio").items[k]) == Ok(r.value.audio.value[k])
    ensures r.Ok? ==> CopiesPlaygroundFields(data, content, r.value)
  {
    var raw := Get(data, "audio");
    if raw.List? then
      match ReadTracks(raw.items)
      case Fail(m) => Fail(m)
      case Ok(tracks) => Ok(BuildPlayground(data, content, Some(tracks)))
    else
      Ok(BuildPlayground(data, content, None))
  }

  /**
   * `kind`, `summary`, `order`, `featured` and `tags` fall back to
   * "interactive", "", 99, false and [] when absent; the media fields are
   * copied; `body` is the body without surrounding white space.
   */
  ghost predicate CopiesPlaygroundFields(data: FrontMatter, content: string, p: PlaygroundItem) {
    && p.kind == Coalesce(Get(data, "kind"), Str("interactive"))
    && p.summary == Coalesce(Get(data, "summary"), Str(""))
    && p.order == Coalesce(Get(data, "order"), Num(99))
    && p.featured == Coalesce(Get(data, "featured"), Bool(false))
    && p.tags == Coalesce(Get(data, "tags"), List([]))
    && p.slug == Get(data, "slug") && p.title == Get(data, "title")
    && p.model == Get(data, "model") && p.video == Get(data, "video") && p.image == Get(data, "image")
    && p.instructions == Get(data, "instructions") && p.relatedProject == Get(data, "relatedProject")
    && p.body == Trim(content) && IsTrimmed(p.body) && (p.body == [] <==> IsBlank(content))
  }

  function BuildPlayground(data: FrontMatter, content: string, audio: Option<seq<AudioTrack>>): (p: PlaygroundItem)
    ensures CopiesPlaygroundFields(data, content, p) && p.audio == audio
  {
    PlaygroundItem(
      slug := Get(data, "slug"),
      title := Get(data, "title"),
      kind := Coalesce(Get(data, "kind"), Str("interactive")),
      summary := Coalesce(Get(data, "summary"), Str("")),
      body := Trim(content),
      order := Coalesce(Get(data, "order"), Num(99)),
      featured := Coalesce(Get(data, "featured"), Bool(false)),
      model := Get(data, "model"),
      video := Get(data, "video"),
      audio := audio,
      image := Get(data, "image"),
      instructions := Get(data, "instructions"),
      relatedProject := Get(data, "relatedProject"),
      tags := Coalesce(Get(data, "tags"), List([])))
  }

  /** Featured items rank 0 and the others 1. */
  function FeaturedRank(p: PlaygroundItem): nat {
    if Truthy(p.featured) then 0 else 1
  }

  /** The `getPlaygroundItems` comparator: `order`, then featured first, then title. */
  predicate PlaygroundLeq(a: PlaygroundItem, b: PlaygroundItem, collate: (string, string) -> bool) {
    || NumKey(a.order) < NumKey(b.order)
    || (NumKey(a.order) == NumKey(b.order) && FeaturedRank(a) < FeaturedRank(b))
    || (NumKey(a.order) == NumKey(b.order) && FeaturedRank(a) == FeaturedRank(b) && collate(TextKey(a.title), TextKey(b.title)))
  }

  function PlaygroundOrder(collate: (string, string) -> bool): (PlaygroundItem, PlaygroundItem) -> bool {
    (a, b) => PlaygroundLeq(a, b, collate)
  }

  lemma PlaygroundOrderIsTotalPreorder(collate: (string, string) -> bool)
    requires TotalPreorder(collate)
    ensures TotalPreorder(PlaygroundOrder(collate))
  {
    var leq := PlaygroundOrder(collate);
    forall x, y, z | leq(x, y) && leq(y, z)
      ensures leq(x, z)
    {
      assert collate(TextKey(x.title), TextKey(y.title)) && collate(TextKey(y.title), TextKey(z.title))
        ==> collate(TextKey(x.title), TextKey(z.title));
    }
    forall x, y
      ensures leq(x, y) || leq(y, x)
    {
      assert collate(TextKey(x.title), TextKey(y.title)) || collate(TextKey(y.title), TextKey(x.title));
    }
  }

  /**
   * `getPlaygroundItems`: the loaded items by `order`, featured items first
   * within an order, then by title; any failure while listing or reading
   * gives the empty list.
   */
  method GetPlaygroundItems(dir: Directory, collate: (string, string) -> bool) returns (r: seq<PlaygroundItem>)
    requires TotalPreorder(collate)
    ensures Loaded(dir, ReadPlayground).Fail? ==> r == []
    ensures Loaded(dir, ReadPlayground).Ok? ==> multiset(r) == multiset(Loaded(dir, ReadPlayground).value)
    ensures forall i, j :: 0 <= i < j < |r| ==> NumKey(r[i].order) <= NumKey(r[j].order)
    ensures forall i, j :: 0 <= i < j < |r| && NumKey(r[i].order) == NumKey(r[j].order) && !Truthy(r[i].featured) ==>
      !Truthy(r[j].featured)
    ensures SortedBy(r, PlaygroundOrder(collate))
  {
    PlaygroundOrderIsTotalPreorder(collate);
    var loaded := LoadSorted(dir, ReadPlayground, PlaygroundOrder(collate));
    if loaded.Fail? {
      return [];
    }
    r := loaded.value;
  }

  /**
   * `getPlaygroundItemBySlug`: the first item with the slug in listing
   * order, so one that no other item with the slug precedes; `None` when no
   * item has it or the listing failed.
   */
  method GetPlaygroundItemBySlug(dir: Directory, collate: (string, string) -> bool, slug: string)
    returns (r: Option<PlaygroundItem>)
    requires TotalPreorder(collate)
    ensures Loaded(dir, ReadPlayground).Fail? ==> r.None?
    ensures Loaded(dir, ReadPlayground).Ok? ==>
      (r.None? <==> forall p :: p in Loaded(dir, ReadPlayground).value ==> p.slug != Str(slug))
    ensures r.Some? ==> r.value in Loaded(dir, ReadPlayground).value && r.value.slug == Str(slug)
    ensures r.Some? ==> forall p :: p in Loaded(dir, ReadPlayground).value && p.slug == Str(slug) ==>
      PlaygroundLeq(r.value, p, collate)
  {
    var items := GetPlaygroundItems(dir, collate);
    if Loaded(dir, ReadPlayground).Fail? {
      return None;
    }
    FindFirstWithSlug(items, Loaded(dir, ReadPlayground).value, collate, slug);
    r := Find(items, SlugIs(slug));
  }

  /** The test `item => item.slug === slug`. */
  function SlugIs(slug: string): PlaygroundItem -> bool {
    (p: PlaygroundItem) => p.slug == Str(slug)
  }

  /** In a sorted permutation of `loaded`, `find` picks an item with the slug that no other such item precedes. */
  lemma FindFirstWithSlug(sorted: seq<PlaygroundItem>, loaded: seq<PlaygroundItem>, collate: (string, string) -> bool, slug: string)
    requires TotalPreorder(collate)
    requires SortedBy(sorted, PlaygroundOrder(collate))
    requires multiset(sorted) == multiset(loaded)
    ensures var found := Find(sorted, SlugIs(slug));
      && (found.None? <==> forall p :: p in loaded ==> p.slug != Str(slug))
      && (found.Some? ==> found.value in loaded && found.value.slug == Str(slug))
      && (found.Some? ==> forall p :: p in loaded && p.slug == Str(slug) ==> PlaygroundLeq(found.value, p, collate))
  {
    PlaygroundOrderIsTotalPreorder(collate);
    FindInSortedPermutation(sorted, loaded, SlugIs(slug), PlaygroundOrder(collate));
  }
}
