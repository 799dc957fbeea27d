/**
 * The pipeline every collection loader shares: list the collection's
 * directory, keep the ".mdx" names, read and build each record (a single
 * failure rejects the whole `Promise.all`), then sort with the collection's
 * comparator.  Also the `Array.prototype.find` used by the slug lookups.
 */
module Loading {
  import opened Content
  import opened Sorting

  /** Reads one file and builds its record. */
  function Decode<R>(e: Entry, build: (FrontMatter, string) -> Result<R>): (r: Result<R>)
    ensures !e.isFile ==> r == Fail(ReadDirectoryError)
    ensures e.isFile && e.body.Unreadable? ==> r == Fail(e.body.message)
    ensures e.isFile && e.body.Parsed? ==> r == build(e.body.data, e.body.content)
  {
    match ReadEntry(e)
    case Fail(m) => Fail(m)
    case Ok(body) => build(body.data, body.content)
  }

  /**
   * `Promise.all(files.map(read))`: every record when every file builds, else
   * the failure of the first file (in listing order) that does not.
   */
  function LoadEach<R>(files: seq<Entry>, build: (FrontMatter, string) -> Result<R>): (r: Result<seq<R>>)
    ensures r.Ok? <==> forall k :: 0 <= k < |files| ==> Decode(files[k], build).Ok?
    ensures r.Ok? ==> |r.value| == |files|
    ensures r.Ok? ==> forall k :: 0 <= k < |files| ==> Decode(files[k], build) == Ok(r.value[k])
  {
    if files == [] then Ok([])
    else
      match Decode(files[0], build)
      case Fail(m) => Fail(m)
      case Ok(x) =>
        match LoadEach(files[1..], build)
        case Fail(m) =>
          Fail(m)
        case Ok(xs) =>
          assert forall k :: 1 <= k < |files| ==> files[k] == files[1..][k - 1];
          Ok([x] + xs)
  }

  /** The records of a collection directory, in listing order, before sorting. */
  function Loaded<R>(dir: Directory, build: (FrontMatter, string) -> Result<R>): (r: Result<seq<R>>)
    ensures dir.Unlistable? ==> r == Fail(dir.message)
    ensures dir.Listed? ==> r == LoadEach(MdxEntries(dir.entries), build)
  {
    match dir
    case Unlistable(m) => Fail(m)
    case Listed(entries) => LoadEach(MdxEntries(entries), build)
  }

  /**
   * `readdir`, `Promise.all` over the ".mdx" files, then `sort(comparator)`:
   * fails exactly when loading fails, with the same error, and otherwise
   * returns the loaded records reordered by `leq`.
   */
  method LoadSorted<R(!new)>(dir: Directory, build: (FrontMatter, string) -> Result<R>, leq: (R, R) -> bool)
    returns (r: Result<seq<R>>)
    requires TotalPreorder(leq)
    ensures r.Fail? <==> Loaded(dir, build).Fail?
    ensures r.Fail? ==> r == Loaded(dir, build)
    ensures r.Ok? ==> multiset(r.value) == multiset(Loaded(dir, build).value)
    ensures r.Ok? ==> SortedBy(r.value, leq)
  {
    var loaded := Loaded(dir, build);
    if loaded.Fail? {
      return loaded;
    }
    var sorted := Sort(loaded.value, leq);
    r := Ok(sorted);
  }

  /** The index of the first element satisfying `matches`, if any. */
  function FindIndex<R>(s: seq<R>, matches: R -> bool): (r: Option<nat>)
    ensures r.None? <==> forall k :: 0 <= k < |s| ==> !matches(s[k])
    ensures r.Some? ==> r.value < |s| && matches(s[r.value])
    ensures r.Some? ==> forall k :: 0 <= k < r.value ==> !matches(s[k])
  {
    if s == [] then None
    else if matches(s[0]) then Some(0)
    else
      match FindIndex(s[1..], matches)
      case None => None
      case Some(k) => Some(k + 1)
  }

  /** `s.find(matches)`: the first element that matches, or `undefined`. */
  function Find<R>(s: seq<R>, matches: R -> bool): (r: Option<R>)
    ensures r.None? <==> forall k :: 0 <= k < |s| ==> !matches(s[k])
    ensures r.Some? ==> r.value in s && matches(r.value)
    ensures r.Some? ==> exists i :: 0 <= i < |s| && s[i] == r.value && forall k :: 0 <= k < i ==> !matches(s[k])
  {
    match FindIndex(s, matches)
    case None => None
    case Some(k) => Some(s[k])
  }

  /**
   * In a sequence sorted by `leq`, the element `find` returns comes no later
   * in the order than any other element that matches.
   */
  lemma FindInSortedIsLeast<R(!new)>(s: seq<R>, matches: R -> bool, leq: (R, R) -> bool)
    requires Total(leq)
    requires SortedBy(s, leq)
    requires Find(s, matches).Some?
    ensures forall x :: x in s && matches(x) ==> leq(Find(s, matches).value, x)
  {
    var k := FindIndex(s, matches).value;
    forall x | x in s && matches(x)
      ensures leq(s[k], x)
    {
      var j :| 0 <= j < |s| && s[j] == x;
      if j == k {
        assert leq(x, x) || leq(x, x);
      }
    }
  }

  /**
   * `find` over a sorted rearrangement of `loaded`: nothing is found exactly
   * when nothing in `loaded` matches, and what is found is a matching
   * element of `loaded` that comes first in the order among those that match.
   */
  lemma FindInSortedPermutation<R(!new)>(s: seq<R>, loaded: seq<R>, matches: R -> bool, leq: (R, R) -> bool)
    requires Total(leq)
    requires SortedBy(s, leq)
    requires multiset(s) == multiset(loaded)
    ensures Find(s, matches).None? <==> forall x :: x in loaded ==> !matches(x)
    ensures Find(s, matches).Some? ==> Find(s, matches).value in loaded && matches(Find(s, matches).value)
    ensures Find(s, matches).Some? ==> forall x :: x in loaded && matches(x) ==> leq(Find(s, matches).value, x)
  {
    forall x
      ensures x in s <==> x in loaded
    {
      assert x in s <==> x in multiset(s);
    }
    if Find(s, matches).Some? {
      FindInSortedIsLeast(s, matches, leq);
    }
  }
}
