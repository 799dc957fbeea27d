/**
 * The lab log: the coercion of one file into a `LogEntry` and the
 * newest-first listing.
 */
module Log {
  import opened Text
  import opened Content
  import opened Sorting
  import opened Loading
  import opened Summary
  import opened Chronology

  /** One log entry; `kind` is whatever the front matter says, or "news". */
  datatype LogEntry = LogEntry(
    slug: Value,
    title: Value,
    date: Value,
    kind: Value,
    summary: Value,
    link: Value)

  /**
   * `readLogFile` after parsing; it cannot fail.  An explicit `summary`,
   * even an empty one, wins over the summary derived from the body; `kind`
   * is defaulted but never checked against the kinds the type lists.
   */
  function ReadLog(data: FrontMatter, content: string): (r: Result<LogEntry>)
    ensures r.Ok?
    ensures !IsNullish(Get(data, "summary")) ==> r.value.summary == Get(data, "summary")
    ensures IsNullish(Get(data, "summary")) ==> r.value.summary == Str(SummaryFromBody(content))
    ensures IsNullish(Get(data, "date")) ==> r.value.date == Str("1970-01-01")
    ensures !IsNullish(Get(data, "date")) ==> r.value.date == Get(data, "date")
    ensures IsNullish(Get(data, "kind")) ==> r.value.kind == Str("news")
    ensures !IsNullish(Get(data, "kind")) ==> r.value.kind == Get(data, "kind")
    ensures r.value.slug == Get(data, "slug") && r.value.title == Get(data, "title") && r.value.link == Get(data, "link")
  {
    Ok(LogEntry(
      slug := Get(data, "slug"),
      title := Get(data, "title"),
      date := Coalesce(Get(data, "date"), Str("1970-01-01")),
      kind := Coalesce(Get(data, "kind"), Str("news")),
      summary := Coalesce(Get(data, "summary"), Str(SummaryFromBody(content))),
      link := Get(data, "link")))
  }

  /** The `getLogEntries` comparator. */
  function LogOrder(collate: (string, string) -> bool): (LogEntry, LogEntry) -> bool {
    (a: LogEntry, b: LogEntry) => NewestFirst(TextKey(a.date), TextKey(a.title), TextKey(b.date), TextKey(b.title), collate)
  }

  lemma LogOrderIsTotalPreorder(collate: (string, string) -> bool)
    requires TotalPreorder(collate)
    ensures TotalPreorder(LogOrder(collate))
  {
    var leq := LogOrder(collate);
    forall x, y, z | leq(x, y) && leq(y, z)
      ensures leq(x, z)
    {
      NewestFirstTransitive(TextKey(x.date), TextKey(x.title), TextKey(y.date), TextKey(y.title),
                            TextKey(z.date), TextKey(z.title), collate);
    }
    forall x, y
      ensures leq(x, y) || leq(y, x)
    {
      NewestFirstTotal(TextKey(x.date), TextKey(x.title), TextKey(y.date), TextKey(y.title), collate);
    }
  }

  /**
   * `getLogEntries`: the loaded entries with no earlier date (by string
   * comparison) before a later one, and equal dates in title order.
   */
  method GetLogEntries(dir: Directory, collate: (string, string) -> bool) returns (r: Result<seq<LogEntry>>)
    requires TotalPreorder(collate)
    ensures r.Fail? <==> Loaded(dir, ReadLog).Fail?
    ensures r.Fail? ==> r == Loaded(dir, ReadLog)
    ensures r.Ok? ==> multiset(r.value) == multiset(Loaded(dir, ReadLog).value)
    ensures r.Ok? ==> forall i, j :: 0 <= i < j < |r.value| ==> !StrLess(TextKey(r.value[i].date), TextKey(r.value[j].date))
    ensures r.Ok? ==> forall i, j :: 0 <= i < j < |r.value| && TextKey(r.value[i].date) == TextKey(r.value[j].date) ==>
      collate(TextKey(r.value[i].title), TextKey(r.value[j].title))
  {
    LogOrderIsTotalPreorder(collate);
    r := LoadSorted(dir, ReadLog, LogOrder(collate));
    if r.Ok? {
      var s := r.value;
      forall i, j | 0 <= i < j < |s|
        ensures !StrLess(TextKey(s[i].date), TextKey(s[j].date))
      {
        NewestFirstStamps(TextKey(s[i].date), TextKey(s[i].title), TextKey(s[j].date), TextKey(s[j].title), collate);
      }
      forall i, j | 0 <= i < j < |s| && TextKey(s[i].date) == TextKey(s[j].date)
        ensures collate(TextKey(s[i].title), TextKey(s[j].title))
      {
        StrLessIrreflexive(TextKey(s[i].date));
      }
    }
  }

  /** A directory of readable ".mdx" files always lists: no entry can make the log fail. */
  lemma LogLoadsReadableFiles(dir: Directory)
    requires dir.Listed?
    requires forall e :: e in MdxEntries(dir.entries) ==> e.isFile && e.body.Parsed?
    ensures Loaded(dir, ReadLog).Ok?
    ensures |Loaded(dir, ReadLog).value| == |MdxEntries(dir.entries)|
  {
    var files := MdxEntries(dir.entries);
    forall k | 0 <= k < |files|
      ensures Decode(files[k], ReadLog).Ok?
    {
      assert files[k] in files;
    }
  }
}
