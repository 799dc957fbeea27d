/**
 * What it takes for a collection directory to pass the content checker:
 * files each of which the checker finds nothing wrong with, under distinct
 * names, give a report with no error.
 */
module CleanContent {
  import opened Text
  import opened Content
  import opened CheckContent

  /**
   * A file the content checker finds nothing wrong with, whatever slugs it
   * has seen as long as its own is not among them: it parsed, its front
   * matter is not empty, its slug is a non-blank string equal to its name
   * without ".mdx", and its required and custom fields pass.
   */
  predicate Clean(schema: Schema, e: Entry, finite: string -> bool) {
    && e.isFile && EndsWith(e.name, ".mdx") && e.name != ".mdx"
    && e.body.Parsed? && |e.body.data| > 0
    && Get(e.body.data, "slug") == Str(FileSlug(e.name)) && !IsBlank(FileSlug(e.name))
    && FieldViolations(RelativeFile(schema, e.name), schema.required, e.body.data, finite) == []
    && CustomViolations(schema.custom, RelativeFile(schema, e.name), e.body.data) == []
  }

  /** When every required field validates, the required-field loop adds nothing. */
  lemma {:induction false} FieldViolationsNone(file: string, required: seq<(string, string)>, data: FrontMatter, finite: string -> bool)
    requires forall k :: 0 <= k < |required| ==> required[k].0 == "slug" || ValidateField(required[k].1, Get(data, required[k].0), finite)
    ensures FieldViolations(file, required, data, finite) == []
  {
    if required != [] {
      var n := |required| - 1;
      assert forall k :: 0 <= k < n ==> required[..n][k] == required[k];
      FieldViolationsNone(file, required[..n], data, finite);
    }
  }

  /**
   * A file named `<slug>.mdx` whose front matter carries that slug, whose
   * required fields all validate and whose collection has no custom check
   * is clean.
   */
  lemma CleanEntry(schema: Schema, slug: string, data: FrontMatter, content: string, finite: string -> bool)
    requires !IsBlank(slug) && Get(data, "slug") == Str(slug) && |data| > 0
    requires forall k :: 0 <= k < |schema.required| ==>
      schema.required[k].0 == "slug" || ValidateField(schema.required[k].1, Get(data, schema.required[k].0), finite)
    requires schema.custom == NoCustomCheck
    ensures Clean(schema, Entry(slug + ".mdx", true, Parsed(data, content)), finite)
  {
    var name := slug + ".mdx";
    assert name[|name| - 4..] == ".mdx";
    assert FileSlug(name) == slug;
    ValidateFieldMeaning("string", Str(slug), finite);
    FieldViolationsNone(RelativeFile(schema, name), schema.required, data, finite);
  }

  /** A list of regular ".mdx" files is its own list of content files. */
  lemma {:induction false} ContentFilesAll(entries: seq<Entry>)
    requires forall k :: 0 <= k < |entries| ==> entries[k].isFile && EndsWith(entries[k].name, ".mdx")
    ensures ContentFiles(entries) == entries
  {
    if entries != [] {
      ContentFilesAll(entries[1..]);
    }
  }

  /** A file named `<slug>.mdx` carries that slug, and different names carry different slugs. */
  lemma CleanSlugs(schema: Schema, e: Entry, d: Entry, finite: string -> bool)
    requires Clean(schema, e, finite) && Clean(schema, d, finite) && e.name != d.name
    ensures Get(e.body.data, "slug").s != Get(d.body.data, "slug").s
  {
  }

  /** A clean file whose slug has not been seen adds no error. */
  lemma CleanFileQuiet(schema: Schema, e: Entry, seen: set<string>, finite: string -> bool)
    requires Clean(schema, e, finite) && Get(e.body.data, "slug").s !in seen
    ensures FileViolations(schema, e.name, e.body.data, seen, finite) == []
  {
    var file, data := RelativeFile(schema, e.name), e.body.data;
    assert IsNonEmptyString(Get(data, "slug"));
    assert SlugViolations(file, data, FileSlug(e.name)) == [];
    assert DuplicateViolations(file, data, seen) == [];
  }

  /** No file before file `i` of a directory of clean files with distinct names carries file `i`'s slug. */
  lemma SlugFresh(schema: Schema, files: seq<Entry>, i: nat, finite: string -> bool)
    requires forall k :: 0 <= k < |files| ==> Clean(schema, files[k], finite)
    requires forall j, k :: 0 <= j < k < |files| ==> files[j].name != files[k].name
    requires i < |files| && Clean(schema, files[i], finite)
    ensures Get(files[i].body.data, "slug").s !in SeenSlugs(files[..i])
  {
    var slug := Get(files[i].body.data, "slug").s;
    SeenSlugsMeaning(files[..i], slug);
    forall j | 0 <= j < i
      ensures !CarriesSlug(files[..i][j], slug)
    {
      CleanSlugs(schema, files[j], files[i], finite);
    }
  }

  /** One more parsed file adds its slug, if it carries one, to the slugs seen. */
  lemma SeenSlugsStep(files: seq<Entry>, i: nat)
    requires i < |files| && files[i].body.Parsed?
    ensures SeenSlugs(files[..i + 1]) == NextSeen(files[i].body.data, SeenSlugs(files[..i]))
  {
    assert files[..i + 1][..i] == files[..i];
  }

  /**
   * The first `i` files of a directory of clean files with distinct names
   * pass the file loop: it reports nothing and holds their slugs.
   */
  lemma {:induction false} ScanCleanPrefix(schema: Schema, files: seq<Entry>, i: nat, finite: string -> bool)
    requires forall k :: 0 <= k < |files| ==> Clean(schema, files[k], finite)
    requires forall j, k :: 0 <= j < k < |files| ==> files[j].name != files[k].name
    requires i <= |files|
    ensures ScanFiles(schema, files[..i], finite) == Ok(Scan([], SeenSlugs(files[..i])))
  {
    if i > 0 {
      var seen := SeenSlugs(files[..i - 1]);
      ScanCleanPrefix(schema, files, i - 1, finite);
      SlugFresh(schema, files, i - 1, finite);
      CleanFileQuiet(schema, files[i - 1], seen, finite);
      ScanStep(schema, files, i - 1, finite, Scan([], seen));
      SeenSlugsStep(files, i - 1);
    }
  }

  /**
   * A directory of clean files with distinct names passes the checker: the
   * file loop reports nothing and ends holding every file's slug.
   */
  lemma ScanClean(schema: Schema, files: seq<Entry>, finite: string -> bool)
    requires forall k :: 0 <= k < |files| ==> Clean(schema, files[k], finite)
    requires forall j, k :: 0 <= j < k < |files| ==> files[j].name != files[k].name
    ensures ScanFiles(schema, files, finite) == Ok(Scan([], SeenSlugs(files)))
  {
    ScanCleanPrefix(schema, files, |files|, finite);
    assert files[..|files|] == files;
  }

  /** A directory listing clean files with distinct names, and nothing else, passes the checker with no error. */
  lemma CleanDirectoryPasses(schema: Schema, files: seq<Entry>, finite: string -> bool)
    requires forall k :: 0 <= k < |files| ==> Clean(schema, files[k], finite)
    requires forall j, k :: 0 <= j < k < |files| ==> files[j].name != files[k].name
    ensures DirectoryReport(schema, Listed(files), finite) == Ok([])
  {
    ContentFilesAll(files);
    ScanClean(schema, files, finite);
  }
}
