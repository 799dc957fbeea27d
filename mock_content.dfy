/**
 * The mock-content generator: the fifty people and hundred publications it
 * writes, each file's name, parsed front matter and body, derived from the
 * running index.  A written file is modelled as the directory entry a later
 * listing returns; the YAML text is modelled by the values it parses to.
 */
module MockContent {
  import opened Text
  import opened Content
  import opened Tags
  import opened People
  import opened Publications
  import opened CheckContent
  import opened CleanContent
  import PeopleGrid

  /** `PEOPLE_COUNT` and `PUBLICATIONS_COUNT`. */
  const PeopleCount: nat := 50
  const PublicationsCount: nat := 100

  /** `startYear`. */
  const StartYear: nat := 2016

  /** `areas`. */
  function AreaNames(): seq<string> {
    ["visualization", "imaging", "data-analysis"]
  }

  /** `personTags`. */
  function PersonTagNames(): seq<string> {
    ["visual-analytics", "urban-computing", "biomedicine", "reproducibility", "human-centered-ai", "systems"]
  }

  /** `pubTags`. */
  function PublicationTagNames(): seq<string> {
    ["visualization", "databases", "machine-learning", "biomedical", "urban-data", "explainability"]
  }

  /** `avatarPaths`. */
  function AvatarPaths(): seq<string> {
    [ "/mock-assets/images/people/avatar-01.jpg", "/mock-assets/images/people/avatar-02.jpg",
      "/mock-assets/images/people/avatar-03.jpg", "/mock-assets/images/people/avatar-04.jpg",
      "/mock-assets/images/people/avatar-05.jpg", "/mock-assets/images/people/avatar-06.jpg",
      "/mock-assets/images/people/avatar-07.jpg", "/mock-assets/images/people/avatar-08.jpg" ]
  }

  /** `pubThumbPaths`. */
  function ThumbnailPaths(): seq<string> {
    ["/mock-assets/images/pubs/pub-01.jpg", "/mock-assets/images/pubs/pub-02.jpg", "/mock-assets/images/pubs/pub-03.jpg"]
  }

  /** `labNames`. */
  function LabNames(): seq<string> {
    ["Visualization & Interfaces Lab", "Urban Data & Cities Lab", "Imaging & Neuroanalytics Lab", "Systems & Reproducibility Lab"]
  }

  /** The `authors` list of `generatePublications`. */
  function MockAuthors(): seq<string> {
    ["Alex Rivera", "Jordan Kim", "Taylor Singh", "Casey Zhang", "Morgan Lee"]
  }

  /**
   * `pick(arr, i)`: the entries taken round-robin, defined by counting
   * down whole rounds; `PickIsRemainder` shows it is `arr[i % arr.length]`.
   */
  function Pick<T>(arr: seq<T>, i: nat): T
    requires |arr| > 0
  {
    if i < |arr| then arr[i] else Pick(arr, i - |arr|)
  }

  /** Picking is indexing by the remainder, as the source writes it. */
  lemma {:induction false} PickIsRemainder<T>(arr: seq<T>, i: nat)
    requires |arr| > 0
    ensures Pick(arr, i) == arr[i % |arr|]
  {
    var n := |arr|;
    if i < n {
      ModUnique(i, n, 0, i);
    } else {
      PickIsRemainder(arr, i - n);
      ModUnique(i, n, (i - n) / n + 1, (i - n) % n);
    }
  }

  /** A positive multiple of a positive number is at least that number. */
  lemma MulAtLeast(x: int, n: int)
    requires x >= 1 && n > 0
    ensures x * n >= n
  {
    assert x * n == (x - 1) * n + n;
  }

  /** The remainder is the only `r` in `[0, n)` with `a == q * n + r`. */
  lemma ModUnique(a: int, n: int, q: int, r: int)
    requires n > 0 && 0 <= r < n && a == q * n + r
    ensures a % n == r
  {
    var q2, r2 := a / n, a % n;
    assert a == q2 * n + r2;
    assert q * n - q2 * n == r2 - r;
    assert (q - q2) * n == q * n - q2 * n;
    if q > q2 {
      MulAtLeast(q - q2, n);
    } else if q < q2 {
      assert (q2 - q) * n == q2 * n - q * n;
      MulAtLeast(q2 - q, n);
    }
  }

  /** `String(i).padStart(width, "0")`. */
  function Index(i: nat, width: nat): (r: string)
    ensures forall k :: 0 <= k < |r| ==> '0' <= r[k] <= '9'
    ensures |NatDigits(i)| <= width ==> |r| == width
  {
    PadStart(Decimal(i), width, '0')
  }

  /** Zeros denote zero. */
  lemma {:induction false} ZerosParse(z: string)
    requires forall k :: 0 <= k < |z| ==> z[k] == '0'
    ensures ParseDigits(z) == 0
  {
    if z != [] {
      ZerosParse(z[..|z| - 1]);
    }
  }

  /** Leading zeros do not change the number a digit string denotes. */
  lemma {:induction false} LeadingZerosParse(z: string, s: string)
    requires forall k :: 0 <= k < |z| ==> z[k] == '0'
    requires forall k :: 0 <= k < |s| ==> '0' <= s[k] <= '9'
    ensures ParseDigits(z + s) == ParseDigits(s)
  {
    if s == [] {
      assert z + s == z;
      ZerosParse(z);
    } else {
      var n := |s| - 1;
      assert (z + s)[..|z + s| - 1] == z + s[..n];
      LeadingZerosParse(z, s[..n]);
    }
  }

  /** The padded index reads back as the index. */
  lemma IndexParses(i: nat, width: nat)
    ensures ParseDigits(Index(i, width)) == i
  {
    var d, r := NatDigits(i), Index(i, width);
    IndexIsPadded(i, width);
    ParseNatDigits(i);
    ZeroPaddedParses(d, r, width);
  }

  /** The padded index is the digits of the index padded with zeros. */
  lemma IndexIsPadded(i: nat, width: nat)
    ensures Index(i, width) == PadStart(NatDigits(i), width, '0')
  {
    assert Decimal(i) == NatDigits(i);
  }

  /** Padding digits with zeros on the left keeps their value. */
  lemma ZeroPaddedParses(s: string, r: string, width: nat)
    requires forall k :: 0 <= k < |s| ==> '0' <= s[k] <= '9'
    requires r == PadStart(s, width, '0')
    ensures forall k :: 0 <= k < |r| ==> '0' <= r[k] <= '9'
    ensures ParseDigits(r) == ParseDigits(s)
  {
    var n := |r| - |s|;
    var z := r[..n];
    assert r[n..] == s;
    assert r == z + s;
    forall k | 0 <= k < |z|
      ensures z[k] == '0'
    {
      assert z[k] == r[k];
    }
    forall k | 0 <= k < |r|
      ensures '0' <= r[k] <= '9'
    {
      if k >= n {
        assert r[k] == s[k - n];
      }
    }
    LeadingZerosParse(z, s);
  }

  /** Different indices give different padded indices, whatever the width. */
  lemma IndexInjective(i: nat, j: nat, width: nat)
    ensures Index(i, width) == Index(j, width) ==> i == j
  {
    IndexParses(i, width);
    IndexParses(j, width);
  }

  /** The four role bands of `generatePeople`, in index order. */
  datatype Band = FacultyBand | AssociateBand | StudentBand | AlumniBand

  /** The band of person `i`. */
  function BandOf(i: nat): Band {
    if i <= 10 then FacultyBand
    else if i <= 20 then AssociateBand
    else if i <= 40 then StudentBand
    else AlumniBand
  }

  /** The `role` string the script assigns for a band. */
  function RoleLabel(b: Band): string {
    match b
    case FacultyBand => "Faculty"
    case AssociateBand => "Research Associate"
    case StudentBand => "Student"
    case AlumniBand => "Alumni"
  }

  /** The role of person `i`. */
  function RoleOf(i: nat): string {
    RoleLabel(BandOf(i))
  }

  /** The bands: people 1 to 10 are faculty, 11 to 20 research associates, 21 to 40 students and the rest alumni. */
  lemma RoleBands(i: nat)
    ensures RoleOf(i) == "Faculty" <==> i <= 10
    ensures RoleOf(i) == "Research Associate" <==> 10 < i <= 20
    ensures RoleOf(i) == "Student" <==> 20 < i <= 40
    ensures RoleOf(i) == "Alumni" <==> 40 < i
  {
  }

  /** Every generated role is a display label the loader keeps as it is. */
  lemma RoleKept(i: nat)
    ensures NormalizeRole(RoleOf(i)) == RoleOf(i)
  {
    LabelsLowered();
  }

  /** Every generated role has a section on the people page. */
  lemma RoleHasSection(i: nat)
    ensures PeopleGrid.Configured(PeopleGrid.Categories(), RoleOf(i))
  {
    var c := PeopleGrid.Categories();
    assert c[0].role == "Faculty" && c[1].role == "Research Associate";
    assert c[3].role == "Student" && c[4].role == "Alumni";
  }

  /** `positionMap[role]`, interpolated into the template (an unknown role would read "undefined"). */
  function PositionOf(role: string): string {
    if role == "Faculty" then "Professor"
    else if role == "Research Associate" then "Research Scientist"
    else if role == "Student" then "Ph.D. Student"
    else if role == "Alumni" then "Alumni"
    else "undefined"
  }

  /** The position written for a band. */
  function BandPosition(b: Band): string {
    match b
    case FacultyBand => "Professor"
    case AssociateBand => "Research Scientist"
    case StudentBand => "Ph.D. Student"
    case AlumniBand => "Alumni"
  }

  /** Every band's role is a key of `positionMap`, and the lookup gives the band's position. */
  lemma BandPositionIsLookup(b: Band)
    ensures PositionOf(RoleLabel(b)) == BandPosition(b) != "undefined"
  {
  }

  /** `mock-person-` and the two-digit index. */
  function PersonSlug(i: nat): string {
    "mock-person-" + Index(i, 2)
  }

  /** `Mock Researcher ` and the two-digit index. */
  function PersonName(i: nat): string {
    "Mock Researcher " + Index(i, 2)
  }

  /** Every entry of a table is a string with a character that is not white space. */
  predicate NoneBlank(table: seq<string>) {
    forall k :: 0 <= k < |table| ==> !IsBlank(table[k])
  }

  /** A pick from a table of non-blank strings is not blank. */
  lemma {:induction false} PickNotBlank(table: seq<string>, i: nat)
    requires |table| > 0 && NoneBlank(table)
    ensures !IsBlank(Pick(table, i))
  {
    if i >= |table| {
      PickNotBlank(table, i - |table|);
    }
  }

  /**
   * The tables a person file picks from: `avatarPaths`, `labNames`, `areas`
   * and `personTags` in the script; the lemmas below hold for any tables
   * with at least one entry each.
   */
  datatype PersonTables = PersonTables(avatars: seq<string>, labs: seq<string>, areas: seq<string>, tags: seq<string>)

  /** Every table has an entry to pick. */
  predicate PersonTablesFilled(t: PersonTables) {
    |t.avatars| > 0 && |t.labs| > 0 && |t.areas| > 0 && |t.tags| > 0
  }

  /** The script's own tables. */
  function ScriptPersonTables(): PersonTables {
    PersonTables(AvatarPaths(), LabNames(), AreaNames(), PersonTagNames())
  }

  /** The script's person tables are filled and none of their entries is blank. */
  lemma ScriptPersonTablesReady()
    ensures PersonTablesFilled(ScriptPersonTables())
    ensures NoneBlank(AvatarPaths()) && NoneBlank(AreaNames()) && NoneBlank(PersonTagNames())
  {
    forall k | 0 <= k < |AvatarPaths()|
      ensures !IsBlank(AvatarPaths()[k])
    {
      NotBlank(AvatarPaths()[k]);
    }
    forall k | 0 <= k < |AreaNames()|
      ensures !IsBlank(AreaNames()[k])
    {
      NotBlank(AreaNames()[k]);
    }
    forall k | 0 <= k < |PersonTagNames()|
      ensures !IsBlank(PersonTagNames()[k])
    {
      NotBlank(PersonTagNames()[k]);
    }
  }

  /** The fields the person template fills in. */
  datatype PersonFields = PersonFields(
    slug: string, name: string, role: string, position: string, affiliation: string, status: string,
    order: nat, website: string, image: string, lab: string, area: string, tags: (string, string))

  /** The front matter of a person file with the fields `f`. */
  function PersonFrontMatter(f: PersonFields): FrontMatter {
    map["slug" := Str(f.slug), "name" := Str(f.name), "role" := Str(f.role), "position" := Str(f.position),
        "affiliation" := Str(f.affiliation), "status" := Str(f.status), "order" := Num(f.order),
        "website" := Str(f.website), "image" := Str(f.image), "lab" := Str(f.lab),
        "researchAreas" := List([Str(f.area)]), "tags" := List([Str(f.tags.0), Str(f.tags.1)])]
  }

  /** Looking up the identifying keys of a person file gives the fields written there. */
  lemma PersonIdentityLookups(f: PersonFields)
    ensures Get(PersonFrontMatter(f), "slug") == Str(f.slug) && Get(PersonFrontMatter(f), "name") == Str(f.name)
    ensures Get(PersonFrontMatter(f), "role") == Str(f.role) && Get(PersonFrontMatter(f), "order") == Num(f.order)
    ensures |PersonFrontMatter(f)| > 0
  {
  }

  /** Looking up the other keys the site reads gives the fields written there. */
  lemma PersonDetailLookups(f: PersonFields)
    ensures Get(PersonFrontMatter(f), "status") == Str(f.status) && Get(PersonFrontMatter(f), "image") == Str(f.image)
    ensures Get(PersonFrontMatter(f), "lab") == Str(f.lab)
    ensures Get(PersonFrontMatter(f), "researchAreas") == List([Str(f.area)])
    ensures Get(PersonFrontMatter(f), "tags") == List([Str(f.tags.0), Str(f.tags.1)])
  {
  }

  /** The fields of person `i`, picking from the tables `t`. */
  function PersonFieldsOf(i: nat, t: PersonTables): PersonFields
    requires i >= 1 && PersonTablesFilled(t)
  {
    var slug := PersonSlug(i);
    PersonFields(slug, PersonName(i), RoleOf(i), BandPosition(BandOf(i)), "VIDA Lab", "current", i,
      "https://example.com/" + slug, Pick(t.avatars, i - 1), Pick(t.labs, i - 1),
      Pick(t.areas, i - 1), (Pick(t.tags, i - 1), Pick(t.tags, i)))
  }

  /** The body of person `i`'s file: the bio between a blank line and the final newline. */
  function PersonBody(i: nat): string {
    "\nMock bio for " + PersonName(i) + ". This person works on experimental\n"
    + "interfaces for multimodal data, combining visualization, imaging, and\ndata analysis.\n"
  }

  /** `files` are named after people 1 to `|files|`, in loop order: `<slug>.mdx`. */
  predicate PeopleNamed(files: seq<Entry>) {
    forall k :: 0 <= k < |files| ==> files[k].isFile && files[k].name == PersonSlug(k + 1) + ".mdx"
  }

  /** The front matter of every person, by zero-based position in the loop. */
  function PersonFrontMatters(t: PersonTables): nat -> FrontMatter
    requires PersonTablesFilled(t)
  {
    (k: nat) => PersonFrontMatter(PersonFieldsOf(k + 1, t))
  }

  /** `files` hold the front matter `data(0)` to `data(|files| - 1)`, in loop order. */
  predicate FrontMattersWritten(files: seq<Entry>, data: nat -> FrontMatter) {
    forall k :: 0 <= k < |files| ==> files[k].body.Parsed? && files[k].body.data == data(k)
  }

  /** The bodies of `files` are `body(1)` to `body(|files|)`, in loop order. */
  predicate BodiesWritten(files: seq<Entry>, body: nat -> string) {
    forall k :: 0 <= k < |files| ==> files[k].body.Parsed? && files[k].body.content == body(k + 1)
  }

  /** Writing the next person's file keeps the names in loop order. */
  lemma PeopleNamedStep(files: seq<Entry>, e: Entry)
    requires PeopleNamed(files) && e.isFile && e.name == PersonSlug(|files| + 1) + ".mdx"
    ensures PeopleNamed(files + [e])
  {
    var all := files + [e];
    forall k | 0 <= k < |all|
      ensures all[k].isFile && all[k].name == PersonSlug(k + 1) + ".mdx"
    {
      if k < |files| {
        assert all[k] == files[k];
      } else {
        assert k == |files| && all[k] == e;
      }
    }
  }

  /** Writing the next file keeps the front matter in loop order. */
  lemma FrontMattersStep(files: seq<Entry>, e: Entry, data: nat -> FrontMatter)
    requires FrontMattersWritten(files, data) && e.body.Parsed? && e.body.data == data(|files|)
    ensures FrontMattersWritten(files + [e], data)
  {
  }

  /** Writing the next body keeps the bodies in loop order. */
  lemma BodiesWrittenStep(files: seq<Entry>, e: Entry, body: nat -> string)
    requires BodiesWritten(files, body) && e.body.Parsed? && e.body.content == body(|files| + 1)
    ensures BodiesWritten(files + [e], body)
  {
  }

  /**
   * `generatePeople`: for `i` from 1 to 50, one file named after the slug
   * and holding person `i`'s front matter and bio; `writes` collects them in
   * order.  The tables picked from are a parameter; the script passes
   * `ScriptPersonTables()`.
   */
  method GeneratePeople(t: PersonTables) returns (writes: seq<Entry>)
    requires PersonTablesFilled(t)
    ensures |writes| == PeopleCount && PeopleNamed(writes)
    ensures FrontMattersWritten(writes, PersonFrontMatters(t)) && BodiesWritten(writes, PersonBody)
  {
    writes := [];
    for i := 1 to PeopleCount + 1
      invariant |writes| == i - 1 && PeopleNamed(writes)
      invariant FrontMattersWritten(writes, PersonFrontMatters(t)) && BodiesWritten(writes, PersonBody)
    {
      var entry := Entry(PersonSlug(i) + ".mdx", true, Parsed(PersonFrontMatters(t)(i - 1), PersonBody(i)));
      PeopleNamedStep(writes, entry);
      FrontMattersStep(writes, entry, PersonFrontMatters(t));
      BodiesWrittenStep(writes, entry, PersonBody);
      writes := writes + [entry];
    }
  }

  /**
   * The year of publication `i`, `startYear + ((i - 1) % 10)`, defined by
   * counting down whole decades; `PublicationYearIsRemainder` shows it is
   * the remainder formula.
   */
  function PublicationYear(i: nat): (year: nat)
    requires i >= 1
    ensures StartYear <= year < StartYear + 10
  {
    if i <= 10 then StartYear + i - 1 else PublicationYear(i - 10)
  }

  /** The year is the start year plus the remainder of `i - 1` by ten, as the source writes it. */
  lemma {:induction false} PublicationYearIsRemainder(i: nat)
    requires i >= 1
    ensures PublicationYear(i) == StartYear + (i - 1) % 10
  {
    if i <= 10 {
      ModUnique(i - 1, 10, 0, i - 1);
    } else {
      PublicationYearIsRemainder(i - 10);
      ModUnique(i - 1, 10, (i - 11) / 10 + 1, (i - 11) % 10);
    }
  }

  /** Ten consecutive publications cover the ten years, and the years repeat with period ten. */
  lemma PublicationYearsCycle(i: nat, year: nat)
    requires i >= 1
    ensures PublicationYear(i + 10) == PublicationYear(i)
    ensures StartYear <= year < StartYear + 10 ==> PublicationYear(year - StartYear + 1) == year
  {
  }

  /** `mock-publication-<year>-` and the three-digit index. */
  function PublicationSlug(i: nat): string
    requires i >= 1
  {
    "mock-publication-" + Decimal(PublicationYear(i)) + "-" + Index(i, 3)
  }

  /** `Mock Publication <index> on Multimodal Analytics`. */
  function PublicationTitle(i: nat): string {
    "Mock Publication " + Index(i, 3) + " on Multimodal Analytics"
  }

  /**
   * The tables a publication file picks from: the `authors` list,
   * `pubThumbPaths` and `pubTags` in the script; the lemmas below hold for
   * any tables with at least one entry each.
   */
  datatype PublicationTables = PublicationTables(authors: seq<string>, thumbnails: seq<string>, tags: seq<string>)

  /** Every table has an entry to pick. */
  predicate PublicationTablesFilled(t: PublicationTables) {
    |t.authors| > 0 && |t.thumbnails| > 0 && |t.tags| > 0
  }

  /** The script's own tables. */
  function ScriptPublicationTables(): PublicationTables {
    PublicationTables(MockAuthors(), ThumbnailPaths(), PublicationTagNames())
  }

  /**
   * The script's publication tables are filled, no author is blank, and the
   * tags are exactly the site's publication tags.
   */
  lemma ScriptPublicationTablesReady()
    ensures PublicationTablesFilled(ScriptPublicationTables())
    ensures NoneBlank(MockAuthors())
    ensures PublicationTagNames() == PublicationTags
  {
    forall k | 0 <= k < |MockAuthors()|
      ensures !IsBlank(MockAuthors()[k])
    {
      NotBlank(MockAuthors()[k]);
    }
  }

  /** The fields the publication template fills in. */
  datatype PublicationFields = PublicationFields(
    slug: string, title: string, authors: (string, string), year: nat, venue: string, kind: string,
    externalUrl: string, thumbnail: string, tags: (string, string), featured: bool)

  /** The front matter of a publication file with the fields `f`. */
  function PublicationFrontMatter(f: PublicationFields): FrontMatter {
    map["slug" := Str(f.slug), "title" := Str(f.title), "authors" := List([Str(f.authors.0), Str(f.authors.1)]),
        "year" := Num(f.year), "venue" := Str(f.venue), "kind" := Str(f.kind), "externalUrl" := Str(f.externalUrl),
        "thumbnail" := Str(f.thumbnail), "tags" := List([Str(f.tags.0), Str(f.tags.1)]), "featured" := Bool(f.featured)]
  }

  /** Looking up the keys the checker requires gives the fields written there. */
  lemma PublicationIdentityLookups(f: PublicationFields)
    ensures Get(PublicationFrontMatter(f), "slug") == Str(f.slug) && Get(PublicationFrontMatter(f), "title") == Str(f.title)
    ensures Get(PublicationFrontMatter(f), "authors") == List([Str(f.authors.0), Str(f.authors.1)])
    ensures Get(PublicationFrontMatter(f), "year") == Num(f.year)
    ensures |PublicationFrontMatter(f)| > 0
  {
  }

  /** Looking up the keys the listing reads gives the fields written there. */
  lemma PublicationDetailLookups(f: PublicationFields)
    ensures Get(PublicationFrontMatter(f), "kind") == Str(f.kind)
    ensures Get(PublicationFrontMatter(f), "tags") == List([Str(f.tags.0), Str(f.tags.1)])
    ensures Get(PublicationFrontMatter(f), "featured") == Bool(f.featured)
  {
  }

  /** The fields of publication `i`, picking from the tables `t`. */
  function PublicationFieldsOf(i: nat, t: PublicationTables): PublicationFields
    requires i >= 1 && PublicationTablesFilled(t)
  {
    var year := PublicationYear(i);
    PublicationFields(PublicationSlug(i), PublicationTitle(i), (Pick(t.authors, i - 1), Pick(t.authors, i)),
      year, "Mock Conference on Visual Analytics " + Decimal(year), "paper",
      "https://doi.org/10.1234/mock-doi-" + Index(i, 3), Pick(t.thumbnails, i - 1),
      (Pick(t.tags, i - 1), Pick(t.tags, i)), i <= 5)
  }

  /** The body of publication `i`'s file: the abstract between a blank line and the final newline. */
  function PublicationBody(i: nat): string {
    "\nShort abstract for " + PublicationTitle(i) + ". This mock entry is used to\n"
    + "stress-test the publications listing and filtering UI.\n"
  }

  /** `files` are named after publications 1 to `|files|`, in loop order: `<slug>.mdx`. */
  predicate PublicationsNamed(files: seq<Entry>) {
    forall k :: 0 <= k < |files| ==> files[k].isFile && files[k].name == PublicationSlug(k + 1) + ".mdx"
  }

  /** The front matter of every publication, by zero-based position in the loop. */
  function PublicationFrontMatters(t: PublicationTables): nat -> FrontMatter
    requires PublicationTablesFilled(t)
  {
    (k: nat) => PublicationFrontMatter(PublicationFieldsOf(k + 1, t))
  }

  /** Writing the next publication's file keeps the names in loop order. */
  lemma PublicationsNamedStep(files: seq<Entry>, e: Entry)
    requires PublicationsNamed(files) && e.isFile && e.name == PublicationSlug(|files| + 1) + ".mdx"
    ensures PublicationsNamed(files + [e])
  {
    var all := files + [e];
    forall k | 0 <= k < |all|
      ensures all[k].isFile && all[k].name == PublicationSlug(k + 1) + ".mdx"
    {
      if k < |files| {
        assert all[k] == files[k];
      } else {
        assert k == |files| && all[k] == e;
      }
    }
  }

  /**
   * `generatePublications`: for `i` from 1 to 100, one file named after the
   * slug and holding publication `i`'s front matter and abstract; `writes`
   * collects them in order.  The tables picked from are a parameter; the
   * script passes `ScriptPublicationTables()`.
   */
  method GeneratePublications(t: PublicationTables) returns (writes: seq<Entry>)
    requires PublicationTablesFilled(t)
    ensures |writes| == PublicationsCount && PublicationsNamed(writes)
    ensures FrontMattersWritten(writes, PublicationFrontMatters(t)) && BodiesWritten(writes, PublicationBody)
  {
    writes := [];
    for i := 1 to PublicationsCount + 1
      invariant |writes| == i - 1 && PublicationsNamed(writes)
      invariant FrontMattersWritten(writes, PublicationFrontMatters(t)) && BodiesWritten(writes, PublicationBody)
    {
      var entry := Entry(PublicationSlug(i) + ".mdx", true, Parsed(PublicationFrontMatters(t)(i - 1), PublicationBody(i)));
      PublicationsNamedStep(writes, entry);
      FrontMattersStep(writes, entry, PublicationFrontMatters(t));
      BodiesWrittenStep(writes, entry, PublicationBody);
      writes := writes + [entry];
    }
  }

  /** Different indices give different `<slug>.mdx` names for people. */
  lemma PersonSlugsDistinct(i: nat, j: nat)
    requires i != j
    ensures PersonSlug(i) + ".mdx" != PersonSlug(j) + ".mdx"
  {
    var a, b := PersonSlug(i), PersonSlug(j);
    if a + ".mdx" == b + ".mdx" {
      assert a == (a + ".mdx")[..|a|] == (b + ".mdx")[..|b|] == b;
      assert Index(i, 2) == a[12..] == b[12..] == Index(j, 2);
      IndexInjective(i, j, 2);
    }
  }

  /** A number of four digits has a decimal form of four characters. */
  lemma FourDigits(n: nat)
    requires 1000 <= n < 10000
    ensures |Decimal(n)| == 4
  {
    assert NatDigits(n) == NatDigits(n / 10) + [DigitChar(n % 10)];
  }

  /**
   * Different indices give different `<slug>.mdx` names for publications:
   * the year has four digits, so the padded index always starts at the
   * same place.
   */
  lemma PublicationSlugsDistinct(i: nat, j: nat)
    requires i >= 1 && j >= 1 && i != j
    ensures PublicationSlug(i) + ".mdx" != PublicationSlug(j) + ".mdx"
  {
    var a, b := PublicationSlug(i), PublicationSlug(j);
    if a + ".mdx" == b + ".mdx" {
      assert a == (a + ".mdx")[..|a|] == (b + ".mdx")[..|b|] == b;
      FourDigits(PublicationYear(i));
      FourDigits(PublicationYear(j));
      assert Index(i, 3) == a[22..] == b[22..] == Index(j, 3);
      IndexInjective(i, j, 3);
    }
  }

  /**
   * Front matter with a display role and a non-blank image path loads: the
   * role and the image are kept as written and the other fields are copied.
   */
  lemma PersonReads(data: FrontMatter, content: string, role: string, image: string)
    requires Get(data, "role") == Str(role) && Get(data, "image") == Str(image)
    requires NormalizeRole(role) == role && !IsBlank(image)
    ensures ReadPerson(data, content).Ok?
    ensures var p := ReadPerson(data, content).value;
      && p.role == role && p.image == Str(image) && p.slug == Get(data, "slug")
      && p.order == Coalesce(Get(data, "order"), Num(0)) && p.lab == Get(data, "lab")
  {
  }

  /**
   * A person file with a display role and a non-blank image path loads,
   * whatever body follows the front matter: the role, the order, the slug,
   * the lab and the image are those written.
   */
  lemma PersonFieldsLoad(f: PersonFields, content: string)
    requires NormalizeRole(f.role) == f.role && !IsBlank(f.image)
    ensures ReadPerson(PersonFrontMatter(f), content).Ok?
    ensures var p := ReadPerson(PersonFrontMatter(f), content).value;
      && p.role == f.role && p.order == Num(f.order) && p.slug == Str(f.slug)
      && p.lab == Str(f.lab) && p.image == Str(f.image)
  {
    PersonIdentityLookups(f);
    PersonDetailLookups(f);
    PersonReads(PersonFrontMatter(f), content, f.role, f.image);
  }

  /** Person `i`'s role is kept by the loader and its image is not blank when the avatar paths are not. */
  lemma PersonLoadable(i: nat, t: PersonTables)
    requires i >= 1 && PersonTablesFilled(t) && NoneBlank(t.avatars)
    ensures NormalizeRole(PersonFieldsOf(i, t).role) == PersonFieldsOf(i, t).role
    ensures !IsBlank(PersonFieldsOf(i, t).image)
  {
    RoleKept(i);
    PickNotBlank(t.avatars, i - 1);
  }

  /**
   * The `k`-th generated person file loads, whatever body follows its front
   * matter and whatever non-blank avatar paths it picks from: the role is
   * that of its band and the order is its index.
   */
  lemma PersonLoads(files: seq<Entry>, t: PersonTables, k: nat)
    requires PersonTablesFilled(t) && NoneBlank(t.avatars) && FrontMattersWritten(files, PersonFrontMatters(t)) && k < |files|
    ensures ReadPerson(files[k].body.data, files[k].body.content).Ok?
    ensures ReadPerson(files[k].body.data, files[k].body.content).value.role == RoleOf(k + 1)
    ensures ReadPerson(files[k].body.data, files[k].body.content).value.order == Num(k + 1)
  {
    var f := PersonFieldsOf(k + 1, t);
    assert f.role == RoleOf(k + 1) && f.order == k + 1;
    assert files[k].body.data == PersonFrontMatter(f);
    PersonLoadable(k + 1, t);
    PersonLoadsAs(f, files[k].body.data, files[k].body.content);
  }

  /** Front matter written for `f` loads with the role and order of `f`. */
  lemma PersonLoadsAs(f: PersonFields, data: FrontMatter, content: string)
    requires data == PersonFrontMatter(f) && NormalizeRole(f.role) == f.role && !IsBlank(f.image)
    ensures ReadPerson(data, content).Ok?
    ensures ReadPerson(data, content).value.role == f.role && ReadPerson(data, content).value.order == Num(f.order)
  {
    PersonFieldsLoad(f, content);
  }

  /**
   * Front matter whose `tags` are two known publication tags loads with both
   * of them, in order; the other fields are copied.
   */
  lemma PublicationReads(data: FrontMatter, content: string, t1: string, t2: string)
    requires Get(data, "tags") == List([Str(t1), Str(t2)])
    requires t1 in PublicationTags && t2 in PublicationTags
    ensures ReadPublication(data, content).Ok?
    ensures var p := ReadPublication(data, content).value;
      && p.tags == [t1, t2] && p.year == Get(data, "year")
      && p.kind == Coalesce(Get(data, "kind"), Str("paper")) && p.featured == Get(data, "featured")
  {
    var items := [Str(t1), Str(t2)];
    assert KeepKnown(items, PublicationTags) == [t1] + KeepKnown(items[1..], PublicationTags);
    assert KeepKnown(items[1..], PublicationTags) == [t2] + KeepKnown(items[2..], PublicationTags);
  }

  /** A pick from the site's publication tags is one of them. */
  lemma {:induction false} PickKnown(table: seq<string>, i: nat)
    requires |table| > 0 && table == PublicationTags
    ensures Pick(table, i) in PublicationTags
  {
    if i >= |table| {
      PickKnown(table, i - |table|);
    }
  }

  /**
   * A publication file whose tags are known publication tags loads,
   * whatever body follows the front matter, with both tags, the year, the
   * kind and the featured flag written.
   */
  lemma PublicationFieldsLoad(f: PublicationFields, content: string)
    requires f.tags.0 in PublicationTags && f.tags.1 in PublicationTags
    ensures ReadPublication(PublicationFrontMatter(f), content).Ok?
    ensures var p := ReadPublication(PublicationFrontMatter(f), content).value;
      && p.tags == [f.tags.0, f.tags.1] && p.year == Num(f.year)
      && p.kind == Str(f.kind) && p.featured == Bool(f.featured)
  {
    PublicationIdentityLookups(f);
    PublicationDetailLookups(f);
    PublicationReads(PublicationFrontMatter(f), content, f.tags.0, f.tags.1);
  }

  /**
   * The `k`-th generated publication file loads, whatever body follows its
   * front matter, when its tags are picked from the site's publication
   * tags: with both its tags, its year in the ten-year span, kind "paper",
   * and featured exactly when it is among the first five.
   */
  lemma PublicationLoads(files: seq<Entry>, t: PublicationTables, k: nat)
    requires PublicationTablesFilled(t) && t.tags == PublicationTags && FrontMattersWritten(files, PublicationFrontMatters(t)) && k < |files|
    ensures ReadPublication(files[k].body.data, files[k].body.content).Ok?
    ensures var p := ReadPublication(files[k].body.data, files[k].body.content).value;
      && p.tags == [Pick(t.tags, k), Pick(t.tags, k + 1)]
      && p.year.Num? && StartYear <= p.year.n < StartYear + 10
      && p.kind == Str("paper")
      && (Truthy(p.featured) <==> k < 5)
  {
    var f := PublicationFieldsOf(k + 1, t);
    assert f.featured <==> k < 5;
    PickKnown(t.tags, k);
    PickKnown(t.tags, k + 1);
    PublicationFieldsLoad(f, files[k].body.content);
  }

  /** The people and publications schemas. */
  lemma SchemaShapes()
    ensures Schemas()[0] == Schema("people", [
      ("slug", "string"), ("name", "string"), ("role", "string"), ("status", "string"),
      ("order", "number"), ("researchAreas", "stringArray"), ("tags", "stringArray")], NoCustomCheck)
    ensures Schemas()[1] == Schema("publications", [
      ("slug", "string"), ("title", "string"), ("authors", "stringArray"), ("year", "number")], NoCustomCheck)
  {
  }

  /** A string whose first character is not white space is not blank. */
  lemma NotBlank(s: string)
    requires |s| > 0 && !IsSpace(s[0])
    ensures !IsBlank(s)
  {
  }

  /** A string that starts with a non-blank prefix is not blank. */
  lemma PrefixedNotBlank(prefix: string, s: string)
    requires |prefix| > 0 && !IsSpace(prefix[0])
    ensures !IsBlank(prefix + s)
  {
    assert (prefix + s)[0] == prefix[0];
  }

  /** Front matter whose people fields hold non-blank strings, a number and lists of non-blank strings passes them. */
  lemma PeopleFieldsValid(data: FrontMatter, finite: string -> bool, name: string, role: string, status: string, order: int,
                          area: string, t1: string, t2: string)
    requires Get(data, "name") == Str(name) && Get(data, "role") == Str(role) && Get(data, "status") == Str(status)
    requires Get(data, "order") == Num(order)
    requires Get(data, "researchAreas") == List([Str(area)]) && Get(data, "tags") == List([Str(t1), Str(t2)])
    requires !IsBlank(name) && !IsBlank(role) && !IsBlank(status) && !IsBlank(area) && !IsBlank(t1) && !IsBlank(t2)
    ensures forall k :: 0 <= k < |Schemas()[0].required| ==>
      Schemas()[0].required[k].0 == "slug" || ValidateField(Schemas()[0].required[k].1, Get(data, Schemas()[0].required[k].0), finite)
  {
    SchemaShapes();
    var required := Schemas()[0].required;
    forall k | 0 <= k < |required|
      ensures required[k].0 == "slug" || ValidateField(required[k].1, Get(data, required[k].0), finite)
    {
      ValidateFieldMeaning(required[k].1, Get(data, required[k].0), finite);
    }
  }

  /** The fields the people schema requires are non-blank strings. */
  predicate PersonFieldsPresent(f: PersonFields) {
    && !IsBlank(f.slug) && !IsBlank(f.name) && !IsBlank(f.role) && !IsBlank(f.status)
    && !IsBlank(f.area) && !IsBlank(f.tags.0) && !IsBlank(f.tags.1)
  }

  /** A person file whose required fields are present is clean under the people schema. */
  lemma PersonFieldsClean(f: PersonFields, body: string, finite: string -> bool)
    requires PersonFieldsPresent(f)
    ensures Clean(Schemas()[0], Entry(f.slug + ".mdx", true, Parsed(PersonFrontMatter(f), body)), finite)
  {
    var data := PersonFrontMatter(f);
    PersonIdentityLookups(f);
    PersonDetailLookups(f);
    PeopleFieldsValid(data, finite, f.name, f.role, f.status, f.order, f.area, f.tags.0, f.tags.1);
    SchemaShapes();
    CleanEntry(Schemas()[0], f.slug, data, body, finite);
  }


  /** Person `i`'s slug and name are not blank. */
  lemma PersonNamesPresent(i: nat)
    ensures !IsBlank(PersonSlug(i)) && !IsBlank(PersonName(i))
  {
    PrefixedNotBlank("mock-person-", Index(i, 2));
    PrefixedNotBlank("Mock Researcher ", Index(i, 2));
  }

  /** Person `i`'s role and status are not blank. */
  lemma PersonRolePresent(i: nat)
    ensures !IsBlank(RoleOf(i)) && !IsBlank("current")
  {
    NotBlank(RoleOf(i));
    NotBlank("current");
  }

  /** Person `i`'s research area and tags are not blank when the tables they come from are not. */
  lemma PersonTopicsPresent(i: nat, t: PersonTables)
    requires i >= 1 && PersonTablesFilled(t) && NoneBlank(t.areas) && NoneBlank(t.tags)
    ensures !IsBlank(Pick(t.areas, i - 1)) && !IsBlank(Pick(t.tags, i - 1)) && !IsBlank(Pick(t.tags, i))
  {
    PickNotBlank(t.areas, i - 1);
    PickNotBlank(t.tags, i - 1);
    PickNotBlank(t.tags, i);
  }

  /** Every generated person has the fields the people schema requires. */
  lemma PersonFieldsPresentAt(i: nat, t: PersonTables)
    requires i >= 1 && PersonTablesFilled(t) && NoneBlank(t.areas) && NoneBlank(t.tags)
    ensures PersonFieldsPresent(PersonFieldsOf(i, t))
  {
    PersonNamesPresent(i);
    PersonRolePresent(i);
    PersonTopicsPresent(i, t);
  }

  /** Front matter whose publication fields hold non-blank strings, a number and a list of non-blank strings passes them. */
  lemma PublicationFieldsValid(data: FrontMatter, finite: string -> bool, title: string, a1: string, a2: string, year: int)
    requires Get(data, "title") == Str(title) && Get(data, "authors") == List([Str(a1), Str(a2)])
    requires Get(data, "year") == Num(year)
    requires !IsBlank(title) && !IsBlank(a1) && !IsBlank(a2)
    ensures forall k :: 0 <= k < |Schemas()[1].required| ==>
      Schemas()[1].required[k].0 == "slug" || ValidateField(Schemas()[1].required[k].1, Get(data, Schemas()[1].required[k].0), finite)
  {
    SchemaShapes();
    var required := Schemas()[1].required;
    forall k | 0 <= k < |required|
      ensures required[k].0 == "slug" || ValidateField(required[k].1, Get(data, required[k].0), finite)
    {
      ValidateFieldMeaning(required[k].1, Get(data, required[k].0), finite);
    }
  }

  /** The fields the publications schema requires are non-blank strings. */
  predicate PublicationFieldsPresent(f: PublicationFields) {
    !IsBlank(f.slug) && !IsBlank(f.title) && !IsBlank(f.authors.0) && !IsBlank(f.authors.1)
  }

  /** A publication file whose required fields are present is clean under the publications schema. */
  lemma PublicationFieldsClean(f: PublicationFields, body: string, finite: string -> bool)
    requires PublicationFieldsPresent(f)
    ensures Clean(Schemas()[1], Entry(f.slug + ".mdx", true, Parsed(PublicationFrontMatter(f), body)), finite)
  {
    var data := PublicationFrontMatter(f);
    PublicationIdentityLookups(f);
    PublicationFieldsValid(data, finite, f.title, f.authors.0, f.authors.1, f.year);
    SchemaShapes();
    CleanEntry(Schemas()[1], f.slug, data, body, finite);
  }

  /** Every generated publication has the fields the publications schema requires. */
  lemma PublicationFieldsPresentAt(i: nat, t: PublicationTables)
    requires i >= 1 && PublicationTablesFilled(t) && NoneBlank(t.authors)
    ensures PublicationFieldsPresent(PublicationFieldsOf(i, t))
  {
    PrefixedNotBlank("mock-publication-" + Decimal(PublicationYear(i)) + "-", Index(i, 3));
    PrefixedNotBlank("Mock Publication " + Index(i, 3), " on Multimodal Analytics");
    PickNotBlank(t.authors, i - 1);
    PickNotBlank(t.authors, i);
  }

  /** The `k`-th file of a generated people directory is clean. */
  lemma PersonFileClean(files: seq<Entry>, t: PersonTables, k: nat, finite: string -> bool)
    requires PersonTablesFilled(t) && NoneBlank(t.areas) && NoneBlank(t.tags)
    requires PeopleNamed(files) && FrontMattersWritten(files, PersonFrontMatters(t)) && k < |files|
    ensures Clean(Schemas()[0], files[k], finite)
  {
    var f := PersonFieldsOf(k + 1, t);
    PersonFieldsPresentAt(k + 1, t);
    PersonFieldsClean(f, files[k].body.content, finite);
    assert files[k] == Entry(f.slug + ".mdx", true, Parsed(PersonFrontMatter(f), files[k].body.content));
  }

  /** The `j`-th and the `k`-th files of a generated people directory have different names. */
  lemma PersonFileNamesDistinct(files: seq<Entry>, j: nat, k: nat)
    requires PeopleNamed(files) && j < k < |files|
    ensures files[j].name != files[k].name
  {
    PersonSlugsDistinct(j + 1, k + 1);
  }

  /**
   * A people directory holding just generated files, however many, passes
   * the checker with no error when the research areas and tags picked from
   * are not blank.
   */
  lemma GeneratedPeoplePass(files: seq<Entry>, t: PersonTables, finite: string -> bool)
    requires PersonTablesFilled(t) && NoneBlank(t.areas) && NoneBlank(t.tags)
    requires PeopleNamed(files) && FrontMattersWritten(files, PersonFrontMatters(t))
    ensures DirectoryReport(Schemas()[0], Listed(files), finite) == Ok([])
  {
    forall k | 0 <= k < |files|
      ensures Clean(Schemas()[0], files[k], finite)
    {
      PersonFileClean(files, t, k, finite);
    }
    forall j, k | 0 <= j < k < |files|
      ensures files[j].name != files[k].name
    {
      PersonFileNamesDistinct(files, j, k);
    }
    CleanDirectoryPasses(Schemas()[0], files, finite);
  }

  /** The `k`-th file of a generated publications directory is clean. */
  lemma PublicationFileClean(files: seq<Entry>, t: PublicationTables, k: nat, finite: string -> bool)
    requires PublicationTablesFilled(t) && NoneBlank(t.authors)
    requires PublicationsNamed(files) && FrontMattersWritten(files, PublicationFrontMatters(t)) && k < |files|
    ensures Clean(Schemas()[1], files[k], finite)
  {
    var f := PublicationFieldsOf(k + 1, t);
    PublicationFieldsPresentAt(k + 1, t);
    PublicationFieldsClean(f, files[k].body.content, finite);
    assert files[k] == Entry(f.slug + ".mdx", true, Parsed(PublicationFrontMatter(f), files[k].body.content));
  }

  /** The `j`-th and the `k`-th files of a generated publications directory have different names. */
  lemma PublicationFileNamesDistinct(files: seq<Entry>, j: nat, k: nat)
    requires PublicationsNamed(files) && j < k < |files|
    ensures files[j].name != files[k].name
  {
    PublicationSlugsDistinct(j + 1, k + 1);
  }

  /**
   * A publications directory holding just generated files, however many,
   * passes the checker with no error when the authors picked from are not
   * blank.
   */
  lemma GeneratedPublicationsPass(files: seq<Entry>, t: PublicationTables, finite: string -> bool)
    requires PublicationTablesFilled(t) && NoneBlank(t.authors)
    requires PublicationsNamed(files) && FrontMattersWritten(files, PublicationFrontMatters(t))
    ensures DirectoryReport(Schemas()[1], Listed(files), finite) == Ok([])
  {
    forall k | 0 <= k < |files|
      ensures Clean(Schemas()[1], files[k], finite)
    {
      PublicationFileClean(files, t, k, finite);
    }
    forall j, k | 0 <= j < k < |files|
      ensures files[j].name != files[k].name
    {
      PublicationFileNamesDistinct(files, j, k);
    }
    CleanDirectoryPasses(Schemas()[1], files, finite);
  }

  /** The directories the script writes, with its own tables, pass the checker. */
  lemma ScriptOutputPasses(people: seq<Entry>, publications: seq<Entry>, finite: string -> bool)
    requires PersonTablesFilled(ScriptPersonTables())
    requires PeopleNamed(people) && FrontMattersWritten(people, PersonFrontMatters(ScriptPersonTables()))
    requires PublicationTablesFilled(ScriptPublicationTables())
    requires PublicationsNamed(publications) && FrontMattersWritten(publications, PublicationFrontMatters(ScriptPublicationTables()))
    ensures DirectoryReport(Schemas()[0], Listed(people), finite) == Ok([])
    ensures DirectoryReport(Schemas()[1], Listed(publications), finite) == Ok([])
  {
    ScriptPersonTablesReady();
    ScriptPublicationTablesReady();
    GeneratedPeoplePass(people, ScriptPersonTables(), finite);
    GeneratedPublicationsPass(publications, ScriptPublicationTables(), finite);
  }
}
