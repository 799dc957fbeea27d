/**
 * The offline content checker: the per-collection schema table, the three
 * field predicates, the per-directory validation that walks the files
 * collecting errors and the slugs seen so far, and the run over every
 * collection, which reports all errors and exits non-zero only at the end.
 */
module CheckContent {
  import opened Text
  import opened Content

  /** The extra per-file check a schema may carry. */
  datatype CustomCheck = NoCustomCheck | UpdatedOrDate

  /** A collection directory and its required fields, in declaration order. */
  datatype Schema = Schema(name: string, required: seq<(string, string)>, custom: CustomCheck)

  function Schemas(): seq<Schema> { [
    Schema("people", [
      ("slug", "string"), ("name", "string"), ("role", "string"), ("status", "string"),
      ("order", "number"), ("researchAreas", "stringArray"), ("tags", "stringArray")], NoCustomCheck),
    Schema("publications", [
      ("slug", "string"), ("title", "string"), ("authors", "stringArray"), ("year", "number")], NoCustomCheck),
    Schema("projects", [
      ("slug", "string"), ("title", "string"), ("kind", "string"), ("summary", "string"),
      ("status", "string"), ("relatedAreas", "stringArray")], NoCustomCheck),
    Schema("log", [
      ("slug", "string"), ("title", "string"), ("date", "string"), ("kind", "string")], NoCustomCheck),
    Schema("open-lab", [
      ("slug", "string"), ("title", "string"), ("kind", "string")], UpdatedOrDate),
    Schema("playground", [
      ("slug", "string"), ("title", "string"), ("kind", "string")], NoCustomCheck),
    Schema("research-areas", [
      ("slug", "string"), ("title", "string"), ("order", "number"), ("tags", "stringArray")], NoCustomCheck)
  ] }

  /** One reported problem; `Message` gives the line the checker prints for it. */
  datatype Violation =
    | MissingFrontmatter(file: string)
    | MissingSlug(file: string)
    | SlugMismatch(file: string, slug: string, fileSlug: string)
    | InvalidField(file: string, field: string, fieldType: string)
    | DuplicateSlug(file: string, slug: string)
    | NoUpdatedOrDate(file: string)
    | DirectoryFailed(collection: string, message: string)

  function Message(v: Violation): string {
    match v
    case MissingFrontmatter(f) => f + ": missing frontmatter"
    case MissingSlug(f) => f + ": missing required field \"slug\""
    case SlugMismatch(f, s, fs) => f + ": slug \"" + s + "\" does not match filename \"" + fs + "\""
    case InvalidField(f, field, t) => f + ": invalid or missing \"" + field + "\" (" + t + ")"
    case DuplicateSlug(f, s) => f + ": duplicate slug \"" + s + "\""
    case NoUpdatedOrDate(f) => f + ": expected \"updated\" or \"date\" in frontmatter"
    case DirectoryFailed(c, m) => "Failed to validate " + c + ": " + m
  }

  /** `isNonEmptyString`: a string that is not empty once trimmed. */
  predicate IsNonEmptyString(v: Value) {
    v.Str? && |Trim(v.s)| > 0
  }

  /**
   * `isNumberLike`.  `finite(s)` says whether `Number(s)` is a finite
   * number; integers are always finite.
   */
  predicate IsNumberLike(v: Value, finite: string -> bool) {
    match v
    case Num(_) => true
    case Str(s) => Trim(s) != "" && finite(s)
    case _ => false
  }

  /** `value.every(item => typeof item === "string" && item.trim() !== "")`. */
  predicate EveryNonBlankString(items: seq<Value>) {
    items == [] || (items[0].Str? && Trim(items[0].s) != "" && EveryNonBlankString(items[1..]))
  }

  /** `isStringArray`: a list whose items all pass the string test. */
  predicate IsStringArray(v: Value) {
    v.List? && EveryNonBlankString(v.items)
  }

  /** `validateField`: dispatch on the declared type name. */
  predicate ValidateField(fieldType: string, v: Value, finite: string -> bool) {
    if fieldType == "string" then IsNonEmptyString(v)
    else if fieldType == "number" then IsNumberLike(v, finite)
    else if fieldType == "stringArray" then IsStringArray(v)
    else false
  }

  /** A non-empty string is a string with a character that is not white space. */
  lemma IsNonEmptyStringMeaning(v: Value)
    ensures IsNonEmptyString(v) <==> v.Str? && exists k :: 0 <= k < |v.s| && !IsSpace(v.s[k])
  {
  }

  /** A number passes; a string passes when it is not blank and reads as a finite number; nothing else does. */
  lemma IsNumberLikeMeaning(v: Value, finite: string -> bool)
    ensures v.Num? ==> IsNumberLike(v, finite)
    ensures v.Str? ==> (IsNumberLike(v, finite) <==> !IsBlank(v.s) && finite(v.s))
    ensures !v.Num? && !v.Str? ==> !IsNumberLike(v, finite)
  {
  }

  /** `every` holds of the empty list and otherwise of each item. */
  lemma {:induction false} EveryNonBlankStringMeaning(items: seq<Value>)
    ensures EveryNonBlankString(items) <==> forall k :: 0 <= k < |items| ==> items[k].Str? && !IsBlank(items[k].s)
  {
    if items != [] {
      var rest := items[1..];
      EveryNonBlankStringMeaning(rest);
      assert items[0].Str? ==> (Trim(items[0].s) != "" <==> !IsBlank(items[0].s));
      if EveryNonBlankString(items) {
        forall k | 1 <= k < |items|
          ensures items[k].Str? && !IsBlank(items[k].s)
        {
          assert items[k] == rest[k - 1];
        }
      }
      if forall k :: 0 <= k < |items| ==> items[k].Str? && !IsBlank(items[k].s) {
        forall k | 0 <= k < |rest|
          ensures rest[k].Str? && !IsBlank(rest[k].s)
        {
          assert rest[k] == items[k + 1];
        }
      }
    }
  }

  /**
   * `validateField`: a string must not be blank, a number must be number
   * like, a string array must be a list of non-blank strings, and any other
   * type name fails.
   */
  lemma ValidateFieldMeaning(fieldType: string, v: Value, finite: string -> bool)
    ensures fieldType != "string" && fieldType != "number" && fieldType != "stringArray" ==> !ValidateField(fieldType, v, finite)
    ensures fieldType == "string" ==> (ValidateField(fieldType, v, finite) <==> v.Str? && !IsBlank(v.s))
    ensures fieldType == "number" ==> (ValidateField(fieldType, v, finite) <==> v.Num? || (v.Str? && !IsBlank(v.s) && finite(v.s)))
    ensures fieldType == "stringArray" ==> (ValidateField(fieldType, v, finite) <==> v.List? && forall k :: 0 <= k < |v.items| ==> v.items[k].Str? && !IsBlank(v.items[k].s))
  {
    if v.List? {
      EveryNonBlankStringMeaning(v.items);
    }
  }

  /** `getContentFiles`: the regular files whose names end in ".mdx", in listing order. */
  function ContentFiles(entries: seq<Entry>): (r: seq<Entry>)
    ensures |r| <= |entries|
    ensures forall k :: 0 <= k < |r| ==> r[k].isFile && EndsWith(r[k].name, ".mdx")
    ensures forall e :: e in r <==> e in entries && e.isFile && EndsWith(e.name, ".mdx")
  {
    if entries == [] then []
    else
      (if entries[0].isFile && EndsWith(entries[0].name, ".mdx") then [entries[0]] else [])
      + ContentFiles(entries[1..])
  }

  /** The entries `getContentFiles` keeps. */
  predicate IsContentFile(e: Entry) {
    e.isFile && EndsWith(e.name, ".mdx")
  }

  /** The elements of `s` that satisfy `keep`, in order. */
  function Filter<T>(s: seq<T>, keep: T -> bool): seq<T> {
    if s == [] then [] else (if keep(s[0]) then [s[0]] else []) + Filter(s[1..], keep)
  }

  lemma {:induction false} FilterAppend<T>(a: seq<T>, b: seq<T>, keep: T -> bool)
    ensures Filter(a + b, keep) == Filter(a, keep) + Filter(b, keep)
    decreases |a|
  {
    if a == [] {
      assert a + b == b;
    } else {
      FilterAppend(a[1..], b, keep);
      var head := if keep(a[0]) then [a[0]] else [];
      assert (a + b)[0] == a[0];
      assert (a + b)[1..] == a[1..] + b;
      assert Filter(a + b, keep) == head + Filter(a[1..] + b, keep);
      assert Filter(a, keep) == head + Filter(a[1..], keep);
    }
  }

  lemma {:induction false} ContentFilesIsFilter(entries: seq<Entry>)
    ensures ContentFiles(entries) == Filter(entries, IsContentFile)
  {
    if entries != [] {
      ContentFilesIsFilter(entries[1..]);
    }
  }

  /**
   * The filter keeps the listing's order: each entry contributes itself or
   * nothing, and the filter distributes over concatenation.
   */
  lemma ContentFilesInOrder(a: seq<Entry>, b: seq<Entry>)
    ensures ContentFiles(a + b) == ContentFiles(a) + ContentFiles(b)
    ensures |a| == 1 ==> ContentFiles(a) == (if IsContentFile(a[0]) then a else [])
  {
    ContentFilesIsFilter(a + b);
    ContentFilesIsFilter(a);
    ContentFilesIsFilter(b);
    FilterAppend(a, b, IsContentFile);
    if |a| == 1 {
      assert a[1..] == [];
    }
  }

  /**
   * `path.basename(file, ".mdx")`: the name without the extension when it
   * ends with it, except that a file called exactly ".mdx" keeps its name.
   */
  function FileSlug(name: string): (r: string)
    ensures EndsWith(name, ".mdx") && name != ".mdx" ==> r + ".mdx" == name
    ensures !EndsWith(name, ".mdx") || name == ".mdx" ==> r == name
  {
    if EndsWith(name, ".mdx") && name != ".mdx" then name[..|name| - 4] else name
  }

  /** The path printed in messages: the collection directory and the file name. */
  function RelativeFile(schema: Schema, name: string): string {
    schema.name + "/" + name
  }

  /**
   * The slug check: one error when the slug is not a non-blank string, one
   * when it differs from the file name, none otherwise.
   */
  function SlugViolations(file: string, data: FrontMatter, fileSlug: string): (r: seq<Violation>)
    ensures |r| <= 1
    ensures r == [MissingSlug(file)] <==> !IsNonEmptyString(Get(data, "slug"))
    ensures IsNonEmptyString(Get(data, "slug")) && Get(data, "slug").s != fileSlug ==>
      r == [SlugMismatch(file, Get(data, "slug").s, fileSlug)]
    ensures r == [] <==> IsNonEmptyString(Get(data, "slug")) && Get(data, "slug").s == fileSlug
  {
    var slug := Get(data, "slug");
    if !IsNonEmptyString(slug) then [MissingSlug(file)]
    else if slug.s != fileSlug then [SlugMismatch(file, slug.s, fileSlug)]
    else []
  }

  /** The error, if any, for one required field; `slug` is skipped. */
  function FieldViolation(file: string, required: (string, string), data: FrontMatter, finite: string -> bool): seq<Violation> {
    if required.0 == "slug" || ValidateField(required.1, Get(data, required.0), finite) then []
    else [InvalidField(file, required.0, required.1)]
  }

  /** The required-field loop as a left fold over the required fields. */
  function FieldViolations(file: string, required: seq<(string, string)>, data: FrontMatter, finite: string -> bool)
    : seq<Violation>
  {
    if required == [] then []
    else FieldViolations(file, required[..|required| - 1], data, finite) + FieldViolation(file, required[|required| - 1], data, finite)
  }

  /**
   * The required-field loop adds exactly one error for each required field
   * other than `slug` whose value fails its type, and nothing else.
   */
  lemma {:induction false} FieldViolationsMeaning(file: string, required: seq<(string, string)>, data: FrontMatter, finite: string -> bool)
    ensures forall v :: v in FieldViolations(file, required, data, finite) ==>
      && v.InvalidField? && v.file == file && v.field != "slug" && (v.field, v.fieldType) in required
      && !ValidateField(v.fieldType, Get(data, v.field), finite)
    ensures forall f, t :: multiset(FieldViolations(file, required, data, finite))[InvalidField(file, f, t)] == (if f != "slug" && !ValidateField(t, Get(data, f), finite) then multiset(required)[(f, t)] else 0)
  {
    if required != [] {
      var init := required[..|required| - 1];
      var last := required[|required| - 1];
      assert required == init + [last];
      FieldViolationsMeaning(file, init, data, finite);
    }
  }

  /** The duplicate check: an error exactly when the non-blank slug was already seen. */
  function DuplicateViolations(file: string, data: FrontMatter, seen: set<string>): (r: seq<Violation>)
    ensures r != [] <==> IsNonEmptyString(Get(data, "slug")) && Get(data, "slug").s in seen
    ensures r != [] ==> r == [DuplicateSlug(file, Get(data, "slug").s)]
  {
    var slug := Get(data, "slug");
    if IsNonEmptyString(slug) && slug.s in seen then [DuplicateSlug(file, slug.s)] else []
  }

  /** The slugs seen after a file: a non-blank slug is added; the set never shrinks. */
  function NextSeen(data: FrontMatter, seen: set<string>): (r: set<string>)
    ensures seen <= r
    ensures IsNonEmptyString(Get(data, "slug")) ==> r == seen + {Get(data, "slug").s}
    ensures !IsNonEmptyString(Get(data, "slug")) ==> r == seen
  {
    var slug := Get(data, "slug");
    if IsNonEmptyString(slug) then seen + {slug.s} else seen
  }

  /** The open-lab check: one error exactly when both `updated` and `date` are falsy. */
  function CustomViolations(check: CustomCheck, file: string, data: FrontMatter): (r: seq<Violation>)
    ensures r == [] || r == [NoUpdatedOrDate(file)]
    ensures r != [] <==> check == UpdatedOrDate && !Truthy(Get(data, "updated")) && !Truthy(Get(data, "date"))
  {
    if check == UpdatedOrDate && !Truthy(Get(data, "updated")) && !Truthy(Get(data, "date")) then [NoUpdatedOrDate(file)]
    else []
  }

  /**
   * Everything one parsed file adds, given the slugs seen before it: the
   * slug check, the required fields, the duplicate check and the custom
   * check, in that order; a file with empty front matter gets exactly one
   * error and no further checks.
   */
  function FileViolations(schema: Schema, name: string, data: FrontMatter, seen: set<string>, finite: string -> bool)
    : seq<Violation>
  {
    var file := RelativeFile(schema, name);
    if |data| == 0 then [MissingFrontmatter(file)]
    else
      SlugViolations(file, data, FileSlug(name))
      + FieldViolations(file, schema.required, data, finite)
      + DuplicateViolations(file, data, seen)
      + CustomViolations(schema.custom, file, data)
  }

  /** "Missing frontmatter" is reported exactly for empty front matter, and then alone. */
  lemma MissingFrontmatterAlone(schema: Schema, name: string, data: FrontMatter, seen: set<string>, finite: string -> bool)
    ensures |data| == 0 ==> FileViolations(schema, name, data, seen, finite) == [MissingFrontmatter(RelativeFile(schema, name))]
    ensures |data| > 0 ==> MissingFrontmatter(RelativeFile(schema, name)) !in FileViolations(schema, name, data, seen, finite)
  {
    var file := RelativeFile(schema, name);
    if |data| > 0 {
      var sv, fv := SlugViolations(file, data, FileSlug(name)), FieldViolations(file, schema.required, data, finite);
      var dv, cv := DuplicateViolations(file, data, seen), CustomViolations(schema.custom, file, data);
      assert FileViolations(schema, name, data, seen, finite) == sv + fv + dv + cv;
      FieldViolationsMeaning(file, schema.required, data, finite);
      assert MissingFrontmatter(file) !in sv && MissingFrontmatter(file) !in fv;
      assert MissingFrontmatter(file) !in dv && MissingFrontmatter(file) !in cv;
    }
  }

  /** Every error a file adds names that file. */
  lemma FileViolationsNameFile(schema: Schema, name: string, data: FrontMatter, seen: set<string>, finite: string -> bool)
    ensures forall v :: v in FileViolations(schema, name, data, seen, finite) ==>
      !v.DirectoryFailed? && v.file == RelativeFile(schema, name)
  {
    var file := RelativeFile(schema, name);
    if |data| > 0 {
      var sv, fv := SlugViolations(file, data, FileSlug(name)), FieldViolations(file, schema.required, data, finite);
      var dv, cv := DuplicateViolations(file, data, seen), CustomViolations(schema.custom, file, data);
      assert FileViolations(schema, name, data, seen, finite) == sv + fv + dv + cv;
      FieldViolationsMeaning(file, schema.required, data, finite);
      assert forall v :: v in sv ==> !v.DirectoryFailed? && v.file == file;
      assert forall v :: v in fv ==> !v.DirectoryFailed? && v.file == file;
      assert forall v :: v in dv ==> !v.DirectoryFailed? && v.file == file;
      assert forall v :: v in cv ==> !v.DirectoryFailed? && v.file == file;
      assert forall v :: v in sv + fv + dv + cv ==> v in sv || v in fv || v in dv || v in cv;
    }
  }

  /** What the file loop holds after some files: the errors so far and the slugs seen. */
  datatype Scan = Scan(errors: seq<Violation>, seen: set<string>)

  /**
   * The file loop of `validateDirectory` over content files, as a left
   * fold: a file that cannot be read or parsed aborts the directory.
   */
  function ScanFiles(schema: Schema, files: seq<Entry>, finite: string -> bool): (r: Result<Scan>)
  {
    if files == [] then Ok(Scan([], {}))
    else
      var last := files[|files| - 1];
      match ScanFiles(schema, files[..|files| - 1], finite)
      case Fail(m) => Fail(m)
      case Ok(st) =>
        match last.body
        case Unreadable(m) => Fail(m)
        case Parsed(data, _) =>
          Ok(Scan(st.errors + FileViolations(schema, last.name, data, st.seen, finite), NextSeen(data, st.seen)))
  }

  /** `validateDirectory`'s outcome: the errors of every file, or the failure that aborts it. */
  function DirectoryReport(schema: Schema, dir: Directory, finite: string -> bool): (r: Result<seq<Violation>>)
    ensures dir.Unlistable? ==> r == Fail(dir.message)
  {
    match dir
    case Unlistable(m) => Fail(m)
    case Listed(entries) =>
      match ScanFiles(schema, ContentFiles(entries), finite)
      case Fail(m) => Fail(m)
      case Ok(st) => Ok(st.errors)
  }

  /** Once a prefix of the files aborts, the whole scan aborts with the same message. */
  lemma {:induction false} FailurePersists(schema: Schema, files: seq<Entry>, n: nat, finite: string -> bool)
    requires n <= |files|
    requires ScanFiles(schema, files[..n], finite).Fail?
    ensures ScanFiles(schema, files, finite) == ScanFiles(schema, files[..n], finite)
    decreases |files| - n
  {
    if n < |files| {
      assert files[..n + 1][..n] == files[..n];
      FailurePersists(schema, files, n + 1, finite);
    } else {
      assert files[..n] == files;
    }
  }

  /** One more parsed file extends the scan by that file's errors and slug. */
  lemma ScanStep(schema: Schema, files: seq<Entry>, i: nat, finite: string -> bool, st: Scan)
    requires i < |files| && files[i].body.Parsed?
    requires ScanFiles(schema, files[..i], finite) == Ok(st)
    ensures ScanFiles(schema, files[..i + 1], finite)
      == Ok(Scan(st.errors + FileViolations(schema, files[i].name, files[i].body.data, st.seen, finite),
                 NextSeen(files[i].body.data, st.seen)))
  {
    assert files[..i + 1][..i] == files[..i];
  }

  /** An unreadable file aborts the scan with its own message. */
  lemma ScanAbort(schema: Schema, files: seq<Entry>, i: nat, finite: string -> bool)
    requires i < |files| && files[i].body.Unreadable?
    requires ScanFiles(schema, files[..i], finite).Ok?
    ensures ScanFiles(schema, files, finite) == Fail(files[i].body.message)
  {
    assert files[..i + 1][..i] == files[..i];
    FailurePersists(schema, files, i + 1, finite);
  }

  /**
   * `validateDirectory`: walks the content files in listing order, growing
   * `errors` and `slugSet`, and ends with every file's errors, or aborts on
   * the first file it cannot read.
   */
  method ValidateDirectory(schema: Schema, dir: Directory, finite: string -> bool) returns (r: Result<seq<Violation>>)
    ensures r == DirectoryReport(schema, dir, finite)
  {
    if dir.Unlistable? {
      return Fail(dir.message);
    }
    var files := ContentFiles(dir.entries);
    var errors: seq<Violation> := [];
    var slugSet: set<string> := {};
    var i := 0;
    while i < |files|
      invariant 0 <= i <= |files|
      invariant ScanFiles(schema, files[..i], finite) == Ok(Scan(errors, slugSet))
    {
      var e := files[i];
      if e.body.Unreadable? {
        ScanAbort(schema, files, i, finite);
        return Fail(e.body.message);
      }
      ScanStep(schema, files, i, finite, Scan(errors, slugSet));
      errors, slugSet := CheckFile(schema, e.name, e.body.data, finite, errors, slugSet);
      i := i + 1;
    }
    assert files[..|files|] == files;
    r := Ok(errors);
  }

  /** The body of the file loop for one parsed file. */
  method CheckFile(schema: Schema, name: string, data: FrontMatter, finite: string -> bool,
                   errors: seq<Violation>, slugSet: set<string>)
    returns (errors': seq<Violation>, slugSet': set<string>)
    ensures errors' == errors + FileViolations(schema, name, data, slugSet, finite)
    ensures slugSet' == NextSeen(data, slugSet)
  {
    var file := RelativeFile(schema, name);
    if |data| == 0 {
      errors', slugSet' := errors + [MissingFrontmatter(file)], slugSet;
      return;
    }
    var afterSlug := CheckSlug(file, FileSlug(name), data, errors);
    var afterFields := CheckRequired(file, schema.required, data, finite, afterSlug);
    var afterDuplicates;
    afterDuplicates, slugSet' := CheckDuplicate(file, data, afterFields, slugSet);
    errors' := afterDuplicates + CustomViolations(schema.custom, file, data);
    ghost var sv, fv := SlugViolations(file, data, FileSlug(name)), FieldViolations(file, schema.required, data, finite);
    ghost var dv, cv := DuplicateViolations(file, data, slugSet), CustomViolations(schema.custom, file, data);
    AppendAssoc(errors, sv, fv);
    AppendAssoc(errors, sv + fv, dv);
    AppendAssoc(errors, sv + fv + dv, cv);
  }

  lemma AppendAssoc<T>(a: seq<T>, b: seq<T>, c: seq<T>)
    ensures a + b + c == a + (b + c)
  {
  }

  /** The slug check of one file. */
  method CheckSlug(file: string, fileSlug: string, data: FrontMatter, errors: seq<Violation>)
    returns (errors': seq<Violation>)
    ensures errors' == errors + SlugViolations(file, data, fileSlug)
  {
    var slug := Get(data, "slug");
    var pushed: seq<Violation> := [];
    if !IsNonEmptyString(slug) {
      pushed := [MissingSlug(file)];
    } else if slug.s != fileSlug {
      pushed := [SlugMismatch(file, slug.s, fileSlug)];
    }
    errors' := errors + pushed;
  }

  /** The duplicate check of one file, which also records a new slug. */
  method CheckDuplicate(file: string, data: FrontMatter, errors: seq<Violation>, slugSet: set<string>)
    returns (errors': seq<Violation>, slugSet': set<string>)
    ensures errors' == errors + DuplicateViolations(file, data, slugSet)
    ensures slugSet' == NextSeen(data, slugSet)
  {
    var slug := Get(data, "slug");
    var pushed: seq<Violation> := [];
    slugSet' := slugSet;
    if IsNonEmptyString(slug) {
      if slug.s in slugSet {
        pushed := [DuplicateSlug(file, slug.s)];
        assert slugSet + {slug.s} == slugSet;
      } else {
        slugSet' := slugSet + {slug.s};
      }
    }
    errors' := errors + pushed;
  }

  /** The required-field loop of one file. */
  method CheckRequired(file: string, required: seq<(string, string)>, data: FrontMatter, finite: string -> bool,
                       errors: seq<Violation>)
    returns (errors': seq<Violation>)
    ensures errors' == errors + FieldViolations(file, required, data, finite)
  {
    errors' := errors;
    var j := 0;
    while j < |required|
      invariant 0 <= j <= |required|
      invariant errors' == errors + FieldViolations(file, required[..j], data, finite)
    {
      var (field, fieldType) := required[j];
      ghost var step := FieldViolation(file, required[j], data, finite);
      assert required[..j + 1][..j] == required[..j];
      assert FieldViolations(file, required[..j + 1], data, finite)
          == FieldViolations(file, required[..j], data, finite) + step;
      if field != "slug" && !ValidateField(fieldType, Get(data, field), finite) {
        assert step == [InvalidField(file, field, fieldType)];
        errors' := errors' + [InvalidField(file, field, fieldType)];
      } else {
        assert step == [];
      }
      j := j + 1;
    }
    assert required[..|required|] == required;
  }

  /** The slugs of the parsed files that are non-empty strings: what `slugSet` holds after them. */
  function SeenSlugs(files: seq<Entry>): set<string> {
    if files == [] then {}
    else
      var last := files[|files| - 1];
      var before := SeenSlugs(files[..|files| - 1]);
      if last.body.Parsed? then NextSeen(last.body.data, before) else before
  }

  /** The file parsed and carries `slug` as a non-empty string. */
  predicate CarriesSlug(e: Entry, slug: string) {
    e.body.Parsed? && IsNonEmptyString(Get(e.body.data, "slug")) && Get(e.body.data, "slug").s == slug
  }

  /** A slug has been seen exactly when an earlier parsed file carries it as a non-empty string. */
  lemma {:induction false} SeenSlugsMeaning(files: seq<Entry>, slug: string)
    ensures slug in SeenSlugs(files) <==> exists j :: 0 <= j < |files| && CarriesSlug(files[j], slug)
  {
    if files != [] {
      var n := |files| - 1;
      SeenSlugsMeaning(files[..n], slug);
      SeenSlugsLast(files, slug);
      CarriesSplit(files, files[..n], slug);
    }
  }

  /** The last file adds its slug, if it carries one, to the slugs of the files before it. */
  lemma SeenSlugsLast(files: seq<Entry>, slug: string)
    requires files != []
    ensures slug in SeenSlugs(files) <==>
      slug in SeenSlugs(files[..|files| - 1]) || CarriesSlug(files[|files| - 1], slug)
  {
    var last := files[|files| - 1];
    var before := SeenSlugs(files[..|files| - 1]);
    assert SeenSlugs(files) == if last.body.Parsed? then NextSeen(last.body.data, before) else before;
  }

  /** Some file carries the slug exactly when one before the last does or the last does. */
  lemma CarriesSplit(files: seq<Entry>, init: seq<Entry>, slug: string)
    requires files != [] && init == files[..|files| - 1]
    ensures (exists j :: 0 <= j < |files| && CarriesSlug(files[j], slug)) <==>
      (exists j :: 0 <= j < |init| && CarriesSlug(init[j], slug)) || CarriesSlug(files[|files| - 1], slug)
  {
    if j :| 0 <= j < |files| && CarriesSlug(files[j], slug) {
      if j < |init| {
        assert init[j] == files[j];
      }
    }
    if j :| 0 <= j < |init| && CarriesSlug(init[j], slug) {
      assert files[j] == init[j];
    }
  }

  /** A scan that gets through the files holds exactly their slugs. */
  lemma {:induction false} ScanSeen(schema: Schema, files: seq<Entry>, finite: string -> bool)
    requires ScanFiles(schema, files, finite).Ok?
    ensures ScanFiles(schema, files, finite).value.seen == SeenSlugs(files)
  {
    if files != [] {
      ScanSeen(schema, files[..|files| - 1], finite);
    }
  }

  /**
   * The duplicate rule: within one directory, file `i` gets a duplicate
   * error exactly when its slug is a non-empty string that an earlier
   * parsed file already carries.
   */
  lemma DuplicateRule(schema: Schema, files: seq<Entry>, i: nat, finite: string -> bool)
    requires i < |files| && files[i].body.Parsed?
    requires ScanFiles(schema, files[..i], finite).Ok?
    ensures var data := files[i].body.data;
      var st := ScanFiles(schema, files[..i], finite).value;
      DuplicateViolations(RelativeFile(schema, files[i].name), data, st.seen) != [] <==>
        IsNonEmptyString(Get(data, "slug")) && exists j :: 0 <= j < i && CarriesSlug(files[j], Get(data, "slug").s)
  {
    ScanSeen(schema, files[..i], finite);
    SeenBefore(RelativeFile(schema, files[i].name), files[i].body.data, files, i);
  }

  /** The duplicate rule stated over the slugs of the first `i` files. */
  lemma SeenBefore(file: string, data: FrontMatter, files: seq<Entry>, i: nat)
    requires i <= |files|
    ensures DuplicateViolations(file, data, SeenSlugs(files[..i])) != [] <==>
      IsNonEmptyString(Get(data, "slug")) && exists j :: 0 <= j < i && CarriesSlug(files[j], Get(data, "slug").s)
  {
    var slug := Get(data, "slug");
    if IsNonEmptyString(slug) {
      SeenSlugsMeaning(files[..i], slug.s);
      assert forall j :: 0 <= j < i ==> files[..i][j] == files[j];
    }
  }

  /** File `k` is unreadable and every file before it parsed. */
  predicate FirstUnreadable(files: seq<Entry>, k: nat)
    requires k < |files|
  {
    files[k].body.Unreadable? && forall j :: 0 <= j < k ==> files[j].body.Parsed?
  }

  /** When every file parses, the scan gets through. */
  lemma {:induction false} ScanOkWhenParsed(schema: Schema, files: seq<Entry>, finite: string -> bool)
    requires forall j :: 0 <= j < |files| ==> files[j].body.Parsed?
    ensures ScanFiles(schema, files, finite).Ok?
  {
    if files != [] {
      var n := |files| - 1;
      assert forall j :: 0 <= j < n ==> files[..n][j] == files[j];
      ScanOkWhenParsed(schema, files[..n], finite);
    }
  }

  /** The scan aborts with the message of the first file that cannot be read. */
  lemma ScanAbortsAtFirstUnreadable(schema: Schema, files: seq<Entry>, k: nat, finite: string -> bool)
    requires k < |files| && FirstUnreadable(files, k)
    ensures ScanFiles(schema, files, finite) == Fail(files[k].body.message)
  {
    assert forall j :: 0 <= j < k ==> files[..k][j] == files[j];
    ScanOkWhenParsed(schema, files[..k], finite);
    ScanAbort(schema, files, k, finite);
  }

  /** What `run` adds for one collection: its errors, or one line naming the collection and the failure. */
  function SchemaViolations(schema: Schema, dir: Directory, finite: string -> bool): seq<Violation> {
    match DirectoryReport(schema, dir, finite)
    case Ok(errors) => errors
    case Fail(m) => [DirectoryFailed(schema.name, m)]
  }

  /** The contribution of each collection, given what the file system holds under each directory name. */
  function Contribution(content: string -> Directory, finite: string -> bool): Schema -> seq<Violation> {
    (schema: Schema) => SchemaViolations(schema, content(schema.name), finite)
  }

  /** The loop of `run` as a left fold: each schema's contribution appended in table order. */
  function Collect(schemas: seq<Schema>, contribution: Schema -> seq<Violation>): seq<Violation> {
    if schemas == [] then []
    else Collect(schemas[..|schemas| - 1], contribution) + contribution(schemas[|schemas| - 1])
  }

  /** Everything `run` collects; `content(name)` is what the file system holds under the directory `name`. */
  function AllViolations(schemas: seq<Schema>, content: string -> Directory, finite: string -> bool): seq<Violation> {
    Collect(schemas, Contribution(content, finite))
  }

  /** The fold is empty exactly when every schema contributes nothing. */
  lemma {:induction false} CollectEmpty(schemas: seq<Schema>, contribution: Schema -> seq<Violation>)
    ensures Collect(schemas, contribution) == [] <==> forall k :: 0 <= k < |schemas| ==> contribution(schemas[k]) == []
  {
    if schemas != [] {
      var n := |schemas| - 1;
      var init := schemas[..n];
      CollectEmpty(init, contribution);
      assert forall k :: 0 <= k < n ==> init[k] == schemas[k];
    }
  }

  /** The fold keeps every schema's contribution: nothing one schema adds is lost. */
  lemma {:induction false} CollectKeeps(schemas: seq<Schema>, contribution: Schema -> seq<Violation>, k: nat)
    requires k < |schemas|
    ensures forall v :: v in contribution(schemas[k]) ==> v in Collect(schemas, contribution)
  {
    var n := |schemas| - 1;
    var init := schemas[..n];
    if k < n {
      CollectKeeps(init, contribution, k);
      assert init[k] == schemas[k];
    }
  }

  /** A collection contributes nothing exactly when it lists, reads and has no error. */
  lemma SchemaViolationsEmpty(schema: Schema, dir: Directory, finite: string -> bool)
    ensures SchemaViolations(schema, dir, finite) == [] <==> DirectoryReport(schema, dir, finite) == Ok([])
  {
  }

  /**
   * The run passes exactly when every collection lists, every file in it
   * reads, and no file has an error.
   */
  lemma RunPassesIff(schemas: seq<Schema>, content: string -> Directory, finite: string -> bool)
    ensures AllViolations(schemas, content, finite) == [] <==>
      forall k :: 0 <= k < |schemas| ==> DirectoryReport(schemas[k], content(schemas[k].name), finite) == Ok([])
  {
    CollectEmpty(schemas, Contribution(content, finite));
    forall k | 0 <= k < |schemas|
      ensures Contribution(content, finite)(schemas[k]) == [] <==>
        DirectoryReport(schemas[k], content(schemas[k].name), finite) == Ok([])
    {
      SchemaViolationsEmpty(schemas[k], content(schemas[k].name), finite);
    }
  }

  /**
   * A collection that fails does not stop the run: its failure is reported
   * under its name; a collection that validates has all its errors reported.
   */
  lemma RunReportsEveryCollection(schemas: seq<Schema>, content: string -> Directory, finite: string -> bool, k: nat)
    requires k < |schemas|
    ensures var report := DirectoryReport(schemas[k], content(schemas[k].name), finite);
      report.Fail? ==> DirectoryFailed(schemas[k].name, report.error) in AllViolations(schemas, content, finite)
    ensures var report := DirectoryReport(schemas[k], content(schemas[k].name), finite);
      report.Ok? ==> forall v :: v in report.value ==> v in AllViolations(schemas, content, finite)
  {
    CollectKeeps(schemas, Contribution(content, finite), k);
  }

  /** A collection's contribution: its errors when it validates, otherwise one line naming it and the failure. */
  lemma SchemaViolationsCases(schema: Schema, dir: Directory, finite: string -> bool)
    ensures DirectoryReport(schema, dir, finite).Ok? ==> SchemaViolations(schema, dir, finite) == DirectoryReport(schema, dir, finite).value
    ensures DirectoryReport(schema, dir, finite).Fail? ==>
      SchemaViolations(schema, dir, finite) == [DirectoryFailed(schema.name, DirectoryReport(schema, dir, finite).error)]
  {
  }

  /** The loop of `run` over a table of schemas. */
  method ValidateAll(schemas: seq<Schema>, content: string -> Directory, finite: string -> bool) returns (allErrors: seq<Violation>)
    ensures allErrors == AllViolations(schemas, content, finite)
  {
    allErrors := [];
    var i := 0;
    while i < |schemas|
      invariant 0 <= i <= |schemas|
      invariant allErrors == AllViolations(schemas[..i], content, finite)
    {
      var schema := schemas[i];
      assert schemas[..i + 1][..i] == schemas[..i];
      var report := ValidateDirectory(schema, content(schema.name), finite);
      match report {
        case Ok(errors) =>
          allErrors := allErrors + errors;
        case Fail(m) =>
          allErrors := allErrors + [DirectoryFailed(schema.name, m)];
      }
      i := i + 1;
    }
    assert schemas[..|schemas|] == schemas;
  }

  /**
   * `run`: validates every collection in table order, turning a failed
   * collection into one line and carrying on, and exits with 1 exactly when
   * any line was collected.
   */
  method Run(content: string -> Directory, finite: string -> bool) returns (allErrors: seq<Violation>, exitCode: int)
    ensures allErrors == AllViolations(Schemas(), content, finite)
    ensures exitCode == 1 <==> allErrors != []
    ensures exitCode == 0 <==> allErrors == []
  {
    allErrors := ValidateAll(Schemas(), content, finite);
    exitCode := if |allErrors| > 0 then 1 else 0;
  }
}
