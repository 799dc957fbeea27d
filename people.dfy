/**
 * The people collection: role normalisation, the role weight the listing
 * sorts by, the coercion of one file into a `Person`, and `getPeople`.
 */
module People {
  import opened Text
  import opened Content
  import opened Sorting
  import opened Loading

  /**
   * One member of the lab.  Fields the loader copies without checking keep
   * their front-matter value; `role` has been normalised and `bio` trimmed.
   */
  datatype Person = Person(
    slug: Value,
    name: Value,
    role: string,
    position: Value,
    affiliation: Value,
    status: Value,
    order: Value,
    website: Value,
    image: Value,
    lab: Value,
    researchAreas: Value,
    tags: Value,
    bio: string)

  /** The display label of each lower-case role token. */
  const RoleLabels: map<string, string> := map[
    "faculty" := "Faculty",
    "research-associate" := "Research Associate",
    "student" := "Student",
    "alumni" := "Alumni",
    "staff" := "Staff",
    "collaborator" := "Collaborators and Associated Faculty"
  ]

  /** The rank of each lower-case role token; anything else ranks 6. */
  const RoleWeights: map<string, nat> := map[
    "faculty" := 0,
    "research-associate" := 1,
    "collaborator" := 2,
    "student" := 3,
    "alumni" := 4,
    "staff" := 5
  ]

  /**
   * `normalizeRole`: a known token, in any letter case, becomes its display
   * label; any other role is returned as it is.
   */
  function NormalizeRole(role: string): (r: string)
    ensures Lower(role) in RoleLabels ==> r == RoleLabels[Lower(role)]
    ensures Lower(role) !in RoleLabels ==> r == role
    ensures r == role || r in RoleLabels.Values
  {
    if Lower(role) in RoleLabels then RoleLabels[Lower(role)] else role
  }

  /** `roleWeight`: 0 to 5 for the six tokens in any letter case, 6 for every other string. */
  function RoleWeight(role: string): (w: nat)
    ensures w <= 6
    ensures w == 6 <==> Lower(role) !in RoleWeights
    ensures Lower(role) in RoleWeights ==> w == RoleWeights[Lower(role)]
  {
    if Lower(role) in RoleWeights then RoleWeights[Lower(role)] else 6
  }

  /**
   * The lower-case forms of five of the six display labels; the sixth is
   * longer than every token, so its lower-case form is not one.
   */
  lemma LabelsLowered()
    ensures Lower("Faculty") == "faculty"
    ensures Lower("Research Associate") == "research associate"
    ensures Lower("Student") == "student"
    ensures Lower("Alumni") == "alumni"
    ensures Lower("Staff") == "staff"
    ensures Lower("Collaborators and Associated Faculty") !in RoleLabels
  {
    assert Lower("Faculty") == "faculty";
    assert Lower("Research Associate") == "research associate";
    assert Lower("Student") == "student";
    assert Lower("Alumni") == "alumni";
    assert Lower("Staff") == "staff";
    assert |Lower("Collaborators and Associated Faculty")| == 36;
  }

  /** Normalising an already normalised role changes nothing. */
  lemma NormalizeRoleIdempotent(role: string)
    ensures NormalizeRole(NormalizeRole(role)) == NormalizeRole(role)
  {
    LabelsLowered();
  }

  /**
   * The listing ranks the normalised role, and two of the labels are not
   * tokens of the weight table: research associates and collaborators rank
   * 6, after staff, together with unknown roles.
   */
  lemma WeightOfNormalizedRole(role: string)
    ensures Lower(role) == "faculty" ==> RoleWeight(NormalizeRole(role)) == 0
    ensures Lower(role) == "research-associate" ==> RoleWeight(NormalizeRole(role)) == 6
    ensures Lower(role) == "collaborator" ==> RoleWeight(NormalizeRole(role)) == 6
    ensures Lower(role) == "student" ==> RoleWeight(NormalizeRole(role)) == 3
    ensures Lower(role) == "alumni" ==> RoleWeight(NormalizeRole(role)) == 4
    ensures Lower(role) == "staff" ==> RoleWeight(NormalizeRole(role)) == 5
  {
    LabelsLowered();
  }

  /**
   * `readPersonFile` after parsing.  A truthy `image` that is not a string
   * throws on `trim`, and a `role` that is not a string throws on
   * `toLowerCase` (the image is examined first); otherwise the record copies
   * the fields, defaults the absent ones and trims the body.
   */
  function ReadPerson(data: FrontMatter, content: string): (r: Result<Person>)
    ensures r.Ok? <==> Get(data, "role").Str? && (!Truthy(Get(data, "image")) || Get(data, "image").Str?)
    ensures (!Truthy(Get(data, "image")) || Get(data, "image").Str?) && !Get(data, "role").Str? ==>
      r == Fail(MethodError("role", Get(data, "role"), "toLowerCase"))
    ensures r.Ok? ==> r.value.role == NormalizeRole(Get(data, "role").s)
    ensures r.Ok? ==> r.value.image == (if Get(data, "image").Str? && !IsBlank(Get(data, "image").s) then Get(data, "image") else Undefined)
    ensures r.Ok? ==> CopiesPersonFields(data, content, r.value)
  {
    var rawImage := Get(data, "image");
    if Truthy(rawImage) && !rawImage.Str? then
      Fail(MethodError("rawImage", rawImage, "trim"))
    else
      var image := PresentImage(rawImage);
      var role := Get(data, "role");
      if !role.Str? then
        Fail(MethodError("role", role, "toLowerCase"))
      else
        Ok(BuildPerson(data, content, NormalizeRole(role.s), image))
  }

  /**
   * The fields a person record takes over from the file: `status`, `order`,
   * `researchAreas` and `tags` fall back to "current", 0, [] and [] when
   * absent, the other fields are copied as they are, and `bio` is the body
   * without surrounding white space.
   */
  ghost predicate CopiesPersonFields(data: FrontMatter, content: string, p: Person) {
    && p.status == Coalesce(Get(data, "status"), Str("current"))
    && p.order == Coalesce(Get(data, "order"), Num(0))
    && p.researchAreas == Coalesce(Get(data, "researchAreas"), List([]))
    && p.tags == Coalesce(Get(data, "tags"), List([]))
    && p.slug == Get(data, "slug") && p.name == Get(data, "name")
    && p.position == Get(data, "position") && p.affiliation == Get(data, "affiliation")
    && p.website == Get(data, "website") && p.lab == Get(data, "lab")
    && p.bio == Trim(content) && IsTrimmed(p.bio) && (p.bio == [] <==> IsBlank(content))
  }

  function BuildPerson(data: FrontMatter, content: string, role: string, image: Value): (p: Person)
    ensures CopiesPersonFields(data, content, p) && p.role == role && p.image == image
  {
    Person(
      slug := Get(data, "slug"),
      name := Get(data, "name"),
      role := role,
      position := Get(data, "position"),
      affiliation := Get(data, "affiliation"),
      status := Coalesce(Get(data, "status"), Str("current")),
      order := Coalesce(Get(data, "order"), Num(0)),
      website := Get(data, "website"),
      image := image,
      lab := Get(data, "lab"),
      researchAreas := Coalesce(Get(data, "researchAreas"), List([])),
      tags := Coalesce(Get(data, "tags"), List([])),
      bio := Trim(content))
  }

  /** `rawImage && rawImage.trim() !== "" ? rawImage : undefined` for a falsy value or a string. */
  function PresentImage(rawImage: Value): (image: Value)
    requires !Truthy(rawImage) || rawImage.Str?
    ensures image == (if rawImage.Str? && !IsBlank(rawImage.s) then rawImage else Undefined)
  {
    if Truthy(rawImage) && Trim(rawImage.s) != "" then rawImage else Undefined
  }

  /** The `getPeople` comparator as "a may come before b": role weight, then order, then name. */
  predicate PersonLeq(a: Person, b: Person, collate: (string, string) -> bool) {
    var wa, wb := RoleWeight(a.role), RoleWeight(b.role);
    || wa < wb
    || (wa == wb && NumKey(a.order) < NumKey(b.order))
    || (wa == wb && NumKey(a.order) == NumKey(b.order) && collate(TextKey(a.name), TextKey(b.name)))
  }

  function PeopleOrder(collate: (string, string) -> bool): (Person, Person) -> bool {
    (a, b) => PersonLeq(a, b, collate)
  }

  lemma PeopleOrderIsTotalPreorder(collate: (string, string) -> bool)
    requires TotalPreorder(collate)
    ensures TotalPreorder(PeopleOrder(collate))
  {
    var leq := PeopleOrder(collate);
    forall x, y, z | leq(x, y) && leq(y, z)
      ensures leq(x, z)
    {
      assert collate(TextKey(x.name), TextKey(y.name)) && collate(TextKey(y.name), TextKey(z.name))
        ==> collate(TextKey(x.name), TextKey(z.name));
    }
    forall x, y
      ensures leq(x, y) || leq(y, x)
    {
      assert collate(TextKey(x.name), TextKey(y.name)) || collate(TextKey(y.name), TextKey(x.name));
    }
  }

  /**
   * `getPeople`: fails exactly when one of the ".mdx" files fails to load;
   * otherwise returns the loaded people reordered by role weight, then
   * `order`, then name.
   */
  method GetPeople(dir: Directory, collate: (string, string) -> bool) returns (r: Result<seq<Person>>)
    requires TotalPreorder(collate)
    ensures r.Fail? <==> Loaded(dir, ReadPerson).Fail?
    ensures r.Fail? ==> r == Loaded(dir, ReadPerson)
    ensures r.Ok? ==> multiset(r.value) == multiset(Loaded(dir, ReadPerson).value)
    ensures r.Ok? ==> forall i, j :: 0 <= i < j < |r.value| ==>
      RoleWeight(r.value[i].role) <= RoleWeight(r.value[j].role)
    ensures r.Ok? ==> forall i, j :: 0 <= i < j < |r.value| && RoleWeight(r.value[i].role) == RoleWeight(r.value[j].role) ==>
      NumKey(r.value[i].order) <= NumKey(r.value[j].order)
    ensures r.Ok? ==> forall i, j :: 0 <= i < j < |r.value| ==> PersonLeq(r.value[i], r.value[j], collate)
  {
    PeopleOrderIsTotalPreorder(collate);
    r := LoadSorted(dir, ReadPerson, PeopleOrder(collate));
  }

  /** A ".mdx" file without a string `role` makes the whole listing fail. */
  lemma MissingRoleFailsListing(dir: Directory, k: nat)
    requires dir.Listed? && k < |MdxEntries(dir.entries)|
    requires MdxEntries(dir.entries)[k].isFile && MdxEntries(dir.entries)[k].body.Parsed?
    requires !Get(MdxEntries(dir.entries)[k].body.data, "role").Str?
    ensures Loaded(dir, ReadPerson).Fail?
  {
    var e := MdxEntries(dir.entries)[k];
    assert Decode(e, ReadPerson).Fail?;
  }
}
