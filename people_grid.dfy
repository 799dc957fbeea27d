/**
 * The reshaping the lab-atlas page does before rendering: people grouped
 * by lab and by role, the category sections, the avatar initials and
 * colour, and the collage that shows at most seven faces.
 */
module PeopleGrid {
  import opened Text
  import opened Content
  import opened Grouping
  import opened People

  /**
   * `person.lab ?? "Lab"`, as the property key the reduce indexes with: the
   * cast to `string` checks nothing, so a number, boolean or list lab is
   * keyed by its text.
   */
  function LabKey(p: Person): (key: string)
    ensures IsNullish(p.lab) ==> key == "Lab"
    ensures p.lab.Str? ==> key == p.lab.s
  {
    if IsNullish(p.lab) then "Lab" else ToText(p.lab)
  }

  /** The keys of a grouping in first-appearance order, and the group under each. */
  datatype Grouped = Grouped(keys: seq<string>, groups: map<string, seq<Person>>)

  /**
   * `groupByLab` followed by `Object.keys`: the labs in the order they first
   * occur and, under each, the people of that lab in input order.  A lab
   * key that names an inherited member finds a function (or the prototype),
   * which is truthy and has no `push`, so the reduce throws.
   */
  method GroupByLab(people: seq<Person>) returns (r: Result<Grouped>)
    ensures r.Fail? <==> exists p :: p in people && LabKey(p) in InheritedNames
    ensures r.Fail? ==> r.error == "acc[key].push is not a function"
    ensures r.Ok? ==> r.value.keys == KeysInOrder(people, LabKey) && r.value.groups == GroupsOf(people, LabKey)
    ensures r.Ok? ==> forall lab :: lab in r.value.groups <==> lab in r.value.keys
    ensures r.Ok? ==> forall p :: p in people ==> LabKey(p) in r.value.groups && p in r.value.groups[LabKey(p)]
    ensures r.Ok? ==> forall lab, p :: lab in r.value.groups && p in r.value.groups[lab] ==> p in people && LabKey(p) == lab
  {
    if exists p :: p in people && LabKey(p) in InheritedNames {
      return Fail("acc[key].push is not a function");
    }
    var labs, groups := GroupBy(people, LabKey);
    GroupsOfCover(people, LabKey);
    r := Ok(Grouped(labs, groups));
  }

  /** The key of `peopleByRole`: the normalised role string. */
  function RoleKey(p: Person): string {
    p.role
  }

  /**
   * `peopleByRole`: the people under each role that occurs, in input order;
   * a role that names an inherited member makes `push` throw, as in
   * `groupByLab`.
   */
  method PeopleByRole(people: seq<Person>) returns (r: Result<map<string, seq<Person>>>)
    ensures r.Fail? <==> exists p :: p in people && RoleKey(p) in InheritedNames
    ensures r.Fail? ==> r.error == "acc[person.role].push is not a function"
    ensures r.Ok? ==> r.value == GroupsOf(people, RoleKey)
  {
    if exists p :: p in people && RoleKey(p) in InheritedNames {
      return Fail("acc[person.role].push is not a function");
    }
    var roles, byRole := GroupBy(people, RoleKey);
    r := Ok(byRole);
  }

  /** One entry of `CATEGORY_CONFIG`. */
  datatype Category = Category(role: string, heading: string, hideAvatar: bool)

  /** `CATEGORY_CONFIG`: the eight roles the page has a section for, in display order. */
  function Categories(): seq<Category> {
    [ Category("Faculty", "Faculty", false),
      Category("Research Associate", "Research Associates", false),
      Category("Collaborators and Associated Faculty", "Collaborators & Associated Faculty", false),
      Category("Student", "Students", false),
      Category("Alumni", "Alumni", false),
      Category("Visiting Researcher", "Visiting Researchers", true),
      Category("Past Visitor", "Past Visitors", true),
      Category("Staff", "Staff", false) ]
  }

  /** One rendered category section. */
  datatype Section = Section(category: Category, members: seq<Person>)

  /**
   * The category sections: for each configured role in order,
   * `peopleByRole[role] ?? []`, skipped when empty.
   */
  function Sections(config: seq<Category>, byRole: map<string, seq<Person>>): seq<Section> {
    if config == [] then []
    else
      var group := if config[0].role in byRole then byRole[config[0].role] else [];
      (if group == [] then [] else [Section(config[0], group)]) + Sections(config[1..], byRole)
  }

  /** Some category of `config` has the role. */
  predicate Configured(config: seq<Category>, role: string) {
    exists i :: 0 <= i < |config| && config[i].role == role
  }

  /** `peopleByRole[role] ?? []` holds exactly the people of the input with that role. */
  lemma RoleGroup(people: seq<Person>, role: string)
    ensures var byRole := GroupsOf(people, RoleKey);
      forall p :: p in (if role in byRole then byRole[role] else []) <==> p in people && p.role == role
  {
    var byRole := GroupsOf(people, RoleKey);
    MembersMeaning(people, RoleKey, role);
    forall p | p in people && p.role == role
      ensures role in byRole && p in byRole[role]
    {
      var i :| 0 <= i < |people| && people[i] == p;
      KeyListed(people, RoleKey, i);
      assert multiset(people)[p] > 0;
      assert multiset(byRole[role])[p] > 0;
    }
    if role in byRole {
      forall p | p in byRole[role]
        ensures p in people
      {
        assert multiset(byRole[role])[p] > 0;
      }
    }
  }

  /** A role is configured when the first category has it or a later one does. */
  lemma ConfiguredCons(config: seq<Category>, role: string)
    requires config != []
    ensures Configured(config, role) <==> config[0].role == role || Configured(config[1..], role)
  {
    if Configured(config, role) && config[0].role != role {
      var i :| 0 <= i < |config| && config[i].role == role;
      assert config[1..][i - 1] == config[i];
    }
    if Configured(config[1..], role) {
      var i :| 0 <= i < |config[1..]| && config[1..][i].role == role;
      assert config[i + 1] == config[1..][i];
    }
  }

  /** Every section is non-empty, has a configured role and holds only people of the input with that role. */
  lemma {:induction false} SectionsSound(people: seq<Person>, config: seq<Category>)
    ensures forall s :: s in Sections(config, GroupsOf(people, RoleKey)) ==>
      s.members != [] && Configured(config, s.category.role) &&
      forall p :: p in s.members ==> p in people && p.role == s.category.role
  {
    if config != [] {
      var byRole := GroupsOf(people, RoleKey);
      SectionsSound(people, config[1..]);
      RoleGroup(people, config[0].role);
      ConfiguredCons(config, config[0].role);
      forall s | s in Sections(config[1..], byRole)
        ensures Configured(config, s.category.role)
      {
        ConfiguredCons(config, s.category.role);
      }
    }
  }

  /** Every person of the input whose role is configured appears in some section. */
  lemma {:induction false} SectionsComplete(people: seq<Person>, config: seq<Category>)
    ensures forall p :: p in people && Configured(config, p.role) ==>
      exists s :: s in Sections(config, GroupsOf(people, RoleKey)) && p in s.members
  {
    if config != [] {
      var byRole := GroupsOf(people, RoleKey);
      var c := config[0];
      var group := if c.role in byRole then byRole[c.role] else [];
      var head := if group == [] then [] else [Section(c, group)];
      assert Sections(config, byRole) == head + Sections(config[1..], byRole);
      SectionsComplete(people, config[1..]);
      RoleGroup(people, c.role);
      forall p | p in people && Configured(config, p.role)
        ensures exists s :: s in Sections(config, byRole) && p in s.members
      {
        ConfiguredCons(config, p.role);
        if p.role == c.role {
          assert p in group;
          assert Section(c, group) in Sections(config, byRole);
        } else {
          var s :| s in Sections(config[1..], byRole) && p in s.members;
          assert s in Sections(config, byRole);
        }
      }
    }
  }

  /**
   * Every section is non-empty and holds only people of its category's
   * role, and a person of the input appears in some section exactly when
   * their role is one of the configured roles.
   */
  lemma SectionsMeaning(people: seq<Person>, config: seq<Category>)
    ensures forall s :: s in Sections(config, GroupsOf(people, RoleKey)) ==>
      s.members != [] && Configured(config, s.category.role) &&
      forall p :: p in s.members ==> p in people && p.role == s.category.role
    ensures forall p :: p in people ==>
      ((exists s :: s in Sections(config, GroupsOf(people, RoleKey)) && p in s.members) <==> Configured(config, p.role))
  {
    SectionsSound(people, config);
    SectionsComplete(people, config);
  }

  /**
   * The sections the page renders, in `CATEGORY_CONFIG` order, or the error
   * `peopleByRole` throws.
   */
  method CategorySections(people: seq<Person>) returns (r: Result<seq<Section>>)
    ensures r.Fail? <==> exists p :: p in people && RoleKey(p) in InheritedNames
    ensures r.Ok? ==> r.value == Sections(Categories(), GroupsOf(people, RoleKey))
  {
    var byRole := PeopleByRole(people);
    if byRole.Fail? {
      return Fail(byRole.error);
    }
    r := Ok(Sections(Categories(), byRole.value));
  }

  /**
   * `name.split(" ")`: the pieces between single spaces, so a run of `n`
   * spaces leaves `n - 1` empty pieces and a blank name gives empty pieces
   * only.
   */
  function Split(s: string): (r: seq<string>)
    ensures |r| >= 1
  {
    if s == [] then [""]
    else
      var rest := Split(s[1..]);
      if s[0] == ' ' then [""] + rest else [[s[0]] + rest[0]] + rest[1..]
  }

  /** Joining the pieces with a space gives the name back, and no piece holds a space. */
  lemma {:induction false} SplitJoin(s: string)
    ensures Join(Split(s), " ") == s
    ensures forall k :: 0 <= k < |Split(s)| ==> ' ' !in Split(s)[k]
  {
    if s != [] {
      SplitJoin(s[1..]);
      var rest := Split(s[1..]);
      if s[0] == ' ' {
        assert ([""] + rest)[1..] == rest;
        assert s == " " + s[1..];
      } else {
        var parts := [[s[0]] + rest[0]] + rest[1..];
        if |rest| == 1 {
          assert s == [s[0]] + s[1..];
        } else {
          assert parts[1..] == rest[1..];
          assert s == [s[0]] + s[1..];
        }
        forall k | 0 <= k < |parts|
          ensures ' ' !in parts[k]
        {
          if k > 0 {
            assert parts[k] == rest[k];
          }
        }
      }
    }
  }

  /** `.filter(Boolean)` on strings: the non-empty ones, in order. */
  function NonEmpty(parts: seq<string>): seq<string> {
    if parts == [] then []
    else (if parts[0] == [] then [] else [parts[0]]) + NonEmpty(parts[1..])
  }

  /** The space-separated words of a name. */
  function Words(name: string): seq<string> {
    NonEmpty(Split(name))
  }

  /** A name has no word exactly when it is made of spaces only. */
  lemma {:induction false} WordsEmpty(name: string)
    ensures Words(name) == [] <==> forall k :: 0 <= k < |name| ==> name[k] == ' '
  {
    if name != [] {
      WordsEmpty(name[1..]);
      var rest := Split(name[1..]);
      if name[0] == ' ' {
        assert Words(name) == Words(name[1..]) by {
          assert NonEmpty([""] + rest) == NonEmpty(rest) by {
            assert ([""] + rest)[1..] == rest;
          }
        }
        assert forall k :: 1 <= k < |name| ==> name[k] == name[1..][k - 1];
      } else {
        assert Words(name)[0] == [name[0]] + rest[0];
      }
    }
  }

  /** Every word is non-empty and free of spaces. */
  lemma {:induction false} WordsAreWords(name: string)
    ensures forall k :: 0 <= k < |Words(name)| ==> Words(name)[k] != [] && ' ' !in Words(name)[k]
  {
    SplitJoin(name);
    NonEmptyKeeps(Split(name));
  }

  lemma {:induction false} NonEmptyKeeps(parts: seq<string>)
    ensures forall k :: 0 <= k < |NonEmpty(parts)| ==> NonEmpty(parts)[k] != [] && NonEmpty(parts)[k] in parts
  {
    if parts != [] {
      NonEmptyKeeps(parts[1..]);
      var head := if parts[0] == [] then [] else [parts[0]];
      forall k | 0 <= k < |NonEmpty(parts)|
        ensures NonEmpty(parts)[k] != [] && NonEmpty(parts)[k] in parts
      {
        if k >= |head| {
          assert NonEmpty(parts)[k] == NonEmpty(parts[1..])[k - |head|];
        }
      }
    }
  }

  /** The first word starts with the first character of the name that is not a space. */
  lemma {:induction false} FirstWordStart(name: string, i: nat)
    requires i < |name| && name[i] != ' '
    requires forall k :: 0 <= k < i ==> name[k] == ' '
    ensures Words(name) != [] && Words(name)[0] != [] && Words(name)[0][0] == name[i]
  {
    var rest := Split(name[1..]);
    if i == 0 {
      assert Words(name)[0] == [name[0]] + rest[0];
    } else {
      FirstWordStart(name[1..], i - 1);
      assert NonEmpty([""] + rest) == NonEmpty(rest) by {
        assert ([""] + rest)[1..] == rest;
      }
    }
  }

  /** How a leading character changes the words: a space is dropped, a letter starts or extends the first word. */
  lemma WordsCons(name: string)
    requires name != []
    ensures name[0] == ' ' ==> Words(name) == Words(name[1..])
    ensures name[0] != ' ' && (|name| == 1 || name[1] == ' ') ==> Words(name) == [[name[0]]] + Words(name[1..])
    ensures name[0] != ' ' && |name| > 1 && name[1] != ' ' ==>
      Words(name[1..]) != [] && Words(name) == [[name[0]] + Words(name[1..])[0]] + Words(name[1..])[1..]
  {
    var rest := Split(name[1..]);
    if name[0] == ' ' {
      assert ([""] + rest)[1..] == rest;
    } else {
      var parts := [[name[0]] + rest[0]] + rest[1..];
      assert parts[1..] == rest[1..];
      assert Words(name) == [[name[0]] + rest[0]] + NonEmpty(rest[1..]);
      if |name| == 1 || name[1] == ' ' {
        if |name| > 1 {
          assert Split(name[1..]) == [""] + Split(name[2..]);
        }
        assert rest[0] == [];
        assert [name[0]] + rest[0] == [name[0]];
        assert NonEmpty(rest) == NonEmpty(rest[1..]);
      } else {
        assert rest[0] == [name[1]] + Split(name[2..])[0];
        assert NonEmpty(rest) == [rest[0]] + NonEmpty(rest[1..]);
      }
    }
  }

  /** Position `i` of `name` begins a word. */
  predicate WordStart(name: string, i: int) {
    0 <= i < |name| && name[i] != ' ' && (i == 0 || name[i - 1] == ' ')
  }

  /** A name that starts with a letter and has another word start later has at least two words. */
  lemma {:induction false} SecondWordStart(name: string, k: nat)
    requires name != [] && name[0] != ' ' && 0 < k && WordStart(name, k)
    ensures |Words(name)| >= 2
  {
    WordsCons(name);
    if name[1] == ' ' {
      WordsEmpty(name[1..]);
      assert name[1..][k - 1] == name[k];
    } else {
      assert k >= 2;
      assert WordStart(name[1..], k - 1) by {
        assert name[1..][k - 2] == name[k - 1];
      }
      SecondWordStart(name[1..], k - 1);
    }
  }

  /**
   * The last word of a name begins at its last word start: the word that
   * begins at `i` when no word begins after `i`.
   */
  lemma {:induction false} LastWordStart(name: string, i: nat)
    requires WordStart(name, i)
    requires forall j :: i < j < |name| ==> !WordStart(name, j)
    ensures Words(name) != [] && Words(name)[|Words(name)| - 1] != []
    ensures Words(name)[|Words(name)| - 1][0] == name[i]
    decreases |name|, 1
  {
    if i == 0 {
      OnlyWordStart(name);
    } else {
      LaterLastWordStart(name, i);
    }
  }

  /** `LastWordStart` when the only word start is the first character. */
  lemma {:induction false} OnlyWordStart(name: string)
    requires WordStart(name, 0)
    requires forall j :: 0 < j < |name| ==> !WordStart(name, j)
    ensures Words(name) != [] && Words(name)[|Words(name)| - 1] != []
    ensures Words(name)[|Words(name)| - 1][0] == name[0]
  {
    WordsAreWords(name);
    WordsCons(name);
    FirstWordStart(name, 0);
    if |Words(name)| >= 2 {
      SecondWordAt(name);
    }
  }

  /** `LastWordStart` when the last word start comes after the first character. */
  lemma {:induction false} LaterLastWordStart(name: string, i: nat)
    requires 0 < i && WordStart(name, i)
    requires forall j :: i < j < |name| ==> !WordStart(name, j)
    ensures Words(name) != [] && Words(name)[|Words(name)| - 1] != []
    ensures Words(name)[|Words(name)| - 1][0] == name[i]
    decreases |name|, 0
  {
    WordsAreWords(name);
    WordsCons(name);
    var t := name[1..];
    assert WordStart(t, i - 1) by {
      if i > 1 {
        assert t[i - 2] == name[i - 1];
      }
    }
    forall j | i - 1 < j < |t|
      ensures !WordStart(t, j)
    {
      assert WordStart(t, j) ==> WordStart(name, j + 1);
    }
    LastWordStart(t, i - 1);
    var w := Words(t);
    assert t[i - 1] == name[i];
    if name[0] == ' ' {
      assert Words(name) == w;
    } else if |name| == 1 || name[1] == ' ' {
      assert Words(name) == [[name[0]]] + w;
      assert Words(name)[|Words(name)| - 1] == w[|w| - 1];
    } else {
      if |w| == 1 {
        FirstWordStart(t, 0);
        SecondWordStart(t, i - 1);
      }
      assert Words(name) == [[name[0]] + w[0]] + w[1..];
      assert Words(name)[|Words(name)| - 1] == w[|w| - 1];
    }
  }

  /** A name with a word has a word start. */
  lemma {:induction false} SomeWordStart(name: string)
    requires Words(name) != []
    ensures exists j :: WordStart(name, j)
  {
    WordsEmpty(name);
    WordsCons(name);
    if name[0] == ' ' {
      SomeWordStart(name[1..]);
      var j :| WordStart(name[1..], j);
      assert WordStart(name, j + 1);
    } else {
      assert WordStart(name, 0);
    }
  }

  /** A name with two or more words has a word start after position 0. */
  lemma {:induction false} SecondWordAt(name: string)
    requires |Words(name)| >= 2
    ensures exists j :: 0 < j && WordStart(name, j)
  {
    WordsEmpty(name);
    WordsCons(name);
    var t := name[1..];
    if name[0] == ' ' {
      SomeWordStart(t);
      var j :| WordStart(t, j);
      assert WordStart(name, j + 1);
    } else if name[1] == ' ' {
      SomeWordStart(t);
      var j :| WordStart(t, j);
      assert j > 0;
      assert WordStart(name, j + 1);
    } else {
      SecondWordAt(t);
      var j :| 0 < j && WordStart(t, j);
      assert WordStart(name, j + 1);
    }
  }

  /**
   * `getInitials`: "?" for a name without words, the upper-cased first
   * character of a single word, else the upper-cased first characters of
   * the first and the last word.
   */
  function Initials(name: string): (r: string)
    ensures |r| == 1 || |r| == 2
    ensures forall k :: 0 <= k < |r| ==> !('a' <= r[k] <= 'z')
  {
    var words := Words(name);
    WordsAreWords(name);
    if words == [] then "?"
    else if |words| == 1 then [UpperChar(words[0][0])]
    else Upper([words[0][0], words[|words| - 1][0]])
  }

  /**
   * A name of spaces only gets "?"; any other name's initials start with
   * its first non-space character, upper-cased, and take a second letter
   * exactly when it has two or more words: the upper-cased character at the
   * last position where a word begins.
   */
  lemma InitialsMeaning(name: string)
    ensures (forall k :: 0 <= k < |name| ==> name[k] == ' ') ==> Initials(name) == "?"
    ensures forall i :: 0 <= i < |name| && name[i] != ' ' && (forall k :: 0 <= k < i ==> name[k] == ' ') ==>
      Initials(name)[0] == UpperChar(name[i])
    ensures |Initials(name)| == 2 <==> |Words(name)| >= 2
    ensures forall i :: WordStart(name, i) && (forall j :: i < j < |name| ==> !WordStart(name, j)) && |Words(name)| >= 2 ==>
      Initials(name)[1] == UpperChar(name[i])
  {
    WordsEmpty(name);
    forall i | 0 <= i < |name| && name[i] != ' ' && (forall k :: 0 <= k < i ==> name[k] == ' ')
      ensures Initials(name)[0] == UpperChar(name[i])
    {
      FirstWordStart(name, i);
    }
    forall i | WordStart(name, i) && (forall j :: i < j < |name| ==> !WordStart(name, j)) && |Words(name)| >= 2
      ensures Initials(name)[1] == UpperChar(name[i])
    {
      LastWordStart(name, i);
    }
  }

  /** `ToInt32` on an integer: the value modulo 2^32, read as two's complement. */
  function ToInt32(x: int): (r: int)
    ensures -0x8000_0000 <= r < 0x8000_0000
    ensures (r - x) % 0x1_0000_0000 == 0
  {
    var m := x % 0x1_0000_0000;
    if m < 0x8000_0000 then m else m - 0x1_0000_0000
  }

  /**
   * One step of the avatar hash, `code + ((hash << 5) - hash)`: the shift
   * works on the 32-bit truncation, the subtraction and the addition on the
   * full value.
   */
  function HashStep(hash: int, c: char): int {
    c as int + (ToInt32(hash * 32) - hash)
  }

  /** The hash after every character of `s`. */
  function Hash(s: string): int {
    if s == [] then 0 else HashStep(Hash(s[..|s| - 1]), s[|s| - 1])
  }

  function Abs(x: int): nat {
    if x < 0 then -x else x
  }

  /** The six gradient classes an avatar can get. */
  function Palette(): seq<string> {
    [ "from-sky-500 to-cyan-500",
      "from-violet-500 to-purple-500",
      "from-emerald-500 to-teal-500",
      "from-orange-500 to-amber-500",
      "from-pink-500 to-rose-500",
      "from-blue-500 to-indigo-500" ]
  }

  /**
   * `getAvatarColor`: folds the hash over the name's characters and picks
   * the palette entry at `|hash| mod 6`, so the colour depends on the name
   * alone and is always one of the six.
   */
  method AvatarColor(name: string) returns (color: string)
    ensures color == Palette()[Abs(Hash(name)) % |Palette()|]
    ensures color in Palette()
  {
    var hash := 0;
    for i := 0 to |name|
      invariant hash == Hash(name[..i])
    {
      assert name[..i + 1][..i] == name[..i];
      hash := HashStep(hash, name[i]);
    }
    assert name[..|name|] == name;
    var colors := Palette();
    color := colors[Abs(hash) % |colors|];
  }

  /** The faces a lab collage shows and the overflow badge. */
  datatype Collage = Collage(shown: seq<Person>, overflow: Option<nat>)

  /**
   * The collage of one lab: its first seven people, and a "+n" badge for
   * the rest exactly when there are more than seven.
   */
  function LabCollage(group: seq<Person>): (c: Collage)
    ensures |c.shown| <= 7 && c.shown <= group
    ensures c.overflow.Some? <==> |group| > 7
    ensures c.overflow.Some? ==> |c.shown| + c.overflow.value == |group|
    ensures c.overflow.None? ==> c.shown == group
    ensures |c.shown| == if |group| > 7 then 7 else |group|
  {
    if |group| > 7 then Collage(group[..7], Some(|group| - 7)) else Collage(group, None)
  }
}
