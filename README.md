# VIDA lab website: content layer, pages and maintenance scripts

This project models the data core of the VIDA lab website in Dafny: the
content loaders, the page components that shape their results, and two
maintenance scripts.

**Loaders.** There are seven content loaders: people, publications,
projects, research areas, the lab log, open-lab resources and playground
items. Each one:

- lists its content directory and keeps the ".mdx" names;
- parses each file into front matter and body;
- coerces the front matter into a record with loosely checked defaults,
  where some values make it throw;
- sorts the records with the collection's comparator.

The slug lookups for projects, publications and playground items are also
modelled.

**Page components.** The model covers the logic of seven page components:

- the people grid: grouping by lab and by role, initials and avatar colour;
- the publications list: year and tag options, the filters, the year
  sections and the count label;
- the open-lab list: kind filter, counts and empty state;
- the projects grid: the featured/regular split;
- the playground grid: card sizes, demos and the one-track-at-a-time audio
  demo;
- the home-page video carousel: its state machine.

**Scripts.** Two scripts are modelled:

- `check-content`, which validates every content directory and reports
  violations;
- `generate-mock-content`, which writes a deterministic set of people and
  publication files. The model proves that people and publications
  directories holding only the generated files pass the content check for
  those two collections.

**How values and order are modelled.** Front-matter values are a `Value`
datatype: undefined, null, string, integer, boolean, list or object. The
JavaScript rules the loaders rely on are written out explicitly. These are
`??`, truthiness, unchecked `as` casts, `String(v)` as a property key, the
names every object inherits from `Object.prototype`, and the `TypeError`s thrown by
`trim`, `toLowerCase` and `filter` on the wrong kind of value.

The loaders' `localeCompare` is a parameter `collate`, required to be a
total preorder. Sorting is a verified in-place insertion sort on an array.
The string operations the code uses are modelled on `seq<char>`: `trim`,
`\s` runs, `split(/\n{2,}/)`, `<` on strings, `includes`, `toLowerCase`,
`padStart` and decimal conversion.

The model follows the code where it and the site's documentation differ.
For example, the roles "Research Associate" and "Collaborators and
Associated Faculty" rank 6 in the people listing, after staff. This is
because the listing ranks the already normalised label, and its lower-case
form is not one of the weight table's tokens. `People.WeightOfNormalizedRole`
states this.

## Model

| member | source | states |
|---|---|---|
| Content.Get | src/lib/people.ts:68-79 | reading an absent front-matter key gives `undefined`, a present one its parsed value |
| Content.Coalesce | src/lib/people.ts:73-74 | `??` keeps any value but `null`/`undefined` and replaces those two by the fallback |
| Content.ToText | src/components/sections/open-lab/OpenLabList.tsx:35 | `String(v)` as a property key: a string is itself, an empty list is "", and a one-item list reads as its item |
| Content.JoinText | src/components/sections/publications/PublicationsList.tsx:49-56 | `Array.prototype.join` renders `null` and `undefined` as "" and every other value as `String(v)` |
| Content.ReadEntry | src/lib/people.ts:59-61 | reading a listed name succeeds exactly for a regular file whose text parses, and yields that file's front matter and body |
| Content.MdxEntries | src/lib/people.ts:85-86 | a name is kept exactly when it was listed and ends in ".mdx" |
| Loading.Decode | src/lib/people.ts:58-61 | a directory or an unparsable file rejects with its error; a parsed file gives what the record builder gives |
| Loading.LoadEach | src/lib/people.ts:88 | `Promise.all` of the readers succeeds exactly when every file decodes, and then holds the decoded record of every file in listing order |
| Loading.Loaded | src/lib/people.ts:84-88 | an unlistable directory rejects with the listing error; otherwise the ".mdx" files are loaded |
| Loading.LoadSorted | src/lib/people.ts:88-96 | a load failure is passed on unchanged; otherwise the result is a permutation of the loaded records, sorted by the comparator |
| Loading.FindIndex | src/lib/projects.ts:60 | `None` exactly when nothing matches; otherwise the index of a match with no match before it |
| Loading.Find | src/lib/projects.ts:60 | `undefined` exactly when nothing matches; otherwise the first element that matches: it matches and no element before it does |
| Loading.FindInSortedIsLeast | src/lib/projects.ts:58-61 | the first match in a sorted sequence is least, by the sort order, among all matches |
| Loading.FindInSortedPermutation | src/lib/projects.ts:58-61 | searching a sorted permutation of the loaded records finds nothing exactly when no loaded record matches, and otherwise a loaded match that is least among the matches |
| Sorting.AdjacentToSorted | src/lib/people.ts:90 | for a total preorder, ordered neighbours make the whole sequence ordered |
| Sorting.SortInPlace | src/lib/people.ts:90-96 | `Array.prototype.sort` in place: the array ends sorted by the comparator and is a permutation of what it held |
| Sorting.InsertLast | src/lib/people.ts:90-96 | one insertion step extends the sorted prefix by one element and keeps the array's contents |
| Sorting.Swap | src/lib/people.ts:90-96 | exchanging two neighbours changes nothing else and keeps the contents |
| Sorting.Sort | src/lib/people.ts:90-96 | the sorted copy is ordered by the comparator and has the same elements with the same multiplicities |
| Tags.KeepKnown | src/lib/publications.ts:33-36 | the kept tags are exactly the listed strings that belong to the vocabulary, no more and no fewer |
| Tags.KeepKnownAppend | src/lib/publications.ts:34-36 | filtering distributes over concatenation, so the order of the tags is kept |
| Tags.KeepKnownAllKnown | src/lib/publications.ts:34-36 | a list whose tags are all known comes through unchanged |
| Tags.FilterTags | src/lib/publications.ts:33-36 | `null`/`undefined` tags give none, a list gives its known tags, and any other value throws on `filter` |
| People.NormalizeRole | src/lib/people.ts:26-36 | a role whose lower-case form is a map key becomes that key's display label; any other role is returned unchanged |
| People.RoleWeight | src/lib/people.ts:38-56 | the six lower-case tokens get their weights 0 to 5; every other role gets 6 |
| People.NormalizeRoleIdempotent | src/lib/people.ts:26-36 | normalising an already normalised role changes nothing |
| People.WeightOfNormalizedRole | src/lib/people.ts:70 | the listing ranks the normalised label: faculty 0, student 3, alumni 4, staff 5, and research associates and collaborators 6 |
| People.ReadPerson | src/lib/people.ts:58-82 | reading succeeds exactly when `role` is a string and `image` is falsy or a string; the role is normalised, a blank image is dropped, the defaults are applied and the bio is `content.trim()`, empty exactly for blank content |
| People.BuildPerson | src/lib/people.ts:67-81 | the record copies the fields, applies `status` "current", `order` 0 and the empty-list defaults, and the bio is `content.trim()` |
| People.PresentImage | src/lib/people.ts:64-65 | the image is kept exactly when it is a string with a non-space character |
| People.PeopleOrderIsTotalPreorder | src/lib/people.ts:90-96 | the comparator (role weight, then order, then name) is a total preorder when the name comparison is |
| People.GetPeople | src/lib/people.ts:84-97 | fails exactly when loading fails; otherwise a permutation of the loaded people by role weight, then order within a weight, then name |
| People.MissingRoleFailsListing | src/lib/people.ts:70 | one readable file whose `role` is not a string makes the whole listing reject |
| Publications.ReadPublication | src/lib/publications.ts:28-55 | reading succeeds exactly when `tags` is nullish or a list; the tags are then the known ones, the other fields take their defaults and the body is `content.trim()` |
| Publications.BuildPublication | src/lib/publications.ts:38-54 | the record copies the fields, applies the `authors` and `kind` defaults, and the body is `content.trim()` |
| Publications.PublicationOrderIsTotalPreorder | src/lib/publications.ts:63-66 | newer year first, then title, is a total preorder |
| Publications.GetPublications | src/lib/publications.ts:57-67 | fails exactly when loading fails; otherwise a permutation of the loaded publications, newest year first, then by title within a year |
| Publications.ScanStop | src/lib/publications.ts:73-78 | the loop stops at the first file that fails to read or carries the slug; every file before it reads and carries another slug |
| Publications.GetPublicationBySlug | src/lib/publications.ts:69-80 | the first file that carries the slug is returned; an earlier unreadable file rejects the call, and `null` comes back when no file matches |
| Projects.ReadProject | src/lib/projects.ts:24-47 | reading succeeds exactly when `tags` is nullish or a list; the tags are then the known project tags, the other fields take their defaults and the body is `content.trim()` |
| Projects.BuildProject | src/lib/projects.ts:34-46 | the record copies the fields, applies the `kind`, `summary`, `status` and `relatedAreas` defaults, and the body is `content.trim()` |
| Projects.ProjectOrderIsTotalPreorder | src/lib/projects.ts:55 | ordering by title is a total preorder |
| Projects.GetProjects | src/lib/projects.ts:49-56 | fails exactly when loading fails; otherwise a permutation of the loaded projects ordered by title |
| Projects.GetProjectBySlug | src/lib/projects.ts:58-61 | `undefined` exactly when no loaded project has the slug; otherwise a loaded project with the slug whose title sorts first among those projects |
| Projects.FindFirstWithSlug | src/lib/projects.ts:60 | in a title-sorted permutation, the first project with the slug is the one whose title sorts first among all loaded projects with it |
| ResearchAreas.ReadResearchArea | src/lib/research-areas.ts:21-41 | reading succeeds exactly when `tags` is nullish or a list; `shortTitle` falls back to `title` and `order` to 0, and the body is `content.trim()` |
| ResearchAreas.AreaOrderIsTotalPreorder | src/lib/research-areas.ts:49 | ordering by `order` is a total preorder |
| ResearchAreas.GetResearchAreas | src/lib/research-areas.ts:43-50 | fails exactly when loading fails; otherwise a permutation of the loaded areas in ascending `order` |
| Log.ReadLog | src/lib/log.ts:18-41 | reading never fails; the `date` default is "1970-01-01", the `kind` default is "news", and the summary falls back to the body's first paragraph |
| Log.LogOrderIsTotalPreorder | src/lib/log.ts:49-52 | newest date first, then title, is a total preorder |
| Log.GetLogEntries | src/lib/log.ts:43-53 | fails exactly when loading fails; otherwise a permutation of the loaded entries with no date before a later one, then by title within a date |
| Log.LogLoadsReadableFiles | src/lib/log.ts:43-47 | when every ".mdx" file is readable the listing succeeds with one entry per file |
| OpenLab.ReadOpenLab | src/lib/open-lab.ts:22-47 | reading never fails; `updated` falls back to `date` and then to "1970-01-01", `kind` to "dataset", `tags` to the empty list, and the summary to the first paragraph |
| OpenLab.OpenLabOrderIsTotalPreorder | src/lib/open-lab.ts:55-58 | newest `updated` first, then title, is a total preorder |
| OpenLab.GetOpenLabResources | src/lib/open-lab.ts:49-59 | fails exactly when loading fails; otherwise a permutation of the loaded resources, newest `updated` first, then by title |
| Playground.ReadTrack | src/lib/playground.ts:42-45 | a nullish track throws on `label`; any other track gets label "Audio" and source "" when they are missing |
| Playground.ReadTracks | src/lib/playground.ts:42-45 | mapping the tracks succeeds exactly when no track is nullish, and keeps them one for one |
| Playground.ReadPlayground | src/lib/playground.ts:34-64 | reading fails exactly when `audio` is a list holding a nullish track; audio is present exactly when `audio` is a list, and the body is `content.trim()` |
| Playground.BuildPlayground | src/lib/playground.ts:48-63 | the record copies the fields and applies the defaults: `kind` "interactive", `summary` "", `order` 99, `featured` false, `tags` [], and the body is `content.trim()` |
| Playground.PlaygroundOrderIsTotalPreorder | src/lib/playground.ts:74-78 | order, then featured before not featured, then title, is a total preorder |
| Playground.GetPlaygroundItems | src/lib/playground.ts:66-82 | any load failure is caught and gives no items; otherwise a permutation of the loaded items by `order`, featured first within an order, then by title |
| Playground.GetPlaygroundItemBySlug | src/lib/playground.ts:84-87 | `undefined` when loading fails or no item has the slug; otherwise a loaded item with the slug that sorts first among those items |
| Playground.FindFirstWithSlug | src/lib/playground.ts:86 | in a sorted permutation, the first item with the slug sorts first among all loaded items with it |
| Text.TrimStart | src/lib/people.ts:80 | only a white-space prefix is removed, and the result does not start with white space |
| Text.TrimEnd | src/lib/people.ts:80 | only a white-space suffix is removed, and the result does not end with white space |
| Text.TrimMeaning | src/lib/people.ts:80 | `trim` leaves no white space at either end, and leaves nothing exactly when the string is blank |
| Text.TrimIdempotent | src/lib/people.ts:80 | trimming twice is trimming once |
| Text.TrimSlice | src/lib/people.ts:80 | the trimmed string is a contiguous slice of the original |
| Text.VisibleTrim | src/lib/people.ts:80 | trimming keeps every non-space character in order |
| Text.CollapseSpaces | src/lib/log.ts:27 | `replace(/\s+/g, " ")` leaves single spaces as the only white space and keeps whether the string starts with white space |
| Text.CollapseEnd | src/lib/log.ts:27 | the collapsed string ends with white space exactly when the input does |
| Text.CollapseKeepsVisible | src/lib/log.ts:27 | collapsing keeps every non-space character in order |
| Text.CollapseKeepsTokens | src/lib/log.ts:27 | collapsing keeps the words, the maximal runs of non-white-space characters, so each white-space run between two words becomes exactly one space |
| Text.CollapsedIsJoin | src/lib/log.ts:27-28 | a trimmed string whose only white space is single spaces is its words joined by " " |
| Text.CollapseIdempotent | src/lib/log.ts:27 | collapsing a string that has no runs and no white space but single spaces changes nothing |
| Text.FirstParagraph | src/lib/log.ts:26 | `split(/\n{2,}/)[0]` is the longest prefix with no blank line, cut exactly at the first pair of newlines |
| Text.Lower | src/lib/people.ts:35 | `toLowerCase` maps each character and keeps the length |
| Text.Upper | src/components/sections/lab-atlas/PeopleGrid.tsx:44-45 | `toUpperCase` maps each character and keeps the length |
| Text.StrLessIrreflexive | src/lib/log.ts:50 | no string is `<` itself |
| Text.StrLessTrichotomy | src/lib/log.ts:50 | of two different strings one is `<` the other |
| Text.StrLessTransitive | src/lib/log.ts:50 | `<` on strings is transitive |
| Text.StrLessAsymmetric | src/lib/log.ts:50 | `<` on strings is asymmetric |
| Text.Join | src/components/sections/publications/PublicationsList.tsx:49-55 | joining no parts gives the empty string, and one part gives that part |
| Text.JoinFour | src/components/sections/publications/PublicationsList.tsx:49-56 | joining four parts puts the separator between each neighbouring pair |
| Text.JoinAppend | src/components/sections/publications/PublicationsList.tsx:49-55 | joining two non-empty lists of parts puts exactly one separator between the two joins |
| Text.NatDigits | scripts/generate-mock-content.cjs:76 | `String(n)` for a natural is a non-empty string of digits, whose length grows with the magnitude |
| Text.ParseNatDigits | scripts/generate-mock-content.cjs:76 | the decimal digits of `n` read back as `n` |
| Text.DecimalSign | src/components/sections/publications/PublicationsList.tsx:43 | `toString` starts with "-" exactly for a negative number |
| Text.DecimalInjective | src/components/sections/publications/PublicationsList.tsx:43 | different numbers have different decimal strings, so the year filter matches one year only |
| Text.NatDigitsInjective | scripts/generate-mock-content.cjs:76 | different naturals have different digit strings |
| Text.PadStart | scripts/generate-mock-content.cjs:76 | `padStart` fills with the pad character up to the width and keeps the string as the suffix |
| Summary.SummaryFromBody | src/lib/log.ts:23-29 | a blank body gives ""; otherwise the summary is trimmed, has no newline and no run of white space, and its only white space is single spaces |
| Summary.SummaryKeepsWords | src/lib/log.ts:23-29 | the summary is the words of the trimmed body's first paragraph joined by single spaces, so it has exactly that paragraph's non-space characters |
| Summary.SummaryKeepsVisible | src/lib/log.ts:23-29 | the summary has exactly the non-space characters of the trimmed body's first paragraph, in order |
| Summary.SummaryStopsAtBlankLine | src/lib/log.ts:26 | the summary's non-space characters are a prefix of those before the first blank line |
| Summary.FirstParagraphBefore | src/lib/log.ts:26 | the first paragraph ends no later than the first blank line |
| Chronology.NewestFirstTransitive | src/lib/log.ts:49-52 | the newest-first order is transitive |
| Chronology.NewestFirstTotal | src/lib/log.ts:49-52 | of any two entries one comes first in the newest-first order |
| Chronology.NewestFirstStamps | src/lib/log.ts:50 | an entry placed first is not older than the entry after it |
| Grouping.PermutationKeepsDistinct | src/components/sections/publications/PublicationsList.tsx:28-29 | reordering a duplicate-free sequence leaves it duplicate-free |
| Grouping.KeysInOrderMeaning | src/components/sections/lab-atlas/PeopleGrid.tsx:89-90 | `Object.keys` of the grouping lists every key of an item exactly once |
| Grouping.KeyListed | src/components/sections/lab-atlas/PeopleGrid.tsx:89-90 | every item's key is listed |
| Grouping.MembersMeaning | src/components/sections/lab-atlas/PeopleGrid.tsx:10-17 | a group holds exactly the items with its key, each as often as in the input, in input order |
| Grouping.MembersLength | src/components/sections/lab-atlas/PeopleGrid.tsx:10-17 | a group is no longer than the input, and as long exactly when every item has its key |
| Grouping.SizeSumCount | src/components/sections/lab-atlas/PeopleGrid.tsx:10-17 | the sizes of the groups of some distinct keys add up to the number of items with one of those keys |
| Grouping.GroupsPartition | src/components/sections/lab-atlas/PeopleGrid.tsx:10-17 | the group sizes add up to the number of items, so every item is in exactly one group |
| Grouping.GroupsOfSnoc | src/components/sections/lab-atlas/PeopleGrid.tsx:13-14 | one reduce step appends the item to its key's group and creates the group when it is missing |
| Grouping.GroupsOfCover | src/components/sections/lab-atlas/PeopleGrid.tsx:10-17 | every item is in the group of its key, and every group member is an item with that key |
| Grouping.GroupBy | src/components/sections/lab-atlas/PeopleGrid.tsx:10-17 | the reduce loop yields the keys in order of first appearance and the groups of the grouping |
| PeopleGrid.GroupByLab | src/components/sections/lab-atlas/PeopleGrid.tsx:10-17 | throws exactly when some lab key names an inherited member; otherwise every person is in the group of their lab key, every group member is a person of that lab, and the keys are the labs in order |
| PeopleGrid.PeopleByRole | src/components/sections/lab-atlas/PeopleGrid.tsx:92-96 | throws exactly when some role names an inherited member; otherwise the people are grouped by their role |
| PeopleGrid.RoleGroup | src/components/sections/lab-atlas/PeopleGrid.tsx:147 | the group looked up for a role (empty when missing) holds exactly the people with that role |
| PeopleGrid.SectionsMeaning | src/components/sections/lab-atlas/PeopleGrid.tsx:146-148 | every section shown is non-empty and holds people of its configured role; a person appears in some section exactly when their role is configured |
| PeopleGrid.CategorySections | src/components/sections/lab-atlas/PeopleGrid.tsx:146-148 | fails exactly when `peopleByRole` throws; otherwise the sections are those of the eight configured categories, in configured order, skipping empty ones |
| PeopleGrid.LabKey | src/components/sections/lab-atlas/PeopleGrid.tsx:12 | a missing lab is keyed "Lab", a string lab by itself, and any other lab by its text |
| PeopleGrid.SplitJoin | src/components/sections/lab-atlas/PeopleGrid.tsx:42 | `split(" ")` gives parts without spaces that join back to the name |
| PeopleGrid.WordsEmpty | src/components/sections/lab-atlas/PeopleGrid.tsx:42-43 | the name has no words exactly when it is all spaces |
| PeopleGrid.WordsAreWords | src/components/sections/lab-atlas/PeopleGrid.tsx:42 | `filter(Boolean)` leaves non-empty parts without spaces |
| PeopleGrid.Initials | src/components/sections/lab-atlas/PeopleGrid.tsx:41-46 | the initials are one or two characters with no lower-case ASCII letter |
| PeopleGrid.InitialsMeaning | src/components/sections/lab-atlas/PeopleGrid.tsx:41-46 | an all-space name gives "?"; otherwise the first initial is the upper-cased first non-space character, there are two initials exactly when there are two or more words, and the second is the upper-cased character where the last word begins |
| PeopleGrid.LastWordStart | src/components/sections/lab-atlas/PeopleGrid.tsx:41-46 | the last of the words begins at the last position where a word begins |
| PeopleGrid.ToInt32 | src/components/sections/lab-atlas/PeopleGrid.tsx:60 | the 32-bit conversion of `<<` gives a signed 32-bit value congruent to its input |
| PeopleGrid.AvatarColor | src/components/sections/lab-atlas/PeopleGrid.tsx:49-63 | the loop's colour is the palette entry indexed by the name hash, so it is always one of the six colours |
| PeopleGrid.LabCollage | src/components/sections/lab-atlas/PeopleGrid.tsx:122-135 | the first seven members are shown (all of them when there are fewer), and "+n" appears exactly when there are more, with n the number not shown |
| PublicationsList.NewerIsTotalPreorder | src/components/sections/publications/PublicationsList.tsx:29 | descending year order is a total preorder |
| PublicationsList.SortYears | src/components/sections/publications/PublicationsList.tsx:29 | the distinct years come out strictly descending, as a permutation of the input |
| PublicationsList.AllYears | src/components/sections/publications/PublicationsList.tsx:27-30 | the year options are exactly the years of the publications, strictly descending |
| PublicationsList.AllTagOccurrencesMeaning | src/components/sections/publications/PublicationsList.tsx:34-36 | the visited tags are exactly the tags of some publication |
| PublicationsList.AddTags | src/components/sections/publications/PublicationsList.tsx:35 | adding one publication's tags to the set extends it in first-insertion order |
| PublicationsList.CollectTags | src/components/sections/publications/PublicationsList.tsx:33-36 | the set holds the distinct tags in first-insertion order |
| PublicationsList.TagSetMeaning | src/components/sections/publications/PublicationsList.tsx:33-36 | the set has no duplicates and holds exactly the tags of some publication |
| PublicationsList.AllTags | src/components/sections/publications/PublicationsList.tsx:32-38 | the tag options are exactly the tags in use, without duplicates, sorted by the collation |
| PublicationsList.FilteredMeaning | src/components/sections/publications/PublicationsList.tsx:40-60 | the filter keeps exactly the publications that pass, as often as they occur and in order, and distributes over concatenation |
| PublicationsList.FilteredUnfiltered | src/components/sections/publications/PublicationsList.tsx:41-47 | with a blank query and every filter on "all", every publication is shown |
| PublicationsList.KeepMeaning | src/components/sections/publications/PublicationsList.tsx:41-58 | with a non-blank query a publication passes exactly when year, kind and tag pass and its lower-cased haystack contains the trimmed, lower-cased query; a number year passes the filter set to its decimal text exactly when it is that year, a string year passes exactly "all" or that same string, and a nullish year passes only "all" |
| PublicationsList.QueryFilter | src/components/sections/publications/PublicationsList.tsx:42-56 | a non-blank query is searched for trimmed and lower-cased |
| PublicationsList.NumberYearFilter | src/components/sections/publications/PublicationsList.tsx:45 | a number year's `toString()` equals the decimal text of a year exactly when the two are equal |
| PublicationsList.TextYearFilter | src/components/sections/publications/PublicationsList.tsx:45 | a string year's `toString()` is the string itself |
| PublicationsList.AuthorNames | src/components/sections/publications/PublicationsList.tsx:52 | `pub.authors.join(" ")` reads each author as `join` does: a nullish author as "" and any other value as `String(v)` |
| PublicationsList.HaystackParts | src/components/sections/publications/PublicationsList.tsx:49-56 | the haystack is the title, the venue (or "" when nullish), the authors and the tags, joined by single spaces, each as `join` renders it |
| PublicationsList.YearSections | src/components/sections/publications/PublicationsList.tsx:62-65 | the sections group the filtered publications by year, one per year present, strictly newest first |
| PublicationsList.CountLabelShort | src/components/sections/publications/PublicationsList.tsx:145-147 | the label reads "<total> items" exactly when every publication passes the filters |
| OpenLabList.FilteredMeaning | src/components/sections/open-lab/OpenLabList.tsx:140-142 | "all" shows everything; a kind tab keeps exactly the resources of that kind, in order and as often as they occur |
| OpenLabList.CountsMeaning | src/components/sections/open-lab/OpenLabList.tsx:144-149 | each count is the length of its tab's list; the three kind counts add up to at most the total, and to the total exactly when every kind is a known one |
| OpenLabList.EmptyStateMeaning | src/components/sections/open-lab/OpenLabList.tsx:193-197 | the empty state shows exactly when no resource belongs to the active tab |
| OpenLabList.KindConfig | src/components/sections/open-lab/OpenLabList.tsx:13-35 | the kind's text finds one of the three entries exactly when it is one of the three kinds, an inherited member exactly when it names one, and nothing otherwise |
| OpenLabList.ResourceCard | src/components/sections/open-lab/OpenLabList.tsx:35 | a card renders exactly when its kind's text is a known kind or an inherited name, with no label or icon in the latter case; any other kind throws on `config.color` |
| OpenLabList.LoadedKindRenders | src/components/sections/open-lab/OpenLabList.tsx:35 | a resource loaded without a kind, or with a known one, renders with its kind's style |
| ProjectsGrid.QualifyingPositions | src/components/sections/projects/ProjectsGrid.tsx:160 | the positions of the tools and active projects, in ascending order, all of them and no others |
| ProjectsGrid.RegularPositions | src/components/sections/projects/ProjectsGrid.tsx:161 | the ascending positions that are not featured |
| ProjectsGrid.FeaturedMeaning | src/components/sections/projects/ProjectsGrid.tsx:160 | at most three qualifying projects are featured, in order, and a qualifying project is left out only when three earlier ones were taken |
| ProjectsGrid.SplitPartitions | src/components/sections/projects/ProjectsGrid.tsx:160-161 | every project is either featured or regular, and not both |
| ProjectsGrid.AllQualify | src/components/sections/projects/ProjectsGrid.tsx:160 | when every project qualifies, all positions qualify |
| ProjectsGrid.MoreProjectsMeaning | src/components/sections/projects/ProjectsGrid.tsx:178 | "More projects" shows exactly when there are more than three projects or one does not qualify |
| PlaygroundGrid.CardSizeOf | src/components/playground/PlaygroundGrid.tsx:38-47 | a rotating size is always one of the four slots |
| PlaygroundGrid.CardSizeMeaning | src/components/playground/PlaygroundGrid.tsx:38-47 | 3D, video and audio cards get their fixed size anywhere; other cards cycle through the four slots with period four |
| PlaygroundGrid.DemoFor | src/components/playground/PlaygroundGrid.tsx:240-253 | the video demo is used exactly for kinds other than "3d", "audio" and "image" |
| PlaygroundGrid.GridOf | src/components/playground/PlaygroundGrid.tsx:264-280 | the placeholder shows exactly when there are no items; otherwise one card per item, in order, with its size and demo |
| PlaygroundGrid.StopOthers | src/components/playground/PlaygroundGrid.tsx:123-128 | stopping the others keeps the number of elements |
| PlaygroundGrid.StopOthersMeaning | src/components/playground/PlaygroundGrid.tsx:121-130 | afterwards only the chosen track may play, the chosen element is untouched, no element is mounted or unmounted, and stopping again changes nothing |
| PlaygroundGrid.AudioDemoState.constructor | src/components/playground/PlaygroundGrid.tsx:118-119 | a fresh demo has no active track and every element paused at the start |
| PlaygroundGrid.AudioDemoState.HandlePlay | src/components/playground/PlaygroundGrid.tsx:121-130 | every other element is paused and rewound, and the track becomes active |
| PlaygroundGrid.AudioDemoState.HandleEnded | src/components/playground/PlaygroundGrid.tsx:132-134 | nothing is active afterwards and the elements are unchanged |
| PlaygroundGrid.AudioDemoState.OnPlay | src/components/playground/PlaygroundGrid.tsx:121-178 | the browser starts the track and `onPlay` runs `handlePlay`: every other element is paused and rewound, the track plays and is highlighted, and at most the highlighted track plays |
| PlaygroundGrid.Started | src/components/playground/PlaygroundGrid.tsx:177 | starting a track makes it play and leaves every other element as it was |
| PlaygroundGrid.AudioDemoState.SwitchTrack | src/components/playground/PlaygroundGrid.tsx:121-181 | after `onPlay`, each track that `handlePlay` paused fires `pause`, whose handler is `handleEnded`: when another track was playing, nothing stays highlighted although the new track plays; otherwise the new track stays highlighted |
| PlaygroundGrid.SwitchLosesHighlight | src/components/playground/PlaygroundGrid.tsx:121-181 | with two tracks, playing the first and then the second leaves the second playing and no track highlighted |
| PlaygroundGrid.AudioDemoState.HandlePause | src/components/playground/PlaygroundGrid.tsx:132-180 | a pause handler that clears the highlight only when the paused track is the highlighted one leaves the elements unchanged |
| PlaygroundGrid.AudioDemoState.SwitchTrackCorrected | src/components/playground/PlaygroundGrid.tsx:121-181 | with that pause handler, switching tracks leaves the new track playing and highlighted, and it is the only one playing |
| VideoBanner.VideoCountIsLength | src/components/home/VideoBanner.tsx:11-47 | the carousel has seven videos |
| VideoBanner.NextIndex | src/components/home/VideoBanner.tsx:88-91 | the next index always names a video |
| VideoBanner.PreviousIndex | src/components/home/VideoBanner.tsx:83-86 | the previous index always names a video |
| VideoBanner.NextPreviousInverse | src/components/home/VideoBanner.tsx:83-91 | "next" and "previous" undo each other |
| VideoBanner.NextTimesIsShift | src/components/home/VideoBanner.tsx:88-91 | n presses of "next" move n places round the carousel |
| VideoBanner.SevenNextsReturn | src/components/home/VideoBanner.tsx:88-91 | seven presses of "next" come back to the starting video |
| VideoBanner.ProgressAt | src/components/home/VideoBanner.tsx:61 | the bar never exceeds 100, is never negative for a non-negative elapsed time, and is full exactly when the duration has passed |
| VideoBanner.Carousel.constructor | src/components/home/VideoBanner.tsx:50-52 | the carousel mounts on the first video, playing, with an empty bar |
| VideoBanner.Carousel.HandleVideoSelect | src/components/home/VideoBanner.tsx:78-81 | shows the chosen video with an empty bar; the effect restarts only when the index changed while playing |
| VideoBanner.Carousel.HandlePrevious | src/components/home/VideoBanner.tsx:83-86 | shows the previous video, wrapping round, with an empty bar and a fresh clock while playing |
| VideoBanner.Carousel.HandleNext | src/components/home/VideoBanner.tsx:88-91 | shows the next video, wrapping round, with an empty bar and a fresh clock while playing |
| VideoBanner.Carousel.TogglePlay | src/components/home/VideoBanner.tsx:167 | flips playing and keeps the video and the bar; resuming starts a fresh clock |
| VideoBanner.Carousel.Tick | src/components/home/VideoBanner.tsx:59-68 | before the duration the bar shows the elapsed share; once it has passed, the next video shows with an empty bar and the clock restarts |
| CheckContent.IsNonEmptyStringMeaning | scripts/check-content.cjs:82-84 | a value passes exactly when it is a string with a character that is not white space |
| CheckContent.IsNumberLikeMeaning | scripts/check-content.cjs:86-94 | every number passes, a string passes exactly when it is not blank and converts to a finite number, and no other value passes |
| CheckContent.EveryNonBlankStringMeaning | scripts/check-content.cjs:96-98 | `every` holds exactly when every item is a non-blank string |
| CheckContent.ValidateFieldMeaning | scripts/check-content.cjs:100-111 | each of the three field types accepts exactly its kind of value, and an unknown type accepts nothing |
| CheckContent.ContentFiles | scripts/check-content.cjs:113-118 | exactly the listed regular files whose names end in ".mdx", none added |
| CheckContent.ContentFilesInOrder | scripts/check-content.cjs:113-118 | each entry is kept or dropped on its own and the filter distributes over concatenation, so the kept files stay in listing order |
| CheckContent.FileSlug | scripts/check-content.cjs:129 | `basename(…, ".mdx")` strips the ".mdx" ending so that the slug plus ".mdx" is the name; other names are kept |
| CheckContent.SlugViolations | scripts/check-content.cjs:137-141 | a missing or blank slug gives the "missing" error, a slug other than the file name gives the mismatch error, and a matching slug gives none |
| CheckContent.FieldViolationsMeaning | scripts/check-content.cjs:143-149 | the loop reports each required field other than `slug` whose value fails its type, once per listing, and nothing else |
| CheckContent.DuplicateViolations | scripts/check-content.cjs:151-157 | a duplicate is reported exactly when the file's non-blank slug was seen before |
| CheckContent.NextSeen | scripts/check-content.cjs:151-157 | the seen set only grows, and grows by the file's slug exactly when that slug is a non-blank string |
| CheckContent.CustomViolations | scripts/check-content.cjs:56-61 | the open-lab check reports exactly the files with neither a truthy `updated` nor a truthy `date` |
| CheckContent.MissingFrontmatterAlone | scripts/check-content.cjs:132-135 | empty front matter gives exactly the one "missing frontmatter" error and skips the other checks; front matter with keys never gets it |
| CheckContent.FileViolationsNameFile | scripts/check-content.cjs:130-161 | every error a file adds names that file's path relative to the content root |
| CheckContent.DirectoryReport | scripts/check-content.cjs:120-165 | an unlistable directory rejects with its error |
| CheckContent.ValidateDirectory | scripts/check-content.cjs:120-165 | the loop returns every file's errors in file order, or aborts with the first file it cannot read |
| CheckContent.CheckFile | scripts/check-content.cjs:127-161 | one pass of the loop appends that file's errors and updates the seen slugs |
| CheckContent.CheckSlug | scripts/check-content.cjs:137-141 | appends exactly the slug errors |
| CheckContent.CheckDuplicate | scripts/check-content.cjs:151-157 | appends the duplicate error or records the slug |
| CheckContent.CheckRequired | scripts/check-content.cjs:143-149 | appends exactly the required-field errors, in field order |
| CheckContent.SeenSlugsMeaning | scripts/check-content.cjs:124 | a slug has been seen exactly when an earlier readable file carries it as a non-blank string |
| CheckContent.ScanSeen | scripts/check-content.cjs:151-157 | after a complete pass, `slugSet` holds exactly the slugs carried by the files |
| CheckContent.DuplicateRule | scripts/check-content.cjs:151-157 | a file is reported as a duplicate exactly when its non-blank slug is carried by an earlier file in the same directory |
| CheckContent.ScanOkWhenParsed | scripts/check-content.cjs:126-128 | when every file reads, the directory never aborts |
| CheckContent.ScanAbortsAtFirstUnreadable | scripts/check-content.cjs:126-128 | the directory aborts with the error of the first unreadable file |
| CheckContent.CollectEmpty | scripts/check-content.cjs:170-177 | the gathered errors are empty exactly when every collection contributes none |
| CheckContent.CollectKeeps | scripts/check-content.cjs:170-177 | every error a collection contributes is among the gathered errors |
| CheckContent.SchemaViolationsEmpty | scripts/check-content.cjs:171-176 | a collection contributes no error exactly when its directory passes without errors |
| CheckContent.SchemaViolationsCases | scripts/check-content.cjs:171-176 | a passing directory contributes its errors; an aborted one contributes one "failed to validate" error |
| CheckContent.RunPassesIff | scripts/check-content.cjs:167-188 | the run reports nothing exactly when every collection's directory passes with no errors |
| CheckContent.RunReportsEveryCollection | scripts/check-content.cjs:170-177 | a failing directory is reported, and every error of a passing one is reported |
| CheckContent.ValidateAll | scripts/check-content.cjs:168-177 | the loop over the collections gathers every collection's contribution in order |
| CheckContent.Run | scripts/check-content.cjs:167-188 | the exit code is 1 exactly when there are errors, and 0 exactly when there are none |
| CleanContent.FieldViolationsNone | scripts/check-content.cjs:143-149 | fields that all pass their types give no field errors |
| CleanContent.CleanEntry | scripts/check-content.cjs:132-161 | a file named after its non-blank slug, with front matter and valid required fields, is clean |
| CleanContent.ContentFilesAll | scripts/check-content.cjs:113-118 | a listing of ".mdx" files only is kept whole |
| CleanContent.CleanSlugs | scripts/check-content.cjs:137-141 | clean files with different names carry different slugs |
| CleanContent.CleanFileQuiet | scripts/check-content.cjs:127-161 | a clean file whose slug is new adds no error |
| CleanContent.SlugFresh | scripts/check-content.cjs:151-157 | in a directory of clean, differently named files, no file's slug was seen before it |
| CleanContent.ScanClean | scripts/check-content.cjs:126-162 | such a directory goes through the loop with no errors |
| CleanContent.CleanDirectoryPasses | scripts/check-content.cjs:120-165 | a directory of clean, differently named files passes with no errors |
| MockContent.PickIsRemainder | scripts/generate-mock-content.cjs:64-66 | `pick` indexes by the remainder |
| MockContent.Index | scripts/generate-mock-content.cjs:76 | the padded index is all digits, of the given width when the number fits |
| MockContent.IndexParses | scripts/generate-mock-content.cjs:76 | the padded index reads back as the index |
| MockContent.IndexIsPadded | scripts/generate-mock-content.cjs:76 | the padded index is the decimal digits of the index padded with zeros |
| MockContent.ZeroPaddedParses | scripts/generate-mock-content.cjs:76 | padding digits with zeros on the left keeps their value |
| MockContent.IndexInjective | scripts/generate-mock-content.cjs:76-77 | different indices give different padded indices |
| MockContent.RoleBands | scripts/generate-mock-content.cjs:79-83 | people 1 to 10 are faculty, 11 to 20 research associates, 21 to 40 students, and the rest alumni |
| MockContent.RoleKept | scripts/generate-mock-content.cjs:79-83 | every generated role is a display label that the people loader keeps as it is |
| MockContent.RoleHasSection | scripts/generate-mock-content.cjs:79-83 | every generated role has a section on the people page |
| MockContent.BandPositionIsLookup | scripts/generate-mock-content.cjs:85-90 | every generated role is a key of `positionMap`, so no file says "undefined" |
| MockContent.PickNotBlank | scripts/generate-mock-content.cjs:64-66 | picking from a table of non-blank strings gives a non-blank string |
| MockContent.ScriptPersonTablesReady | scripts/generate-mock-content.cjs:21-49 | the script's person tables are non-empty and hold no blank entry |
| MockContent.PersonIdentityLookups | scripts/generate-mock-content.cjs:96-104 | a person file's front matter reads back the slug, name, role and order written |
| MockContent.PersonDetailLookups | scripts/generate-mock-content.cjs:102-111 | a person file's front matter reads back the status, image, lab, areas and tags written |
| MockContent.GeneratePeople | scripts/generate-mock-content.cjs:73-121 | writes fifty files, the k-th named after person k's slug and holding that person's front matter and bio |
| MockContent.PublicationYear | scripts/generate-mock-content.cjs:128 | every year lies in the ten years from 2016 |
| MockContent.PublicationYearIsRemainder | scripts/generate-mock-content.cjs:128 | the year is 2016 plus the remainder of `i - 1` by ten |
| MockContent.PublicationYearsCycle | scripts/generate-mock-content.cjs:128 | the years repeat every ten publications, and each of the ten years occurs |
| MockContent.ScriptPublicationTablesReady | scripts/generate-mock-content.cjs:31-55 | the publication tables are non-empty, the authors are not blank, and the tag table is the site's publication vocabulary |
| MockContent.PublicationIdentityLookups | scripts/generate-mock-content.cjs:140-146 | a publication file's front matter reads back the slug, title, authors and year written |
| MockContent.PublicationDetailLookups | scripts/generate-mock-content.cjs:148-154 | a publication file's front matter reads back the kind, tags and featured flag written |
| MockContent.GeneratePublications | scripts/generate-mock-content.cjs:123-165 | writes a hundred files, the k-th named after publication k's slug and holding its front matter and abstract |
| MockContent.PersonSlugsDistinct | scripts/generate-mock-content.cjs:117 | different people get different file names |
| MockContent.FourDigits | scripts/generate-mock-content.cjs:129 | a four-digit year prints as four characters |
| MockContent.PublicationSlugsDistinct | scripts/generate-mock-content.cjs:161 | different publications get different file names |
| MockContent.PersonReads | src/lib/people.ts:58-82 | a person with a normalised role and a non-blank image loads with that role, that image, its slug, order and lab |
| MockContent.PersonFieldsLoad | src/lib/people.ts:58-82 | a written person file loads back the role, order, slug, lab and image written |
| MockContent.PersonLoadable | scripts/generate-mock-content.cjs:79-105 | person i's role survives normalisation and its image is not blank |
| MockContent.PersonLoads | src/lib/people.ts:58-82 | every generated person file loads with its band's role and its index as order |
| MockContent.PublicationReads | src/lib/publications.ts:28-55 | a publication with two known tags loads with those tags, its year, kind and featured flag |
| MockContent.PickKnown | scripts/generate-mock-content.cjs:152-153 | a pick from the site's publication tags is a known tag |
| MockContent.PublicationFieldsLoad | src/lib/publications.ts:28-55 | a written publication file loads back the tags, year, kind and featured flag written |
| MockContent.PublicationLoads | src/lib/publications.ts:28-55 | every generated publication loads with its two picked tags, a year from 2016 to 2025, kind "paper", and featured exactly for the first five |
| MockContent.SchemaShapes | scripts/check-content.cjs:8-28 | the people and publications schemas require the fields the script writes |
| MockContent.PeopleFieldsValid | scripts/check-content.cjs:10-18 | front matter with non-blank strings, a number and lists of non-blank strings in the people fields passes them all |
| MockContent.PersonFieldsClean | scripts/check-content.cjs:132-161 | a person file whose required fields are present is clean under the people schema |
| MockContent.PersonFieldsPresentAt | scripts/generate-mock-content.cjs:96-111 | every generated person has the fields the people schema requires |
| MockContent.PublicationFieldsValid | scripts/check-content.cjs:22-27 | front matter with a non-blank title, non-blank authors and a number year passes the publications fields |
| MockContent.PublicationFieldsClean | scripts/check-content.cjs:132-161 | a publication file whose required fields are present is clean under the publications schema |
| MockContent.PublicationFieldsPresentAt | scripts/generate-mock-content.cjs:140-146 | every generated publication has the fields the publications schema requires |
| MockContent.PersonFileClean | scripts/generate-mock-content.cjs:73-121 | every generated person file is clean |
| MockContent.PersonFileNamesDistinct | scripts/generate-mock-content.cjs:117 | no two generated person files share a name |
| MockContent.GeneratedPeoplePass | scripts/generate-mock-content.cjs:73-121 | the generated people directory passes the people check with no errors |
| MockContent.PublicationFileClean | scripts/generate-mock-content.cjs:123-165 | every generated publication file is clean |
| MockContent.PublicationFileNamesDistinct | scripts/generate-mock-content.cjs:161 | no two generated publication files share a name |
| MockContent.GeneratedPublicationsPass | scripts/generate-mock-content.cjs:123-165 | the generated publications directory passes the publications check with no errors |
| MockContent.ScriptOutputPasses | scripts/generate-mock-content.cjs:167-173 | with the script's own tables, both generated directories pass the content check |

## Left out

- File I/O is not modelled. A directory is a `Directory` value: either the listing error or the entries, each carrying its parsed front matter and body or the read or parse error. gray-matter and YAML parsing are not part of this model.
- Front-matter numbers are integers. Floating point, `NaN` and `Infinity` are not modelled. Whether `Number(s)` is finite is the parameter `finite` of the content check.
- `localeCompare` is the parameter `collate`, required to be a total preorder. ICU collation itself is not modelled.
- People.GetPeople: a non-number `order` ranks as 0 and a non-string `name` as "" (`Content.NumKey`, `Content.TextKey`). In JavaScript `-` converts: a numeric string counts as its number, `true` as 1, `null` and "" as 0, and anything else gives `NaN`, which leaves the order to the engine. A non-string name makes `a.name.localeCompare` throw a `TypeError` once that record is the comparator's `a` at that step, and the listing rejects. Which records reach that step depends on the engine's sort, so the model does not capture the throw.
- Publications.GetPublications: a non-number `year` ranks as 0 and a non-string `title` as "". JavaScript converts the year as `-` does (see People.GetPeople), and `a.title.localeCompare` on a non-string title throws, which the model does not capture.
- Projects.GetProjects: a non-string `title` ranks as "". In JavaScript `a.title.localeCompare` throws on it, which the model does not capture.
- ResearchAreas.GetResearchAreas: a non-number `order` ranks as 0. JavaScript converts it as `-` does (see People.GetPeople).
- Log.GetLogEntries: a non-string `title` ranks as "". In JavaScript `a.title.localeCompare` throws on it, which the model does not capture.
- OpenLab.GetOpenLabResources: a non-string `title` ranks as "". In JavaScript `a.title.localeCompare` throws on it, which the model does not capture.
- Playground.GetPlaygroundItems: a non-number `order` ranks as 0 and a non-string `title` as "". In JavaScript `order` is compared with `!==` and `-`, and a throwing `localeCompare` is caught and gives `[]`; neither is captured.
- Playground.GetPlaygroundItems: `featured` ranks by truthiness. JavaScript compares `a.featured !== b.featured` before it tests truthiness, so two different truthy values (`true` and `"yes"`) rank each one first in both directions, and `0` against `false` ranks the second first; the model compares their titles instead.
- Log.GetLogEntries: a non-string `date` ranks as "". JavaScript compares it with `!==` and `<`, which convert a number or an absent date, so such entries order differently; the model does not capture that.
- OpenLab.GetOpenLabResources: a non-string `updated` ranks as "". JavaScript compares it with `!==` and `<`, which convert a number or an absent stamp; the model does not capture that.
- PublicationsList.KeepMeaning: with a non-blank query, an `authors` that is neither nullish nor a list makes `pub.authors.join` throw, and with a year filter other than "all", a nullish `year` makes `pub.year.toString()` throw. The model reads such authors as no names and lets such a year fail the filter, so the page's crash is not captured.
- PublicationsList.AllYears and PublicationsList.YearSections: the year of a publication is its number, and any other year counts as 0. JavaScript puts a string year "2020" in its own option next to the number 2020 (a `Set` tells them apart) but in the same section (object keys are strings); the model does not capture either.
- Sorting.SortInPlace: its contract does not state that equal elements keep their relative order. `Array.prototype.sort` promises stability, and the insertion sort has it, but no member states it.
- `Promise.all` rejects with whichever reader fails first in time. The model reports the first failure in listing order.
- Text.Lower: maps ASCII letters only. Unicode case mapping is not modelled. Text.Upper is likewise ASCII only.
- Strings are sequences of Unicode scalar values (Dafny's `char`), while JavaScript strings are sequences of UTF-16 code units. The two agree for characters of the Basic Multilingual Plane; a character outside it is one `char` here and two surrogates in JavaScript. `\s` is the JavaScript white-space set written out in `Text.IsSpace`. The members below differ on such characters.
- PeopleGrid.AvatarColor: for a name with a character outside the Basic Multilingual Plane, JavaScript adds the two surrogates' codes to the hash, not the code point, so the colour can differ.
- PeopleGrid.Initials: `charAt(0)` of a word that starts with a character outside the Basic Multilingual Plane is a lone surrogate in JavaScript; the model takes the whole character.
- Text.StrLess: JavaScript compares code units, so U+FF01 sorts after U+1F600 (whose first surrogate is U+D83D); the model compares code points and sorts it before.
- Text.PadStart: JavaScript counts a character outside the Basic Multilingual Plane as length 2; the model counts it as 1.
- Log.ReadLog: `Value` has no date case. gray-matter parses an unquoted `date: 2024-01-15` into a `Date` object; the model treats every date as the string the front matter holds. With two `Date` objects, `a.date !== b.date` compares identities, so two entries of the same day compare as unequal in both directions (Log.GetLogEntries), which the model does not capture.
- OpenLab.ReadOpenLab: the same holds for `updated` and `date`; YAML timestamps are not represented, and the comparator of OpenLab.GetOpenLabResources compares them as strings.
- CheckContent.ValidateFieldMeaning: a YAML timestamp is not represented, so the rejection of a `Date` value by `isNonEmptyString` for the log's `date` field is not modelled.
- People.NormalizeRole: a role whose lower-case form is "constructor" or "__proto__" finds the member inherited from `Object.prototype` (a function, or the prototype), which `??` keeps, so JavaScript returns that object instead of the role; the model returns the role unchanged.
- People.GetPeople: with such a role and two or more people, the comparator's `roleWeight(a.role)` calls `toLowerCase` on a non-string and throws, so the listing rejects; the model returns the sorted people.
- PeopleGrid.GroupByLab: `Object.keys` lists integer-like keys (a lab of `3` or "2024") first, in ascending numeric order; the model lists every lab in first-appearance order.
- JavaScript object-key order is modelled as first-insertion order. This is the order of `Object.keys` for string keys. It is not the ascending order used for integer-like keys, which `groupByYear` produces; the year sections sort their keys anyway.
- ProjectsGrid models `featured.includes(p)` by position in the list, not by object identity. The two coincide because the list holds each object once.
- Rendering, CSS, animation, Next.js routing and metadata are not modelled, and neither are the other pages and components: navigation, theme, footer and the 3D scene.
- VideoBanner.ProgressAt is an exact rational, not a double. The 50 ms timer and `Date.now()` are not modelled: each tick is a call with the clock reading as a parameter.
- PlaygroundGrid.AudioDemoState.SwitchTrack: the `pause` events that `handlePlay` triggers arrive after `setActiveTrack(index)` in the model, as React batches the state update and the browser queues the events; the model does not capture other interleavings of rendering and events.
- The avatar hash is computed on exact integers, with `<<` as a 32-bit truncation. The intermediate values stay far inside the range where doubles are exact, so nothing is lost.
- The checker's messages are written out by `CheckContent.Message`. The messages of read and parse failures are carried as given. `console` output, `process.exit` and the directory creation of `generate-mock-content` are not modelled; `Run` returns the exit code.
- MockContent: the person `positionMap` is modelled per role band. The text of the generated bodies is a fixed template per index. The YAML text of the generated files is modelled by the values it parses to.
- MockContent.GeneratePeople and MockContent.GeneratePublications take their lookup tables as a parameter. The script's own tables are `ScriptPersonTables()` and `ScriptPublicationTables()`.
- The `as` casts in the loaders are unchecked at run time. The model keeps the raw `Value` for every field the loaders copy through, except where the code calls a method on the value.
- PeopleGrid.Initials: its own contract gives only the shape of the result; which letters appear is stated by PeopleGrid.InitialsMeaning.
- Text.CollapseSpaces: its own contract gives the shape of the result; the words it keeps are stated by Text.CollapseKeepsTokens and its end by Text.CollapseEnd.
- Summary.SummaryFromBody: its own contract gives the shape of the summary; its words are stated by Summary.SummaryKeepsWords.
- Text.Join: its own contract gives the cases of no part and one part; Text.JoinAppend states how longer lists join.
- CheckContent.ContentFiles: its own contract gives membership and length; the order is stated by CheckContent.ContentFilesInOrder.

## Findings

| source | as written | input that shows it | evidently intended | confidence | as-written member | corrected member |
|---|---|---|---|---|---|---|
| src/components/playground/PlaygroundGrid.tsx:121-181 | `onPause={handleEnded}` clears the highlight whichever track paused, including a track that `handlePlay` itself paused | two tracks; track 0 plays, then the user plays track 1 | track 1 is highlighted while it plays | not executed | PlaygroundGrid.AudioDemoState.SwitchTrack, PlaygroundGrid.SwitchLosesHighlight | PlaygroundGrid.AudioDemoState.SwitchTrackCorrected |
