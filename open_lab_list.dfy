/**
 * The open-lab page's tabs: the filter of the active tab, the count on each
 * tab, the empty-state message, and the per-kind style lookup of a card.
 */
module OpenLabList {
  import opened Content
  import opened Grouping
  import opened OpenLab

  /** The four tabs: all resources, or one kind. */
  datatype Tab = AllTab | KindTab(kind: string)

  /** A resource shows under a tab: every one under "all", else those of the tab's kind. */
  predicate Shows(tab: Tab, r: OpenLabResource) {
    tab.AllTab? || r.kind == Str(tab.kind)
  }

  /** `r.kind`. */
  function KindOf(r: OpenLabResource): Value {
    r.kind
  }

  /** `filtered`: the input itself for "all", else `resources.filter(r => r.kind === kind)`. */
  function Filtered(resources: seq<OpenLabResource>, tab: Tab): seq<OpenLabResource> {
    if tab.AllTab? then resources else Members(resources, KindOf, Str(tab.kind))
  }

  /**
   * "all" returns the input unchanged; a kind tab keeps exactly the
   * resources of that kind, each as often as in the input, and distributes
   * over concatenation, so it keeps input order.
   */
  lemma FilteredMeaning(resources: seq<OpenLabResource>, more: seq<OpenLabResource>, tab: Tab)
    ensures tab.AllTab? ==> Filtered(resources, tab) == resources
    ensures forall r :: multiset(Filtered(resources, tab))[r] == if Shows(tab, r) then multiset(resources)[r] else 0
    ensures Filtered(resources + more, tab) == Filtered(resources, tab) + Filtered(more, tab)
  {
    if tab.KindTab? {
      MembersMeaning(resources, KindOf, Str(tab.kind));
      MembersAppend(resources, more, KindOf, Str(tab.kind));
    }
  }

  /** `counts[tab]`: the length of the input for "all", else of the resources of the kind. */
  function Count(resources: seq<OpenLabResource>, tab: Tab): nat {
    if tab.AllTab? then |resources| else |Members(resources, KindOf, Str(tab.kind))|
  }

  /**
   * The number on a tab is the number of cards the tab shows, and the
   * three kind counts add up to the "all" count exactly when every
   * resource has one of the three kinds.
   */
  lemma CountsMeaning(resources: seq<OpenLabResource>, tab: Tab)
    ensures Count(resources, tab) == |Filtered(resources, tab)|
    ensures Count(resources, KindTab("software")) + Count(resources, KindTab("repository")) + Count(resources, KindTab("dataset"))
      <= Count(resources, AllTab)
    ensures (Count(resources, KindTab("software")) + Count(resources, KindTab("repository")) + Count(resources, KindTab("dataset"))
      == Count(resources, AllTab)) <==> forall i :: 0 <= i < |resources| ==> resources[i].kind in KindValues()
  {
    var keys := KindValues();
    assert Distinct(keys);
    SizeSumCount(resources, KindOf, keys);
    var k1 := keys[1..];
    var k2 := k1[1..];
    assert SizeSum(resources, KindOf, k2[1..]) == 0;
    assert SizeSum(resources, KindOf, k2) == Count(resources, KindTab("dataset"));
    assert SizeSum(resources, KindOf, k1) == Count(resources, KindTab("repository")) + Count(resources, KindTab("dataset"));
    MembersLength(resources, KeyAmong(KindOf, keys), true);
    assert forall i :: 0 <= i < |resources| ==> (KeyAmong(KindOf, keys)(resources[i]) <==> resources[i].kind in keys);
  }

  /** The three kinds as front-matter values. */
  function KindValues(): seq<Value> {
    [Str("software"), Str("repository"), Str("dataset")]
  }

  /** The empty-state message shows exactly when no resource falls under the active tab. */
  lemma EmptyStateMeaning(resources: seq<OpenLabResource>, tab: Tab)
    ensures Filtered(resources, tab) == [] <==> forall i :: 0 <= i < |resources| ==> !Shows(tab, resources[i])
  {
    if tab.KindTab? {
      MembersMeaning(resources, KindOf, Str(tab.kind));
    }
    if Filtered(resources, tab) == [] {
      forall i | 0 <= i < |resources|
        ensures !Shows(tab, resources[i])
      {
        assert multiset(resources)[resources[i]] > 0;
      }
    } else {
      var r := Filtered(resources, tab)[0];
      assert multiset(Filtered(resources, tab))[r] > 0;
      assert r in resources;
    }
  }

  /** The parts of a `KIND_CONFIG` entry the model keeps. */
  datatype KindStyle = KindStyle(heading: string, icon: string)

  /**
   * What `KIND_CONFIG[kind]` finds: one of the three entries, a member
   * every object inherits (its `label`, `icon` and `color` are undefined),
   * or nothing.
   */
  datatype KindEntry = OwnEntry(style: KindStyle) | InheritedMember | NoEntry

  /** The keys of `KIND_CONFIG`. */
  function KindKeys(): set<string> {
    {"software", "repository", "dataset"}
  }

  /**
   * `KIND_CONFIG[kind]`: the kind is looked up by its text, so a list
   * holding one kind finds that kind's entry, and an inherited name finds
   * the inherited member.
   */
  function KindConfig(kind: Value): (r: KindEntry)
    ensures r.OwnEntry? <==> ToText(kind) in KindKeys()
    ensures r.InheritedMember? <==> ToText(kind) in InheritedNames
    ensures kind in KindValues() ==> r.OwnEntry?
  {
    var key := ToText(kind);
    if key == "software" then OwnEntry(KindStyle("Software", "⚡"))
    else if key == "repository" then OwnEntry(KindStyle("Repositories", "\U{1F4E6}"))
    else if key == "dataset" then OwnEntry(KindStyle("Datasets", "\U{1F4CA}"))
    else if key in InheritedNames then InheritedMember
    else NoEntry
  }

  /**
   * `ResourceCard`: the style of the resource's kind, or `None` when the
   * lookup found an inherited member, whose label and icon render as
   * nothing; a kind that finds nothing throws on the first read of
   * `config.color`.
   */
  function ResourceCard(item: OpenLabResource): (r: Result<Option<KindStyle>>)
    ensures r.Ok? <==> ToText(item.kind) in KindKeys() || ToText(item.kind) in InheritedNames
    ensures r.Ok? && r.value.None? <==> ToText(item.kind) in InheritedNames
    ensures r.Fail? ==> r.error == MethodError("config", Undefined, "color")
  {
    match KindConfig(item.kind)
    case NoEntry => Fail(MethodError("config", Undefined, "color"))
    case InheritedMember => Ok(None)
    case OwnEntry(style) => Ok(Some(style))
  }

  /** Every resource the loader builds from a file with a valid or absent `kind` renders a card. */
  lemma LoadedKindRenders(data: FrontMatter, content: string)
    requires IsNullish(Get(data, "kind")) || Get(data, "kind") in KindValues()
    ensures ResourceCard(ReadOpenLab(data, content).value).Ok?
    ensures ResourceCard(ReadOpenLab(data, content).value).value.Some?
  {
  }
}
