/**
 * The navigation sidebar: a constant tree of sections and leaf topics, the
 * list of expanded section ids it keeps and toggles, and what it renders.
 */
module Sidebar {
  import opened Sequences

  /** A section of the navigation tree: its id and the ids of its leaf topics, in display order. */
  datatype NavigationItem = NavigationItem(id: string, children: seq<string>)

  const NavigationItems: seq<NavigationItem> := [
    NavigationItem("getting-started", ["installation", "quick-start", "system-requirements"]),
    NavigationItem("user-management", ["user-roles", "user-accounts", "authentication"]),
    NavigationItem("pos-operations", ["sales-processing", "payment-methods", "refunds-returns"]),
    NavigationItem("reporting", ["sales-reports", "inventory-reports", "custom-reports"]),
    NavigationItem("configuration", ["general-settings", "tax-configuration", "printer-setup"])
  ]

  /** The leaf ids of the tree, section by section. */
  const AllLeafIds: seq<string> := [
    "installation", "quick-start", "system-requirements",
    "user-roles", "user-accounts", "authentication",
    "sales-processing", "payment-methods", "refunds-returns",
    "sales-reports", "inventory-reports", "custom-reports",
    "general-settings", "tax-configuration", "printer-setup"
  ]

  const InitialExpandedSections: seq<string> := ["getting-started"]

  /**
   * The expanded list after toggling `sectionId`: every occurrence removed if
   * it is present, otherwise appended at the end.
   */
  function Toggled(prev: seq<string>, sectionId: string): (next: seq<string>)
    ensures forall x :: x in next <==> (x in prev) != (x == sectionId)
    ensures sectionId !in prev ==> next == prev + [sectionId]
    ensures sectionId in prev ==> IsSubsequence(next, prev)
    ensures sectionId in prev ==> forall x :: x != sectionId ==> multiset(next)[x] == multiset(prev)[x]
  {
    if sectionId in prev then
      var other := (id: string) => id != sectionId;
      KeepIsSubsequence(prev, other);
      KeepCounts(prev, other);
      Keep(prev, other)
    else
      prev + [sectionId]
  }

  /** A section's children are shown iff its id is in the expanded list. */
  predicate IsOpen(expandedSections: seq<string>, sectionId: string) {
    sectionId in expandedSections
  }

  /** A leaf is highlighted iff its id is the selected topic. */
  predicate IsHighlighted(selectedTopic: string, leafId: string) {
    selectedTopic == leafId
  }

  datatype LeafView = LeafView(id: string, highlighted: bool)

  /** A rendered section: collapsed sections render no children. */
  datatype SectionView = SectionView(id: string, open: bool, children: seq<LeafView>)

  function RenderLeaves(children: seq<string>, selectedTopic: string): (views: seq<LeafView>)
    ensures |views| == |children|
    ensures forall j :: 0 <= j < |children| ==>
      views[j].id == children[j] && (views[j].highlighted <==> children[j] == selectedTopic)
  {
    if children == [] then []
    else [LeafView(children[0], IsHighlighted(selectedTopic, children[0]))] + RenderLeaves(children[1..], selectedTopic)
  }

  /** The sections in tree order, each open iff expanded, with its leaves when open. */
  function RenderSections(items: seq<NavigationItem>, expandedSections: seq<string>, selectedTopic: string)
    : (views: seq<SectionView>)
    ensures |views| == |items|
    ensures forall i :: 0 <= i < |items| ==>
      && views[i].id == items[i].id
      && (views[i].open <==> items[i].id in expandedSections)
      && views[i].children == (if views[i].open then RenderLeaves(items[i].children, selectedTopic) else [])
  {
    if items == [] then []
    else
      var open := IsOpen(expandedSections, items[0].id);
      var children := if open then RenderLeaves(items[0].children, selectedTopic) else [];
      [SectionView(items[0].id, open, children)] + RenderSections(items[1..], expandedSections, selectedTopic)
  }

  /** The leaf ids of a tree, section by section. */
  function LeafIds(items: seq<NavigationItem>): seq<string> {
    if items == [] then [] else items[0].children + LeafIds(items[1..])
  }

  /** The ids of the highlighted leaves among some rendered leaves. */
  function HighlightedIdsOf(leaves: seq<LeafView>): seq<string> {
    if leaves == [] then []
    else (if leaves[0].highlighted then [leaves[0].id] else []) + HighlightedIdsOf(leaves[1..])
  }

  /** The ids of every highlighted leaf of a rendered sidebar. */
  function HighlightedIds(views: seq<SectionView>): seq<string> {
    if views == [] then [] else HighlightedIdsOf(views[0].children) + HighlightedIds(views[1..])
  }

  /** Toggling an absent id twice restores the list exactly. */
  lemma ToggleTwiceAbsent(prev: seq<string>, sectionId: string)
    requires sectionId !in prev
    ensures Toggled(Toggled(prev, sectionId), sectionId) == prev
  {
    var other := (id: string) => id != sectionId;
    KeepConcat(prev, [sectionId], other);
    KeepAll(prev, other);
    assert Keep([sectionId], other) == [];
  }

  /** Toggling any id twice restores which ids are expanded. */
  lemma ToggleTwiceMembership(prev: seq<string>, sectionId: string)
    ensures forall x :: x in Toggled(Toggled(prev, sectionId), sectionId) <==> x in prev
  {
  }

  /** Toggling keeps the expanded list free of duplicates. */
  lemma ToggledNoDuplicates(prev: seq<string>, sectionId: string)
    requires NoDuplicates(prev)
    ensures NoDuplicates(Toggled(prev, sectionId))
  {
    if sectionId in prev {
      SubsequenceNoDuplicates(Toggled(prev, sectionId), prev);
    } else {
      var next := prev + [sectionId];
      forall i, j | 0 <= i < j < |next| ensures next[i] != next[j] {
        if j == |prev| {
          assert next[i] == prev[i];
        }
      }
    }
  }

  /** The leaf ids of the navigation tree are the fifteen listed. */
  lemma LeafIdsOfTree()
    ensures LeafIds(NavigationItems) == AllLeafIds
  {
  }

  /** No leaf id occurs twice in the navigation tree. */
  lemma LeafIdsDistinct()
    ensures NoDuplicates(LeafIds(NavigationItems))
  {
    LeafIdsOfTree();
    ListedLeafIdsDistinct();
  }

  /** The fifteen listed leaf ids are pairwise different. */
  lemma ListedLeafIdsDistinct()
    ensures NoDuplicates(AllLeafIds)
  {
    forall i, j | 0 <= i < j < |AllLeafIds| ensures AllLeafIds[i] != AllLeafIds[j] {
      assert |AllLeafIds[i]| != |AllLeafIds[j]| || AllLeafIds[i][0] != AllLeafIds[j][0];
    }
  }

  lemma {:induction false} HighlightedLeavesOf(children: seq<string>, selectedTopic: string)
    ensures IsSubsequence(HighlightedIdsOf(RenderLeaves(children, selectedTopic)), children)
    ensures forall x :: x in HighlightedIdsOf(RenderLeaves(children, selectedTopic)) ==> x == selectedTopic
  {
    if children != [] {
      var views := RenderLeaves(children, selectedTopic);
      assert views[1..] == RenderLeaves(children[1..], selectedTopic);
      HighlightedLeavesOf(children[1..], selectedTopic);
      var rest := HighlightedIdsOf(views[1..]);
      if children[0] == selectedTopic {
        assert HighlightedIdsOf(views) == [children[0]] + rest;
      } else {
        assert HighlightedIdsOf(views) == rest;
        if rest != [] {
          assert IsSubsequence(rest, children[1..]);
        }
      }
    }
  }

  /** The highlighted leaves of a rendered tree are, in order, leaves of the tree equal to the selection. */
  lemma {:induction false} HighlightedAreSelectedLeaves(
    items: seq<NavigationItem>, expandedSections: seq<string>, selectedTopic: string)
    ensures IsSubsequence(HighlightedIds(RenderSections(items, expandedSections, selectedTopic)), LeafIds(items))
    ensures forall x :: x in HighlightedIds(RenderSections(items, expandedSections, selectedTopic)) ==> x == selectedTopic
  {
    if items != [] {
      var views := RenderSections(items, expandedSections, selectedTopic);
      assert views[1..] == RenderSections(items[1..], expandedSections, selectedTopic);
      HighlightedAreSelectedLeaves(items[1..], expandedSections, selectedTopic);
      HighlightedLeavesOf(items[0].children, selectedTopic);
      if !views[0].open {
        assert HighlightedIdsOf(views[0].children) == [];
      }
      SubsequenceConcat(
        HighlightedIdsOf(views[0].children), items[0].children,
        HighlightedIds(views[1..]), LeafIds(items[1..]));
    }
  }

  /** Whatever is expanded and selected, the sidebar highlights at most one leaf. */
  lemma AtMostOneHighlighted(expandedSections: seq<string>, selectedTopic: string)
    ensures |HighlightedIds(RenderSections(NavigationItems, expandedSections, selectedTopic))| <= 1
  {
    var highlighted := HighlightedIds(RenderSections(NavigationItems, expandedSections, selectedTopic));
    HighlightedAreSelectedLeaves(NavigationItems, expandedSections, selectedTopic);
    LeafIdsDistinct();
    SubsequenceNoDuplicates(highlighted, LeafIds(NavigationItems));
    forall i | 0 <= i < |highlighted| ensures highlighted[i] == selectedTopic {
      assert highlighted[i] in highlighted;
    }
    AllEqualNoDuplicates(highlighted, selectedTopic);
  }

  /** The sidebar's own state: which sections are expanded. */
  class SidebarState {
    var expandedSections: seq<string>

    /** The expanded list never holds an id twice. */
    predicate Valid()
      reads this
    {
      NoDuplicates(expandedSections)
    }

    constructor ()
      ensures expandedSections == InitialExpandedSections
      ensures Valid()
    {
      expandedSections := InitialExpandedSections;
    }

    /** Opens a collapsed section or collapses an open one. */
    method ToggleSection(sectionId: string)
      modifies this
      ensures expandedSections == Toggled(old(expandedSections), sectionId)
      ensures old(Valid()) ==> Valid()
    {
      if Valid() {
        ToggledNoDuplicates(expandedSections, sectionId);
      }
      expandedSections := Toggled(expandedSections, sectionId);
    }

    /** A click on a leaf hands its id, unchanged, to the selection callback; no sidebar state changes. */
    method HandleTopicClick(topicId: string) returns (selected: string)
      ensures selected == topicId
    {
      selected := topicId;
    }

    /** The rendered sidebar for the topic the parent has selected. */
    function Render(selectedTopic: string): (views: seq<SectionView>)
      reads this
      ensures |views| == |NavigationItems|
      ensures forall i :: 0 <= i < |views| ==> (views[i].open <==> IsOpen(expandedSections, NavigationItems[i].id))
    {
      RenderSections(NavigationItems, expandedSections, selectedTopic)
    }
  }
}
