/**
 * The multi-select tag filter of the ticket list. The selection is a list
 * of tag names owned by the parent; the component computes the list it
 * hands back on a toggle or a clear, the tags matching its search box, and
 * the details of the selected tags. Its own state is whether the dropdown
 * is open and the search text.
 */
module TagFilterSelector {
  import opened Wrappers
  import opened ClientTypes
  import opened Collections
  import Text

  /**
   * `toggleTag`: a selected name is removed (every occurrence, the rest in
   * order); any other name is appended.
   */
  function ToggleTag(selected: seq<string>, name: string): (r: seq<string>)
    ensures name in selected ==> r == Filter(selected, n => n != name)
    ensures name !in selected ==> r == selected + [name]
    ensures name in r <==> name !in selected
    ensures forall n :: n != name ==> (n in r <==> n in selected)
  {
    if name in selected then
      var p := n => n != name;
      var r := Filter(selected, p);
      assert forall n :: n in r <==> n in selected && p(n) by {
        forall n ensures n in r <==> n in selected && p(n) {
          FilterMembership(selected, p, n);
        }
      }
      r
    else
      selected + [name]
  }

  /** A selection without repeated names stays so under a toggle. */
  lemma ToggleKeepsNoDuplicates(selected: seq<string>, name: string)
    requires NoDuplicates(selected)
    ensures NoDuplicates(ToggleTag(selected, name))
  {
    if name in selected {
      FilterKeepsNoDuplicates(selected, n => n != name);
    }
  }

  /** Toggling a name that is not selected twice gives back the selection. */
  lemma ToggleTwiceRestores(selected: seq<string>, name: string)
    requires name !in selected
    ensures ToggleTag(ToggleTag(selected, name), name) == selected
  {
    var p := n => n != name;
    FilterAppend(selected, [name], p);
    FilterKeepsAll(selected, p);
    assert Filter([name], p) == [];
  }

  /** `filteredTags`: the loaded tags whose name contains the search text, ignoring case, in order. */
  function FilteredTags(allTags: Option<seq<TagWithCount>>, query: string): (r: seq<TagWithCount>)
    ensures |r| <= |allTags.GetOr([])|
    ensures forall t :: t in r <==> t in allTags.GetOr([]) && Text.ContainsIgnoreCase(t.name, query)
    ensures IsSubsequence(r, allTags.GetOr([]))
    ensures forall t: TagWithCount :: Text.ContainsIgnoreCase(t.name, query) ==> multiset(r)[t] == multiset(allTags.GetOr([]))[t]
  {
    var tags := allTags.GetOr([]);
    var p := (t: TagWithCount) => Text.ContainsIgnoreCase(t.name, query);
    var r := Filter(tags, p);
    FilterIsSubsequence(tags, p);
    forall t | p(t) ensures multiset(r)[t] == multiset(tags)[t] {
      FilterCounts(tags, p, t);
    }
    assert forall t :: t in r <==> t in tags && p(t) by {
      forall t ensures t in r <==> t in tags && p(t) {
        FilterMembership(tags, p, t);
      }
    }
    r
  }

  /** An empty search box shows every loaded tag. */
  lemma EmptyQueryKeepsAll(allTags: Option<seq<TagWithCount>>)
    ensures FilteredTags(allTags, "") == allTags.GetOr([])
  {
    var tags := allTags.GetOr([]);
    var p := (t: TagWithCount) => Text.ContainsIgnoreCase(t.name, "");
    forall i | 0 <= i < |tags| ensures p(tags[i]) {
      Text.ContainsEmpty(Text.Lower(tags[i].name));
    }
    FilterKeepsAll(tags, p);
  }

  /** The case of the search text does not matter. */
  lemma QueryCaseIrrelevant(allTags: Option<seq<TagWithCount>>, query: string)
    ensures FilteredTags(allTags, query) == FilteredTags(allTags, Text.Lower(query))
  {
    var tags := allTags.GetOr([]);
    var p := (t: TagWithCount) => Text.ContainsIgnoreCase(t.name, query);
    var q := (t: TagWithCount) => Text.ContainsIgnoreCase(t.name, Text.Lower(query));
    forall i | 0 <= i < |tags| ensures p(tags[i]) == q(tags[i]) {
      Text.ContainsIgnoreCaseOfLowered(tags[i].name, query);
    }
    FilterCongruent(tags, p, q);
  }

  /** `selectedTagsDetails`: the loaded tags whose name is selected, in the order they were loaded. */
  function SelectedTagsDetails(allTags: Option<seq<TagWithCount>>, selected: seq<string>): (r: seq<TagWithCount>)
    ensures |r| <= |allTags.GetOr([])|
    ensures forall t :: t in r <==> t in allTags.GetOr([]) && t.name in selected
    ensures IsSubsequence(r, allTags.GetOr([]))
    ensures forall t: TagWithCount :: t.name in selected ==> multiset(r)[t] == multiset(allTags.GetOr([]))[t]
  {
    var tags := allTags.GetOr([]);
    var p := (t: TagWithCount) => t.name in selected;
    var r := Filter(tags, p);
    FilterIsSubsequence(tags, p);
    forall t | p(t) ensures multiset(r)[t] == multiset(tags)[t] {
      FilterCounts(tags, p, t);
    }
    assert forall t :: t in r <==> t in tags && p(t) by {
      forall t ensures t in r <==> t in tags && p(t) {
        FilterMembership(tags, p, t);
      }
    }
    r
  }

  /** The component's own state. */
  class FilterSelector {
    var isOpen: bool
    var searchQuery: string

    constructor ()
      ensures !isOpen && searchQuery == ""
    {
      isOpen := false;
      searchQuery := "";
    }

    /** A click on the trigger button. */
    method ToggleOpen()
      modifies this
      ensures isOpen == !old(isOpen) && searchQuery == old(searchQuery)
    {
      isOpen := !isOpen;
    }

    method SetSearchQuery(value: string)
      modifies this
      ensures searchQuery == value && isOpen == old(isOpen)
    {
      searchQuery := value;
    }

    /** A key press while the dropdown is open: Escape closes it. */
    method HandleKey(key: string)
      modifies this
      ensures isOpen == (old(isOpen) && key != "Escape") && searchQuery == old(searchQuery)
    {
      if key == "Escape" {
        isOpen := false;
      }
    }

    /** `clearAll`: hands back the empty selection and closes the dropdown. */
    method ClearAll() returns (emitted: seq<string>)
      modifies this
      ensures emitted == [] && !isOpen && searchQuery == old(searchQuery)
    {
      isOpen := false;
      emitted := [];
    }
  }
}
