/**
 * The tag picker of a ticket: the tags already on the ticket are shown with
 * remove buttons, and an "Add Tag" dropdown offers the loaded tags that are
 * not on it yet.
 */
module TagSelector {
  import opened Wrappers
  import opened ClientTypes
  import opened Collections

  /** The ids of the tags already on the ticket. */
  function SelectedIds(selected: seq<Tag>): (r: set<int>)
    ensures forall id :: id in r <==> exists s :: s in selected && s.id == id
  {
    set s | s in selected :: s.id
  }

  /** `{id, name, color}` of a listing entry: the entry without its count. */
  function AsTag(t: TagWithCount): (r: Tag)
    ensures r.id == t.id && r.name == t.name && r.color == t.color
  {
    Tag(t.id, t.name, t.color)
  }

  /** The loaded tags whose id is not on the ticket, in loading order. */
  function Unselected(allTags: seq<TagWithCount>, selected: seq<Tag>): seq<TagWithCount> {
    Filter(allTags, (t: TagWithCount) => t.id !in SelectedIds(selected))
  }

  /** The unselected tags, reduced to id, name and colour, are the available ones. */
  lemma UnselectedAsTags(tags: seq<TagWithCount>, selected: seq<Tag>, r: seq<Tag>)
    requires var kept := Unselected(tags, selected);
      |r| == |kept| && forall i :: 0 <= i < |r| ==> r[i] == AsTag(kept[i])
    ensures |r| <= |tags|
    ensures forall i :: 0 <= i < |r| ==> exists t :: t in tags && r[i] == AsTag(t)
    ensures forall i, s :: 0 <= i < |r| && s in selected ==> r[i].id != s.id
    ensures forall t :: t in tags ==> AsTag(t) in r || exists s :: s in selected && s.id == t.id
  {
    var p := (t: TagWithCount) => t.id !in SelectedIds(selected);
    var kept := Filter(tags, p);
    forall i | 0 <= i < |r| ensures kept[i] in tags && p(kept[i]) {
      FilterMembership(tags, p, kept[i]);
    }
    forall t | t in tags ensures AsTag(t) in r || t.id in SelectedIds(selected) {
      FilterMembership(tags, p, t);
      if p(t) {
        var i :| 0 <= i < |kept| && kept[i] == t;
        assert r[i] == AsTag(t);
      }
    }
  }

  /**
   * `availableTags`: the loaded tags whose id is not on the ticket, in
   * loading order, each reduced to id, name and colour.
   */
  function AvailableTags(allTags: Option<seq<TagWithCount>>, selected: seq<Tag>): (r: seq<Tag>)
    ensures |r| <= |allTags.GetOr([])|
    ensures forall i :: 0 <= i < |r| ==> exists t :: t in allTags.GetOr([]) && r[i] == AsTag(t)
    ensures forall i, s :: 0 <= i < |r| && s in selected ==> r[i].id != s.id
    ensures forall t :: t in allTags.GetOr([]) ==> AsTag(t) in r || exists s :: s in selected && s.id == t.id
    ensures IsSubsequence(r, Map(AsTag, allTags.GetOr([])))
    ensures forall t: Tag :: t.id !in SelectedIds(selected) ==> multiset(r)[t] == multiset(Map(AsTag, allTags.GetOr([])))[t]
  {
    var tags := allTags.GetOr([]);
    var kept := Unselected(tags, selected);
    var r := Map(AsTag, kept);
    UnselectedAsTags(tags, selected, r);
    var p := (t: TagWithCount) => t.id !in SelectedIds(selected);
    var q := (t: Tag) => t.id !in SelectedIds(selected);
    FilterMap(tags, p, AsTag, q);
    FilterIsSubsequence(Map(AsTag, tags), q);
    forall t | q(t) ensures multiset(r)[t] == multiset(Map(AsTag, tags))[t] {
      FilterCounts(Map(AsTag, tags), q, t);
    }
    r
  }

  /** An available tag is never one already on the ticket, and nothing else is held back. */
  lemma AvailableExactly(allTags: Option<seq<TagWithCount>>, selected: seq<Tag>, t: TagWithCount)
    requires t in allTags.GetOr([])
    ensures AsTag(t) in AvailableTags(allTags, selected) <==> t.id !in SelectedIds(selected)
  {
    var r := AvailableTags(allTags, selected);
    if AsTag(t) in r {
      var i :| 0 <= i < |r| && r[i] == AsTag(t);
      assert forall s :: s in selected ==> r[i].id != s.id;
    }
  }

  /** `disabled || (availableTags.length === 0 && !isLoading)`. */
  predicate AddButtonDisabled(disabled: bool, available: seq<Tag>, isLoading: bool) {
    disabled || (|available| == 0 && !isLoading)
  }

  /**
   * Once loading is over, an enabled component's "Add Tag" button is enabled
   * exactly when some loaded tag is not on the ticket yet.
   */
  lemma AddButtonEnabledExactly(allTags: Option<seq<TagWithCount>>, selected: seq<Tag>)
    ensures !AddButtonDisabled(false, AvailableTags(allTags, selected), false)
        <==> exists t :: t in allTags.GetOr([]) && t.id !in SelectedIds(selected)
  {
    var r := AvailableTags(allTags, selected);
    if t :| t in allTags.GetOr([]) && t.id !in SelectedIds(selected) {
      AvailableExactly(allTags, selected, t);
    }
    if |r| > 0 {
      var t :| t in allTags.GetOr([]) && r[0] == AsTag(t);
      AvailableExactly(allTags, selected, t);
    }
  }

  /** The component's own state: whether the dropdown is shown. */
  class Selector {
    var showDropdown: bool

    constructor ()
      ensures !showDropdown
    {
      showDropdown := false;
    }

    /** A click on the "Add Tag" button. */
    method ToggleDropdown()
      modifies this
      ensures showDropdown == !old(showDropdown)
    {
      showDropdown := !showDropdown;
    }

    /** `handleAddTag`: forwards the tag unchanged and closes the dropdown. */
    method HandleAddTag(tag: Tag) returns (forwarded: Tag)
      modifies this
      ensures forwarded == tag && !showDropdown
    {
      forwarded := tag;
      showDropdown := false;
    }
  }
}
