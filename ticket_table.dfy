/**
 * The ticket table: a loading skeleton, an empty state, or the rows with a
 * header checkbox whose checked and indeterminate states are derived from
 * the size of the selection the parent holds.
 */
module TicketTable {
  import opened Wrappers
  import opened ClientTypes
  import Collections

  /** The header checkbox is checked: a non-empty list and as many selected ids as rows. */
  predicate AllSelected(tickets: seq<Ticket>, selected: set<int>) {
    |tickets| > 0 && |selected| == |tickets|
  }

  /** The header checkbox is indeterminate: some ids selected, fewer than there are rows. */
  predicate SomeSelected(tickets: seq<Ticket>, selected: set<int>) {
    |selected| > 0 && |selected| < |tickets|
  }

  /** A row's checkbox: its ticket's id is in the selection. */
  predicate RowSelected(t: Ticket, selected: set<int>) {
    t.id in selected
  }

  /** The header checkbox is never both checked and indeterminate. */
  lemma NeverBothSelected(tickets: seq<Ticket>, selected: set<int>)
    ensures !(AllSelected(tickets, selected) && SomeSelected(tickets, selected))
  {
  }

  function TicketIds(tickets: seq<Ticket>): set<int> {
    set t | t in tickets :: t.id
  }

  predicate DistinctIds(tickets: seq<Ticket>) {
    forall i, j :: 0 <= i < j < |tickets| ==> tickets[i].id != tickets[j].id
  }

  /** A list without repeated ids has as many ids as rows. */
  lemma {:induction false} DistinctIdsCount(tickets: seq<Ticket>)
    requires DistinctIds(tickets)
    ensures |TicketIds(tickets)| == |tickets|
  {
    if tickets != [] {
      var rest := tickets[1..];
      var head := tickets[0].id;
      assert DistinctIds(rest) by {
        forall i, j | 0 <= i < j < |rest| ensures rest[i].id != rest[j].id {
          assert rest[i] == tickets[i + 1] && rest[j] == tickets[j + 1];
        }
      }
      DistinctIdsCount(rest);
      forall x ensures x in TicketIds(tickets) <==> x in TicketIds(rest) || x == head {
        if x in TicketIds(tickets) && x != head {
          var t :| t in tickets && t.id == x;
          assert t in rest by {
            assert tickets == [tickets[0]] + rest;
          }
        }
        if x in TicketIds(rest) {
          var t :| t in rest && t.id == x;
          assert t in tickets;
        }
      }
      assert TicketIds(tickets) == TicketIds(rest) + {head};
      forall t | t in rest ensures t.id != head {
        var j :| 0 <= j < |rest| && rest[j] == t;
        assert tickets[j + 1] == t;
      }
      assert head !in TicketIds(rest);
    }
  }

  /** A set strictly inside another is smaller. */
  lemma ProperSubsetSmaller(a: set<int>, b: set<int>)
    requires a <= b && a != b
    ensures |a| < |b|
  {
    assert b - a != {};
    Collections.EmptyOrInhabited(b - a);
    var x :| x in b - a;
    assert {x} <= b - a;
    assert |b - a| == |b| - |a|;
  }

  /**
   * When every selected id is the id of a row and the rows have distinct
   * ids, the size-based flags say what they mean: checked exactly when every
   * row is selected, indeterminate exactly when some but not all are.
   */
  lemma SelectionFlagsExact(tickets: seq<Ticket>, selected: set<int>)
    requires DistinctIds(tickets) && selected <= TicketIds(tickets)
    ensures AllSelected(tickets, selected) <==> |tickets| > 0 && forall i :: 0 <= i < |tickets| ==> RowSelected(tickets[i], selected)
    ensures SomeSelected(tickets, selected) <==>
      (exists i :: 0 <= i < |tickets| && RowSelected(tickets[i], selected)) &&
      (exists i :: 0 <= i < |tickets| && !RowSelected(tickets[i], selected))
  {
    var ids := TicketIds(tickets);
    DistinctIdsCount(tickets);
    var allRows := forall i :: 0 <= i < |tickets| ==> RowSelected(tickets[i], selected);
    assert selected == ids <==> allRows;
    if selected != ids {
      ProperSubsetSmaller(selected, ids);
      var x :| x in ids && x !in selected;
      var i :| 0 <= i < |tickets| && tickets[i].id == x;
      assert !RowSelected(tickets[i], selected);
    }
    if |selected| > 0 {
      var x :| x in selected;
      var i :| 0 <= i < |tickets| && tickets[i].id == x;
      assert RowSelected(tickets[i], selected);
    }
  }

  /**
   * Only sizes are compared: an id that is no longer listed makes the header
   * checked while a visible row is unselected.
   */
  lemma StaleSelectionChecksHeader(t: Ticket, stale: int)
    requires stale != t.id
    ensures AllSelected([t], {stale}) && !RowSelected(t, {stale})
  {
  }

  /** What the table renders. */
  datatype TableView =
    | Skeleton
    | EmptyState
    | Rows(allSelected: bool, someSelected: bool, rowSelected: seq<bool>)

  /** Loading first, then an absent or empty list, then the rows with their flags. */
  function Render(tickets: Option<seq<Ticket>>, loading: bool, selected: set<int>): (r: TableView)
    ensures loading <==> r == Skeleton
    ensures r == EmptyState <==> !loading && tickets.GetOr([]) == []
    ensures r.Rows? ==> tickets.Some? && |r.rowSelected| == |tickets.value|
    ensures r.Rows? ==> forall i :: 0 <= i < |tickets.value| ==> r.rowSelected[i] == RowSelected(tickets.value[i], selected)
    ensures r.Rows? ==> r.allSelected == AllSelected(tickets.value, selected) && r.someSelected == SomeSelected(tickets.value, selected)
  {
    if loading then Skeleton
    else if tickets.None? || |tickets.value| == 0 then EmptyState
    else
      var ts := tickets.value;
      Rows(AllSelected(ts, selected), SomeSelected(ts, selected), seq(|ts|, i requires 0 <= i < |ts| => RowSelected(ts[i], selected)))
  }
}
