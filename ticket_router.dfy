/**
 * The ticket routes that do more than forward to the service: the listing
 * route, which turns the `tags` query parameter into tag ids, and the two
 * batch routes, which wrap the service's affected count into a
 * `BatchOperationResponse`.
 *
 * `parse_tag_filter` is called by the listing route but its body is not
 * part of this model; `ParseTagFilter` states the behaviour the route's own
 * documentation describes (ids, names, or both, comma-separated).
 */
module TicketRouter {
  import opened Wrappers
  import opened Models
  import opened Collections
  import Text
  import Database
  import TicketService

  // ---------------------------------------------------------------------
  // GET /tickets
  // ---------------------------------------------------------------------

  /** The ids of the stored tags named `q`, ignoring case. */
  function NamedTagIds(tags: map<int, Tag>, q: string): (r: seq<int>)
    ensures forall g :: g in r <==> g in tags && Text.Lower(tags[g].name) == Text.Lower(q)
    ensures (forall g :: g in tags ==> Text.Lower(tags[g].name) != Text.Lower(q)) ==> r == []
  {
    var ids := SortedIds(tags.Keys);
    var p := g => g in tags && Text.Lower(tags[g].name) == Text.Lower(q);
    var r := Filter(ids, p);
    assert forall g :: g in r <==> g in ids && p(g) by {
      forall g ensures g in r <==> g in ids && p(g) {
        FilterMembership(ids, p, g);
      }
    }
    assert (forall g :: g in tags ==> Text.Lower(tags[g].name) != Text.Lower(q)) ==> r == [] by {
      if forall g :: g in tags ==> Text.Lower(tags[g].name) != Text.Lower(q) {
        FilterDropsAll(ids, p);
      }
    }
    r
  }

  /** The ids one trimmed piece of the `tags` parameter selects: a number is an id, anything else a name. */
  function PieceIds(tags: map<int, Tag>, q: string): seq<int> {
    if q == "" then []
    else match Text.ParseDecimal(q)
      case Some(n) => [n]
      case None => NamedTagIds(tags, q)
  }

  /**
   * A non-empty piece that reads as a decimal selects that id and nothing
   * else; any other non-empty piece selects the stored tags of that name,
   * ignoring case; an empty piece selects nothing.
   */
  lemma PieceIdsSelects(tags: map<int, Tag>, q: string, g: int)
    ensures g in PieceIds(tags, q) <==>
      (q != "" && (Text.ParseDecimal(q) == Some(g) || (Text.ParseDecimal(q).None? && g in tags && Text.Lower(tags[g].name) == Text.Lower(q))))
  {
  }

  /** The ids selected by each piece, trimmed, in the order of the pieces. */
  function PiecesIds(tags: map<int, Tag>, pieces: seq<string>): seq<int> {
    if pieces == [] then [] else PieceIds(tags, Text.Trim(pieces[0])) + PiecesIds(tags, pieces[1..])
  }

  /** An id is selected exactly when some piece selects it. */
  lemma {:induction false} PiecesIdsMembership(tags: map<int, Tag>, pieces: seq<string>, g: int)
    ensures g in PiecesIds(tags, pieces) <==> exists i :: 0 <= i < |pieces| && g in PieceIds(tags, Text.Trim(pieces[i]))
  {
    if pieces != [] {
      var head, tail := pieces[0], pieces[1..];
      PiecesIdsMembership(tags, tail, g);
      assert pieces == [head] + tail;
      PiecesIdsCons(tags, head, tail);
      if g in PiecesIds(tags, tail) {
        var i :| 0 <= i < |tail| && g in PieceIds(tags, Text.Trim(tail[i]));
        assert tail[i] == pieces[i + 1];
      }
      if i :| 0 < i < |pieces| && g in PieceIds(tags, Text.Trim(pieces[i])) {
        assert pieces[i] == tail[i - 1];
      }
    }
  }


  /** The pieces of `a + b` select what the pieces of `a` select, then what those of `b` select. */
  lemma {:induction false} PiecesIdsAppend(tags: map<int, Tag>, a: seq<string>, b: seq<string>)
    ensures PiecesIds(tags, a + b) == PiecesIds(tags, a) + PiecesIds(tags, b)
  {
    if a == [] {
      assert a + b == b;
    } else {
      var t := a[1..];
      PiecesIdsAppend(tags, t, b);
      assert a == [a[0]] + t;
      AppendAssociative([a[0]], t, b);
      PiecesIdsCons(tags, a[0], t + b);
      PiecesIdsCons(tags, a[0], t);
      AppendAssociative(PieceIds(tags, Text.Trim(a[0])), PiecesIds(tags, t), PiecesIds(tags, b));
    }
  }

  lemma PiecesIdsCons(tags: map<int, Tag>, x: string, rest: seq<string>)
    ensures PiecesIds(tags, [x] + rest) == PieceIds(tags, Text.Trim(x)) + PiecesIds(tags, rest)
  {
    assert ([x] + rest)[0] == x && ([x] + rest)[1..] == rest;
  }

  /** Each piece's ids sit between those of the pieces before it and those of the pieces after it. */
  lemma PiecesIdsAt(tags: map<int, Tag>, ps: seq<string>, k: nat)
    requires k < |ps|
    ensures PiecesIds(tags, ps) == PiecesIds(tags, ps[..k]) + PieceIds(tags, Text.Trim(ps[k])) + PiecesIds(tags, ps[k + 1..])
  {
    var before, after := ps[..k], ps[k + 1..];
    var rest := [ps[k]] + after;
    assert ps == before + rest;
    PiecesIdsAppend(tags, before, rest);
    PiecesIdsCons(tags, ps[k], after);
    AppendAssociative(PiecesIds(tags, before), PieceIds(tags, Text.Trim(ps[k])), PiecesIds(tags, after));
  }

  /** Membership and order of the selected ids, piece by piece. */
  lemma PiecesIdsEachPiece(tags: map<int, Tag>, ps: seq<string>)
    ensures forall g :: g in PiecesIds(tags, ps) <==> exists i :: 0 <= i < |ps| && g in PieceIds(tags, Text.Trim(ps[i]))
    ensures forall k :: 0 <= k < |ps| ==>
      PiecesIds(tags, ps) == PiecesIds(tags, ps[..k]) + PieceIds(tags, Text.Trim(ps[k])) + PiecesIds(tags, ps[k + 1..])
  {
    forall g ensures g in PiecesIds(tags, ps) <==> exists i :: 0 <= i < |ps| && g in PieceIds(tags, Text.Trim(ps[i])) {
      PiecesIdsMembership(tags, ps, g);
    }
    forall k | 0 <= k < |ps|
      ensures PiecesIds(tags, ps) == PiecesIds(tags, ps[..k]) + PieceIds(tags, Text.Trim(ps[k])) + PiecesIds(tags, ps[k + 1..])
    {
      PiecesIdsAt(tags, ps, k);
    }
  }

  /**
   * `parse_tag_filter`: the ids selected by the comma-separated pieces of
   * `s`, each trimmed, piece after piece; empty pieces and names of no
   * stored tag select nothing.
   */
  function ParseTagFilter(tags: map<int, Tag>, s: string): (r: seq<int>)
    ensures var ps := Text.Split(s, ',');
      forall g :: g in r <==> exists i :: 0 <= i < |ps| && g in PieceIds(tags, Text.Trim(ps[i]))
    ensures var ps := Text.Split(s, ',');
      forall k :: 0 <= k < |ps| ==>
        r == PiecesIds(tags, ps[..k]) + PieceIds(tags, Text.Trim(ps[k])) + PiecesIds(tags, ps[k + 1..])
  {
    var ps := Text.Split(s, ',');
    PiecesIdsEachPiece(tags, ps);
    PiecesIds(tags, ps)
  }

  /** A number or a name written without commas or surrounding blanks is one piece. */
  lemma SinglePiece(tags: map<int, Tag>, q: string)
    requires ',' !in q && Text.Trim(q) == q
    ensures ParseTagFilter(tags, q) == PieceIds(tags, q)
  {
    Text.SplitWithoutSeparator(q, ',');
    PiecesIdsEachPiece(tags, [q]);
    PiecesIdsCons(tags, q, []);
    assert [q] + [] == [q];
    AppendEmpty(PieceIds(tags, q));
  }

  /** A single id written in decimal selects exactly that id. */
  lemma TagFilterOfId(tags: map<int, Tag>, id: nat)
    ensures ParseTagFilter(tags, Text.DecimalString(id)) == [id]
  {
    var s := Text.DecimalString(id);
    forall i | 0 <= i < |s| ensures s[i] != ',' {
      assert Text.IsDigit(s[i]);
    }
    assert !Text.IsSpace(s[0]) && !Text.IsSpace(s[|s| - 1]);
    assert Text.TrimStart(s) == s;
    assert Text.TrimEnd(s) == s;
    SinglePiece(tags, s);
    Text.DecimalRoundTrip(id);
    assert PieceIds(tags, s) == [id];
  }

  /** The tag ids the route hands to the service: none unless `tags` is a non-empty string. */
  function TagFilterOf(tags: map<int, Tag>, param: Option<string>): (r: Option<seq<int>>)
    ensures r.Some? <==> param.Some? && param.value != ""
    ensures r.Some? ==> r.value == ParseTagFilter(tags, param.value)
  {
    if param.Some? && param.value != "" then Some(ParseTagFilter(tags, param.value)) else None
  }

  /**
   * `GET /tickets`: the stored tickets that pass the search, the tag filter
   * parsed from `tags` and the status (`"all"` when absent), each once,
   * most recently updated first.
   */
  function GetTickets(tickets: map<int, Ticket>, tags: map<int, Tag>, links: set<Link>,
                      search: Option<string>, tagsParam: Option<string>, status: Option<string>): (r: seq<Ticket>)
    requires Database.TicketKeysAreIds(tickets)
    ensures forall t :: t in r <==>
      TicketService.Stored(tickets, t) && TicketService.Matches(search, TagFilterOf(tags, tagsParam), status.GetOr("all"), links, t)
    ensures forall i, j :: 0 <= i < j < |r| ==> r[i].id != r[j].id
    ensures TicketService.SortedByUpdatedDesc(r)
  {
    TicketService.ListTickets(tickets, links, search, TagFilterOf(tags, tagsParam), status.GetOr("all"))
  }

  /**
   * A `tags` parameter that names no stored tag and holds no number parses to
   * the empty list, which the service reads as "no tag filter": such a
   * request lists the same tickets as one without `tags`.
   */
  lemma UnknownTagNamesFilterNothing(tickets: map<int, Ticket>, tags: map<int, Tag>, links: set<Link>,
                                     search: Option<string>, name: string, status: Option<string>)
    requires Database.TicketKeysAreIds(tickets)
    requires name != "" && ',' !in name && Text.Trim(name) == name
    requires Text.ParseDecimal(name).None?
    requires forall g :: g in tags ==> Text.Lower(tags[g].name) != Text.Lower(name)
    ensures GetTickets(tickets, tags, links, search, Some(name), status) == GetTickets(tickets, tags, links, search, None, status)
  {
    SinglePiece(tags, name);
    assert TagFilterOf(tags, Some(name)) == Some([]);
    TicketService.EmptyTagListIsAbsent(tickets, links, search, status.GetOr("all"));
  }

  /** An empty `tags` parameter is falsy: it lists the same as no parameter. */
  lemma EmptyTagsParamIsAbsent(tickets: map<int, Ticket>, tags: map<int, Tag>, links: set<Link>,
                               search: Option<string>, status: Option<string>)
    requires Database.TicketKeysAreIds(tickets)
    ensures GetTickets(tickets, tags, links, search, Some(""), status) == GetTickets(tickets, tags, links, search, None, status)
  {
  }

  /** Without `status` the route lists as for `status=all`. */
  lemma StatusDefaultsToAll(tickets: map<int, Ticket>, tags: map<int, Tag>, links: set<Link>,
                            search: Option<string>, tagsParam: Option<string>)
    requires Database.TicketKeysAreIds(tickets)
    ensures GetTickets(tickets, tags, links, search, tagsParam, None) == GetTickets(tickets, tags, links, search, tagsParam, Some("all"))
  {
  }

  // ---------------------------------------------------------------------
  // POST /tickets/batch/status and /tickets/batch/delete
  // ---------------------------------------------------------------------

  datatype BatchOperationResponse = BatchOperationResponse(success: bool, affectedCount: nat, message: string)

  function StatusText(isCompleted: bool): string {
    if isCompleted then "completed" else "open"
  }

  function UpdatedMessage(n: nat, isCompleted: bool): string {
    "Successfully updated " + (Text.DecimalString(n) + (" ticket(s) to " + StatusText(isCompleted)))
  }

  function DeletedMessage(n: nat): string {
    "Successfully deleted " + (Text.DecimalString(n) + " ticket(s)")
  }

  /** The batch-status route: the service's count and a message naming it and the new status. */
  function BatchStatusResponse(affected: Result<nat>, isCompleted: bool): (r: Result<BatchOperationResponse>)
    ensures r.Fail? <==> affected.Fail?
    ensures r.Fail? ==> r.error == affected.error
    ensures r.Ok? ==> r.value.success && r.value.affectedCount == affected.value
    ensures r.Ok? ==> r.value.message == UpdatedMessage(affected.value, isCompleted)
  {
    match affected
    case Fail(e) => Fail(e)
    case Ok(n) => Ok(BatchOperationResponse(true, n, UpdatedMessage(n, isCompleted)))
  }

  /** The batch-delete route: the service's count and a message naming it. */
  function BatchDeleteResponse(affected: Result<nat>): (r: Result<BatchOperationResponse>)
    ensures r.Fail? <==> affected.Fail?
    ensures r.Fail? ==> r.error == affected.error
    ensures r.Ok? ==> r.value.success && r.value.affectedCount == affected.value
    ensures r.Ok? ==> r.value.message == DeletedMessage(affected.value)
  {
    match affected
    case Fail(e) => Fail(e)
    case Ok(n) => Ok(BatchOperationResponse(true, n, DeletedMessage(n)))
  }
}
