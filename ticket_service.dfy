/**
 * The ticket service: the filtered and ordered listing, lookup by id, and
 * the operations that create, change and delete tickets and attach or
 * detach tags. The listing is a function of the table contents; the
 * operations are methods on the store.
 */
module TicketService {
  import opened Wrappers
  import opened Models
  import opened Collections
  import Text
  import TicketSchemas
  import Database

  // ---------------------------------------------------------------------
  // Listing
  // ---------------------------------------------------------------------

  /** `status == "open"` and `"completed"` filter on the flag; any other value filters nothing. */
  predicate StatusKeeps(status: string, t: Ticket) {
    if status == "open" then !t.isCompleted
    else if status == "completed" then t.isCompleted
    else true
  }

  /**
   * `if search:` then title or description `ilike '%search%'`. A `NULL`
   * description never matches; `None` and `""` apply no filter.
   */
  predicate SearchKeeps(search: Option<string>, t: Ticket) {
    search.None? || search.value == ""
    || Text.ContainsIgnoreCase(t.title, search.value)
    || (t.description.Some? && Text.ContainsIgnoreCase(t.description.value, search.value))
  }

  /** `if tag_ids:` then keep a ticket carrying at least one of the ids; `None` and `[]` apply no filter. */
  predicate TagKeeps(tagIds: Option<seq<int>>, links: set<Link>, t: Ticket) {
    tagIds.None? || tagIds.value == []
    || exists g :: g in tagIds.value && Link(t.id, g) in links
  }

  /** All three filters together (`query.filter(...)` chained is a conjunction). */
  predicate Matches(search: Option<string>, tagIds: Option<seq<int>>, status: string, links: set<Link>, t: Ticket) {
    StatusKeeps(status, t) && SearchKeeps(search, t) && TagKeeps(tagIds, links, t)
  }

  /** `order_by(Ticket.updated_at.desc())`. */
  predicate SortedByUpdatedDesc(s: seq<Ticket>) {
    forall i, j :: 0 <= i < j < |s| ==> s[i].updatedAt >= s[j].updatedAt
  }

  /** A row at least as recent as every row of a sorted list can go in front of it. */
  lemma ConsSorted(x: Ticket, s: seq<Ticket>)
    requires SortedByUpdatedDesc(s)
    requires forall i :: 0 <= i < |s| ==> x.updatedAt >= s[i].updatedAt
    ensures SortedByUpdatedDesc([x] + s)
  {
    var r := [x] + s;
    forall i, j | 0 <= i < j < |r| ensures r[i].updatedAt >= r[j].updatedAt {
      assert r[j] == s[j - 1];
      if i > 0 {
        assert r[i] == s[i - 1];
      }
    }
  }

  /** Putting the head of `s` back in front of `t` inserted into the tail keeps the order. */
  lemma InsertBehindHead(t: Ticket, s: seq<Ticket>, rest: seq<Ticket>)
    requires SortedByUpdatedDesc(s) && s != [] && s[0].updatedAt > t.updatedAt
    requires SortedByUpdatedDesc(rest)
    requires forall i :: 0 <= i < |rest| ==> rest[i] == t || rest[i] in s[1..]
    ensures SortedByUpdatedDesc([s[0]] + rest)
    ensures forall i :: 0 <= i < |[s[0]] + rest| ==> ([s[0]] + rest)[i] == t || ([s[0]] + rest)[i] in s
  {
    var tail := s[1..];
    forall i | 0 <= i < |rest| ensures s[0].updatedAt >= rest[i].updatedAt {
      if rest[i] != t {
        var k :| 0 <= k < |tail| && tail[k] == rest[i];
        assert s[k + 1] == rest[i];
      }
    }
    ConsSorted(s[0], rest);
    var r := [s[0]] + rest;
    forall i | 0 <= i < |r| ensures r[i] == t || r[i] in s {
      if i > 0 {
        assert r[i] == rest[i - 1];
        assert rest[i - 1] in tail ==> rest[i - 1] in s;
      }
    }
  }

  /** Inserts `t` before the first row that is not more recent than it. */
  function InsertByUpdated(t: Ticket, s: seq<Ticket>): (r: seq<Ticket>)
    requires SortedByUpdatedDesc(s)
    ensures SortedByUpdatedDesc(r)
    ensures multiset(r) == multiset(s) + multiset{t}
    ensures forall i :: 0 <= i < |r| ==> r[i] == t || r[i] in s
  {
    if s == [] || s[0].updatedAt <= t.updatedAt then
      ConsSorted(t, s);
      [t] + s
    else
      var rest := InsertByUpdated(t, s[1..]);
      assert s == [s[0]] + s[1..];
      InsertBehindHead(t, s, rest);
      [s[0]] + rest
  }

  /** Orders rows by `updated_at`, most recent first, keeping every row. */
  function SortByUpdatedDesc(s: seq<Ticket>): (r: seq<Ticket>)
    ensures SortedByUpdatedDesc(r)
    ensures multiset(r) == multiset(s)
  {
    if s == [] then []
    else
      assert s == [s[0]] + s[1..];
      InsertByUpdated(s[0], SortByUpdatedDesc(s[1..]))
  }

  /** `r` lists the rows stored under `ids`, in the order of `ids`. */
  predicate RowsAt(tickets: map<int, Ticket>, ids: seq<int>, r: seq<Ticket>) {
    |r| == |ids| && forall i :: 0 <= i < |ids| ==> ids[i] in tickets && r[i] == tickets[ids[i]]
  }

  /** `t` is the row stored under its own id. */
  predicate Stored(tickets: map<int, Ticket>, t: Ticket) {
    t.id in tickets && tickets[t.id] == t
  }

  /** Listing the rows under every key lists every row. */
  lemma RowsAtCovers(tickets: map<int, Ticket>, ids: seq<int>, r: seq<Ticket>)
    requires Database.TicketKeysAreIds(tickets)
    requires RowsAt(tickets, ids, r)
    requires forall k :: k in ids <==> k in tickets
    ensures forall t :: t in r <==> Stored(tickets, t)
  {
    forall t | Stored(tickets, t) ensures t in r {
      var i :| 0 <= i < |ids| && ids[i] == t.id;
      assert r[i] == t;
    }
    forall t | t in r ensures Stored(tickets, t) {
      var i :| 0 <= i < |r| && r[i] == t;
      assert ids[i] in tickets && tickets[ids[i]] == t;
      assert tickets[ids[i]].id == ids[i];
    }
  }

  /** Rows listed under distinct keys are distinct rows. */
  lemma RowsAtDistinct(tickets: map<int, Ticket>, ids: seq<int>, r: seq<Ticket>)
    requires Database.TicketKeysAreIds(tickets)
    requires RowsAt(tickets, ids, r)
    requires forall i, j :: 0 <= i < j < |ids| ==> ids[i] < ids[j]
    ensures NoDuplicates(r)
  {
    forall i, j | 0 <= i < j < |r| ensures r[i] != r[j] {
      assert r[i].id == ids[i] && r[j].id == ids[j];
    }
  }

  /** The rows of the table in primary-key order (the order of a plain scan). */
  function Rows(tickets: map<int, Ticket>): (r: seq<Ticket>)
    requires Database.TicketKeysAreIds(tickets)
    ensures forall t :: t in r <==> Stored(tickets, t)
    ensures NoDuplicates(r)
  {
    var ids := SortedIds(tickets.Keys);
    var r := seq(|ids|, i requires 0 <= i < |ids| => tickets[ids[i]]);
    assert RowsAt(tickets, ids, r);
    RowsAtCovers(tickets, ids, r);
    RowsAtDistinct(tickets, ids, r);
    r
  }

  /**
   * `get_tickets`: every stored ticket that passes the status, search and
   * tag filters, each exactly once (`distinct`), most recently updated first.
   */
  function ListTickets(tickets: map<int, Ticket>, links: set<Link>, search: Option<string>,
                       tagIds: Option<seq<int>>, status: string): (r: seq<Ticket>)
    requires Database.TicketKeysAreIds(tickets)
    ensures forall t :: t in r <==> Stored(tickets, t) && Matches(search, tagIds, status, links, t)
    ensures forall i, j :: 0 <= i < j < |r| ==> r[i].id != r[j].id
    ensures SortedByUpdatedDesc(r)
  {
    var rows := Rows(tickets);
    var kept := Filter(rows, t => Matches(search, tagIds, status, links, t));
    var r := SortByUpdatedDesc(kept);
    forall t ensures t in r <==> Stored(tickets, t) && Matches(search, tagIds, status, links, t) {
      assert t in r <==> t in multiset(kept);
      FilterMembership(rows, t => Matches(search, tagIds, status, links, t), t);
    }
    NoDuplicatesCounts(rows);
    CountsNoDuplicates(r);
    forall i, j | 0 <= i < j < |r| ensures r[i].id != r[j].id {
      assert r[i] in r && r[j] in r;
      assert r[i] == tickets[r[i].id] && r[j] == tickets[r[j].id];
    }
    r
  }

  /** Any status other than `"open"` and `"completed"` lists the same as `"all"`. */
  lemma UnknownStatusFiltersNothing(tickets: map<int, Ticket>, links: set<Link>, search: Option<string>,
                                    tagIds: Option<seq<int>>, status: string)
    requires Database.TicketKeysAreIds(tickets)
    requires status != "open" && status != "completed"
    ensures ListTickets(tickets, links, search, tagIds, status) == ListTickets(tickets, links, search, tagIds, "all")
  {
    var rows := Rows(tickets);
    FilterCongruent(rows, t => Matches(search, tagIds, status, links, t), t => Matches(search, tagIds, "all", links, t));
  }

  /** `"open"` and `"completed"` split the `"all"` listing: every listed ticket is in exactly one of them. */
  lemma StatusPartition(tickets: map<int, Ticket>, links: set<Link>, search: Option<string>, tagIds: Option<seq<int>>)
    requires Database.TicketKeysAreIds(tickets)
    ensures forall t :: t in ListTickets(tickets, links, search, tagIds, "all") <==>
      t in ListTickets(tickets, links, search, tagIds, "open") || t in ListTickets(tickets, links, search, tagIds, "completed")
    ensures forall t :: !(t in ListTickets(tickets, links, search, tagIds, "open") && t in ListTickets(tickets, links, search, tagIds, "completed"))
  {
  }

  /** The case of the search text does not change whether a ticket matches it. */
  lemma SearchKeepsIgnoresCase(q: string, t: Ticket)
    ensures SearchKeeps(Some(q), t) == SearchKeeps(Some(Text.Lower(q)), t)
  {
    Text.ContainsIgnoreCaseOfLowered(t.title, q);
    if t.description.Some? {
      Text.ContainsIgnoreCaseOfLowered(t.description.value, q);
    }
  }

  /** The case of the search text does not change the listing. */
  lemma SearchIgnoresCase(tickets: map<int, Ticket>, links: set<Link>, q: string, tagIds: Option<seq<int>>, status: string)
    requires Database.TicketKeysAreIds(tickets)
    ensures ListTickets(tickets, links, Some(q), tagIds, status) == ListTickets(tickets, links, Some(Text.Lower(q)), tagIds, status)
  {
    var rows := Rows(tickets);
    var p := t => Matches(Some(q), tagIds, status, links, t);
    var p' := t => Matches(Some(Text.Lower(q)), tagIds, status, links, t);
    forall i | 0 <= i < |rows| ensures p(rows[i]) == p'(rows[i]) {
      SearchKeepsIgnoresCase(q, rows[i]);
    }
    FilterCongruent(rows, p, p');
  }

  /** An empty search text and an empty tag list filter nothing, like leaving them out. */
  lemma EmptyFiltersAreAbsent(tickets: map<int, Ticket>, links: set<Link>, status: string)
    requires Database.TicketKeysAreIds(tickets)
    ensures ListTickets(tickets, links, Some(""), Some([]), status) == ListTickets(tickets, links, None, None, status)
  {
    var rows := Rows(tickets);
    FilterCongruent(rows, t => Matches(Some(""), Some([]), status, links, t), t => Matches(None, None, status, links, t));
  }

  /** An empty tag list filters nothing, like leaving the tag filter out. */
  lemma EmptyTagListIsAbsent(tickets: map<int, Ticket>, links: set<Link>, search: Option<string>, status: string)
    requires Database.TicketKeysAreIds(tickets)
    ensures ListTickets(tickets, links, search, Some([]), status) == ListTickets(tickets, links, search, None, status)
  {
    var rows := Rows(tickets);
    FilterCongruent(rows, t => Matches(search, Some([]), status, links, t), t => Matches(search, None, status, links, t));
  }

  // ---------------------------------------------------------------------
  // Single-ticket operations
  // ---------------------------------------------------------------------

  const TicketNotFound := HttpError(404, "Ticket not found")

  /** `get_ticket_by_id`: the stored row, or 404 when no row has that id. */
  function GetTicketById(tickets: map<int, Ticket>, id: int): (r: Result<Ticket>)
    ensures r.Ok? <==> id in tickets
    ensures r.Ok? ==> r.value == tickets[id]
    ensures r.Fail? ==> r.error == TicketNotFound
  {
    if id in tickets then Ok(tickets[id]) else Fail(TicketNotFound)
  }

  /** The columns of `t` after assigning every field of `u` that is not `None`. */
  function ApplyUpdate(t: Ticket, u: TicketSchemas.TicketUpdate): Ticket {
    t.(title := u.title.GetOr(t.title),
       description := if u.description.Some? then u.description else t.description,
       isCompleted := u.isCompleted.GetOr(t.isCompleted))
  }

  /** `t` has the value of every field `u` sets. */
  predicate Reflects(t: Ticket, u: TicketSchemas.TicketUpdate) {
    && (u.title.Some? ==> t.title == u.title.value)
    && (u.description.Some? ==> t.description == u.description)
    && (u.isCompleted.Some? ==> t.isCompleted == u.isCompleted.value)
  }

  /**
   * An update sets exactly the fields it carries: those take the new values,
   * the others and the key and timestamps keep the old ones.
   */
  lemma ApplyUpdateSetsOnlyGivenFields(t: Ticket, u: TicketSchemas.TicketUpdate)
    ensures Reflects(ApplyUpdate(t, u), u)
    ensures u.title.None? ==> ApplyUpdate(t, u).title == t.title
    ensures u.description.None? ==> ApplyUpdate(t, u).description == t.description
    ensures u.isCompleted.None? ==> ApplyUpdate(t, u).isCompleted == t.isCompleted
    ensures ApplyUpdate(t, u).id == t.id && ApplyUpdate(t, u).createdAt == t.createdAt
  {
  }

  /** Sending the same update twice is the same as sending it once; an empty update changes nothing. */
  lemma ApplyUpdateIdempotent(t: Ticket, u: TicketSchemas.TicketUpdate)
    ensures ApplyUpdate(ApplyUpdate(t, u), u) == ApplyUpdate(t, u)
    ensures ApplyUpdate(t, TicketSchemas.TicketUpdate(None, None, None)) == t
  {
  }

  /**
   * The row written back at commit: `onupdate=func.now()` and the update
   * trigger fire only when an `UPDATE` is issued, which happens only when a
   * column value actually changed.
   */
  function Stamp(before: Ticket, after: Ticket, now: nat): (r: Ticket)
    ensures r.createdAt == after.createdAt
    ensures r == before || r.updatedAt == now
    ensures r.(updatedAt := after.updatedAt) == after
  {
    if after == before then before else after.(updatedAt := now)
  }

  /** `is_completed = not is_completed`. */
  function Toggled(t: Ticket): (r: Ticket)
    ensures r.isCompleted != t.isCompleted
    ensures r.(isCompleted := t.isCompleted) == t
  {
    t.(isCompleted := !t.isCompleted)
  }

  /** Toggling twice restores every column except the update time. */
  lemma ToggleTwice(t: Ticket, now1: nat, now2: nat)
    ensures Stamp(Stamp(t, Toggled(t), now1), Toggled(Stamp(t, Toggled(t), now1)), now2) == t.(updatedAt := now2)
  {
  }

  /** A row written by `Stamp` still satisfies the column rules and the clock bound. */
  lemma StampKeepsRowOk(before: Ticket, after: Ticket, now: nat, clock: nat)
    requires TicketRowOk(before) && before.updatedAt <= clock && clock <= now
    requires |after.title| <= TitleMaxLength && after.createdAt == before.createdAt && after.updatedAt == before.updatedAt
    ensures TicketRowOk(Stamp(before, after, now)) && Stamp(before, after, now).updatedAt <= now
  {
  }

  /** The tag ids a `TicketCreate` asks for; `None` asks for none. */
  function RequestedTags(req: TicketSchemas.TicketCreate): seq<int> {
    if req.tagIds.Some? then req.tagIds.value else []
  }

  /**
   * `create_ticket`: inserts a ticket with the next id, `is_completed` false
   * and both timestamps now, attached to those requested tags that exist;
   * unknown tag ids are ignored.
   */
  method CreateTicket(db: Database.Db, req: TicketSchemas.TicketCreate) returns (t: Ticket)
    requires db.Valid() && TicketSchemas.TicketCreateOk(req)
    modifies db
    ensures db.Valid()
    ensures t.id == old(db.nextTicketId) && t.id !in old(db.tickets)
    ensures db.clock == old(db.clock) + 1 && t == NewTicket(t.id, req.title, req.description, db.clock)
    ensures db.tickets == old(db.tickets)[t.id := t]
    ensures db.links == old(db.links) + (set g | g in RequestedTags(req) && g in db.tags :: Link(t.id, g))
    ensures db.tags == old(db.tags) && db.nextTagId == old(db.nextTagId) && db.nextTicketId == t.id + 1
  {
    var now := db.Tick();
    var id := db.nextTicketId;
    t := NewTicket(id, req.title, req.description, now);
    var attached: set<Link> := {};
    if req.tagIds.Some? && req.tagIds.value != [] {
      attached := set g | g in req.tagIds.value && g in db.tags :: Link(id, g);
    }
    db.tickets := db.tickets[id := t];
    db.links := db.links + attached;
    db.nextTicketId := id + 1;
  }

  /** `update_ticket`: 404 for an unknown id, otherwise assigns the given fields of that row only. */
  method UpdateTicket(db: Database.Db, id: int, u: TicketSchemas.TicketUpdate) returns (r: Result<Ticket>)
    requires db.Valid() && TicketSchemas.TicketUpdateOk(u)
    modifies db
    ensures db.Valid()
    ensures id !in old(db.tickets) ==> r == Fail(TicketNotFound) && unchanged(db)
    ensures id in old(db.tickets) ==>
      && db.clock == old(db.clock) + 1
      && r == Ok(Stamp(old(db.tickets[id]), ApplyUpdate(old(db.tickets[id]), u), db.clock))
      && db.tickets == old(db.tickets)[id := r.value]
    ensures db.tags == old(db.tags) && db.links == old(db.links)
    ensures db.nextTicketId == old(db.nextTicketId) && db.nextTagId == old(db.nextTagId)
  {
    match GetTicketById(db.tickets, id)
    case Fail(e) =>
      r := Fail(e);
    case Ok(t) =>
      var now := db.Tick();
      var written := Stamp(t, ApplyUpdate(t, u), now);
      StampKeepsRowOk(t, ApplyUpdate(t, u), now, now - 1);
      db.tickets := db.tickets[id := written];
      r := Ok(written);
  }

  /** `toggle_complete`: 404 for an unknown id, otherwise negates `is_completed` of that row only. */
  method ToggleComplete(db: Database.Db, id: int) returns (r: Result<Ticket>)
    requires db.Valid()
    modifies db
    ensures db.Valid()
    ensures id !in old(db.tickets) ==> r == Fail(TicketNotFound) && unchanged(db)
    ensures id in old(db.tickets) ==>
      && db.clock == old(db.clock) + 1
      && r == Ok(Stamp(old(db.tickets[id]), Toggled(old(db.tickets[id])), db.clock))
      && db.tickets == old(db.tickets)[id := r.value]
    ensures db.tags == old(db.tags) && db.links == old(db.links)
    ensures db.nextTicketId == old(db.nextTicketId) && db.nextTagId == old(db.nextTagId)
  {
    match GetTicketById(db.tickets, id)
    case Fail(e) =>
      r := Fail(e);
    case Ok(t) =>
      var now := db.Tick();
      var written := Stamp(t, Toggled(t), now);
      StampKeepsRowOk(t, Toggled(t), now, now - 1);
      db.tickets := db.tickets[id := written];
      r := Ok(written);
  }

  /** `delete_ticket`: 404 for an unknown id, otherwise removes the row and, by cascade, its tag links. */
  method DeleteTicket(db: Database.Db, id: int) returns (r: Result<Unit>)
    requires db.Valid()
    modifies db
    ensures db.Valid()
    ensures id !in old(db.tickets) ==> r == Fail(TicketNotFound) && unchanged(db)
    ensures id in old(db.tickets) ==>
      && r == Ok(Unit)
      && db.tickets == old(db.tickets) - {id}
      && db.links == WithoutTicket(old(db.links), id)
    ensures db.tags == old(db.tags) && db.clock == old(db.clock)
    ensures db.nextTicketId == old(db.nextTicketId) && db.nextTagId == old(db.nextTagId)
  {
    match GetTicketById(db.tickets, id)
    case Fail(e) =>
      r := Fail(e);
    case Ok(_) =>
      db.tickets := db.tickets - {id};
      db.links := WithoutTicket(db.links, id);
      r := Ok(Unit);
  }

  /**
   * The loop of `add_tags`: each tag in `found` whose id is not among the
   * ticket's tag ids taken before the loop is appended. The result holds the
   * old links and a link from `id` to every tag in `found`, and nothing else.
   */
  method AppendNewTags(links: set<Link>, id: int, found: seq<int>) returns (r: set<Link>)
    ensures forall l :: l in r <==> l in links || (l.ticketId == id && l.tagId in found)
  {
    var existing := TagIdsOf(links, id);
    r := links;
    var i := 0;
    while i < |found|
      invariant 0 <= i <= |found|
      invariant forall l :: l in r <==> l in links || (l.ticketId == id && l.tagId in found[..i])
    {
      var g := found[i];
      if g !in existing {
        r := r + {Link(id, g)};
      } else {
        assert Link(id, g) in links;
      }
      assert found[..i + 1] == found[..i] + [g];
      i := i + 1;
    }
    assert found[..i] == found;
  }

  /**
   * `add_tags`: 404 for an unknown ticket; otherwise every requested tag that
   * exists and is not yet attached is attached. Existing links stay,
   * unknown ids are ignored, and the ticket row itself is not rewritten.
   */
  method AddTags(db: Database.Db, id: int, tagIds: seq<int>) returns (r: Result<Ticket>)
    requires db.Valid()
    modifies db
    ensures db.Valid()
    ensures id !in old(db.tickets) ==> r == Fail(TicketNotFound) && unchanged(db)
    ensures id in old(db.tickets) ==>
      && r == Ok(old(db.tickets[id]))
      && db.links == old(db.links) + (set g | g in tagIds && g in db.tags :: Link(id, g))
    ensures old(db.links) <= db.links
    ensures db.tickets == old(db.tickets) && db.tags == old(db.tags) && db.clock == old(db.clock)
    ensures db.nextTicketId == old(db.nextTicketId) && db.nextTagId == old(db.nextTagId)
  {
    match GetTicketById(db.tickets, id)
    case Fail(e) =>
      r := Fail(e);
    case Ok(t) =>
      var found := SortedIds(set g | g in tagIds && g in db.tags);
      var links := AppendNewTags(db.links, id, found);
      assert links == old(db.links) + (set g | g in tagIds && g in db.tags :: Link(id, g));
      db.links := links;
      r := Ok(t);
  }

  /**
   * `remove_tag`: 404 for an unknown ticket; otherwise the link to the tag is
   * removed when the tag exists and is attached, and nothing changes when not.
   */
  method RemoveTag(db: Database.Db, id: int, tagId: int) returns (r: Result<Unit>)
    requires db.Valid()
    modifies db
    ensures db.Valid()
    ensures id !in old(db.tickets) ==> r == Fail(TicketNotFound) && unchanged(db)
    ensures id in old(db.tickets) ==> r == Ok(Unit) && db.links == old(db.links) - {Link(id, tagId)}
    ensures db.tickets == old(db.tickets) && db.tags == old(db.tags) && db.clock == old(db.clock)
    ensures db.nextTicketId == old(db.nextTicketId) && db.nextTagId == old(db.nextTagId)
  {
    match GetTicketById(db.tickets, id)
    case Fail(e) =>
      r := Fail(e);
    case Ok(_) =>
      if tagId in db.tags && Link(id, tagId) in db.links {
        db.links := db.links - {Link(id, tagId)};
      }
      r := Ok(Unit);
  }

  // ---------------------------------------------------------------------
  // Batch operations
  // ---------------------------------------------------------------------

  const NoTicketIds := HttpError(400, "No ticket IDs provided")

  /** The requested ids that name stored tickets, each once. */
  function ExistingIds(tickets: map<int, Ticket>, ids: seq<int>): (r: set<int>)
    ensures forall k :: k in r <==> k in ids && k in tickets
  {
    set k | k in ids && k in tickets
  }

  /** The row after setting `is_completed` to `c` in a batch committed at `now`. */
  function WithStatus(t: Ticket, c: bool, now: nat): Ticket {
    Stamp(t, t.(isCompleted := c), now)
  }

  /** The loop of `batch_update_status`: sets the status of each ticket in `found`, one at a time. */
  method SetStatusAll(tickets: map<int, Ticket>, found: seq<int>, c: bool, now: nat) returns (r: map<int, Ticket>)
    requires forall k :: k in found ==> k in tickets
    requires NoDuplicates(found)
    ensures r.Keys == tickets.Keys
    ensures forall k :: k in r ==> r[k] == if k in found then WithStatus(tickets[k], c, now) else tickets[k]
  {
    r := tickets;
    var i := 0;
    while i < |found|
      invariant 0 <= i <= |found|
      invariant r.Keys == tickets.Keys
      invariant forall k :: k in r ==> r[k] == if k in found[..i] then WithStatus(tickets[k], c, now) else tickets[k]
    {
      var k := found[i];
      assert k !in found[..i];
      r := r[k := WithStatus(r[k], c, now)];
      assert found[..i + 1] == found[..i] + [k];
      i := i + 1;
    }
    assert found[..i] == found;
  }

  /** The loop of `batch_delete`: deletes each ticket in `found` with its links, one at a time. */
  method DeleteAll(tickets: map<int, Ticket>, links: set<Link>, found: seq<int>)
    returns (tickets': map<int, Ticket>, links': set<Link>)
    ensures tickets' == tickets - (set k | k in found)
    ensures forall l :: l in links' <==> l in links && l.ticketId !in found
  {
    tickets', links' := tickets, links;
    var i := 0;
    while i < |found|
      invariant 0 <= i <= |found|
      invariant tickets' == tickets - (set k | k in found[..i])
      invariant forall l :: l in links' <==> l in links && l.ticketId !in found[..i]
    {
      var k := found[i];
      tickets' := tickets' - {k};
      links' := WithoutTicket(links', k);
      assert found[..i + 1] == found[..i] + [k];
      i := i + 1;
    }
    assert found[..i] == found;
  }

  /**
   * `batch_update_status`: 400 for an empty id list; otherwise every stored
   * ticket named in the list gets status `c`, the others are untouched, tags
   * are untouched, and the count is the number of distinct stored ids named.
   */
  method BatchUpdateStatus(db: Database.Db, ids: seq<int>, c: bool) returns (r: Result<nat>)
    requires db.Valid()
    modifies db
    ensures db.Valid()
    ensures ids == [] ==> r == Fail(NoTicketIds) && unchanged(db)
    ensures ids != [] ==>
      && r == Ok(|ExistingIds(old(db.tickets), ids)|)
      && db.clock == old(db.clock) + 1
      && db.tickets.Keys == old(db.tickets).Keys
      && forall k :: k in db.tickets ==>
           db.tickets[k] == if k in ids then WithStatus(old(db.tickets[k]), c, db.clock) else old(db.tickets[k])
    ensures db.tags == old(db.tags) && db.links == old(db.links)
    ensures db.nextTicketId == old(db.nextTicketId) && db.nextTagId == old(db.nextTagId)
  {
    if ids == [] {
      r := Fail(NoTicketIds);
      return;
    }
    var found := SortedIds(ExistingIds(db.tickets, ids));
    var now := db.Tick();
    var tickets := SetStatusAll(db.tickets, found, c, now);
    forall k | k in tickets
      ensures TicketRowOk(tickets[k]) && tickets[k].updatedAt <= now
    {
      var t := db.tickets[k];
      StampKeepsRowOk(t, t.(isCompleted := c), now, now);
    }
    db.tickets := tickets;
    r := Ok(|found|);
  }

  /**
   * `batch_delete`: 400 for an empty id list; otherwise every stored ticket
   * named in the list is deleted with its links, and the count is the number
   * of distinct stored ids named.
   */
  method BatchDelete(db: Database.Db, ids: seq<int>) returns (r: Result<nat>)
    requires db.Valid()
    modifies db
    ensures db.Valid()
    ensures ids == [] ==> r == Fail(NoTicketIds) && unchanged(db)
    ensures ids != [] ==>
      && r == Ok(|ExistingIds(old(db.tickets), ids)|)
      && db.tickets == old(db.tickets) - ExistingIds(old(db.tickets), ids)
      && db.links == (set l | l in old(db.links) && l.ticketId !in ids)
    ensures db.tags == old(db.tags) && db.clock == old(db.clock)
    ensures db.nextTicketId == old(db.nextTicketId) && db.nextTagId == old(db.nextTagId)
  {
    if ids == [] {
      r := Fail(NoTicketIds);
      return;
    }
    var found := SortedIds(ExistingIds(db.tickets, ids));
    var tickets, links := DeleteAll(db.tickets, db.links, found);
    assert links == (set l | l in old(db.links) && l.ticketId !in ids);
    db.tickets, db.links := tickets, links;
    r := Ok(|found|);
  }
}
