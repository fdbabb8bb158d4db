/**
 * The tag service: the listing of every tag with the number of tickets
 * carrying it, ordered by name; lookup by id; and create, update and delete,
 * which keep tag names distinct ignoring case.
 */
module TagService {
  import opened Wrappers
  import opened Models
  import opened Collections
  import Text
  import TagSchemas
  import Database

  // ---------------------------------------------------------------------
  // Listing
  // ---------------------------------------------------------------------

  /**
   * `func.count(ticket_tags.c.ticket_id)` over the outer join, grouped by
   * tag: the number of association rows naming the tag. Those rows differ in
   * their ticket id, so this is the number of tickets carrying the tag.
   */
  function LinkCount(links: set<Link>, tagId: int): nat {
    |TicketIdsOf(links, tagId)|
  }

  /** The outer join keeps tags without tickets, with count 0. */
  lemma UnusedTagCountsZero(links: set<Link>, tagId: int)
    ensures LinkCount(links, tagId) == 0 <==> forall l :: l in links ==> l.tagId != tagId
  {
    if l :| l in links && l.tagId == tagId {
      assert l.ticketId in TicketIdsOf(links, tagId);
    } else {
      assert TicketIdsOf(links, tagId) == {};
    }
  }

  /** One entry of the listing: the tag's id, name and colour as stored, and its count. */
  function Entry(t: Tag, links: set<Link>): TagSchemas.TagWithCount {
    TagSchemas.TagWithCount(t.id, t.name, t.color, LinkCount(links, t.id))
  }

  /** `order_by(Tag.name)`, with names compared by code point. */
  predicate SortedByName(s: seq<TagSchemas.TagWithCount>) {
    forall i, j :: 0 <= i < j < |s| ==> Text.LexLe(s[i].name, s[j].name)
  }

  /** Putting an entry not after the head in front of a sorted listing keeps it sorted. */
  lemma SortedConsByName(e: TagSchemas.TagWithCount, s: seq<TagSchemas.TagWithCount>)
    requires SortedByName(s)
    requires s != [] ==> Text.LexLe(e.name, s[0].name)
    ensures SortedByName([e] + s)
  {
    var r := [e] + s;
    forall i, j | 0 <= i < j < |r| ensures Text.LexLe(r[i].name, r[j].name) {
      if i == 0 && j > 1 {
        Text.LexLeTransitive(e.name, s[0].name, s[j - 1].name);
      }
    }
  }

  /** Inserts `e` before the first entry whose name is not smaller. */
  function InsertByName(e: TagSchemas.TagWithCount, s: seq<TagSchemas.TagWithCount>): (r: seq<TagSchemas.TagWithCount>)
    requires SortedByName(s)
    ensures SortedByName(r)
    ensures multiset(r) == multiset(s) + multiset{e}
    ensures forall i :: 0 <= i < |r| ==> r[i] == e || r[i] in s
  {
    if s == [] || Text.LexLe(e.name, s[0].name) then
      SortedConsByName(e, s);
      [e] + s
    else
      var rest := InsertByName(e, s[1..]);
      assert s == [s[0]] + s[1..];
      Text.LexLeTotal(e.name, s[0].name);
      SortedConsByName(s[0], rest);
      [s[0]] + rest
  }

  /** Orders entries by name, keeping every entry. */
  function SortByName(s: seq<TagSchemas.TagWithCount>): (r: seq<TagSchemas.TagWithCount>)
    ensures SortedByName(r)
    ensures multiset(r) == multiset(s)
  {
    if s == [] then []
    else
      assert s == [s[0]] + s[1..];
      InsertByName(s[0], SortByName(s[1..]))
  }

  /** `e` is the listing entry of a stored tag. */
  predicate IsEntryOf(e: TagSchemas.TagWithCount, tags: map<int, Tag>, links: set<Link>) {
    e.id in tags && e == Entry(tags[e.id], links)
  }

  /** The entries of all tags in primary-key order, before sorting. */
  function Entries(tags: map<int, Tag>, links: set<Link>): (r: seq<TagSchemas.TagWithCount>)
    requires Database.TagKeysAreIds(tags)
    ensures |r| == |tags|
    ensures forall i :: 0 <= i < |r| ==> IsEntryOf(r[i], tags, links)
  {
    var ids := SortedIds(tags.Keys);
    assert |tags.Keys| == |tags|;
    seq(|ids|, i requires 0 <= i < |ids| => Entry(tags[ids[i]], links))
  }

  /** Every tag has its entry. */
  lemma EntriesCoverTags(tags: map<int, Tag>, links: set<Link>)
    requires Database.TagKeysAreIds(tags)
    ensures forall id :: id in tags ==> Entry(tags[id], links) in Entries(tags, links)
  {
    var ids := SortedIds(tags.Keys);
    var r := Entries(tags, links);
    forall id | id in tags ensures Entry(tags[id], links) in r {
      var i :| 0 <= i < |ids| && ids[i] == id;
      assert r[i] == Entry(tags[id], links);
    }
  }

  /** No entry occurs twice: the entries follow the ids in ascending order. */
  lemma EntriesDistinct(tags: map<int, Tag>, links: set<Link>)
    requires Database.TagKeysAreIds(tags)
    ensures NoDuplicates(Entries(tags, links))
  {
    var ids := SortedIds(tags.Keys);
    var r := Entries(tags, links);
    forall i, j | 0 <= i < j < |r| ensures r[i] != r[j] {
      assert r[i].id == ids[i] && r[j].id == ids[j];
    }
  }

  /** Entries of stored tags with the same id are the same entry. */
  lemma EntryDeterminedById(tags: map<int, Tag>, links: set<Link>, s: seq<TagSchemas.TagWithCount>)
    requires forall i :: 0 <= i < |s| ==> IsEntryOf(s[i], tags, links)
    requires NoDuplicates(s)
    ensures forall i, j :: 0 <= i < j < |s| ==> s[i].id != s[j].id
  {
    forall i, j | 0 <= i < j < |s| ensures s[i].id != s[j].id {
      assert IsEntryOf(s[i], tags, links) && IsEntryOf(s[j], tags, links);
    }
  }

  /** A reordering of the entries still holds one entry per tag and nothing else. */
  lemma ReorderedEntries(tags: map<int, Tag>, links: set<Link>, entries: seq<TagSchemas.TagWithCount>,
                         r: seq<TagSchemas.TagWithCount>)
    requires |entries| == |tags| && NoDuplicates(entries)
    requires forall id :: id in tags ==> Entry(tags[id], links) in entries
    requires forall i :: 0 <= i < |entries| ==> IsEntryOf(entries[i], tags, links)
    requires multiset(r) == multiset(entries)
    ensures |r| == |tags|
    ensures forall id :: id in tags ==> Entry(tags[id], links) in r
    ensures forall i :: 0 <= i < |r| ==> IsEntryOf(r[i], tags, links)
    ensures forall i, j :: 0 <= i < j < |r| ==> r[i].id != r[j].id
  {
    PermutationFacts(entries, r);
    forall i | 0 <= i < |r| ensures IsEntryOf(r[i], tags, links) {
      assert r[i] in entries;
    }
    EntryDeterminedById(tags, links, r);
  }

  /**
   * `get_tags_with_counts`: exactly one entry per tag, carrying the tag's
   * fields unchanged and the number of its association rows, ordered by name.
   */
  function TagsWithCounts(tags: map<int, Tag>, links: set<Link>): (r: seq<TagSchemas.TagWithCount>)
    requires Database.TagKeysAreIds(tags)
    ensures |r| == |tags|
    ensures forall id :: id in tags ==> Entry(tags[id], links) in r
    ensures forall i :: 0 <= i < |r| ==> IsEntryOf(r[i], tags, links)
    ensures forall i, j :: 0 <= i < j < |r| ==> r[i].id != r[j].id
    ensures SortedByName(r)
  {
    var entries := Entries(tags, links);
    EntriesCoverTags(tags, links);
    EntriesDistinct(tags, links);
    var r := SortByName(entries);
    ReorderedEntries(tags, links, entries, r);
    r
  }

  // ---------------------------------------------------------------------
  // Single-tag operations
  // ---------------------------------------------------------------------

  const TagNotFound := HttpError(404, "Tag not found")

  /** The 400 answer to a name that is already in use. */
  function AlreadyExists(name: string): HttpError {
    HttpError(400, "Tag '" + name + "' already exists")
  }

  /** `get_tag_by_id`: the stored row, or 404 when no row has that id. */
  function GetTagById(tags: map<int, Tag>, id: int): (r: Result<Tag>)
    ensures r.Ok? <==> id in tags
    ensures r.Ok? ==> r.value == tags[id]
    ensures r.Fail? ==> r.error == TagNotFound
  {
    if id in tags then Ok(tags[id]) else Fail(TagNotFound)
  }

  /** Some stored tag other than `except` has `name` once both are lower-cased. */
  predicate NameTaken(tags: map<int, Tag>, name: string, except: Option<int>) {
    exists id :: id in tags && Some(id) != except && Text.Lower(tags[id].name) == Text.Lower(name)
  }

  /**
   * The update check skips the tag being renamed, so a tag can always be
   * renamed to a spelling of its own name that differs only in case.
   */
  lemma SelfRenameAllowed(tags: map<int, Tag>, id: int, name: string)
    requires Database.NamesDistinctIgnoringCase(tags)
    requires id in tags && Text.Lower(name) == Text.Lower(tags[id].name)
    ensures !NameTaken(tags, name, Some(id))
  {
  }

  /** The create check and the update check agree on every tag except the one being updated. */
  lemma NameTakenExcept(tags: map<int, Tag>, name: string, id: int)
    ensures NameTaken(tags, name, None) <==>
      NameTaken(tags, name, Some(id)) || (id in tags && Text.Lower(tags[id].name) == Text.Lower(name))
  {
    if NameTaken(tags, name, None) {
      var k :| k in tags && Text.Lower(tags[k].name) == Text.Lower(name);
      if k != id {
        assert Some(k) != Some(id);
      }
    }
  }

  /** The columns of `t` after assigning every field of `u` that is not `None`. */
  function ApplyTagUpdate(t: Tag, u: TagSchemas.TagUpdate): (r: Tag)
    ensures r.id == t.id
    ensures r.name == (if u.name.Some? then u.name.value else t.name)
    ensures r.color == (if u.color.Some? then u.color else t.color)
  {
    t.(name := u.name.GetOr(t.name), color := if u.color.Some? then u.color else t.color)
  }

  /** Adding a tag whose name is not taken keeps names distinct ignoring case. */
  lemma InsertKeepsNamesDistinct(tags: map<int, Tag>, t: Tag)
    requires Database.NamesDistinctIgnoringCase(tags)
    requires !NameTaken(tags, t.name, Some(t.id))
    ensures Database.NamesDistinctIgnoringCase(tags[t.id := t])
  {
    var m := tags[t.id := t];
    forall a, b | a in m && b in m && a != b ensures Text.Lower(m[a].name) != Text.Lower(m[b].name) {
      if a == t.id {
        assert Some(b) != Some(t.id);
      } else if b == t.id {
        assert Some(a) != Some(t.id);
      }
    }
  }

  /**
   * `create_tag`: 400 when a stored name equals the new one ignoring case,
   * with nothing changed; otherwise inserts the tag under the next id.
   */
  method CreateTag(db: Database.Db, req: TagSchemas.TagCreate) returns (r: Result<Tag>)
    requires db.Valid() && TagSchemas.TagCreateOk(req)
    modifies db
    ensures db.Valid()
    ensures NameTaken(old(db.tags), req.name, None) ==> r == Fail(AlreadyExists(req.name)) && unchanged(db)
    ensures !NameTaken(old(db.tags), req.name, None) ==>
      && r == Ok(Tag(old(db.nextTagId), req.name, req.color))
      && r.value.id !in old(db.tags)
      && db.tags == old(db.tags)[r.value.id := r.value]
      && db.nextTagId == old(db.nextTagId) + 1
    ensures db.tickets == old(db.tickets) && db.links == old(db.links) && db.clock == old(db.clock)
    ensures db.nextTicketId == old(db.nextTicketId)
  {
    if NameTaken(db.tags, req.name, None) {
      r := Fail(AlreadyExists(req.name));
      return;
    }
    var t := Tag(db.nextTagId, req.name, req.color);
    if req.color.Some? {
      TagSchemas.HexColorFitsColumn(req.color.value);
    }
    NameTakenExcept(db.tags, req.name, t.id);
    InsertKeepsNamesDistinct(db.tags, t);
    db.tags := db.tags[t.id := t];
    db.nextTagId := db.nextTagId + 1;
    r := Ok(t);
  }

  /**
   * `update_tag`: 404 for an unknown id; 400 when the new name equals the
   * name of another tag ignoring case, with nothing changed; otherwise
   * assigns the given fields of that tag only.
   */
  method UpdateTag(db: Database.Db, id: int, u: TagSchemas.TagUpdate) returns (r: Result<Tag>)
    requires db.Valid() && TagSchemas.TagUpdateOk(u)
    modifies db
    ensures db.Valid()
    ensures id !in old(db.tags) ==> r == Fail(TagNotFound) && unchanged(db)
    ensures id in old(db.tags) && u.name.Some? && NameTaken(old(db.tags), u.name.value, Some(id)) ==>
      r == Fail(AlreadyExists(u.name.value)) && unchanged(db)
    ensures id in old(db.tags) && !(u.name.Some? && NameTaken(old(db.tags), u.name.value, Some(id))) ==>
      && r == Ok(ApplyTagUpdate(old(db.tags[id]), u))
      && db.tags == old(db.tags)[id := r.value]
    ensures db.tickets == old(db.tickets) && db.links == old(db.links) && db.clock == old(db.clock)
    ensures db.nextTicketId == old(db.nextTicketId) && db.nextTagId == old(db.nextTagId)
  {
    match GetTagById(db.tags, id)
    case Fail(e) =>
      r := Fail(e);
    case Ok(t) =>
      if u.name.Some? && NameTaken(db.tags, u.name.value, Some(id)) {
        r := Fail(AlreadyExists(u.name.value));
        return;
      }
      var written := ApplyTagUpdate(t, u);
      if u.color.Some? {
        TagSchemas.HexColorFitsColumn(u.color.value);
      }
      if u.name.None? {
        assert Text.Lower(written.name) == Text.Lower(t.name);
        forall k | k in db.tags && k != id ensures Text.Lower(db.tags[k].name) != Text.Lower(written.name) {
        }
      }
      InsertKeepsNamesDistinct(db.tags, written);
      db.tags := db.tags[id := written];
      r := Ok(written);
  }

  /** `delete_tag`: 404 for an unknown id, otherwise removes the tag and, by cascade, its links. */
  method DeleteTag(db: Database.Db, id: int) returns (r: Result<Unit>)
    requires db.Valid()
    modifies db
    ensures db.Valid()
    ensures id !in old(db.tags) ==> r == Fail(TagNotFound) && unchanged(db)
    ensures id in old(db.tags) ==>
      && r == Ok(Unit)
      && db.tags == old(db.tags) - {id}
      && db.links == WithoutTag(old(db.links), id)
    ensures db.tickets == old(db.tickets) && db.clock == old(db.clock)
    ensures db.nextTicketId == old(db.nextTicketId) && db.nextTagId == old(db.nextTagId)
  {
    match GetTagById(db.tags, id)
    case Fail(e) =>
      r := Fail(e);
    case Ok(_) =>
      db.tags := db.tags - {id};
      db.links := WithoutTag(db.links, id);
      r := Ok(Unit);
  }
}
