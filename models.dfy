/**
 * The database records: the `tickets` and `tags` tables and the `ticket_tags`
 * association table, with the column limits and defaults they declare.
 * Timestamps are values of an abstract, increasing clock.
 */
module Models {
  import opened Wrappers

  const TitleMaxLength: nat := 200
  const TagNameMaxLength: nat := 50
  const ColorMaxLength: nat := 7

  datatype Ticket = Ticket(
    id: int,
    title: string,
    description: Option<string>,
    isCompleted: bool,
    createdAt: nat,
    updatedAt: nat)

  datatype Tag = Tag(id: int, name: string, color: Option<string>)

  /** One row of `ticket_tags`; `(ticketId, tagId)` is its whole primary key. */
  datatype Link = Link(ticketId: int, tagId: int)

  /** `title String(200) NOT NULL`; a row is never stamped as updated before it was created. */
  predicate TicketRowOk(t: Ticket) {
    |t.title| <= TitleMaxLength && t.createdAt <= t.updatedAt
  }

  /** `name String(50) NOT NULL`, `color String(7) NULL`. */
  predicate TagRowOk(t: Tag) {
    |t.name| <= TagNameMaxLength && (t.color.Some? ==> |t.color.value| <= ColorMaxLength)
  }

  /** A freshly inserted ticket: column defaults applied, both timestamps taken at insert. */
  function NewTicket(id: int, title: string, description: Option<string>, now: nat): (t: Ticket)
    requires |title| <= TitleMaxLength
    ensures TicketRowOk(t)
    ensures !t.isCompleted && t.createdAt == now && t.updatedAt == now
    ensures t.id == id && t.title == title && t.description == description
  {
    Ticket(id, title, description, false, now, now)
  }

  /** Ids of the tags attached to a ticket (`Ticket.tags`). */
  function TagIdsOf(links: set<Link>, ticketId: int): set<int> {
    set l | l in links && l.ticketId == ticketId :: l.tagId
  }

  /** Ids of the tickets carrying a tag (`Tag.tickets`). */
  function TicketIdsOf(links: set<Link>, tagId: int): set<int> {
    set l | l in links && l.tagId == tagId :: l.ticketId
  }

  /** `Tag.tickets` and `Ticket.tags` read the same association rows from both ends. */
  lemma TagsAndTicketsAreInverse(links: set<Link>, ticketId: int, tagId: int)
    ensures tagId in TagIdsOf(links, ticketId) <==> ticketId in TicketIdsOf(links, tagId)
  {
    if tagId in TagIdsOf(links, ticketId) {
      var l :| l in links && l.ticketId == ticketId && l.tagId == tagId;
    }
    if ticketId in TicketIdsOf(links, tagId) {
      var l :| l in links && l.tagId == tagId && l.ticketId == ticketId;
    }
  }

  /** `ondelete='CASCADE'` on `ticket_tags.ticket_id`: deleting a ticket drops exactly its rows. */
  function WithoutTicket(links: set<Link>, ticketId: int): (r: set<Link>)
    ensures r <= links
    ensures forall l :: l in links ==> (l in r <==> l.ticketId != ticketId)
  {
    set l | l in links && l.ticketId != ticketId
  }

  /** `ondelete='CASCADE'` on `ticket_tags.tag_id`: deleting a tag drops exactly its rows. */
  function WithoutTag(links: set<Link>, tagId: int): (r: set<Link>)
    ensures r <= links
    ensures forall l :: l in links ==> (l in r <==> l.tagId != tagId)
  {
    set l | l in links && l.tagId != tagId
  }
}
