/**
 * The store the services work on: the `tickets` and `tags` tables keyed by
 * primary key, the `ticket_tags` association rows, the id sequences and a
 * clock that stands for `now()`. `Valid` collects what the table
 * declarations and the services together keep true of every committed state.
 */
module Database {
  import opened Wrappers
  import opened Models
  import Text

  /** `id` is the primary key of `tickets`: each row is stored under its own id. */
  predicate TicketKeysAreIds(tickets: map<int, Ticket>) {
    forall id :: id in tickets ==> tickets[id].id == id
  }

  /** `id` is the primary key of `tags`. */
  predicate TagKeysAreIds(tags: map<int, Tag>) {
    forall id :: id in tags ==> tags[id].id == id
  }

  /**
   * No two tags have names that are equal once lower-cased. This is stronger
   * than the case-sensitive `unique=True` of the column; the services keep it.
   */
  predicate NamesDistinctIgnoringCase(tags: map<int, Tag>) {
    forall a, b :: a in tags && b in tags && a != b ==> Text.Lower(tags[a].name) != Text.Lower(tags[b].name)
  }

  /** The foreign keys of `ticket_tags`: every association row names an existing ticket and tag. */
  predicate LinksReferToRows(links: set<Link>, tickets: map<int, Ticket>, tags: map<int, Tag>) {
    forall l :: l in links ==> l.ticketId in tickets && l.tagId in tags
  }

  class Db {
    var tickets: map<int, Ticket>
    var tags: map<int, Tag>
    var links: set<Link>
    /** The last timestamp handed out; every stored timestamp is at most this. */
    var clock: nat
    var nextTicketId: int
    var nextTagId: int

    ghost predicate Valid()
      reads this
    {
      && TicketKeysAreIds(tickets)
      && TagKeysAreIds(tags)
      && (forall id :: id in tickets ==> TicketRowOk(tickets[id]) && tickets[id].updatedAt <= clock)
      && 1 <= nextTicketId && 1 <= nextTagId
      && (forall id :: id in tickets ==> 0 < id < nextTicketId)
      && (forall id :: id in tags ==> TagRowOk(tags[id]) && 0 < id < nextTagId)
      && LinksReferToRows(links, tickets, tags)
      && NamesDistinctIgnoringCase(tags)
    }

    /** An empty database whose id sequences start at 1. */
    constructor ()
      ensures Valid()
      ensures tickets == map[] && tags == map[] && links == {}
      ensures clock == 0 && nextTicketId == 1 && nextTagId == 1
    {
      tickets := map[];
      tags := map[];
      links := {};
      clock := 0;
      nextTicketId := 1;
      nextTagId := 1;
    }

    /** Takes the next timestamp: later than every one handed out before. */
    method Tick() returns (now: nat)
      modifies this
      ensures now == clock == old(clock) + 1
      ensures tickets == old(tickets) && tags == old(tags) && links == old(links)
      ensures nextTicketId == old(nextTicketId) && nextTagId == old(nextTagId)
      ensures old(Valid()) ==> Valid()
    {
      clock := clock + 1;
      now := clock;
    }
  }
}
