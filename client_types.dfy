/**
 * The client's view of the API's records (`client/src/types`): ids are
 * JavaScript numbers, optional members are `Option`s, and an absent
 * optional member of a request is `None`.
 */
module ClientTypes {
  import opened Wrappers

  /** A tag as it is attached to a ticket. */
  datatype Tag = Tag(id: int, name: string, color: Option<string>)

  /** An entry of the tag listing: a tag and the number of tickets that carry it. */
  datatype TagWithCount = TagWithCount(id: int, name: string, color: Option<string>, ticketCount: int)

  /** A ticket as the listing returns it; the timestamps are the ISO strings of the JSON body. */
  datatype Ticket = Ticket(id: int, title: string, description: Option<string>, isCompleted: bool,
                           createdAt: string, updatedAt: string, tags: seq<Tag>)

  datatype CreateTicketRequest = CreateTicketRequest(title: string, description: Option<string>, tagIds: Option<seq<int>>)

  datatype CreateTagRequest = CreateTagRequest(name: string, color: Option<string>)
}
