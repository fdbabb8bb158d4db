# Ticket and tag tracker: a Dafny model of its server and client logic

The tracker is a FastAPI + SQLAlchemy server with a React client. Tickets
have a title, an optional description, a completion flag and timestamps.
Tags have a name and an optional hex colour. Tickets and tags are linked by
the `ticket_tags` association table.

This project models the two parts of the system that carry logic.

**Server.** The store is modelled as a class `Database.Db`. It holds:
- the `tickets` and `tags` tables as maps keyed by primary key;
- the association rows as a set of `Link(ticketId, tagId)` pairs;
- the id sequences;
- an abstract clock that stands for `now()`.

The ticket and tag services are methods on that store. Each states its whole
new state and keeps `Db.Valid()`, the invariant the table declarations and
the services maintain together. The ticket listing and the tag listing with
counts are functions of the table contents. They are proved against
membership, uniqueness and ordering specifications. The request schemas
become validators returning `Result`. The router's tag-filter parsing and
batch responses become functions.

**Client.** The pieces modelled are:
- the axios response interceptor, which classifies an error into a title,
  a message and a toast;
- the two ticket forms, their validators and submit normalisation;
- the tag-creation dialog;
- the tag filter selector and the tag picker;
- the selection flags of the ticket table.

Component state (`useState`) becomes a class whose handler methods change
its fields. Derived values (`filteredTags`, `availableTags`, `allSelected`,
and so on) become functions.

Strings are `seq<char>`. Lower-casing covers ASCII letters. Trimming removes
a fixed set of white-space characters. Names compare by code point.

Modules by file:
- `wrappers.dfy`: `Option`, `Result`, `HttpError` and the `Field` shape of a JSON member.
- `text.dfy`: trim, lower-casing, substring, decimals, split/join, code-point order.
- `collections.dfy`: ascending ids of a set, order-preserving filter, duplicate-freedom.
- `models.dfy`: the ORM records and the cascades.
- `database.dfy`: the store and its invariant.
- `ticket_schemas.dfy`, `tag_schemas.dfy`: the request schemas.
- `ticket_service.dfy`, `tag_service.dfy`: the services.
- `ticket_router.dfy`: the ticket routes.
- `client_types.dfy`: the client's types.
- `api_errors.dfy`: the interceptor.
- `ticket_form.dfy`, `enhanced_ticket_form.dfy`, `tag_create_dialog.dfy`, `tag_filter_selector.dfy`, `tag_selector.dfy`, `ticket_table.dfy`: the client components.

## Model

| member | source | states |
|---|---|---|
| Models.NewTicket | server/app/models/ticket.py:19-24 | a new row has `is_completed` false and both timestamps equal to the insert time, carries the given id, title and description, and satisfies the column rules |
| Models.TagsAndTicketsAreInverse | server/app/models/tag.py:16 | `Tag.tickets` and `Ticket.tags` read the same association rows: a tag is on a ticket iff the ticket is among the tag's tickets |
| Models.WithoutTicket | server/app/models/ticket.py:10 | the ticket-side cascade keeps exactly the association rows of other tickets |
| Models.WithoutTag | server/app/models/ticket.py:11 | the tag-side cascade keeps exactly the association rows of other tags |
| Database.Db.constructor | server/app/models/ticket.py:7-27 | an empty store satisfies every table invariant, and id sequences start at 1 |
| Database.Db.Tick | server/app/models/ticket.py:23-24 | each `now()` is later than every earlier one; no table changes and the invariant is kept |
| TicketSchemas.RequiredText | server/app/schemas/ticket.py:15 | a required string field is accepted iff present and within `max_length`, unchanged; otherwise 422 |
| TicketSchemas.ParseTicketCreate | server/app/schemas/ticket.py:14-20 | a `TicketCreate` body is accepted iff the title is present and at most 200 characters; description optional; `tagIds` defaults to `[]` when absent; failures are 422 |
| TicketSchemas.ParseTicketUpdate | server/app/schemas/ticket.py:23-26 | a `TicketUpdate` body is accepted iff a present title is at most 200 characters; every absent or null field becomes `None` |
| TicketSchemas.ParseAddTagsRequest | server/app/schemas/ticket.py:47-49 | `tagIds` is required; the accepted request carries it unchanged |
| TicketSchemas.TitleLengthBoundary | server/app/schemas/ticket.py:15 | a 200-character title is accepted, a 201-character one and a missing one are rejected |
| TicketSchemas.TicketCreateDefaults | server/app/schemas/ticket.py:16-20 | a body with only a title gets no description and an empty tag list |
| TagSchemas.HexColorFitsColumn | server/app/schemas/tag.py:14 | every colour the pattern accepts fits the `String(7)` column |
| TagSchemas.OptionalColor | server/app/schemas/tag.py:14 | an optional colour is accepted iff absent, null or matching `^#[0-9A-Fa-f]{6}$` |
| TagSchemas.ParseTagCreate | server/app/schemas/tag.py:12-14 | a `TagCreate` body is accepted iff the name is present and at most 50 characters and a present colour matches the pattern |
| TagSchemas.ParseTagUpdate | server/app/schemas/tag.py:17-19 | a `TagUpdate` body is accepted iff a present name is at most 50 characters and a present colour matches the pattern |
| TagSchemas.ColorPatternExamples | server/app/schemas/tag.py:14 | both cases of hex digits pass; three-digit shorthand, colour names, non-hex digits and a misplaced `#` fail |
| TicketService.InsertByUpdated | server/app/services/ticket_service.py:39 | inserting into a list sorted by `updated_at` descending keeps it sorted and adds exactly that row |
| TicketService.SortByUpdatedDesc | server/app/services/ticket_service.py:39 | the result is sorted by `updated_at` descending and is a permutation of its input |
| TicketService.RowsAtCovers | server/app/services/ticket_service.py:17 | reading the rows under every key lists exactly the stored rows |
| TicketService.RowsAtDistinct | server/app/services/ticket_service.py:17 | rows read under strictly increasing keys are distinct |
| TicketService.Rows | server/app/services/ticket_service.py:17 | the scan lists every stored row exactly once and nothing else |
| TicketService.ListTickets | server/app/services/ticket_service.py:10-39 | a ticket is listed iff stored and passing the status, search and tag filters; no ticket appears twice; the list is sorted by `updated_at` descending |
| TicketService.UnknownStatusFiltersNothing | server/app/services/ticket_service.py:19-23 | any status other than `open` and `completed` lists the same as `all` |
| TicketService.StatusPartition | server/app/services/ticket_service.py:19-23 | `open` and `completed` split the `all` listing: every listed ticket is in exactly one of them |
| TicketService.SearchKeepsIgnoresCase | server/app/services/ticket_service.py:26-32 | whether a ticket matches the search does not depend on the case of the search text |
| TicketService.SearchIgnoresCase | server/app/services/ticket_service.py:26-32 | the listing does not depend on the case of the search text |
| TicketService.EmptyFiltersAreAbsent | server/app/services/ticket_service.py:26-36 | an empty search and an empty tag list list the same as no search and no tag filter |
| TicketService.EmptyTagListIsAbsent | server/app/services/ticket_service.py:35-36 | an empty tag list lists the same as no tag filter |
| TicketService.GetTicketById | server/app/services/ticket_service.py:42-47 | the stored row iff the id is stored, else 404 "Ticket not found" |
| TicketService.ApplyUpdateSetsOnlyGivenFields | server/app/services/ticket_service.py:72-77 | an update sets every field it carries and leaves every `None` field, the key and the creation time unchanged |
| TicketService.ApplyUpdateIdempotent | server/app/services/ticket_service.py:72-77 | applying an update twice equals applying it once; an all-`None` update changes nothing |
| TicketService.Stamp | server/app/models/ticket.py:24 | the written row differs from the computed one only in `updated_at`, which is refreshed unless nothing changed; `created_at` is kept |
| TicketService.Toggled | server/app/services/ticket_service.py:96 | toggling negates `is_completed` and changes nothing else |
| TicketService.ToggleTwice | server/app/services/ticket_service.py:92-99 | toggling twice restores every column except the update time |
| TicketService.StampKeepsRowOk | server/app/models/ticket.py:20-24 | a written row still satisfies the column rules and is not later than the clock |
| TicketService.CreateTicket | server/app/services/ticket_service.py:50-65 | inserts a row under the next id with the defaults and the insert time, linked to exactly the requested tags that exist; nothing else changes; the invariant is kept |
| TicketService.UpdateTicket | server/app/services/ticket_service.py:68-81 | 404 with nothing changed for an unknown id; otherwise only that row is rewritten, with the given fields |
| TicketService.ToggleComplete | server/app/services/ticket_service.py:92-99 | 404 with nothing changed for an unknown id; otherwise only that row's completion flag is negated |
| TicketService.DeleteTicket | server/app/services/ticket_service.py:84-89 | 404 with nothing changed for an unknown id; otherwise the row and, by cascade, exactly its links are removed |
| TicketService.AppendNewTags | server/app/services/ticket_service.py:108-112 | the loop leaves the old links and adds a link to every found tag, and nothing else |
| TicketService.AddTags | server/app/services/ticket_service.py:102-116 | 404 with nothing changed for an unknown ticket; otherwise existing links stay and exactly the requested existing tags are attached, with no duplicates; the ticket row is unchanged |
| TicketService.RemoveTag | server/app/services/ticket_service.py:119-126 | 404 with nothing changed for an unknown ticket; otherwise exactly that link is removed if present, and nothing changes if not |
| TicketService.ExistingIds | server/app/routers/tickets.py:103-107 | the ids a batch affects are exactly the requested ids that name stored tickets |
| TicketService.SetStatusAll | server/app/routers/tickets.py:103-107 | the batch loop sets the status of exactly the found tickets and keeps the key set |
| TicketService.DeleteAll | server/app/routers/tickets.py:130 | the batch-delete loop removes exactly the found tickets and exactly their links |
| TicketService.BatchUpdateStatus | server/app/routers/tickets.py:103-107 | 400 for an empty list with nothing changed; otherwise exactly the named stored tickets get the status, tags are untouched, and the count is the number of distinct stored ids named |
| TicketService.BatchDelete | server/app/routers/tickets.py:130 | 400 for an empty list with nothing changed; otherwise exactly the named stored tickets and their links are removed, and the count is the number of distinct stored ids named |
| TagService.UnusedTagCountsZero | server/app/services/tag_service.py:14-16 | a tag's count is 0 iff no association row names it (outer join) |
| TagService.InsertByName | server/app/services/tag_service.py:17 | inserting into a name-sorted listing keeps it sorted and adds exactly that entry |
| TagService.SortByName | server/app/services/tag_service.py:17 | the result is sorted by name and is a permutation of its input |
| TagService.Entries | server/app/services/tag_service.py:19-27 | one entry per stored tag, each carrying that tag's id, name and colour and its count |
| TagService.EntriesCoverTags | server/app/services/tag_service.py:15-17 | every stored tag has its entry in the grouped result |
| TagService.EntriesDistinct | server/app/services/tag_service.py:17 | grouping by `Tag.id` gives no entry twice |
| TagService.ReorderedEntries | server/app/services/tag_service.py:17 | reordering the grouped entries keeps one entry per tag and nothing else |
| TagService.TagsWithCounts | server/app/services/tag_service.py:10-27 | exactly one entry per tag, with its fields unchanged and its association count, and no id twice, ordered by name |
| TagService.GetTagById | server/app/services/tag_service.py:30-35 | the stored tag iff the id is stored, else 404 "Tag not found" |
| TagService.SelfRenameAllowed | server/app/services/tag_service.py:64-67 | renaming a tag to a different-case spelling of its own name is never a conflict |
| TagService.NameTakenExcept | server/app/services/tag_service.py:64-67 | the update check and the create check differ exactly by the tag being updated |
| TagService.ApplyTagUpdate | server/app/services/tag_service.py:75-78 | exactly the non-`None` fields are assigned; the id is kept |
| TagService.InsertKeepsNamesDistinct | server/app/services/tag_service.py:41-55 | writing a tag whose name no other tag has, ignoring case, keeps all names distinct ignoring case |
| TagService.CreateTag | server/app/services/tag_service.py:38-55 | 400 "Tag '…' already exists" with nothing changed iff a stored name equals the new one ignoring case; otherwise inserts under the next id; names stay distinct ignoring case |
| TagService.UpdateTag | server/app/services/tag_service.py:58-82 | 404 for an unknown id; 400 with nothing changed when another tag has the new name ignoring case; otherwise only that tag's given fields change |
| TagService.DeleteTag | server/app/services/tag_service.py:85-90 | 404 with nothing changed for an unknown id; otherwise the tag and, by cascade, exactly its links are removed |
| TicketRouter.NamedTagIds | server/app/routers/tickets.py:29-36 | a name selects exactly the ids of the stored tags with that name ignoring case, and none when no tag has it |
| TicketRouter.PieceIdsSelects | server/app/routers/tickets.py:29-36 | an empty piece selects nothing; a non-empty decimal piece selects exactly its id; any other non-empty piece selects exactly the stored tags with that name, ignoring case |
| TicketRouter.PiecesIdsMembership | server/app/routers/tickets.py:29-36 | an id is selected iff some trimmed piece selects it |
| TicketRouter.PiecesIdsAt | server/app/routers/tickets.py:29-36 | each piece's ids come after those of the pieces before it and before those of the pieces after it |
| TicketRouter.ParseTagFilter | server/app/routers/tickets.py:29-36 | an id is selected iff some trimmed comma-separated piece selects it; for every piece, the result is the ids of the pieces before it, then that piece's ids, then the ids of the pieces after it |
| TicketRouter.SinglePiece | server/app/routers/tickets.py:29-36 | a parameter without commas or surrounding blanks is a single piece |
| TicketRouter.TagFilterOfId | server/app/routers/tickets.py:29-36 | a single decimal id parses to exactly that id |
| TicketRouter.TagFilterOf | server/app/routers/tickets.py:34-36 | a tag filter is passed iff the `tags` parameter is a non-empty string |
| TicketRouter.GetTickets | server/app/routers/tickets.py:20-39 | a ticket is listed iff it is stored and passes the search, the tag filter parsed from `tags` and the status (`all` when absent); no ticket twice; sorted by `updated_at` descending |
| TicketRouter.EmptyTagsParamIsAbsent | server/app/routers/tickets.py:35-36 | `tags=` (empty) lists the same as no `tags` parameter |
| TicketRouter.StatusDefaultsToAll | server/app/routers/tickets.py:24 | no `status` parameter lists the same as `status=all` |
| TicketRouter.UnknownTagNamesFilterNothing | server/app/routers/tickets.py:34-38 | a `tags` value naming no stored tag and holding no number lists the same as no `tags` parameter |
| TicketRouter.BatchStatusResponse | server/app/routers/tickets.py:103-114 | success with the service's count and a message naming it and the new status; a service failure passes through |
| TicketRouter.BatchDeleteResponse | server/app/routers/tickets.py:130-136 | success with the service's count and a message naming it; a service failure passes through |
| Text.Trim | client/src/components/tickets/TicketForm.tsx:29 | the result is the input with some leading and some trailing white-space characters dropped and nothing else; it neither starts nor ends with white space, and is empty iff the input is all white space |
| Text.TrimIdempotent | client/src/components/tickets/TicketForm.tsx:31-33 | trimming twice equals trimming once |
| Text.DecimalRoundTrip | server/app/routers/tickets.py:113 | the decimal rendering of a count parses back to the count |
| ApiErrors.LocText | client/src/services/api.ts:33 | the location text is the joined path when that is non-empty, and `Field` when the path is absent or joins to the empty string |
| ApiErrors.BodyMessage | client/src/services/api.ts:27-40 | the body message is a string `detail`, else the rendered validation list, else `message`, else `error`, else the default |
| ApiErrors.MessageFromBody | client/src/services/api.ts:27-40 | the handler's message extraction computes the body message |
| ApiErrors.TitleForStatus | client/src/services/api.ts:43-79 | the `switch` sets the status title, and replaces the message exactly for statuses with a fixed one |
| ApiErrors.HandleResponseError | client/src/services/api.ts:17-106 | the handler produces the classification of the error; a toast is shown iff `skipErrorToast` is falsy, carries the message, and has the title as description unless the title is `Error`; the error is rejected unchanged |
| ApiErrors.StatusTitleIsNotDefault | client/src/services/api.ts:43-79 | no status gets the generic title `Error` |
| ApiErrors.DefaultTitleExactlyForOtherFailures | client/src/services/api.ts:82-95 | the generic title appears iff there is no response, no request and no timeout code, and then the message is the default |
| ApiErrors.FixedStatusesIgnoreBody | client/src/services/api.ts:47-75 | for 401, 403, 404, 429, 500 and 503 the message is the fixed text whatever the body says |
| ApiErrors.TitledStatusesKeepBodyMessage | client/src/services/api.ts:44-64 | 400, 409 and 422 get a title but keep the body's message |
| ApiErrors.OtherStatusesNameTheCode | client/src/services/api.ts:77-78 | any other status is titled `Error <status>` and keeps the body's message |
| ApiErrors.StatusTitleShape | client/src/services/api.ts:43-79 | a status title starts with `E` iff the status has no case of its own |
| ApiErrors.StatusTitleInjective | client/src/services/api.ts:43-79 | different statuses get different titles |
| ApiErrors.NetworkErrorBeforeTimeout | client/src/services/api.ts:82-91 | without a response, a request that went out is a network error whatever the code |
| ApiErrors.TimeoutExactlyWithoutRequest | client/src/services/api.ts:82-91 | the timeout title appears iff there is no response, no request and the code is `ECONNABORTED` |
| ApiErrors.DetailShadowsMessageAndError | client/src/services/api.ts:27-40 | a truthy `detail` alone decides the message |
| ApiErrors.EmptyValidationListGivesEmptyMessage | client/src/services/api.ts:30-34 | an empty validation list is truthy and gives the empty message |
| ApiErrors.ValidationMessageSnoc | client/src/services/api.ts:32-34 | a further validation entry is appended after `", "` |
| ApiErrors.JoinSnoc | client/src/services/api.ts:32-34 | joining one more part appends the separator and the part |
| ApiErrors.ValidationMessageOfOneEntry | client/src/services/api.ts:32-34 | a body-field entry renders as `body`, the separator, the field, `: ` and the message |
| TicketForm.Payload | client/src/components/tickets/TicketForm.tsx:31-34 | the request's title is the trimmed title; its description is absent iff the description is blank, else the trimmed, non-empty text |
| TicketForm.PayloadIdempotent | client/src/components/tickets/TicketForm.tsx:31-34 | submitting a submitted request's fields again yields the same request |
| TicketForm.Submitted | client/src/components/tickets/TicketForm.tsx:27-35 | a request is emitted iff the trimmed title is non-empty, and then it is the payload with a non-empty title |
| TicketForm.EnabledExactlyWhenSubmitEmits | client/src/components/tickets/TicketForm.tsx:87 | while not submitting, the button is enabled iff a submit would emit |
| TicketForm.TicketFormState.constructor | client/src/components/tickets/TicketForm.tsx:24-25 | the fields start from the initial values, else `''` |
| TicketForm.TicketFormState.SetTitle | client/src/components/tickets/TicketForm.tsx:46 | sets the title only |
| TicketForm.TicketFormState.SetDescription | client/src/components/tickets/TicketForm.tsx:66 | sets the description only |
| TicketForm.TicketFormState.HandleSubmit | client/src/components/tickets/TicketForm.tsx:27-35 | emits what `Submitted` gives for the current fields, and a non-empty trimmed title when it emits |
| EnhancedTicketForm.ValidateTitleCases | client/src/components/tickets/EnhancedTicketForm.tsx:47-58 | "required" iff blank; "too short" iff the trimmed length is 1 or 2; "too long" iff the trimmed length is at least 3 and the raw length over 200; no error iff trimmed length ≥ 3 and raw length ≤ 200 |
| EnhancedTicketForm.ValidateDescription | client/src/components/tickets/EnhancedTicketForm.tsx:60-65 | an error iff the description is longer than 2000 characters |
| EnhancedTicketForm.ValidFormExactly | client/src/components/tickets/EnhancedTicketForm.tsx:67-75 | `validateForm` passes iff the three length bounds hold |
| EnhancedTicketForm.Submitted | client/src/components/tickets/EnhancedTicketForm.tsx:117-131 | a request is emitted iff the form validates, and then it is the normalised payload with a title of 3 to 200 characters |
| EnhancedTicketForm.SubmittedIsAccepted | client/src/components/tickets/EnhancedTicketForm.tsx:127-130 | an emitted request passes the server's `TicketCreate` check and equals what the plain form would emit |
| EnhancedTicketForm.EnhancedForm.constructor | client/src/components/tickets/EnhancedTicketForm.tsx:33-36 | fields from the initial values, else `''`; no errors; nothing touched |
| EnhancedTicketForm.EnhancedForm.SyncInitialValues | client/src/components/tickets/EnhancedTicketForm.tsx:39-44 | copies new initial values into the fields and leaves errors and touched flags alone |
| EnhancedTicketForm.EnhancedForm.HandleTitleChange | client/src/components/tickets/EnhancedTicketForm.tsx:77-87 | sets the title and revalidates it only if touched; keeps every touched field's error current |
| EnhancedTicketForm.EnhancedForm.HandleDescriptionChange | client/src/components/tickets/EnhancedTicketForm.tsx:89-99 | sets the description and revalidates it only if touched; keeps every touched field's error current |
| EnhancedTicketForm.EnhancedForm.HandleTitleBlur | client/src/components/tickets/EnhancedTicketForm.tsx:101-107 | marks the title touched and records its error |
| EnhancedTicketForm.EnhancedForm.HandleDescriptionBlur | client/src/components/tickets/EnhancedTicketForm.tsx:109-115 | marks the description touched and records its error |
| EnhancedTicketForm.EnhancedForm.HandleSubmit | client/src/components/tickets/EnhancedTicketForm.tsx:117-131 | touches and validates both fields; emits iff there is no error, and then the form shows as valid |
| EnhancedTicketForm.TouchedFormValidExactlyWhenSubmittable | client/src/components/tickets/EnhancedTicketForm.tsx:133 | once both fields are touched, `isFormValid` holds iff a submit would emit |
| TagCreateDialog.PresetColorsAreHexColors | client/src/components/tag/TagCreateDialog.tsx:23-31 | every preset matches the server's colour pattern, and the default is `#3b82f6` |
| TagCreateDialog.Submitted | client/src/components/tag/TagCreateDialog.tsx:42-48 | a request is emitted iff the name is not blank, with the trimmed non-empty name and the current colour |
| TagCreateDialog.SubmittedIsAccepted | client/src/components/tag/TagCreateDialog.tsx:46 | an emitted request with a preset colour and a name of at most 50 characters passes the server's `TagCreate` check |
| TagCreateDialog.EnabledExactlyWhenSubmitEmits | client/src/components/tag/TagCreateDialog.tsx:140 | while not submitting, the button is enabled iff a submit would emit |
| TagCreateDialog.Dialog.constructor | client/src/components/tag/TagCreateDialog.tsx:39-40 | empty name and the default colour |
| TagCreateDialog.Dialog.SetName | client/src/components/tag/TagCreateDialog.tsx:75 | sets the name only; the colour stays a preset |
| TagCreateDialog.Dialog.SelectColor | client/src/components/tag/TagCreateDialog.tsx:105 | the colour becomes the chosen preset |
| TagCreateDialog.Dialog.HandleClose | client/src/components/tag/TagCreateDialog.tsx:50-54 | resets to the empty name and the default colour and closes |
| TagCreateDialog.Dialog.HandleSubmit | client/src/components/tag/TagCreateDialog.tsx:42-48 | a blank name changes nothing and emits nothing; otherwise it emits and resets; the colour is always a preset |
| TagFilterSelector.ToggleTag | client/src/components/tickets/TagFilterSelector.tsx:44-50 | a selected name is removed everywhere, the rest kept in order; an absent name is appended; exactly the toggled name changes membership |
| TagFilterSelector.ToggleKeepsNoDuplicates | client/src/components/tickets/TagFilterSelector.tsx:44-50 | a selection without repeats stays without repeats |
| TagFilterSelector.ToggleTwiceRestores | client/src/components/tickets/TagFilterSelector.tsx:44-50 | toggling an absent name twice restores the selection |
| TagFilterSelector.FilteredTags | client/src/components/tickets/TagFilterSelector.tsx:40-42 | a loaded tag is shown iff its name contains the search text, ignoring case; the result is the loaded list with elements deleted, the rest in loading order, and every matching tag kept as often as it was loaded |
| TagFilterSelector.EmptyQueryKeepsAll | client/src/components/tickets/TagFilterSelector.tsx:40-42 | an empty search shows every loaded tag, in order |
| TagFilterSelector.QueryCaseIrrelevant | client/src/components/tickets/TagFilterSelector.tsx:40-42 | the case of the search text does not matter |
| TagFilterSelector.SelectedTagsDetails | client/src/components/tickets/TagFilterSelector.tsx:58-60 | a loaded tag is listed iff its name is selected; the result is the loaded list with elements deleted, the rest in loading order, and every selected tag kept as often as it was loaded |
| TagFilterSelector.FilterSelector.constructor | client/src/components/tickets/TagFilterSelector.tsx:19-20 | closed with an empty search |
| TagFilterSelector.FilterSelector.ToggleOpen | client/src/components/tickets/TagFilterSelector.tsx:67 | flips whether the dropdown is open |
| TagFilterSelector.FilterSelector.SetSearchQuery | client/src/components/tickets/TagFilterSelector.tsx:143 | sets the search text only |
| TagFilterSelector.FilterSelector.HandleKey | client/src/components/tickets/TagFilterSelector.tsx:25-37 | Escape closes the dropdown; other keys change nothing |
| TagFilterSelector.FilterSelector.ClearAll | client/src/components/tickets/TagFilterSelector.tsx:52-55 | emits the empty selection and closes |
| TagSelector.SelectedIds | client/src/components/tickets/TagSelector.tsx:35 | an id is selected iff some tag on the ticket has it |
| TagSelector.AsTag | client/src/components/tickets/TagSelector.tsx:36-40 | keeps exactly the id, name and colour |
| TagSelector.UnselectedAsTags | client/src/components/tickets/TagSelector.tsx:34-40 | the unselected tags reduced to id, name and colour are disjoint from the ticket's tags and cover every other loaded tag |
| TagSelector.AvailableTags | client/src/components/tickets/TagSelector.tsx:34-40 | each entry is a loaded tag reduced to id, name and colour; disjoint by id from the ticket's tags; every loaded tag is available or already on the ticket; the result is the reduced loaded list with elements deleted, the rest in loading order, and every tag not on the ticket kept as often as it was loaded |
| TagSelector.AvailableExactly | client/src/components/tickets/TagSelector.tsx:35 | a loaded tag is available iff its id is not on the ticket |
| TagSelector.AddButtonEnabledExactly | client/src/components/tickets/TagSelector.tsx:91 | after loading, an enabled picker's button is enabled iff some loaded tag is not on the ticket |
| TagSelector.Selector.constructor | client/src/components/tickets/TagSelector.tsx:24 | the dropdown starts closed |
| TagSelector.Selector.ToggleDropdown | client/src/components/tickets/TagSelector.tsx:90 | flips whether the dropdown is shown |
| TagSelector.Selector.HandleAddTag | client/src/components/tickets/TagSelector.tsx:44-48 | forwards the tag unchanged and closes the dropdown |
| TicketTable.NeverBothSelected | client/src/components/tickets/TicketTable.tsx:41-42 | the header checkbox is never both checked and indeterminate |
| TicketTable.SelectionFlagsExact | client/src/components/tickets/TicketTable.tsx:41-67 | with distinct row ids and no stale selection, checked iff every row is selected and indeterminate iff some but not all are |
| TicketTable.StaleSelectionChecksHeader | client/src/components/tickets/TicketTable.tsx:41 | an id no longer listed can make the header checked while a visible row is unselected |
| TicketTable.Render | client/src/components/tickets/TicketTable.tsx:33-67 | skeleton iff loading; empty state iff not loading and the list is absent or empty; otherwise one flag per row (its id is selected) and the two header flags |

## Left out

- The select-all, select-by-status and invert selection operations are not implemented in any source file. The toolbars only forward callbacks to them, so they are not modelled.
- Batch semantics are assumed. `parse_tag_filter`, `batch_update_status` and `batch_delete` are called by the router, but their bodies are not part of this model.
  - `TicketRouter.ParseTagFilter`: the route's documentation (server/app/routers/tickets.py:23, 29-33) says only that `tags` holds comma-separated tag ids, names or both. Trimming each piece, skipping empty pieces and matching names ignoring case are assumptions of this model.
  - `TicketService.BatchUpdateStatus` and `TicketService.BatchDelete`: the route checks nothing itself. The 400 "No ticket IDs provided" for an empty list comes from server/tests/test_tickets.py:308-315 and 372-379. The count of stored ids named comes from server/tests/test_tickets.py:317-325 and 351-370. Counting each stored id once when it is named twice is an assumption.
- Database mechanics are not modelled:
  - SQLAlchemy sessions, `commit` and `refresh`;
  - the `updated_at` trigger migration;
  - `created_at` on tags and association rows;
  - `CURRENT_TIMESTAMP`, which is an abstract increasing clock here.
- `ilike` treats `%` and `_` inside the search text as wildcards. The model's search is a plain case-insensitive substring test.
- Unicode is not modelled. `lower()`, `toLowerCase()` and `trim()` act on ASCII letters and a fixed set of white-space characters. Names compare by code point rather than by the database collation.
- String lengths are counted in code points. JavaScript's `.length` counts UTF-16 code units, so for text outside the Basic Multilingual Plane the client's limits differ from the model's. This affects the 3, 200 and 2000 limits of the validating ticket form. Pydantic's `max_length` counts code points, as the model does.
- The `maxLength` attributes of the text inputs are not modelled. They are `maxLength={200}` on the ticket title (client/src/components/tickets/TicketForm.tsx:48, client/src/components/tickets/EnhancedTicketForm.tsx:151) and `maxLength={50}` on the tag name (client/src/components/tag/TagCreateDialog.tsx:77). The browser bounds typed text in UTF-16 code units, but the model's setters accept text of any length. The requirement `|name| <= Models.TagNameMaxLength` of `TagCreateDialog.SubmittedIsAccepted` stands for the 50-character limit.
- TicketService.ListTickets: rows with equal `updated_at` come out in the model's id order. The database leaves that order unspecified, so the contract promises only the sorted order and the exact set.
- TicketService.ApplyUpdate: has no contract of its own. Its properties are stated by `ApplyUpdateSetsOnlyGivenFields` and `ApplyUpdateIdempotent`.
- EnhancedTicketForm.ValidateTitle: has no contract of its own. Its four cases are stated by `ValidateTitleCases`.
- EnhancedTicketForm.EnhancedForm.SyncInitialValues: models the effect's body for a defined `initialValues`. When `initialValues` is undefined the effect does nothing, which is a call not made. Recorded errors may then describe the previous text; the model states this instead of restoring `Valid()`.
- The form's `isFormValid` reads only recorded errors. An untouched, over-long initial title therefore shows as valid until it is validated. The model keeps that behaviour.
- `remove_tag` is declared to return `TicketResponse` but returns `None`. Only its effect on the links is modelled.
- Response serialization, field aliases (`tagIds`, `isCompleted`) and the list wrappers are not modelled.
- Some server tests disagree with the code; the model follows the code:
  - an empty title is accepted, since the schema has no minimum length;
  - the default description is `None`;
  - the tag colour is optional.
- ApiErrors.BodyMessage: a `message` or `error` member that is a truthy non-string is not modelled. The model reads those members as optional strings.
- The location separator `LocSeparator` in `ApiErrors` is kept exactly as written in the source. It is the three characters U+00E2 U+2020 U+2019, the UTF-8 bytes of `→` misread as Windows-1252, between spaces.
- Toasts, `console` logging and the request timeout are not modelled. The toast becomes an output value.
- TagSelector `handleRemoveTag` only forwards the id to the parent, with no state change, so it is not modelled.
- The React Query hooks, HTTP service wrappers, rendering-only components and the selection toolbars are not modelled.
