# ticket-boy lifecycle layer in Dafny

ticket-boy keeps time-bounded booking "tickets" in a Mongo collection. A
ticket has an optional tag that groups it with other tickets, a `start` and an
optional `end` timestamp, an opaque payload (`__object__`) and a `created`
timestamp. The `TicketBoy` facade creates tickets, tags and untags them,
extends and updates them, answers "is it expired?", "how long is it?" and "is
this tag group booked at this time?", and deletes tickets by id, by tag and by
expiry.

This project models that layer as pure transitions of an in-memory store:

- `values.dfy` (module `Values`): JavaScript argument values as the code sees
  them. An omitted argument is `None`, which stands for both `null` and
  `undefined`. Mongoose applies a schema default only to `undefined` and
  stores an explicit `null` as null; the model applies the `start` default
  to either, which the model's `CreateTicket` never reaches, because it stops
  at the rejection (the source still inserts; see Left out). Truthiness follows JavaScript: a timestamp is truthy when
  present and non-zero, a tag when present and non-empty, and a payload
  whenever it is present. It also holds `Result` and the error kinds.
- `ticket.dfy` (module `TicketSchema`, from `ticket.js`): the stored `Ticket`,
  the store `Db`, the schema defaults applied on insert, and `createTicket`.
  The store is a `map<Id, Ticket>` plus the next id it will hand out and the
  single `created` value the schema captured. The helper object `this` that
  `createTicket` works on is a `Draft` whose slots can be undefined, null or
  hold a value, so the constructor's quirk is explicit.
- `ticket_boy.dfy` (module `TicketBoy`, from `index.js`): the lifecycle
  operations as functions of the store. Every write operation returns a
  `Step` (the new store and what the promise settles with); the reads
  (`isExpired`, `getPeriod`, `findById`, `findAll`, `isBooked`) return their
  result. It also holds the `isBooked` scan as a loop.
- `properties.dfy` (module `TicketBoyProperties`): lemmas relating several
  calls. Examples: the sweep is idempotent, `removeIfExpired` agrees with
  `isExpired`, `isBooked` picks the first matching ticket in find order, and a created
  ticket forms its own tag group.

Modelling choices:

- Timestamps are integer milliseconds. `now` (`Date.now()`) is an explicit
  parameter.
- Ids are natural numbers handed out in increasing order. MongoDB promises
  no order for `find`; the model lists a tag group in ascending id order.
- `createHash` is a function parameter `hash: Id -> string`.
- When `findById` finds nothing, the callback dereferences `null`. This is
  modelled as `Err(NotFound)`, and the store is unchanged.
- `isExpired`, `getPeriod` and `removeIfExpired` call
  `Date.prototype.getTime` on the stored `end`, which throws when `end` is
  null. This is modelled as `Err(NotADate)`.

Quirks of the code that the model keeps on purpose:

- The `Ticket` constructor assigns `start` twice and never assigns `end`, so
  `this.end === null` is always false. A missing `end` therefore never
  rejects; only a missing (falsy) `start` does.
- `createTicket` computes a normalised tag and a `{}` payload default on
  `this`. The record it inserts uses the normalised tag but the caller's raw
  `start`, `end` and payload. An omitted payload is stored absent, not as
  `{}`.
- `updateTicket` writes the payload to `__Object__`, which the schema (field
  `__object__`) does not know. The stored payload never changes. The assigned
  value is carried only on the document the call settles with (`strayObject`).
- `isBooked` tests `time >= start || time <= end`, with `||` as written.
  A null `end` compares as 0. A group holding any ticket with `start <= end`
  is booked at every time.

## Model

| member | source | states |
|---|---|---|
| TicketSchema.Insert | ticket.js:6-21 | the store assigns a fresh id and touches no other ticket; an absent start defaults to now, an absent end stays null, and `created` is the schema's one shared timestamp |
| TicketSchema.Save | index.js:187-191 | saving a document replaces that ticket only; every other ticket, the key set and the id counter are unchanged |
| TicketSchema.RemoveWhere | index.js:318-322 | a filtered remove keeps exactly the tickets the filter does not select, with their contents unchanged |
| TicketSchema.NewDraft | ticket.js:36-41 | the constructor leaves `start` null but `end` not null (never assigned) |
| TicketSchema.Prepare | ticket.js:57-77 | the tag on `this` is the truthy tag verbatim and null for a falsy one; with no prior payload on `this`, a supplied payload is put there and an omitted one becomes `{}` |
| TicketSchema.CreateTicket | ticket.js:55-105 | rejects with the missing-value error exactly when `start` is falsy, leaving the store unchanged; otherwise adds one ticket under the fresh id, changes no existing ticket, stores the raw start/end/payload, and ends with a non-null tag: the supplied truthy tag, else `hash(id)` |
| TicketBoy.IsExpired | index.js:82-92 | true exactly when the end is at or before now (inclusive at `end == now`), false exactly when it is after; not-found and null end are errors |
| TicketBoy.GetPeriod | index.js:103-113 | start plus the period equals end; the period is negative exactly when end is before start (no clamping) |
| TicketBoy.Collect | index.js:157-163 | the listed documents are exactly the stored tickets with the tag (and id below the bound), in strictly ascending id order |
| TicketBoy.Lookup | index.js:84-86 | `findById` succeeds exactly when the id is stored, with the stored ticket, and otherwise reports not found |
| TicketBoy.FindAll | index.js:154-165 | on a valid store, `findAll(tag)` lists exactly the tickets carrying the tag, in ascending id order |
| TicketBoy.FirstBooked | index.js:133-140 | not booked exactly when no ticket of the group matches; otherwise the result is the first matching ticket, with no match before it |
| TicketBoy.IsBooked | index.js:127-143 | on a valid store, not booked exactly when no stored ticket of the tag group matches the time; a booked answer is a stored ticket of the group that matches |
| TicketBoy.ScanForBooking | index.js:127-143 | the `forEach` that calls `resolve` on every match settles with the first match only, equal to the first-match reference |
| TicketBoy.ExtendTicket | index.js:181-194 | sets `end` to the argument unconditionally, even null; every other field and every other ticket unchanged; not-found leaves the store unchanged |
| TicketBoy.UpdateTicket | index.js:209-227 | start, end and tag are replaced only by truthy arguments, else kept; the stored payload never changes and the payload argument lands only on the returned stray `__Object__`; other tickets unchanged |
| TicketBoy.AddTag | index.js:240-254 | sets the tag to the argument; every other field and every other ticket unchanged |
| TicketBoy.RemoveTag | index.js:270-284 | sets the tag to null; every other field and every other ticket unchanged |
| TicketBoy.RemoveTicket | index.js:295-303 | removes exactly that id and resolves true even when nothing matched |
| TicketBoy.RemoveAllWithTag | index.js:315-324 | removes exactly the tickets carrying the tag, leaves the rest untouched, and resolves true even when the group was empty |
| TicketBoy.RemoveIfExpired | index.js:335-353 | resolves true exactly when the ticket's end is at or before now, and then removes only that ticket; in every other case the store is unchanged |
| TicketBoy.RemoveAllExpired | index.js:363-371 | keeps exactly the tickets that are not expired, with their contents unchanged, and resolves true |
| TicketBoyProperties.FreshStoreValid | ticket.js:17-20 | the empty collection satisfies the store invariant (ids below the counter, shared `created`) |
| TicketBoyProperties.SharedCreated | ticket.js:17-20 | since `Date.now()` is evaluated once when the schema is defined, all tickets of a valid store share one `created` value; this unfolds the store invariant, which every operation preserves by its `Valid(db) ==> Valid(r.db)` ensures |
| TicketBoyProperties.OmittedPayloadNotPersisted | ticket.js:74-85 | with no payload, `this` gets `{}` but the stored ticket's payload is absent |
| TicketBoyProperties.MissingEndAccepted | ticket.js:36-41 | because `end` is never initialised, a truthy start with no end is accepted and stored with a null end |
| TicketBoyProperties.CreatedTicketIsItsGroup | ticket.js:88-97 | an untagged create whose generated tag is new makes `findAll(generated tag)` return exactly the created ticket |
| TicketBoyProperties.ExtendThenIsExpired | index.js:186 | after extending, `isExpired` depends only on the new end; extending with no end makes `isExpired` fail on the null end |
| TicketBoyProperties.ExtendLengthensPeriod | index.js:108-110 | moving a ticket's end by `delta` with `extendTicket` changes `getPeriod` by exactly `delta` |
| TicketBoyProperties.UpdateEndOnlyIsExtend | index.js:215-218 | `updateTicket(id, null, null, end, null)` with a truthy end writes the same store as `extendTicket(id, end)` |
| TicketBoyProperties.FalsyUpdateKeepsStore | index.js:215-218 | an update with no truthy start, end or tag leaves the store unchanged |
| TicketBoyProperties.UpdateIdempotent | index.js:215-218 | applying the same update twice writes the same store as applying it once |
| TicketBoyProperties.AddTagJoinsGroup | index.js:246 | after `addTag(id, tag)` the ticket is in `findAll(tag)` |
| TicketBoyProperties.RemoveTagLeavesGroups | index.js:276 | after `removeTag(id)` the ticket is in no named tag group |
| TicketBoyProperties.AddThenRemoveTag | index.js:246-276 | `removeTag` after `addTag` ends in the same state as `removeTag` alone |
| TicketBoyProperties.AddTagCanStoreEmptyTag | index.js:246 | `addTag` writes its argument verbatim, so an empty tag can be stored even though create never stores one |
| TicketBoyProperties.RemoveAllWithTagEmptiesGroup | index.js:318 | after `removeAllWithTag(tag)`, `findAll(tag)` is empty |
| TicketBoyProperties.RemoveTicketThenLookup | index.js:297-300 | after `removeTicket(id)` the id is not found, and a second removal leaves the store as it is and still resolves true |
| TicketBoyProperties.RemoveIfExpiredAgreesWithIsExpired | index.js:340-350 | `removeIfExpired` settles with exactly what `isExpired` settles with |
| TicketBoyProperties.RemoveIfExpiredThenLookup | index.js:340-350 | an expired ticket is not found afterwards; a live one is still found, unchanged |
| TicketBoyProperties.RemoveIfExpiredThenSweep | index.js:340-368 | on an expired ticket, removing it first and then sweeping ends where sweeping alone does |
| TicketBoyProperties.RemoveAllExpiredIdempotent | index.js:365 | sweeping twice with the same now leaves the same store as sweeping once |
| TicketBoyProperties.SweepLeavesOnlyLive | index.js:365 | after the sweep no listed ticket is expired, and every unexpired ticket of a group is still listed |
| TicketBoyProperties.BookedIsOldestMatch | index.js:130-140 | on a valid store, a booked answer is a stored ticket of the group that matches, and no group ticket earlier in find order (smaller id) matches: later matches never override the first |
| TicketBoyProperties.OrderedWindowAlwaysBooked | index.js:134 | with the OR test as written, a group holding any ticket with start at or before end is booked at every time |

## Left out

- Connecting to MongoDB (`config`) and the driver itself. The store is an
  abstract map, so store failures and `StoreError` are not modelled.
- Query casting and MongoDB's comparison rules. `where('end').lte(now)` is
  modelled as "end present and at or before now", so a null end is never swept.
  Casting a non-string tag to `String` is not modelled; tags are strings.
- `createHash`'s SHA-1 over the id. It is the parameter `hash`; hash
  collisions are not modelled.
- `createTag`. It calls `createHash()` without an id, which throws before
  anything is computed.
- `Date.parse` and string or `Date` arguments. Timestamps are integers. The
  parsed values `createTicket` puts on `this` are never stored, so they are
  not modelled, and its `try`/`catch` around them cannot fire.
- Promise plumbing. After `reject` the code does not return, so a missing
  start still reaches `MongooseTicket.create`. The model stops at the
  rejection and leaves the store unchanged. A not-found id throws inside the
  callback; the model reports `NotFound` instead.
- The `else if (createdTicket.__tag__.length > 0)` guard in `createTicket`.
  The inserted tag is always null or non-empty, so this guard always holds
  and the branch where it fails is not modelled.
- `Date` objects as arguments. A `Date` is always truthy, but a numeric
  timestamp 0 is falsy; the model follows numeric arguments.
- TicketSchema.Prepare: does not model the `Date.parse` results that
  `createTicket` writes to `this.start` and `this.end`; they are never stored.
- TicketBoyProperties.BookedIsOldestMatch: its smaller-id clause holds for
  the model's find order (ascending id) only; MongoDB does not promise that
  order, so the program promises only "first match in find order", which
  `FirstBooked`, `ScanForBooking` and `IsBooked` state without it.
- TicketBoy.FindAll: lists the whole tag group only for valid stores (every
  id below the store's counter), which are the only stores the operations
  produce from an empty collection.
- Concurrency between overlapping calls (last write wins at the store).
- `app.js`, a demo script with console output.
