/** The ticket schema, the in-memory stand-in for the Mongo collection, and
    ticket creation (`Ticket.prototype.createTicket`). */
module TicketSchema {
  import opened Values

  /** A stored ticket document (`__tag__`, `start`, `end`, `__object__`, `created`). */
  datatype Ticket = Ticket(
    tag: Option<string>,
    start: Time,
    end: Option<Time>,
    payload: Option<Payload>,
    created: Time)

  /** A ticket as a query hands it back: the document together with its `_id`. */
  datatype Doc = Doc(id: Id, ticket: Ticket)

  /** The ticket collection. `nextId` is the id the store hands out next;
      `created` is the one `Date.now()` value the schema captured when it was
      defined, which is the default of every ticket's `created` field. */
  datatype Db = Db(tickets: map<Id, Ticket>, nextId: Id, created: Time)

  /** One lifecycle call: the store afterwards and what the promise settles with. */
  datatype Step<+T> = Step(db: Db, out: Result<T>)

  /** Ids below `nextId` only, and every ticket carries the schema's shared `created`. */
  predicate Valid(db: Db) {
    forall id :: id in db.tickets ==> id < db.nextId && db.tickets[id].created == db.created
  }

  /** Every other ticket, the id counter and the schema time are as in `db`, and
      `id` is still present. */
  predicate OthersUnchanged(db: Db, db': Db, id: Id) {
    && db'.tickets.Keys == db.tickets.Keys
    && db'.nextId == db.nextId
    && db'.created == db.created
    && forall k :: k in db.tickets && k != id ==> db'.tickets[k] == db.tickets[k]
  }

  /** The record `MongooseTicket.create` is called with. */
  datatype Record = Record(tag: Option<string>, start: Option<Time>, end: Option<Time>, payload: Option<Payload>)

  /** `MongooseTicket.create`: the store assigns a fresh id and fills in the
      schema defaults: an absent `start` becomes the current time, an absent
      `end` stays null, and `created` is the schema's shared timestamp. */
  function Insert(db: Db, rec: Record, now: Time): (r: (Db, Doc))
    ensures r.1.id == db.nextId && r.0.nextId > r.1.id
    ensures Valid(db) ==> r.1.id !in db.tickets && Valid(r.0)
    ensures r.0.tickets == db.tickets[r.1.id := r.1.ticket] && r.0.created == db.created
    ensures r.1.ticket.start == (if rec.start.Some? then rec.start.value else now)
    ensures r.1.ticket.end == rec.end
    ensures r.1.ticket.tag == rec.tag && r.1.ticket.payload == rec.payload
    ensures r.1.ticket.created == db.created
  {
    var start := match rec.start case Some(s) => s case None => now;
    var t := Ticket(rec.tag, start, rec.end, rec.payload, db.created);
    (Db(db.tickets[db.nextId := t], db.nextId + 1, db.created), Doc(db.nextId, t))
  }

  /** `document.save()` after an in-memory change: the stored ticket at `id` is replaced. */
  function Save(db: Db, id: Id, t: Ticket): (db': Db)
    requires id in db.tickets
    ensures OthersUnchanged(db, db', id) && db'.tickets[id] == t
    ensures Valid(db) && t.created == db.created ==> Valid(db')
  {
    db.(tickets := db.tickets[id := t])
  }

  /** `removeByFilter`: drops every ticket `p` selects and nothing else. */
  function RemoveWhere(db: Db, p: Ticket -> bool): (db': Db)
    ensures forall k :: k in db'.tickets <==> k in db.tickets && !p(db.tickets[k])
    ensures forall k :: k in db'.tickets ==> db'.tickets[k] == db.tickets[k]
    ensures db'.nextId == db.nextId && db'.created == db.created
    ensures Valid(db) ==> Valid(db')
  {
    Db(map k | k in db.tickets && !p(db.tickets[k]) :: db.tickets[k], db.nextId, db.created)
  }

  /** A JavaScript property slot of the `Ticket` helper object: never assigned,
      assigned `null`, or holding a value. */
  datatype Slot<+T> = Undefined | Null | Val(v: T)

  /** The `this` object `createTicket` works on. */
  datatype Draft = Draft(tag: Slot<string>, start: Slot<Time>, end: Slot<Time>, payload: Slot<Payload>)

  /** The `Ticket` constructor: it assigns `start` twice and never assigns `end`,
      so `end` is left undefined. */
  function NewDraft(): (d: Draft)
    ensures d.start == Null && d.end != Null
    ensures d.tag == Null && d.payload == Null
  {
    Draft(Null, Null, Undefined, Null)
  }

  /** The missing-value test: a falsy argument with no prior value on `this`,
      where only `=== null` counts as "no prior value". */
  predicate MissingValues(d: Draft, start: Option<Time>, end: Option<Time>) {
    || (!TruthyTime(start) && d.start == Null)
    || (!TruthyTime(end) && d.end == Null)
  }

  /** What `createTicket` leaves on `this` for the tag and the payload:
      `tag || null`, and the payload defaulted to `{}` when `this.__object__ == null`
      (null or undefined) and none was supplied. */
  function Prepare(d: Draft, tag: Option<string>, payload: Option<Payload>): (p: Draft)
    ensures p.tag == Null || (p.tag.Val? && p.tag.v != "")
    ensures TruthyTag(tag) ==> p.tag == Val(tag.value)
    ensures !TruthyTag(tag) ==> p.tag == Null
    ensures d.payload.Val? ==> p.payload == d.payload
    ensures !d.payload.Val? && TruthyPayload(payload) ==> p.payload == Val(payload.value)
    ensures d.payload.Val? || TruthyPayload(payload) || p.payload == Val(EmptyObject)
  {
    var tagSlot := if TruthyTag(tag) then Val(tag.value) else Null;
    var payloadSlot :=
      if d.payload.Val? then d.payload
      else if TruthyPayload(payload) then Val(payload.value)
      else Val(EmptyObject);
    d.(tag := tagSlot, payload := payloadSlot)
  }

  /** The value a slot contributes to a stored record. */
  function SlotValue<T>(s: Slot<T>): Option<T> {
    match s
    case Val(v) => Some(v)
    case _ => None
  }

  /** `Ticket.prototype.createTicket(tag, start, end, payload)` on a fresh `Ticket`.
      A falsy `start` rejects; a falsy `end` never does. The record handed to the
      store carries the normalised tag but the caller's raw `start`, `end` and
      payload. A ticket stored without a tag is then given `hash(id)` and saved again. */
  function CreateTicket(db: Db, tag: Option<string>, start: Option<Time>, end: Option<Time>,
                        payload: Option<Payload>, now: Time, hash: Id -> string): (r: Step<Doc>)
    ensures r.out.Err? <==> !TruthyTime(start)
    ensures r.out.Err? ==> r.out.error == MissingValue && r.db == db
    ensures r.out.Ok? ==>
      var doc := r.out.value;
      && doc.id == db.nextId
      && r.db.tickets == db.tickets[doc.id := doc.ticket]
      && r.db.created == db.created
      && doc.ticket.tag.Some?
      && (TruthyTag(tag) ==> doc.ticket.tag == tag)
      && (!TruthyTag(tag) ==> doc.ticket.tag == Some(hash(doc.id)))
      && Some(doc.ticket.start) == start
      && doc.ticket.end == end
      && doc.ticket.payload == payload
      && doc.ticket.created == db.created
    ensures Valid(db) ==> Valid(r.db)
    ensures Valid(db) && r.out.Ok? ==> r.out.value.id !in db.tickets
  {
    var d := NewDraft();
    if MissingValues(d, start, end) then
      Step(db, Err(MissingValue))
    else
      var p := Prepare(d, tag, payload);
      var (db1, doc) := Insert(db, Record(SlotValue(p.tag), start, end, payload), now);
      if doc.ticket.tag.None? then
        var tagged := doc.ticket.(tag := Some(hash(doc.id)));
        Step(Save(db1, doc.id, tagged), Ok(Doc(doc.id, tagged)))
      else
        Step(db1, Ok(doc))
  }
}
