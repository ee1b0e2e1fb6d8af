/** The `TicketBoy` lifecycle operations as transitions of the ticket store.
    Each call reads or writes the store once (twice for a read-modify-write)
    and settles with the result shown; `now` stands for `Date.now()`. */
module TicketBoy {
  import opened Values
  import opened TicketSchema

  /** The expiry test shared by `isExpired`, `removeIfExpired` and
      `removeAllExpired`: an end at or before now. A null end never expires. */
  predicate Expired(t: Ticket, now: Time) {
    t.end.Some? && t.end.value <= now
  }

  /** `findById`, with an absent id reported as `NotFound`. */
  function Lookup(db: Db, id: Id): (r: Result<Ticket>)
    ensures r.Ok? <==> id in db.tickets
    ensures r.Ok? ==> r.value == db.tickets[id]
    ensures r.Err? ==> r.error == NotFound
  {
    if id in db.tickets then Ok(db.tickets[id]) else Err(NotFound)
  }

  /** `isExpired(id)`: inclusive at the boundary `end == now`. */
  function IsExpired(db: Db, id: Id, now: Time): (r: Result<bool>)
    ensures r == Ok(true) <==> id in db.tickets && Expired(db.tickets[id], now)
    ensures r == Ok(false) <==> id in db.tickets && db.tickets[id].end.Some? && now < db.tickets[id].end.value
    ensures id !in db.tickets <==> r == Err(NotFound)
    ensures r == Err(NotADate) <==> id in db.tickets && db.tickets[id].end.None?
    ensures id in db.tickets && db.tickets[id].end == Some(now) ==> r == Ok(true)
  {
    match Lookup(db, id)
    case Err(e) => Err(e)
    case Ok(t) =>
      match t.end
      case None => Err(NotADate)
      case Some(e) => Ok(e <= now)
  }

  /** `getPeriod(id)`: `end - start` in milliseconds, unclamped. */
  function GetPeriod(db: Db, id: Id): (r: Result<int>)
    ensures r.Ok? <==> id in db.tickets && db.tickets[id].end.Some?
    ensures id !in db.tickets ==> r == Err(NotFound)
    ensures id in db.tickets && db.tickets[id].end.None? ==> r == Err(NotADate)
    ensures r.Ok? ==> db.tickets[id].start + r.value == db.tickets[id].end.value
    ensures r.Ok? ==> (r.value < 0 <==> db.tickets[id].end.value < db.tickets[id].start)
  {
    match Lookup(db, id)
    case Err(e) => Err(e)
    case Ok(t) =>
      match t.end
      case None => Err(NotADate)
      case Some(e) => Ok(e - t.start)
  }

  /** The tag filter `{ __tag__: tag }`; a null tag selects the untagged tickets. */
  predicate HasTag(t: Ticket, tag: Option<string>) {
    t.tag == tag
  }

  /** The tickets with ids below `n` that carry `tag`, in ascending id order. */
  function Collect(tickets: map<Id, Ticket>, tag: Option<string>, n: nat): (docs: seq<Doc>)
    ensures forall d :: d in docs <==> d.id < n && d.id in tickets && d.ticket == tickets[d.id] && HasTag(d.ticket, tag)
    ensures forall i, j :: 0 <= i < j < |docs| ==> docs[i].id < docs[j].id
  {
    if n == 0 then []
    else
      var earlier := Collect(tickets, tag, n - 1);
      var id := n - 1;
      if id in tickets && HasTag(tickets[id], tag) then earlier + [Doc(id, tickets[id])] else earlier
  }

  /** `findAll(tag)`: the tag group in store order, which is the order the ids
      were handed out. */
  function FindAll(db: Db, tag: Option<string>): (docs: seq<Doc>)
    ensures Valid(db) ==>
      forall d :: d in docs <==> d.id in db.tickets && d.ticket == db.tickets[d.id] && HasTag(d.ticket, tag)
    ensures forall i, j :: 0 <= i < j < |docs| ==> docs[i].id < docs[j].id
  {
    Collect(db.tickets, tag, db.nextId)
  }

  /** The booking test of `isBooked`, as written with `||`: a null end compares as 0. */
  predicate Matches(t: Ticket, time: Time) {
    time >= t.start || time <= NullAsZero(t.end)
  }

  datatype Booking = Booked(doc: Doc) | NotBooked

  /** `docs[i]` matches `time` and no ticket before it does. */
  predicate FirstMatchAt(docs: seq<Doc>, i: int, time: Time) {
    && 0 <= i < |docs|
    && Matches(docs[i].ticket, time)
    && forall j :: 0 <= j < i ==> !Matches(docs[j].ticket, time)
  }

  /** The first ticket of `docs` that matches `time`, if any. */
  function FirstBooked(docs: seq<Doc>, time: Time): (b: Booking)
    ensures b.NotBooked? <==> forall i :: 0 <= i < |docs| ==> !Matches(docs[i].ticket, time)
    ensures b.Booked? ==> exists i :: FirstMatchAt(docs, i, time) && docs[i] == b.doc
  {
    if docs == [] then NotBooked
    else if Matches(docs[0].ticket, time) then Booked(docs[0])
    else
      var rest := FirstBooked(docs[1..], time);
      assert forall i :: 1 <= i < |docs| ==> docs[i] == docs[1..][i - 1];
      rest
  }

  /** `isBooked(tag, time)`: the first match of the tag group in find order,
      or not booked when no ticket of the group matches. */
  function IsBooked(db: Db, tag: Option<string>, time: Time): (b: Booking)
    ensures Valid(db) ==>
      (b.NotBooked? <==> forall k :: k in db.tickets && HasTag(db.tickets[k], tag) ==> !Matches(db.tickets[k], time))
    ensures Valid(db) && b.Booked? ==>
      && b.doc.id in db.tickets && b.doc.ticket == db.tickets[b.doc.id]
      && HasTag(b.doc.ticket, tag) && Matches(b.doc.ticket, time)
  {
    NoListedMatchNoGroupMatch(db, tag, time);
    FirstBooked(FindAll(db, tag), time)
  }

  /** A stored ticket carrying the tag sits at some position of its group. */
  lemma GroupPosition(db: Db, tag: Option<string>, k: Id) returns (j: nat)
    requires Valid(db) && k in db.tickets && HasTag(db.tickets[k], tag)
    ensures j < |FindAll(db, tag)| && FindAll(db, tag)[j] == Doc(k, db.tickets[k])
  {
    var docs := FindAll(db, tag);
    assert Doc(k, db.tickets[k]) in docs;
    j :| 0 <= j < |docs| && docs[j] == Doc(k, db.tickets[k]);
  }

  /** When no listed ticket of the group matches, no stored ticket of it does. */
  lemma NoListedMatchNoGroupMatch(db: Db, tag: Option<string>, time: Time)
    ensures Valid(db) && FirstBooked(FindAll(db, tag), time).NotBooked? ==>
      forall k :: k in db.tickets && HasTag(db.tickets[k], tag) ==> !Matches(db.tickets[k], time)
  {
    if Valid(db) && FirstBooked(FindAll(db, tag), time).NotBooked? {
      forall k | k in db.tickets && HasTag(db.tickets[k], tag)
        ensures !Matches(db.tickets[k], time)
      {
        var j := GroupPosition(db, tag, k);
      }
    }
  }

  /** The `forEach` of `isBooked`: every ticket is visited and every match calls
      `resolve`, but a promise settles only once, so the first match stands and
      the final `resolve({ booked: false })` counts only when nothing matched. */
  method ScanForBooking(docs: seq<Doc>, time: Time) returns (b: Booking)
    ensures b == FirstBooked(docs, time)
    ensures b.NotBooked? <==> forall i :: 0 <= i < |docs| ==> !Matches(docs[i].ticket, time)
    ensures b.Booked? ==> exists i :: FirstMatchAt(docs, i, time) && docs[i] == b.doc
  {
    var settled := false;
    b := NotBooked;
    for i := 0 to |docs|
      invariant !settled ==> b.NotBooked? && forall j :: 0 <= j < i ==> !Matches(docs[j].ticket, time)
      invariant settled ==> b.Booked? && exists k :: k < i && FirstMatchAt(docs, k, time) && docs[k] == b.doc
    {
      if Matches(docs[i].ticket, time) && !settled {
        b := Booked(docs[i]);
        settled := true;
      }
    }
    var reference := FirstBooked(docs, time);
    if b.Booked? {
      var k :| FirstMatchAt(docs, k, time) && docs[k] == b.doc;
      var k' :| FirstMatchAt(docs, k', time) && docs[k'] == reference.doc;
      FirstMatchUnique(docs, k, k', time);
    }
  }

  /** At most one position is the first match. */
  lemma FirstMatchUnique(docs: seq<Doc>, i: int, j: int, time: Time)
    requires FirstMatchAt(docs, i, time) && FirstMatchAt(docs, j, time)
    ensures i == j
  {
  }

  /** `extendTicket(id, end)`: `end` is overwritten unconditionally, even by null. */
  function ExtendTicket(db: Db, id: Id, end: Option<Time>): (r: Step<Doc>)
    ensures id !in db.tickets <==> r == Step(db, Err(NotFound))
    ensures id in db.tickets ==>
      var before := db.tickets[id];
      && r.out.Ok? && r.out.value.id == id
      && OthersUnchanged(db, r.db, id) && r.db.tickets[id] == r.out.value.ticket
      && r.out.value.ticket.end == end
      && r.out.value.ticket == before.(end := r.out.value.ticket.end)
    ensures Valid(db) ==> Valid(r.db)
  {
    match Lookup(db, id)
    case Err(e) => Step(db, Err(e))
    case Ok(t) =>
      var t' := t.(end := end);
      Step(Save(db, id, t'), Ok(Doc(id, t')))
  }

  /** What `updateTicket` settles with: the saved document, plus the value it
      assigned to `__Object__`, a property the schema does not know, so it is
      carried on the returned document but never stored. */
  datatype Updated = Updated(doc: Doc, strayObject: Option<Payload>)

  /** `updateTicket(id, tag, start, end, obj)`: each of `start`, `end` and `tag`
      is replaced only by a truthy argument; the stored payload never changes. */
  function UpdateTicket(db: Db, id: Id, tag: Option<string>, start: Option<Time>,
                        end: Option<Time>, obj: Option<Payload>): (r: Step<Updated>)
    ensures id !in db.tickets <==> r == Step(db, Err(NotFound))
    ensures id in db.tickets ==>
      var before := db.tickets[id];
      && r.out.Ok? && r.out.value.doc.id == id
      && var t := r.out.value.doc.ticket;
      && OthersUnchanged(db, r.db, id) && r.db.tickets[id] == t
      && (TruthyTime(start) ==> Some(t.start) == start)
      && (!TruthyTime(start) ==> t.start == before.start)
      && (TruthyTime(end) ==> t.end == end)
      && (!TruthyTime(end) ==> t.end == before.end)
      && (TruthyTag(tag) ==> t.tag == tag)
      && (!TruthyTag(tag) ==> t.tag == before.tag)
      && t.payload == before.payload && t.created == before.created
      && (TruthyPayload(obj) ==> r.out.value.strayObject == obj)
      && (!TruthyPayload(obj) ==> r.out.value.strayObject.None?)
    ensures Valid(db) ==> Valid(r.db)
  {
    match Lookup(db, id)
    case Err(e) => Step(db, Err(e))
    case Ok(t) =>
      var t' := t.(
        start := if TruthyTime(start) then start.value else t.start,
        end := if TruthyTime(end) then end else t.end,
        tag := if TruthyTag(tag) then tag else t.tag);
      // `foundTicket.__Object__` reads undefined before the assignment.
      var stray := if TruthyPayload(obj) then obj else None;
      Step(Save(db, id, t'), Ok(Updated(Doc(id, t'), stray)))
  }

  /** `addTag(id, tag)`: sets the tag as given. */
  function AddTag(db: Db, id: Id, tag: Option<string>): (r: Step<Doc>)
    ensures id !in db.tickets <==> r == Step(db, Err(NotFound))
    ensures id in db.tickets ==>
      var before := db.tickets[id];
      && r.out.Ok? && r.out.value.id == id
      && OthersUnchanged(db, r.db, id) && r.db.tickets[id] == r.out.value.ticket
      && r.out.value.ticket.tag == tag
      && r.out.value.ticket == before.(tag := r.out.value.ticket.tag)
    ensures Valid(db) ==> Valid(r.db)
  {
    match Lookup(db, id)
    case Err(e) => Step(db, Err(e))
    case Ok(t) =>
      var t' := t.(tag := tag);
      Step(Save(db, id, t'), Ok(Doc(id, t')))
  }

  /** `removeTag(id)`: sets the tag to null. */
  function RemoveTag(db: Db, id: Id): (r: Step<Doc>)
    ensures id !in db.tickets <==> r == Step(db, Err(NotFound))
    ensures id in db.tickets ==>
      var before := db.tickets[id];
      && r.out.Ok? && r.out.value.id == id
      && OthersUnchanged(db, r.db, id) && r.db.tickets[id] == r.out.value.ticket
      && r.out.value.ticket.tag.None?
      && r.out.value.ticket == before.(tag := r.out.value.ticket.tag)
    ensures Valid(db) ==> Valid(r.db)
  {
    match Lookup(db, id)
    case Err(e) => Step(db, Err(e))
    case Ok(t) =>
      var t' := t.(tag := None);
      Step(Save(db, id, t'), Ok(Doc(id, t')))
  }

  /** `removeTicket(id)`: deletes the ticket if present and resolves true either way. */
  function RemoveTicket(db: Db, id: Id): (r: Step<bool>)
    ensures r.out == Ok(true)
    ensures r.db.tickets.Keys == db.tickets.Keys - {id}
    ensures forall k :: k in r.db.tickets ==> r.db.tickets[k] == db.tickets[k]
    ensures r.db.nextId == db.nextId && r.db.created == db.created
    ensures Valid(db) ==> Valid(r.db)
  {
    Step(db.(tickets := db.tickets - {id}), Ok(true))
  }

  /** `removeAllWithTag(tag)`: deletes the whole tag group and resolves true,
      even when the group was empty. */
  function RemoveAllWithTag(db: Db, tag: Option<string>): (r: Step<bool>)
    ensures r.out == Ok(true)
    ensures forall k :: k in r.db.tickets <==> k in db.tickets && !HasTag(db.tickets[k], tag)
    ensures forall k :: k in r.db.tickets ==> r.db.tickets[k] == db.tickets[k]
    ensures r.db.nextId == db.nextId && r.db.created == db.created
    ensures Valid(db) ==> Valid(r.db)
  {
    Step(RemoveWhere(db, t => HasTag(t, tag)), Ok(true))
  }

  /** `removeIfExpired(id)`: deletes the ticket and resolves true when it is
      expired, resolves false and changes nothing otherwise. */
  function RemoveIfExpired(db: Db, id: Id, now: Time): (r: Step<bool>)
    ensures r.out == Ok(true) <==> id in db.tickets && Expired(db.tickets[id], now)
    ensures r.out == Ok(true) ==>
      && r.db.tickets.Keys == db.tickets.Keys - {id}
      && (forall k :: k in r.db.tickets ==> r.db.tickets[k] == db.tickets[k])
      && r.db.nextId == db.nextId && r.db.created == db.created
    ensures r.out != Ok(true) ==> r.db == db
    ensures id !in db.tickets ==> r.out == Err(NotFound)
    ensures id in db.tickets && db.tickets[id].end.None? ==> r.out == Err(NotADate)
    ensures id in db.tickets && db.tickets[id].end.Some? && now < db.tickets[id].end.value ==> r.out == Ok(false)
    ensures Valid(db) ==> Valid(r.db)
  {
    match Lookup(db, id)
    case Err(e) => Step(db, Err(e))
    case Ok(t) =>
      match t.end
      case None => Step(db, Err(NotADate))
      case Some(e) =>
        if e <= now then Step(db.(tickets := db.tickets - {id}), Ok(true))
        else Step(db, Ok(false))
  }

  /** `removeAllExpired()`: one filtered delete of every ticket whose end is at
      or before now; resolves true however many matched. */
  function RemoveAllExpired(db: Db, now: Time): (r: Step<bool>)
    ensures r.out == Ok(true)
    ensures forall k :: k in r.db.tickets <==> k in db.tickets && !Expired(db.tickets[k], now)
    ensures forall k :: k in r.db.tickets ==> r.db.tickets[k] == db.tickets[k]
    ensures r.db.nextId == db.nextId && r.db.created == db.created
    ensures Valid(db) ==> Valid(r.db)
  {
    Step(RemoveWhere(db, t => Expired(t, now)), Ok(true))
  }
}
