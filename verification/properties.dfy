/** Properties that relate several lifecycle calls, or a call and a query. */
module TicketBoyProperties {
  import opened Values
  import opened TicketSchema
  import opened TicketBoy

  /** A sequence with no members is empty. */
  lemma NoMembersMeansEmpty(docs: seq<Doc>)
    requires forall d :: d !in docs
    ensures docs == []
  {
    if docs != [] {
      HeadIsMember(docs);
      assert false;
    }
  }

  /** The first element of a non-empty sequence is one of its members. */
  lemma HeadIsMember(docs: seq<Doc>)
    requires docs != []
    ensures docs[0] in docs
  {
  }

  /** The empty store as the schema starts it is valid. */
  lemma FreshStoreValid(created: Time)
    ensures Valid(Db(map[], 0, created))
  {
  }

  /** Every ticket of a valid store shares the single `created` value the
      schema captured when it was defined. This is the second half of `Valid`
      read per ticket; the guarantee behind it is the `Valid(db) ==> Valid(r.db)`
      ensures that `CreateTicket` and every write operation carry. */
  lemma SharedCreated(db: Db, a: Id, b: Id)
    requires Valid(db) && a in db.tickets && b in db.tickets
    ensures db.tickets[a].created == db.tickets[b].created == db.created
  {
  }

  /** The `{}` payload default is computed on the helper object but the record
      handed to the store uses the raw argument, so an omitted payload is stored
      absent. */
  lemma OmittedPayloadNotPersisted(db: Db, tag: Option<string>, start: Option<Time>, end: Option<Time>,
                                   now: Time, hash: Id -> string)
    requires TruthyTime(start)
    ensures Prepare(NewDraft(), tag, None).payload == Val(EmptyObject)
    ensures CreateTicket(db, tag, start, end, None, now, hash).out.Ok?
    ensures CreateTicket(db, tag, start, end, None, now, hash).out.value.ticket.payload.None?
  {
  }

  /** Because the constructor never assigns `end`, a missing end never rejects:
      any truthy start is accepted together with an absent end. */
  lemma MissingEndAccepted(db: Db, tag: Option<string>, start: Option<Time>, payload: Option<Payload>,
                           now: Time, hash: Id -> string)
    requires TruthyTime(start)
    ensures !MissingValues(NewDraft(), start, None)
    ensures var r := CreateTicket(db, tag, start, None, payload, now, hash);
      r.out.Ok? && r.out.value.ticket.end.None?
  {
  }

  /** Creating an untagged ticket whose generated tag no existing ticket carries
      makes that ticket the whole of its tag group. */
  lemma {:induction false} CreatedTicketIsItsGroup(db: Db, start: Option<Time>, end: Option<Time>,
                                                   payload: Option<Payload>, now: Time, hash: Id -> string)
    requires Valid(db) && TruthyTime(start)
    requires forall id :: id in db.tickets ==> db.tickets[id].tag != Some(hash(db.nextId))
    ensures var r := CreateTicket(db, None, start, end, payload, now, hash);
      r.out.Ok? && FindAll(r.db, Some(hash(db.nextId))) == [r.out.value]
  {
    var r := CreateTicket(db, None, start, end, payload, now, hash);
    var doc := r.out.value;
    var tag := Some(hash(db.nextId));
    assert doc.id == db.nextId && doc.ticket.tag == tag;
    var earlier := Collect(r.db.tickets, tag, db.nextId);
    NoMembersMeansEmpty(earlier);
    assert r.db.nextId == db.nextId + 1 by {
      assert Valid(r.db) && doc.id in r.db.tickets;
    }
  }

  /** `isExpired` after `extendTicket(id, end)` answers from the new end alone,
      and an absent new end leaves the ticket with no end to compare. */
  lemma ExtendThenIsExpired(db: Db, id: Id, end: Option<Time>, now: Time)
    requires id in db.tickets
    ensures end.Some? ==> IsExpired(ExtendTicket(db, id, end).db, id, now) == Ok(end.value <= now)
    ensures end.None? ==> IsExpired(ExtendTicket(db, id, end).db, id, now) == Err(NotADate)
  {
  }

  /** Extending a ticket's end by `delta` lengthens `getPeriod` by exactly `delta`. */
  lemma ExtendLengthensPeriod(db: Db, id: Id, delta: int)
    requires id in db.tickets && db.tickets[id].end.Some?
    ensures var e := db.tickets[id].end.value;
      GetPeriod(ExtendTicket(db, id, Some(e + delta)).db, id) == Ok(GetPeriod(db, id).value + delta)
  {
  }

  /** `updateTicket(id, null, null, end, null)` with a truthy end writes the
      same store as `extendTicket(id, end)`: only `end` changes. */
  lemma UpdateEndOnlyIsExtend(db: Db, id: Id, end: Option<Time>)
    requires TruthyTime(end)
    ensures UpdateTicket(db, id, None, None, end, None).db == ExtendTicket(db, id, end).db
  {
  }

  /** An update whose every argument is falsy leaves the store as it was. */
  lemma FalsyUpdateKeepsStore(db: Db, id: Id, tag: Option<string>, start: Option<Time>,
                              end: Option<Time>, obj: Option<Payload>)
    requires !TruthyTag(tag) && !TruthyTime(start) && !TruthyTime(end)
    ensures UpdateTicket(db, id, tag, start, end, obj).db == db
  {
  }

  /** An update is idempotent: applying it twice writes what applying it once does. */
  lemma UpdateIdempotent(db: Db, id: Id, tag: Option<string>, start: Option<Time>,
                         end: Option<Time>, obj: Option<Payload>)
    ensures var once := UpdateTicket(db, id, tag, start, end, obj).db;
      UpdateTicket(once, id, tag, start, end, obj).db == once
  {
  }

  /** After `addTag(id, tag)` the ticket belongs to the group `findAll(tag)` returns. */
  lemma AddTagJoinsGroup(db: Db, id: Id, tag: Option<string>)
    requires Valid(db) && id in db.tickets
    ensures var r := AddTag(db, id, tag);
      r.out.Ok? && r.out.value in FindAll(r.db, tag)
  {
  }

  /** After `removeTag(id)` the ticket belongs to no named tag group. */
  lemma RemoveTagLeavesGroups(db: Db, id: Id, tag: string)
    requires Valid(db) && id in db.tickets
    ensures forall d :: d in FindAll(RemoveTag(db, id).db, Some(tag)) ==> d.id != id
  {
  }

  /** Removing a tag right after adding one ends where removing it alone does. */
  lemma AddThenRemoveTag(db: Db, id: Id, tag: Option<string>)
    ensures RemoveTag(AddTag(db, id, tag).db, id) == RemoveTag(db, id)
  {
  }

  /** `addTag` writes its argument verbatim, so an empty-string tag can be
      stored even though creation never stores one. */
  lemma AddTagCanStoreEmptyTag(db: Db, id: Id)
    requires id in db.tickets
    ensures AddTag(db, id, Some("")).db.tickets[id].tag == Some("")
  {
  }

  /** After `removeAllWithTag(tag)` the tag group is empty. */
  lemma RemoveAllWithTagEmptiesGroup(db: Db, tag: Option<string>)
    requires Valid(db)
    ensures FindAll(RemoveAllWithTag(db, tag).db, tag) == []
  {
    var after := RemoveAllWithTag(db, tag).db;
    NoMembersMeansEmpty(FindAll(after, tag));
  }

  /** After `removeTicket(id)` a lookup of `id` finds nothing, and removing
      it again changes nothing and still resolves true. */
  lemma RemoveTicketThenLookup(db: Db, id: Id)
    ensures var once := RemoveTicket(db, id).db;
      && Lookup(once, id) == Err(NotFound)
      && RemoveTicket(once, id) == Step(once, Ok(true))
  {
  }

  /** `removeIfExpired` resolves with exactly what `isExpired` would. */
  lemma RemoveIfExpiredAgreesWithIsExpired(db: Db, id: Id, now: Time)
    ensures RemoveIfExpired(db, id, now).out == IsExpired(db, id, now)
  {
  }

  /** An expired ticket is gone after `removeIfExpired`, so a later lookup
      finds nothing; a live one is still there. */
  lemma RemoveIfExpiredThenLookup(db: Db, id: Id, now: Time)
    requires id in db.tickets && db.tickets[id].end.Some?
    ensures Expired(db.tickets[id], now) ==> Lookup(RemoveIfExpired(db, id, now).db, id) == Err(NotFound)
    ensures !Expired(db.tickets[id], now) ==> Lookup(RemoveIfExpired(db, id, now).db, id) == Ok(db.tickets[id])
  {
  }

  /** On an expired ticket the single removal and the sweep agree on that ticket,
      and removing it first leaves the sweep nothing different to do. */
  lemma RemoveIfExpiredThenSweep(db: Db, id: Id, now: Time)
    requires id in db.tickets && Expired(db.tickets[id], now)
    ensures RemoveAllExpired(RemoveIfExpired(db, id, now).db, now).db == RemoveAllExpired(db, now).db
  {
  }

  /** Sweeping twice with the same `now` removes nothing the first sweep left. */
  lemma RemoveAllExpiredIdempotent(db: Db, now: Time)
    ensures var once := RemoveAllExpired(db, now).db;
      RemoveAllExpired(once, now).db == once
  {
  }

  /** After the sweep no ticket of any tag group is expired, and every
      unexpired ticket of the group is still listed. */
  lemma SweepLeavesOnlyLive(db: Db, now: Time, tag: Option<string>)
    requires Valid(db)
    ensures var after := RemoveAllExpired(db, now).db;
      && (forall d :: d in FindAll(after, tag) ==> !Expired(d.ticket, now))
      && (forall d :: d in FindAll(db, tag) && !Expired(d.ticket, now) ==> d in FindAll(after, tag))
  {
  }

  /** A booked answer is the matching ticket of the group with the smallest id. */
  lemma BookedIsOldestMatch(db: Db, tag: Option<string>, time: Time)
    requires Valid(db)
    ensures IsBooked(db, tag, time).Booked? ==>
      var d := IsBooked(db, tag, time).doc;
      && d.id in db.tickets && d.ticket == db.tickets[d.id]
      && HasTag(d.ticket, tag) && Matches(d.ticket, time)
      && forall k :: k in db.tickets && k < d.id && HasTag(db.tickets[k], tag) ==> !Matches(db.tickets[k], time)
  {
    if IsBooked(db, tag, time).NotBooked? {
      return;
    }
    var docs := FindAll(db, tag);
    var d := IsBooked(db, tag, time).doc;
    var i :| FirstMatchAt(docs, i, time) && docs[i] == d;
    assert docs[i] in docs;
    forall k | k in db.tickets && k < d.id && HasTag(db.tickets[k], tag)
      ensures !Matches(db.tickets[k], time)
    {
      var j := GroupPosition(db, tag, k);
      SmallerIdEarlier(docs, j, i);
    }
  }

  /** In a list of strictly ascending ids, a smaller id comes earlier. */
  lemma SmallerIdEarlier(docs: seq<Doc>, j: nat, i: nat)
    requires forall a, b :: 0 <= a < b < |docs| ==> docs[a].id < docs[b].id
    requires j < |docs| && i < |docs| && docs[j].id < docs[i].id
    ensures j < i
  {
  }

  /** With the `||` test, a group holding any ticket whose start is at or before
      its end is booked at every time. */
  lemma OrderedWindowAlwaysBooked(db: Db, tag: Option<string>, id: Id, time: Time)
    requires Valid(db) && id in db.tickets && HasTag(db.tickets[id], tag)
    requires db.tickets[id].end.Some? && db.tickets[id].start <= db.tickets[id].end.value
    ensures IsBooked(db, tag, time).Booked?
  {
    assert Doc(id, db.tickets[id]) in FindAll(db, tag);
  }
}
