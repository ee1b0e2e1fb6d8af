/** JavaScript values as the ticket layer sees them: omitted arguments,
    truthiness, the opaque payload, and the outcome of a call. */
module Values {

  /** A value a caller may leave out; `None` stands for both `null` and `undefined`. */
  datatype Option<+T> = None | Some(value: T)

  /** Milliseconds since the epoch, as `Date.prototype.getTime` reports them. */
  type Time = int

  /** A store-assigned ticket identifier (a Mongo `_id`). */
  type Id = nat

  /** The application data kept on a ticket; the ticket layer never looks inside it. */
  datatype Payload = Payload(fields: map<string, string>)

  /** The `{}` literal. */
  const EmptyObject: Payload := Payload(map[])

  /** Why a call rejects (or, for the two last kinds, throws inside its callback). */
  datatype Error =
    | MissingValue   // "TicketBoy is missing some crucial values"
    | NotFound       // `findById` found nothing, so the callback dereferences null
    | NotADate       // `Date.prototype.getTime` called on a null `end`

  datatype Result<+T> = Ok(value: T) | Err(error: Error)

  /** A timestamp argument is truthy when present and not the number 0. */
  predicate TruthyTime(v: Option<Time>) {
    v.Some? && v.value != 0
  }

  /** A tag argument is truthy when present and not the empty string. */
  predicate TruthyTag(v: Option<string>) {
    v.Some? && v.value != ""
  }

  /** Every object is truthy, so a payload is truthy exactly when it is supplied. */
  predicate TruthyPayload(v: Option<Payload>) {
    v.Some?
  }

  /** The number `null` becomes in a relational comparison such as `time <= t.end`. */
  function NullAsZero(v: Option<Time>): Time {
    match v
    case None => 0
    case Some(t) => t
  }
}
