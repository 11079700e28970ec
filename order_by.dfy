/**
 * Ordering scroll results by a payload field
 * (lib/segment/src/data_types/order_by.rs): turning a direction and a start
 * value into a one-sided range, and stashing the ordering value in a point's
 * payload under a reserved key and taking it out again.
 */
module OrderBy {
  import opened Wrappers
  import Json

  /** The payload key the ordering value is stored under. */
  const INTERNAL_KEY_OF_ORDER_BY_VALUE: string := "____ordered_with____"

  /** A point's payload: field names to JSON values. */
  type Payload = map<string, Json.Value>

  /** A moment in time (`chrono::DateTime<Utc>`), only carried: nanoseconds since the Unix epoch. */
  datatype DateTime = DateTime(nanos: int)

  /** A range condition: each of the four bounds is optional. */
  datatype Range<T> = Range(gte: Option<T>, gt: Option<T>, lte: Option<T>, lt: Option<T>)

  /** `Range::default()`: no bound at all. */
  function DefaultRange<T>(): (r: Range<T>)
    ensures r.gte.None? && r.gt.None? && r.lte.None? && r.lt.None?
  {
    Range(None, None, None, None)
  }

  /**
   * The values a range admits, for an order `le` on them: each bound that is
   * present must hold (`gt` and `lt` strictly).
   */
  predicate Contains<T>(r: Range<T>, x: T, le: (T, T) -> bool) {
    (r.gte.Some? ==> le(r.gte.value, x)) &&
    (r.gt.Some? ==> le(r.gt.value, x) && !le(x, r.gt.value)) &&
    (r.lte.Some? ==> le(x, r.lte.value)) &&
    (r.lt.Some? ==> le(x, r.lt.value) && !le(r.lt.value, x))
  }

  /** `RangeInterface`: a range over floats or over datetimes. */
  datatype RangeInterface = FloatRange(floatRange: Range<Json.f64>) | DateTimeRange(dateTimeRange: Range<DateTime>)

  datatype Direction = Asc | Desc
  {
    /**
     * `as_range_from`: ascending scrolls start at `from` and go up, so the
     * only bound is `gte = from`; descending ones go down, so it is `lte = from`.
     */
    function AsRangeFrom<T>(from: T): (r: Range<T>)
      ensures r.gt.None? && r.lt.None?
      ensures this == Asc ==> r.gte == Some(from) && r.lte.None?
      ensures this == Desc ==> r.lte == Some(from) && r.gte.None?
    {
      match this
      case Asc => Range(Some(from), None, None, None)
      case Desc => Range(None, None, Some(from), None)
    }
  }

  /** The range built from a start value admits exactly the values at or past it in the scroll direction. */
  lemma AsRangeFromAdmits<T>(d: Direction, from: T, x: T, le: (T, T) -> bool)
    ensures d == Asc ==> (Contains(d.AsRangeFrom(from), x, le) <==> le(from, x))
    ensures d == Desc ==> (Contains(d.AsRangeFrom(from), x, le) <==> le(x, from))
  {
  }

  /** Where a scroll starts: a float or a datetime. */
  datatype StartFrom = Float(f: Json.f64) | Datetime(dt: DateTime)

  /** The sentinel returned when a payload has no usable ordering value: the far end of the scroll direction. */
  function Sentinel(d: Direction): (r: Json.f64)
    ensures Json.IsFinite(r)
    ensures d == Asc ==> r == Json.F64_MAX
    ensures d == Desc ==> r == Json.F64_MIN
  {
    Json.MaxAndMinAreFinite();
    match d
    case Asc => Json.F64_MAX
    case Desc => Json.F64_MIN
  }

  /** The outcome of removing the ordering value: the value and the payload as the caller holds it afterwards. */
  datatype Removal = Removal(value: Json.f64, payload: Option<Payload>)

  /** `OrderBy`: the payload key to order by, an optional direction and an optional start value. */
  datatype OrderBy = OrderBy(key: string, direction: Option<Direction>, startFrom: Option<StartFrom>)
  {
    /** `direction()`: the given direction, ascending when none is given. */
    function ResolvedDirection(): (d: Direction)
      ensures direction.Some? ==> d == direction.value
      ensures direction.None? ==> d == Asc
    {
      direction.GetOr(Asc)
    }

    /**
     * `as_range`: without a start value, the unbounded float range; with
     * one, the one-sided range from it in the resolved direction, over
     * floats or datetimes as the start value is.
     */
    function AsRange(): (r: RangeInterface)
      ensures startFrom.None? ==> r == FloatRange(DefaultRange())
      ensures startFrom.Some? && startFrom.value.Float? ==>
        r == FloatRange(ResolvedDirection().AsRangeFrom(startFrom.value.f))
      ensures startFrom.Some? && startFrom.value.Datetime? ==>
        r == DateTimeRange(ResolvedDirection().AsRangeFrom(startFrom.value.dt))
    {
      match startFrom
      case None => FloatRange(DefaultRange())
      case Some(Float(f)) => FloatRange(ResolvedDirection().AsRangeFrom(f))
      case Some(Datetime(dt)) => DateTimeRange(ResolvedDirection().AsRangeFrom(dt))
    }

    /**
     * What the range of `AsRange` admits, for an order `le` on floats and
     * one on datetimes: with a start value, exactly the values at or past it
     * in the resolved direction; without one, every float.
     */
    lemma AsRangeAdmits(x: Json.f64, y: DateTime, le: (Json.f64, Json.f64) -> bool, leTime: (DateTime, DateTime) -> bool)
      ensures startFrom.None? ==> AsRange().FloatRange? && Contains(AsRange().floatRange, x, le)
      ensures startFrom.Some? && startFrom.value.Float? ==>
        (AsRange().FloatRange? &&
         (Contains(AsRange().floatRange, x, le) <==>
            if ResolvedDirection() == Asc then le(startFrom.value.f, x) else le(x, startFrom.value.f)))
      ensures startFrom.Some? && startFrom.value.Datetime? ==>
        (AsRange().DateTimeRange? &&
         (Contains(AsRange().dateTimeRange, y, leTime) <==>
            if ResolvedDirection() == Asc then leTime(startFrom.value.dt, y) else leTime(y, startFrom.value.dt)))
    {
      match startFrom
      case None =>
      case Some(Float(f)) => AsRangeFromAdmits(ResolvedDirection(), f, x, le);
      case Some(Datetime(dt)) => AsRangeFromAdmits(ResolvedDirection(), dt, y, leTime);
    }

    /**
     * `remove_order_value_from_payload`: the reserved key is deleted from
     * the caller's payload, and its value is returned when it is a JSON
     * number; with no payload, no such key or a non-numeric value, the
     * sentinel of the resolved direction is returned instead.
     */
    function RemoveOrderValueFromPayload(payload: Option<Payload>): (r: Removal)
      ensures payload.None? ==> r.payload.None?
      ensures payload.Some? ==> r.payload == Some(payload.value - {INTERNAL_KEY_OF_ORDER_BY_VALUE})
      ensures payload.Some? && INTERNAL_KEY_OF_ORDER_BY_VALUE in payload.value
              && payload.value[INTERNAL_KEY_OF_ORDER_BY_VALUE].Num? ==>
        Some(r.value) == Json.AsF64(payload.value[INTERNAL_KEY_OF_ORDER_BY_VALUE])
      ensures payload.None? || INTERNAL_KEY_OF_ORDER_BY_VALUE !in payload.value
              || !payload.value[INTERNAL_KEY_OF_ORDER_BY_VALUE].Num? ==>
        r.value == Sentinel(ResolvedDirection())
    {
      match payload
      case None => Removal(Sentinel(ResolvedDirection()), None)
      case Some(p) =>
        var removed := if INTERNAL_KEY_OF_ORDER_BY_VALUE in p then Some(p[INTERNAL_KEY_OF_ORDER_BY_VALUE]) else None;
        var rest := p - {INTERNAL_KEY_OF_ORDER_BY_VALUE};
        match removed
        case Some(v) =>
          (match Json.AsF64(v)
           case Some(f) => Removal(f, Some(rest))
           case None => Removal(Sentinel(ResolvedDirection()), Some(rest)))
        case None => Removal(Sentinel(ResolvedDirection()), Some(rest))
    }
  }

  /**
   * `insert_order_value_in_payload`: a missing payload counts as empty; the
   * result maps the reserved key to the value as JSON and every other key
   * as before.
   */
  function InsertOrderValueInPayload(payload: Option<Payload>, value: Json.f64): (r: Payload)
    ensures INTERNAL_KEY_OF_ORDER_BY_VALUE in r
    ensures r[INTERNAL_KEY_OF_ORDER_BY_VALUE] == Json.FromF64(value)
    ensures payload.None? ==> r.Keys == {INTERNAL_KEY_OF_ORDER_BY_VALUE}
    ensures payload.Some? ==> r.Keys == payload.value.Keys + {INTERNAL_KEY_OF_ORDER_BY_VALUE}
    ensures payload.Some? ==> forall k :: k in payload.value && k != INTERNAL_KEY_OF_ORDER_BY_VALUE ==> r[k] == payload.value[k]
  {
    var p := payload.GetOr(map[]);
    p[INTERNAL_KEY_OF_ORDER_BY_VALUE := Json.FromF64(value)]
  }

  /**
   * Round trip: removing what was inserted gives back a finite value
   * unchanged, and leaves the original payload without the reserved key.
   * A non-finite value is stored as JSON null, so removing it gives the
   * sentinel instead.
   */
  lemma InsertThenRemove(o: OrderBy, payload: Option<Payload>, value: Json.f64)
    ensures var r := o.RemoveOrderValueFromPayload(Some(InsertOrderValueInPayload(payload, value)));
      r.payload == Some(payload.GetOr(map[]) - {INTERNAL_KEY_OF_ORDER_BY_VALUE}) &&
      r.value == if Json.IsFinite(value) then value else Sentinel(o.ResolvedDirection())
  {
    var inserted := InsertOrderValueInPayload(payload, value);
    Json.AsF64OfFromF64(value);
    assert inserted - {INTERNAL_KEY_OF_ORDER_BY_VALUE} == payload.GetOr(map[]) - {INTERNAL_KEY_OF_ORDER_BY_VALUE};
  }

  /** A second removal finds nothing: it returns the sentinel and leaves the payload as the first left it. */
  lemma RemoveTwice(o: OrderBy, payload: Option<Payload>)
    ensures var first := o.RemoveOrderValueFromPayload(payload);
      var second := o.RemoveOrderValueFromPayload(first.payload);
      second.payload == first.payload && second.value == Sentinel(o.ResolvedDirection())
  {
    if payload.Some? {
      var once := payload.value - {INTERNAL_KEY_OF_ORDER_BY_VALUE};
      assert once - {INTERNAL_KEY_OF_ORDER_BY_VALUE} == once;
    }
  }
}
