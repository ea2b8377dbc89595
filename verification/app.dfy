/** The pure helpers of the seat-map page (frontend/src/App.jsx): id
    normalisation of fetched seats, zone colours, search highlighting, the
    countdown label and the random "auto-select" of a free seat. JavaScript
    values are modelled by JsValue; the clock and the random draw are inputs. */
module App {
  import opened Base
  import opened Text

  /** A JavaScript value as the page sees it in fetched JSON. Numbers are integers. */
  datatype JsValue =
    | Undefined
    | Null
    | Bool(b: bool)
    | Num(n: int)
    | Str(s: string)
    | Obj(fields: map<string, JsValue>)

  type JsObject = map<string, JsValue>

  /** `o.key`: a missing property reads as undefined. */
  function Prop(o: JsObject, key: string): JsValue
  {
    if key in o then o[key] else Undefined
  }

  /** JavaScript truthiness. */
  predicate JsTruthy(v: JsValue)
  {
    match v
    case Undefined => false
    case Null => false
    case Bool(b) => b
    case Num(n) => n != 0
    case Str(s) => s != ""
    case Obj(_) => true
  }

  /** How a template literal renders a value. */
  function JsToString(v: JsValue): string
  {
    match v
    case Undefined => "undefined"
    case Null => "null"
    case Bool(b) => if b then "true" else "false"
    case Num(n) => if n < 0 then "-" + NatToString(-n) else NatToString(n)
    case Str(s) => s
    case Obj(_) => "[object Object]"
  }

  // ---------------------------------------------------------------------------
  // Id normalisation
  // ---------------------------------------------------------------------------

  /** `{...seat, id: seat.id || seat._id}`: every property is kept and `id` is
      set to `seat.id` when truthy, else to `seat._id`. */
  function Normalise(seat: JsObject): (r: JsObject)
    ensures r.Keys == seat.Keys + {"id"}
    ensures forall k :: k in seat && k != "id" ==> r[k] == seat[k]
    ensures JsTruthy(Prop(seat, "id")) ==> r["id"] == seat["id"]
    ensures !JsTruthy(Prop(seat, "id")) ==> r["id"] == Prop(seat, "_id")
  {
    seat["id" := if JsTruthy(Prop(seat, "id")) then Prop(seat, "id") else Prop(seat, "_id")]
  }

  /** Normalising twice is normalising once. */
  lemma NormaliseIdempotent(seat: JsObject)
    ensures Normalise(Normalise(seat)) == Normalise(seat)
  {
    var once := Normalise(seat);
    assert Prop(once, "_id") == Prop(seat, "_id");
  }

  /** The fetched list, every seat normalised, order and length kept. */
  function NormaliseAll(seats: seq<JsObject>): (r: seq<JsObject>)
    ensures |r| == |seats|
    ensures forall i :: 0 <= i < |seats| ==> r[i] == Normalise(seats[i])
  {
    seq(|seats|, i requires 0 <= i < |seats| => Normalise(seats[i]))
  }

  // ---------------------------------------------------------------------------
  // Zones
  // ---------------------------------------------------------------------------

  datatype Zone = Blue | Orange | Red | Green

  /** `getZoneStyle`'s choice: ids up to 25, up to 50, up to 75, and the rest. */
  function ZoneOf(id: int): (z: Zone)
    ensures z == Blue <==> id <= 25
    ensures z == Orange <==> 25 < id <= 50
    ensures z == Red <==> 50 < id <= 75
    ensures z == Green <==> 75 < id
  {
    if id <= 25 then Blue
    else if id <= 50 then Orange
    else if id <= 75 then Red
    else Green
  }

  /** The Tailwind colour of a zone. */
  function Colour(z: Zone): (r: string)
    ensures |r| >= 3
  {
    match z
    case Blue => "blue"
    case Orange => "orange"
    case Red => "red"
    case Green => "green"
  }

  /** The class list of a zone: border, background and text in the zone's
      colour, with darker border and background on hover. */
  function ZoneClasses(z: Zone): (r: string)
    ensures |r| > 7 && r[..7] == "border-" && r[7] == Colour(z)[0]
  {
    var c := Colour(z);
    "border-" + c + "-200 bg-" + c + "-50 text-" + c + "-400 hover:border-" + c + "-500 hover:bg-" + c + "-100"
  }

  /** `getZoneStyle(id)`: the class list of the seat's zone. */
  function ZoneStyle(id: int): string
  {
    ZoneClasses(ZoneOf(id))
  }

  /** Seats get the same classes exactly when they are in the same zone. */
  lemma ZoneStyleSameIff(a: int, b: int)
    ensures ZoneStyle(a) == ZoneStyle(b) <==> ZoneOf(a) == ZoneOf(b)
  {
    // The colour names start with four different letters.
    var za, zb := ZoneOf(a), ZoneOf(b);
    if za != zb {
      assert ZoneClasses(za)[7] != ZoneClasses(zb)[7];
    }
  }

  // ---------------------------------------------------------------------------
  // Search
  // ---------------------------------------------------------------------------

  /** A value read as a string, when it is one. */
  function AsString(v: JsValue): Option<string>
  {
    if v.Str? then Some(v.s) else None
  }

  /** `seat.user_details?.full_name`, when it is a string. */
  function FullName(seat: JsObject): Option<string>
  {
    match Prop(seat, "user_details")
    case Obj(details) => AsString(Prop(details, "full_name"))
    case _ => None
  }

  /** `seat.booked_by`, when it is a string. */
  function BookedBy(seat: JsObject): Option<string>
  {
    AsString(Prop(seat, "booked_by"))
  }

  /** The lower-cased query occurs in the lower-cased field. */
  ghost predicate FieldMatches(field: Option<string>, query: string)
  {
    field.Some? && Contains(Lower(field.value), Lower(query))
  }

  /** `isSearched`: an empty query highlights nothing; otherwise a seat is
      highlighted exactly when the query, ignoring case, occurs in its
      occupant's full name or in its `booked_by`. */
  function IsSearched(seat: JsObject, query: string): (r: bool)
    ensures query == "" ==> !r
    ensures query != "" ==>
      (r <==> FieldMatches(FullName(seat), query) || FieldMatches(BookedBy(seat), query))
  {
    if query == "" then false
    else
      var q := Lower(query);
      FieldIncludes(FullName(seat), q) || FieldIncludes(BookedBy(seat), q)
  }

  /** `field?.toLowerCase().includes(q)`: false when the field is missing. */
  function FieldIncludes(field: Option<string>, q: string): (r: bool)
    ensures r <==> field.Some? && Contains(Lower(field.value), q)
  {
    if field.None? then false
    else
      IncludesSpec(Lower(field.value), q);
      Includes(Lower(field.value), q)
  }

  // ---------------------------------------------------------------------------
  // Countdown
  // ---------------------------------------------------------------------------

  /** 45 minutes in milliseconds. */
  const BOOKING_WINDOW_MS: int := 45 * 60 * 1000
  const MS_PER_MINUTE: int := 1000 * 60

  datatype TimeLeft = NotStarted | Expiring | MinutesLeft(minutes: int)

  /** `getTimeLeft`'s arithmetic, with the booking time already read as
      milliseconds (None when it is missing or empty) and the clock as `now`. */
  function TimeLeftOf(bookedAt: Option<int>, now: int): (t: TimeLeft)
    ensures t == NotStarted <==> bookedAt.None?
    ensures t == Expiring <==> bookedAt.Some? && now >= bookedAt.value + BOOKING_WINDOW_MS
    ensures t.MinutesLeft? ==>
      var diff := bookedAt.value + BOOKING_WINDOW_MS - now;
      0 <= t.minutes && t.minutes * MS_PER_MINUTE <= diff < (t.minutes + 1) * MS_PER_MINUTE
    ensures t.MinutesLeft? && now >= bookedAt.value ==> t.minutes <= 45
  {
    match bookedAt
    case None => NotStarted
    case Some(at) =>
      var diff := at + BOOKING_WINDOW_MS - now;
      if diff <= 0 then Expiring else MinutesLeft(diff / MS_PER_MINUTE)
  }

  function RenderTimeLeft(t: TimeLeft): string
  {
    match t
    case NotStarted => "45m 00s"
    case Expiring => "Expiring..."
    case MinutesLeft(m) => (if m < 0 then "-" + NatToString(-m) else NatToString(m)) + "m left"
  }

  /** Different countdown states render to different labels. */
  lemma RenderTimeLeftInjective(t1: TimeLeft, t2: TimeLeft)
    requires t1.MinutesLeft? ==> t1.minutes >= 0
    requires t2.MinutesLeft? ==> t2.minutes >= 0
    ensures RenderTimeLeft(t1) == RenderTimeLeft(t2) <==> t1 == t2
  {
    if t1.MinutesLeft? && t2.MinutesLeft? && RenderTimeLeft(t1) == RenderTimeLeft(t2) {
      var a, b := NatToString(t1.minutes), NatToString(t2.minutes);
      assert a + "m left" == b + "m left";
      assert |a| == |b|;
      assert a == (a + "m left")[..|a|];
      assert b == (b + "m left")[..|b|];
      NatToStringInjective(t1.minutes, t2.minutes);
    } else if t1.MinutesLeft? != t2.MinutesLeft? {
      var x, y := RenderTimeLeft(t1), RenderTimeLeft(t2);
      assert x[|x| - 1] != y[|y| - 1];
    }
  }

  /** `getTimeLeft`: "45m 00s" without a booking time, "Expiring..." exactly
      when the 45 minutes are over, else the whole minutes left. */
  function GetTimeLeft(bookedAt: Option<int>, now: int): (r: string)
    ensures bookedAt.None? <==> r == "45m 00s"
    ensures r == "Expiring..." <==> bookedAt.Some? && now >= bookedAt.value + BOOKING_WINDOW_MS
  {
    var t := TimeLeftOf(bookedAt, now);
    RenderTimeLeftInjective(t, NotStarted);
    RenderTimeLeftInjective(t, Expiring);
    RenderTimeLeft(t)
  }

  /** While the 45 minutes run, the label is a decimal number followed by
      "m left", and that number is the whole minutes left. */
  lemma GetTimeLeftMinutes(bookedAt: Option<int>, now: int)
    requires bookedAt.Some? && now < bookedAt.value + BOOKING_WINDOW_MS
    ensures var r := GetTimeLeft(bookedAt, now);
      && |r| > 6 && r[|r| - 6..] == "m left"
      && (forall i :: 0 <= i < |r| - 6 ==> IsDigit(r[i]))
      && ParseNat(r[..|r| - 6]) == (bookedAt.value + BOOKING_WINDOW_MS - now) / MS_PER_MINUTE
  {
    var r := GetTimeLeft(bookedAt, now);
    var m := (bookedAt.value + BOOKING_WINDOW_MS - now) / MS_PER_MINUTE;
    var d := NatToString(m);
    assert r == d + "m left";
    assert r[..|r| - 6] == d;
    ParseNatToString(m);
  }

  // ---------------------------------------------------------------------------
  // Auto-select
  // ---------------------------------------------------------------------------

  /** `s.status === "available"`. */
  predicate IsAvailable(seat: JsObject)
  {
    Prop(seat, "status") == Str("available")
  }

  /** `seats.filter(s => s.status === "available")`. */
  function AvailableSeats(seats: seq<JsObject>): (r: seq<JsObject>)
    ensures |r| <= |seats|
    ensures forall x :: x in r <==> x in seats && IsAvailable(x)
  {
    if |seats| == 0 then []
    else
      assert forall x :: x in seats <==> x == seats[0] || x in seats[1..];
      (if IsAvailable(seats[0]) then [seats[0]] else []) + AvailableSeats(seats[1..])
  }

  /** A toast: its kind ("success" or "error") and text. */
  datatype Notice = Notice(kind: string, message: string)

  /** The page state `autoSelectSeat` touches. */
  datatype Selection = Selection(seat: Option<JsObject>, notice: Option<Notice>)

  /** `autoSelectSeat`, with `Math.random()` replaced by the draw `draw`: the
      seat picked is the available seat at position `draw` modulo their number. */
  function AutoSelect(seats: seq<JsObject>, current: Selection, draw: nat): (r: Selection)
    ensures (forall x :: x in seats ==> !IsAvailable(x)) ==>
      r == current.(notice := Some(Notice("error", "No seats available!")))
    ensures (exists x :: x in seats && IsAvailable(x)) ==>
      && r.seat.Some? && r.seat.value in seats && IsAvailable(r.seat.value)
      && r.notice == Some(Notice("success", "AI selected Seat #" + JsToString(Prop(r.seat.value, "id"))))
  {
    var available := AvailableSeats(seats);
    if |available| == 0 then
      current.(notice := Some(Notice("error", "No seats available!")))
    else
      var pick := available[draw % |available|];
      assert pick in available;
      Selection(Some(pick), Some(Notice("success", "AI selected Seat #" + JsToString(Prop(pick, "id")))))
  }

  /** Every available seat is picked by some draw: the choice ranges over all of them. */
  lemma AutoSelectReachesEvery(seats: seq<JsObject>, current: Selection, x: JsObject)
    requires x in seats && IsAvailable(x)
    ensures exists draw: nat :: AutoSelect(seats, current, draw).seat == Some(x)
  {
    var available := AvailableSeats(seats);
    var j :| 0 <= j < |available| && available[j] == x;
    assert j % |available| == j;
    assert AutoSelect(seats, current, j).seat == Some(x);
  }
}
