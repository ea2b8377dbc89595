/** The seat ledger (backend/main.py): seeding at start-up, listing, booking
    and releasing seats. Every route reads the session user first and fails
    with 401 before touching the store when there is none. Each route is a
    transition from a store to a response and a new store. */
module Ledger {
  import opened Base
  import opened Schemas
  import opened Auth

  const AVAILABLE: string := "available"
  const OCCUPIED: string := "occupied"
  const SEAT_COUNT: nat := 100
  const SEAT_PRICE: int := 5
  /** `to_list(1000)`: the most documents one listing returns. */
  const LIST_LIMIT: nat := 1000

  /** One document of the seats collection, keyed by `_id`. */
  datatype Seat = Seat(id: int, status: string, price: int, bookedBy: Option<string>)

  /** The body of `POST /book`. Only `seatId` is used by the route. */
  datatype BookingRequest = BookingRequest(seatId: int, name: string, date: string, timeSlot: string)

  /** The two collections, in their natural order. */
  datatype Store = Store(seats: seq<Seat>, employees: seq<Employee>)

  /** A route's answer: a `{"message": ...}` body, a list of seats, or an HTTP error. */
  datatype Response = Message(text: string) | SeatList(seats: seq<Seat>) | Failed(error: HttpError)

  const SeatUnavailable := HttpError(400, "Seat unavailable")

  /** The seat document `find_one({"_id": id})` returns and `update_one` changes. */
  function FindSeat(seats: seq<Seat>, id: int): (r: Option<nat>)
    ensures r.Some? ==> r.value < |seats| && seats[r.value].id == id
    ensures r.Some? ==> forall k :: 0 <= k < r.value ==> seats[k].id != id
    ensures r.None? ==> forall k :: 0 <= k < |seats| ==> seats[k].id != id
  {
    FirstIndex(seats, (st: Seat) => st.id == id)
  }

  // ---------------------------------------------------------------------------
  // Invariants
  // ---------------------------------------------------------------------------

  ghost function Ids(seats: seq<Seat>): set<int>
  {
    set st | st in seats :: st.id
  }

  /** The seat ids in collection order. */
  function IdList(seats: seq<Seat>): (r: seq<int>)
    ensures |r| == |seats|
    ensures forall k :: 0 <= k < |seats| ==> r[k] == seats[k].id
  {
    seq(|seats|, k requires 0 <= k < |seats| => seats[k].id)
  }

  /** The seat ids are exactly 1..n. */
  ghost predicate IdsAreOneTo(seats: seq<Seat>, n: nat)
  {
    forall k :: k in Ids(seats) <==> 1 <= k <= n
  }

  ghost predicate UniqueSeatIds(seats: seq<Seat>)
  {
    forall i, j :: 0 <= i < j < |seats| ==> seats[i].id != seats[j].id
  }

  /** A seat is available or occupied, and names a (non-empty) booker exactly
      when it is occupied. */
  ghost predicate ConsistentSeat(st: Seat)
  {
    && (st.status == AVAILABLE || st.status == OCCUPIED)
    && (st.bookedBy.Some? <==> st.status == OCCUPIED)
    && (st.bookedBy.Some? ==> st.bookedBy.value != "")
  }

  ghost predicate SeatsWellFormed(seats: seq<Seat>)
  {
    UniqueSeatIds(seats) && forall k :: 0 <= k < |seats| ==> ConsistentSeat(seats[k])
  }

  ghost predicate Valid(s: Store)
  {
    SeatsWellFormed(s.seats) && EmployeesWellFormed(s.employees)
  }

  // ---------------------------------------------------------------------------
  // Start-up
  // ---------------------------------------------------------------------------

  /** The hundred seats a fresh ledger is seeded with. */
  function InitialSeats(): seq<Seat>
  {
    seq(SEAT_COUNT, i requires 0 <= i < SEAT_COUNT => Seat(i + 1, AVAILABLE, SEAT_PRICE, None))
  }

  lemma InitialSeatsFacts()
    ensures |InitialSeats()| == SEAT_COUNT
    ensures IdsAreOneTo(InitialSeats(), SEAT_COUNT)
    ensures forall st :: st in InitialSeats() ==>
      st.status == AVAILABLE && st.price == SEAT_PRICE && st.bookedBy == None
    ensures SeatsWellFormed(InitialSeats())
  {
    var seats := InitialSeats();
    forall k | 1 <= k <= SEAT_COUNT
      ensures k in Ids(seats)
    {
      assert seats[k - 1] in seats;
    }
  }

  /** `seed`: fill an empty seats collection with seats 1..100, all available
      at price 5 and booked by nobody; a non-empty collection is left alone. */
  function Seed(s: Store): (r: Store)
    ensures |s.seats| != 0 ==> r == s
    ensures r.employees == s.employees
    ensures |s.seats| == 0 ==>
      && |r.seats| == SEAT_COUNT
      && IdsAreOneTo(r.seats, SEAT_COUNT)
      && (forall st :: st in r.seats ==> st.status == AVAILABLE && st.price == SEAT_PRICE && st.bookedBy == None)
      && SeatsWellFormed(r.seats)
  {
    if |s.seats| == 0 then
      InitialSeatsFacts();
      s.(seats := InitialSeats())
    else
      s
  }

  // ---------------------------------------------------------------------------
  // Routes
  // ---------------------------------------------------------------------------

  /** `GET /seats`: the first thousand seat documents, in collection order. */
  function GetSeats(session: Session, s: Store): (r: Response)
    ensures r.SeatList? <==> session.Some?
    ensures session.None? ==> r == Failed(NotAuthenticated)
    ensures r.SeatList? ==> r.seats <= s.seats
    ensures r.SeatList? ==> |r.seats| == if |s.seats| <= LIST_LIMIT then |s.seats| else LIST_LIMIT
  {
    match CurrentUser(session)
    case Err(e) => Failed(e)
    case Ok(_) => SeatList(if |s.seats| <= LIST_LIMIT then s.seats else s.seats[..LIST_LIMIT])
  }

  /** `$addToSet`: append `x` unless it is already there. */
  function AddToSet(s: seq<int>, x: int): (r: seq<int>)
    ensures s <= r && x in r
    ensures forall y :: y in r ==> y in s || y == x
    ensures NoDuplicates(s) ==> NoDuplicates(r)
  {
    if x in s then s else s + [x]
  }

  /** The employee half of a booking: `$addToSet` the seat into the caller's
      `booked_seats`, upserting a document that holds only `w3_id` and the seat. */
  function AddBookedSeat(es: seq<Employee>, w: string, seatId: int): (r: seq<Employee>)
    ensures HistoryKept(es, r)
    ensures |r| <= |es| + 1
    ensures exists k :: 0 <= k < |r| && r[k].w3Id == Some(w) && seatId in r[k].bookedSeats
    ensures UniqueKeys(es) ==> UniqueKeys(r)
    ensures EmployeesWellFormed(es) ==> EmployeesWellFormed(r)
  {
    match FindEmployee(es, w)
    case Some(i) =>
      var r := es[i := es[i].(bookedSeats := AddToSet(es[i].bookedSeats, seatId))];
      assert r[i].w3Id == Some(w);
      r
    case None =>
      var r := es + [Employee(Some(w), None, None, None, None, None, None, [seatId])];
      assert r[|es|].w3Id == Some(w);
      r
  }

  /** With unique keys, only the caller's document changes (or one is added),
      and only in `booked_seats`. */
  lemma AddBookedSeatEffect(es: seq<Employee>, w: string, seatId: int)
    requires UniqueKeys(es)
    ensures var r := AddBookedSeat(es, w, seatId);
      && ((forall k :: 0 <= k < |es| ==> es[k].w3Id != Some(w)) ==>
            r == es + [Employee(Some(w), None, None, None, None, None, None, [seatId])])
      && ((exists k :: 0 <= k < |es| && es[k].w3Id == Some(w)) ==>
            |r| == |es| &&
            forall k :: 0 <= k < |es| ==>
              r[k] == if es[k].w3Id == Some(w)
                      then es[k].(bookedSeats := AddToSet(es[k].bookedSeats, seatId))
                      else es[k])
      && KeyCount(r, w) == 1
  {
    var r := AddBookedSeat(es, w, seatId);
    match FindEmployee(es, w) {
      case None =>
      case Some(i) =>
        assert forall k :: 0 <= k < i ==> es[k].w3Id != es[i].w3Id;
        assert forall k :: i < k < |es| ==> es[i].w3Id != es[k].w3Id;
    }
    UniqueKeysCount(r, w);
  }

  /** `POST /book`: a seat that is absent or occupied gives 400 "Seat
      unavailable" (the two are not told apart) and changes nothing; otherwise
      the seat becomes occupied by the caller and is added to the caller's
      `booked_seats`. The request's name, date and time slot are not stored. */
  function Book(session: Session, req: BookingRequest, s: Store): (r: (Response, Store))
    ensures session.None? ==> r == (Failed(NotAuthenticated), s)
    ensures r.0 == Message("Seat booked") || r.0 == Failed(NotAuthenticated) || r.0 == Failed(SeatUnavailable)
    ensures !r.0.Message? ==> r.1 == s
    ensures session.Some? &&
      (forall k :: 0 <= k < |s.seats| ==> s.seats[k].id != req.seatId || s.seats[k].status == OCCUPIED)
      ==> r == (Failed(SeatUnavailable), s)
    ensures r.0.Message? ==> |r.1.seats| == |s.seats| && IdList(r.1.seats) == IdList(s.seats)
    ensures r.0.Message? ==> HistoryKept(s.employees, r.1.employees)
  {
    match CurrentUser(session)
    case Err(e) => (Failed(e), s)
    case Ok(user) =>
      var found := FindSeat(s.seats, req.seatId);
      if found.None? || s.seats[found.value].status == OCCUPIED then
        (Failed(SeatUnavailable), s)
      else
        var i := found.value;
        var seats := s.seats[i := s.seats[i].(status := OCCUPIED, bookedBy := Some(user.w3Id))];
        (Message("Seat booked"), Store(seats, AddBookedSeat(s.employees, user.w3Id, req.seatId)))
  }

  /** With unique seat ids: a booking succeeds exactly when there is a session
      and a seat with that id that is not occupied; then that seat alone turns
      occupied by the caller, keeping its id and price, and the caller's
      document ends up holding the seat. */
  lemma BookEffect(session: Session, req: BookingRequest, s: Store)
    requires UniqueSeatIds(s.seats)
    ensures var (resp, t) := Book(session, req, s);
      && (resp.Message? <==>
            session.Some? &&
            exists k :: 0 <= k < |s.seats| && s.seats[k].id == req.seatId && s.seats[k].status != OCCUPIED)
      && (resp.Message? ==>
            && |t.seats| == |s.seats|
            && (forall k :: 0 <= k < |s.seats| ==>
                  t.seats[k] == if s.seats[k].id == req.seatId
                                then s.seats[k].(status := OCCUPIED, bookedBy := Some(session.value.w3Id))
                                else s.seats[k])
            && t.employees == AddBookedSeat(s.employees, session.value.w3Id, req.seatId)
            && (exists k :: 0 <= k < |t.employees| &&
                  t.employees[k].w3Id == Some(session.value.w3Id) && req.seatId in t.employees[k].bookedSeats))
  {
    var found := FindSeat(s.seats, req.seatId);
    if session.Some? && found.Some? {
      var i := found.value;
      assert forall k :: i < k < |s.seats| ==> s.seats[i].id != s.seats[k].id;
    }
  }

  /** Booking never looks at the request's name, date or time slot. */
  lemma BookIgnoresDetails(session: Session, req: BookingRequest, s: Store, name: string, date: string, timeSlot: string)
    ensures Book(session, req, s) == Book(session, req.(name := name, date := date, timeSlot := timeSlot), s)
  {
  }

  /** Booking keeps the ledger valid, given a session with a non-empty `w3_id`. */
  lemma BookPreservesValid(session: Session, req: BookingRequest, s: Store)
    requires Valid(s) && ValidSession(session)
    ensures Valid(Book(session, req, s).1)
  {
    var t := Book(session, req, s).1;
    BookEffect(session, req, s);
    if Book(session, req, s).0.Message? {
      forall i, j | 0 <= i < j < |t.seats|
        ensures t.seats[i].id != t.seats[j].id
      {
        assert t.seats[i].id == s.seats[i].id && t.seats[j].id == s.seats[j].id;
      }
      forall k | 0 <= k < |t.seats|
        ensures ConsistentSeat(t.seats[k])
      {
        assert ConsistentSeat(s.seats[k]);
      }
    }
  }

  /** A second booking of a seat that was just booked fails and changes nothing. */
  lemma DoubleBooking(session1: Session, session2: Session, req1: BookingRequest, req2: BookingRequest, s: Store)
    requires Book(session1, req1, s).0.Message?
    requires req2.seatId == req1.seatId
    ensures var t := Book(session1, req1, s).1;
      && Book(session2, req2, t).0.Failed?
      && Book(session2, req2, t).1 == t
      && (session2.Some? ==> Book(session2, req2, t).0 == Failed(SeatUnavailable))
  {
    var t := Book(session1, req1, s).1;
    var i := FindSeat(s.seats, req1.seatId).value;
    assert t.seats[i].status == OCCUPIED;
    assert forall k :: 0 <= k < i ==> t.seats[k] == s.seats[k];
    assert FindSeat(t.seats, req2.seatId) == Some(i);
  }

  /** `POST /release/{seat_id}`: any signed-in caller may release any seat.
      The seat becomes available with no booker; an unknown id changes
      nothing and still answers "Seat released". Employees are never touched. */
  function Release(session: Session, seatId: int, s: Store): (r: (Response, Store))
    ensures session.None? ==> r == (Failed(NotAuthenticated), s)
    ensures session.Some? ==> r.0 == Message("Seat released")
    ensures r.1.employees == s.employees
    ensures IdList(r.1.seats) == IdList(s.seats)
    ensures forall k :: 0 <= k < |s.seats| ==> r.1.seats[k].price == s.seats[k].price
    ensures (forall k :: 0 <= k < |s.seats| ==> s.seats[k].id != seatId) ==> r.1 == s
  {
    match CurrentUser(session)
    case Err(e) => (Failed(e), s)
    case Ok(_) =>
      match FindSeat(s.seats, seatId)
      case None => (Message("Seat released"), s)
      case Some(i) =>
        (Message("Seat released"),
         s.(seats := s.seats[i := s.seats[i].(status := AVAILABLE, bookedBy := None)]))
  }

  /** With unique seat ids and a session, the seat with that id, whoever booked
      it, becomes available with no booker, and every other seat is unchanged. */
  lemma ReleaseEffect(session: Session, seatId: int, s: Store)
    requires UniqueSeatIds(s.seats)
    requires session.Some?
    ensures var t := Release(session, seatId, s).1;
      forall k :: 0 <= k < |s.seats| ==>
        t.seats[k] == if s.seats[k].id == seatId
                      then s.seats[k].(status := AVAILABLE, bookedBy := None)
                      else s.seats[k]
  {
    match FindSeat(s.seats, seatId) {
      case None =>
      case Some(i) =>
        assert forall k :: i < k < |s.seats| ==> s.seats[i].id != s.seats[k].id;
    }
  }

  lemma ReleasePreservesValid(session: Session, seatId: int, s: Store)
    requires Valid(s)
    ensures Valid(Release(session, seatId, s).1)
  {
    var t := Release(session, seatId, s).1;
    if session.Some? {
      ReleaseEffect(session, seatId, s);
      forall i, j | 0 <= i < j < |t.seats|
        ensures t.seats[i].id != t.seats[j].id
      {
        assert IdList(t.seats)[i] == IdList(s.seats)[i];
        assert IdList(t.seats)[j] == IdList(s.seats)[j];
      }
      forall k | 0 <= k < |t.seats|
        ensures ConsistentSeat(t.seats[k])
      {
        assert ConsistentSeat(s.seats[k]);
      }
    }
  }

  /** Releasing a seat that is already available changes nothing and still
      answers "Seat released". */
  lemma ReleaseAvailableIsNoOp(session: Session, seatId: int, s: Store)
    requires Valid(s) && session.Some?
    requires forall k :: 0 <= k < |s.seats| && s.seats[k].id == seatId ==> s.seats[k].status == AVAILABLE
    ensures Release(session, seatId, s) == (Message("Seat released"), s)
  {
    var t := Release(session, seatId, s).1;
    ReleaseEffect(session, seatId, s);
    forall k | 0 <= k < |s.seats|
      ensures t.seats[k] == s.seats[k]
    {
      if s.seats[k].id == seatId {
        assert ConsistentSeat(s.seats[k]);
        assert s.seats[k].status != OCCUPIED by {
          assert AVAILABLE[0] != OCCUPIED[0];
        }
      }
    }
    assert t.seats == s.seats;
  }

  /** Booking a free seat and then releasing it restores the seats collection;
      the booking stays recorded in the employee's `booked_seats`. */
  lemma BookThenRelease(session1: Session, session2: Session, req: BookingRequest, s: Store)
    requires Valid(s)
    requires Book(session1, req, s).0.Message?
    requires session2.Some?
    ensures var t := Book(session1, req, s).1;
      var u := Release(session2, req.seatId, t).1;
      && u.seats == s.seats
      && u.employees == t.employees
      && HistoryKept(s.employees, u.employees)
  {
    var t := Book(session1, req, s).1;
    var u := Release(session2, req.seatId, t).1;
    BookEffect(session1, req, s);
    assert UniqueSeatIds(t.seats) by {
      forall i, j | 0 <= i < j < |t.seats|
        ensures t.seats[i].id != t.seats[j].id
      {
        assert t.seats[i].id == s.seats[i].id && t.seats[j].id == s.seats[j].id;
      }
    }
    ReleaseEffect(session2, req.seatId, t);
    forall k | 0 <= k < |s.seats|
      ensures u.seats[k] == s.seats[k]
    {
      if s.seats[k].id == req.seatId {
        assert ConsistentSeat(s.seats[k]);
      }
    }
  }

  /** After seeding an empty store, a signed-in listing returns exactly the
      hundred seats 1..100. */
  lemma SeededListing(user: SessionUser, es: seq<Employee>)
    ensures var r := GetSeats(Some(user), Seed(Store([], es)));
      && r.SeatList?
      && |r.seats| == SEAT_COUNT
      && IdsAreOneTo(r.seats, SEAT_COUNT)
      && forall st :: st in r.seats ==> st.status == AVAILABLE
  {
    InitialSeatsFacts();
  }
}
