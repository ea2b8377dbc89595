/** The service as a whole: the requests the back end serves, one step of the
    store per request, runs of many requests, and what the seat-map page sees
    of a listing. The invariants of the ledger and the employees collection
    hold along every run whose sessions were written by the login callback. */
module Service {
  import opened Base
  import opened Schemas
  import opened Auth
  import opened Ledger
  import opened App

  /** A request reaching the back end, with everything it reads from outside:
      the caller's session, and for the callback the provider's answer and the
      clock. `Startup` is the start-up hook. */
  datatype Request =
    | Startup
    | ListSeats(session: Session)
    | BookSeat(session: Session, booking: BookingRequest)
    | ReleaseSeat(session: Session, seatId: int)
    | LoginCallback(code: Option<string>, error: Option<string>, reply: TokenReply,
                    session: Session, now: int, elapsed: nat)

  /** What a request answers: nothing (start-up), a route's response, or the
      callback's redirect together with the session it leaves. */
  datatype Reply =
    | NoReply
    | Routed(response: Response)
    | Redirect(location: string, session: Session)

  /** The request carries no session, or one the callback could have written. */
  ghost predicate SessionOk(req: Request)
  {
    !req.Startup? ==> ValidSession(req.session)
  }

  /** One request served against the store. Only the callback and booking
      write employees; the callback never writes seats; a listing writes nothing. */
  function Step(cfg: Config, s: Store, req: Request): (r: (Reply, Store))
    ensures req.ListSeats? ==> r.1 == s && r.0.Routed?
    ensures r.0.Redirect? <==> req.LoginCallback?
    ensures r.0.NoReply? <==> req.Startup?
    ensures !req.LoginCallback? && !req.BookSeat? ==> r.1.employees == s.employees
    ensures req.LoginCallback? ==> r.1.seats == s.seats
  {
    match req
    case Startup => (NoReply, Seed(s))
    case ListSeats(session) => (Routed(GetSeats(session, s)), s)
    case BookSeat(session, booking) =>
      var (resp, t) := Book(session, booking, s);
      (Routed(resp), t)
    case ReleaseSeat(session, seatId) =>
      var (resp, t) := Release(session, seatId, s);
      (Routed(resp), t)
    case LoginCallback(code, error, reply, session, now, elapsed) =>
      var c := Callback(cfg, code, error, reply, s.employees, session, now, elapsed);
      (Redirect(c.location, c.session), s.(employees := c.employees))
  }

  /** The store after serving the requests in order. */
  function Run(cfg: Config, s: Store, reqs: seq<Request>): Store
    decreases |reqs|
  {
    if |reqs| == 0 then s else Run(cfg, Step(cfg, s, reqs[0]).1, reqs[1..])
  }

  lemma HistoryKeptReflexive(es: seq<Employee>)
    ensures HistoryKept(es, es)
  {
  }

  /** One step keeps the store valid, never removes or re-keys an employee or
      shortens a `booked_seats` list, and, once there are seats, keeps the seat
      ids and their order. */
  lemma StepPreservesValid(cfg: Config, s: Store, req: Request)
    requires Valid(s) && SessionOk(req)
    ensures var t := Step(cfg, s, req).1;
      && Valid(t)
      && HistoryKept(s.employees, t.employees)
      && (|s.seats| != 0 ==> IdList(t.seats) == IdList(s.seats))
  {
    HistoryKeptReflexive(s.employees);
    match req {
      case Startup =>
      case ListSeats(_) =>
      case BookSeat(session, booking) =>
        BookPreservesValid(session, booking, s);
      case ReleaseSeat(session, seatId) =>
        ReleasePreservesValid(session, seatId, s);
      case LoginCallback(code, error, reply, session, now, elapsed) =>
    }
  }

  /** Every run of requests with callback-written sessions keeps the store
      valid and the employees' history, and a seeded ledger keeps its seat ids. */
  lemma {:induction false} RunPreservesValid(cfg: Config, s: Store, reqs: seq<Request>)
    requires Valid(s)
    requires forall i :: 0 <= i < |reqs| ==> SessionOk(reqs[i])
    ensures var t := Run(cfg, s, reqs);
      && Valid(t)
      && HistoryKept(s.employees, t.employees)
      && (|s.seats| != 0 ==> IdList(t.seats) == IdList(s.seats))
    decreases |reqs|
  {
    if |reqs| == 0 {
      HistoryKeptReflexive(s.employees);
    } else {
      var s1 := Step(cfg, s, reqs[0]).1;
      StepPreservesValid(cfg, s, reqs[0]);
      assert forall i :: 0 <= i < |reqs[1..]| ==> SessionOk(reqs[1..][i]) by {
        forall i | 0 <= i < |reqs[1..]|
          ensures SessionOk(reqs[1..][i])
        {
          assert reqs[1..][i] == reqs[i + 1];
        }
      }
      RunPreservesValid(cfg, s1, reqs[1..]);
      HistoryKeptTransitive(s.employees, s1.employees, Run(cfg, s1, reqs[1..]).employees);
    }
  }

  /** Seat lists with the same ids in the same order have the same id set. */
  lemma IdListIds(a: seq<Seat>, b: seq<Seat>)
    requires IdList(a) == IdList(b)
    ensures Ids(a) == Ids(b)
  {
    forall x | x in Ids(a)
      ensures x in Ids(b)
    {
      var st :| st in a && st.id == x;
      var k :| 0 <= k < |a| && a[k] == st;
      assert IdList(a)[k] == b[k].id;
    }
    forall x | x in Ids(b)
      ensures x in Ids(a)
    {
      var st :| st in b && st.id == x;
      var k :| 0 <= k < |b| && b[k] == st;
      assert IdList(b)[k] == a[k].id;
    }
  }

  /** Started on an empty database, the service holds exactly the seats
      1..100 after start-up and any number of requests. */
  lemma StartedServiceKeepsHundredSeats(cfg: Config, es: seq<Employee>, reqs: seq<Request>)
    requires EmployeesWellFormed(es)
    requires forall i :: 0 <= i < |reqs| ==> SessionOk(reqs[i])
    ensures var t := Run(cfg, Seed(Store([], es)), reqs);
      && Valid(t)
      && |t.seats| == SEAT_COUNT
      && IdsAreOneTo(t.seats, SEAT_COUNT)
  {
    var s := Seed(Store([], es));
    RunPreservesValid(cfg, s, reqs);
    IdListIds(Run(cfg, s, reqs).seats, s.seats);
  }

  // ---------------------------------------------------------------------------
  // What the page sees of a listing
  // ---------------------------------------------------------------------------

  /** A seat as `GET /seats` serialises it: the id under its alias `_id`, and
      `booked_by` as null when nobody holds the seat. */
  function SeatJson(st: Seat): (o: JsObject)
    ensures o.Keys == {"_id", "status", "price", "booked_by"}
    ensures o["_id"] == Num(st.id) && o["status"] == Str(st.status) && o["price"] == Num(st.price)
    ensures st.bookedBy.None? <==> o["booked_by"] == Null
    ensures st.bookedBy.Some? ==> o["booked_by"] == Str(st.bookedBy.value)
  {
    map["_id" := Num(st.id),
        "status" := Str(st.status),
        "price" := Num(st.price),
        "booked_by" := if st.bookedBy.Some? then Str(st.bookedBy.value) else Null]
  }

  /** The seats as `fetchSeats` keeps them: serialised, then normalised. */
  function Page(seats: seq<Seat>): (r: seq<JsObject>)
    ensures |r| == |seats|
    ensures forall k :: 0 <= k < |seats| ==> r[k] == Normalise(SeatJson(seats[k]))
  {
    NormaliseAll(seq(|seats|, k requires 0 <= k < |seats| => SeatJson(seats[k])))
  }

  /** On the page every seat's `id` is its database id, and it counts as
      available exactly when its status is "available". */
  lemma PageSeat(seats: seq<Seat>, k: nat)
    requires k < |seats|
    ensures Prop(Page(seats)[k], "id") == Num(seats[k].id)
    ensures IsAvailable(Page(seats)[k]) <==> seats[k].status == AVAILABLE
  {
    var o := SeatJson(seats[k]);
    assert "id" !in o;
    assert Prop(Normalise(o), "status") == Str(seats[k].status);
  }

  /** A seat the page shows as available can be booked: with unique ids and a
      session, booking its id succeeds. */
  lemma ListedAvailableSeatIsBookable(session: Session, s: Store, x: JsObject, req: BookingRequest)
    requires session.Some? && UniqueSeatIds(s.seats)
    requires GetSeats(session, s).SeatList?
    requires x in Page(GetSeats(session, s).seats) && IsAvailable(x)
    requires Prop(x, "id") == Num(req.seatId)
    ensures Book(session, req, s).0 == Message("Seat booked")
  {
    var listed := GetSeats(session, s).seats;
    var page := Page(listed);
    var k :| 0 <= k < |page| && page[k] == x;
    PageSeat(listed, k);
    assert listed[k] == s.seats[k];
    assert s.seats[k].id == req.seatId;
    assert s.seats[k].status != OCCUPIED by {
      assert AVAILABLE[0] != OCCUPIED[0];
    }
    BookEffect(session, req, s);
  }

  /** Auto-select on a listing that shows a free seat picks a seat, and booking
      the picked seat's id succeeds. */
  lemma AutoSelectedSeatIsBookable(
    session: Session, s: Store, listed: seq<Seat>, j: nat,
    current: Selection, draw: nat, req: BookingRequest)
    requires session.Some? && UniqueSeatIds(s.seats)
    requires GetSeats(session, s) == SeatList(listed)
    requires j < |listed| && listed[j].status == AVAILABLE
    ensures var picked := AutoSelect(Page(listed), current, draw).seat;
      && picked.Some?
      && (Prop(picked.value, "id") == Num(req.seatId) ==> Book(session, req, s).0 == Message("Seat booked"))
  {
    var page := Page(listed);
    PageSeat(listed, j);
    assert page[j] in page;
    var picked := AutoSelect(page, current, draw).seat.value;
    if Prop(picked, "id") == Num(req.seatId) {
      ListedAvailableSeatIsBookable(session, s, picked, req);
    }
  }

  // ---------------------------------------------------------------------------
  // The service as assembled: no session middleware
  // ---------------------------------------------------------------------------

  /** One request served by the application as assembled. With no session
      middleware every seat route fails in its `get_current_user` dependency
      before the handler runs, and the callback behaves as `CallbackAsWritten`. */
  function StepAsWritten(cfg: Config, s: Store, req: Request): (r: (Reply, Store))
    ensures req.Startup? ==> r == Step(cfg, s, req)
    ensures req.ListSeats? || req.BookSeat? || req.ReleaseSeat? ==>
      r.1 == s && r.0.Routed? && r.0.response.Failed? && r.0.response.error.status == 500
    ensures req.LoginCallback? ==>
      && r.0.Redirect? && r.0.location != cfg.frontendUrl && r.0.session.None?
      && r.1.seats == s.seats && HistoryKept(s.employees, r.1.employees)
  {
    match req
    case Startup => Step(cfg, s, req)
    case ListSeats(session) =>
      (Routed(Failed(CurrentUserAsWritten(session).error)), s)
    case BookSeat(session, _) =>
      (Routed(Failed(CurrentUserAsWritten(session).error)), s)
    case ReleaseSeat(session, _) =>
      (Routed(Failed(CurrentUserAsWritten(session).error)), s)
    case LoginCallback(code, error, reply, _, now, elapsed) =>
      var c := CallbackAsWritten(cfg, code, error, reply, s.employees, now, elapsed);
      assert HistoryKept(s.employees, c.employees) by {
        HistoryKeptReflexive(s.employees);
      }
      (Redirect(c.location, c.session), s.(employees := c.employees))
  }

  /** The store after the application as assembled serves the requests in order. */
  function RunAsWritten(cfg: Config, s: Store, reqs: seq<Request>): Store
    decreases |reqs|
  {
    if |reqs| == 0 then s else RunAsWritten(cfg, StepAsWritten(cfg, s, reqs[0]).1, reqs[1..])
  }

  /** As assembled, once seats exist no request sequence changes them. */
  lemma {:induction false} SeatsFrozenAsWritten(cfg: Config, s: Store, reqs: seq<Request>)
    requires |s.seats| != 0
    ensures RunAsWritten(cfg, s, reqs).seats == s.seats
    decreases |reqs|
  {
    if |reqs| != 0 {
      SeatsFrozenAsWritten(cfg, StepAsWritten(cfg, s, reqs[0]).1, reqs[1..]);
    }
  }

  /** As assembled, a service started on an empty database never has an
      occupied seat, whatever requests it serves. */
  lemma NoSeatBookedAsWritten(cfg: Config, es: seq<Employee>, reqs: seq<Request>)
    ensures forall st :: st in RunAsWritten(cfg, Seed(Store([], es)), reqs).seats ==>
      st.status == AVAILABLE
  {
    InitialSeatsFacts();
    SeatsFrozenAsWritten(cfg, Seed(Store([], es)), reqs);
  }

  /** With a session middleware, the same service books: after start-up, a
      signed-in booking of seat 1 leaves that seat occupied by the caller. */
  lemma StartedServiceBooks(cfg: Config, es: seq<Employee>, u: SessionUser, req: BookingRequest)
    requires req.seatId == 1
    ensures var t := Run(cfg, Seed(Store([], es)), [Startup, BookSeat(Some(u), req)]);
      |t.seats| == SEAT_COUNT && t.seats[0] == Seat(1, OCCUPIED, SEAT_PRICE, Some(u.w3Id))
  {
    InitialSeatsFacts();
    var s0 := Seed(Store([], es));
    var s1 := Step(cfg, s0, Startup).1;
    assert s1 == s0;
    assert InitialSeats()[0] in InitialSeats();
    assert s1.seats[0].id == 1;
    BookEffect(Some(u), req, s1);
    var s2 := Step(cfg, s1, BookSeat(Some(u), req)).1;
    var reqs := [Startup, BookSeat(Some(u), req)];
    assert reqs[1..] == [BookSeat(Some(u), req)];
    assert Run(cfg, s2, []) == s2;
    assert Run(cfg, s1, [BookSeat(Some(u), req)]) == s2;
    assert Run(cfg, s0, reqs) == s2;
  }
}
