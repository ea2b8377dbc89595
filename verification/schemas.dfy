/** The employee document (backend/schemas.py) and the employees collection
    it is stored in: identity claims, the record built from them on first
    login, and the invariants the collection keeps. */
module Schemas {
  import opened Base

  /** The identity claims decoded from the provider's ID token. */
  type Claims = map<string, string>

  /** `claims.get(key)`. */
  function Claim(c: Claims, key: string): Option<string>
  {
    Get(c, key)
  }

  /** The employee key read from the claims: `uid` when it is truthy,
      otherwise `preferred_username`, which may itself be empty or absent. */
  function W3IdOf(c: Claims): (r: Option<string>)
    ensures Truthy(r) <==> Truthy(Claim(c, "uid")) || Truthy(Claim(c, "preferred_username"))
    ensures Truthy(Claim(c, "uid")) ==> r == Claim(c, "uid")
    ensures !Truthy(Claim(c, "uid")) ==> r == Claim(c, "preferred_username")
  {
    Or(Claim(c, "uid"), Claim(c, "preferred_username"))
  }

  /** One document of the employees collection. Fields a document lacks are
      None: a record created by a booking holds only `w3_id` and `booked_seats`.
      Timestamps are clock readings as integers. */
  datatype Employee = Employee(
    w3Id: Option<string>,
    email: Option<string>,
    fullName: Option<string>,
    manager: Option<string>,
    department: Option<string>,
    firstLoginAt: Option<int>,
    lastLoginAt: Option<int>,
    bookedSeats: seq<int>)

  /** The claims `employee_document` reads; every other claim is ignored. */
  predicate ProfileClaim(key: string)
  {
    key in {"uid", "preferred_username", "email", "name", "manager", "department"}
  }

  /** `employee_document(claims)`: the record inserted on a first login. The
      clock is read twice, at `now` and at `now + elapsed`. */
  function EmployeeDocument(c: Claims, now: int, elapsed: nat): (e: Employee)
    ensures e.w3Id == W3IdOf(c)
    ensures e.email == Claim(c, "email") && e.fullName == Claim(c, "name")
    ensures e.manager == Claim(c, "manager") && e.department == Claim(c, "department")
    ensures e.firstLoginAt == Some(now) && e.lastLoginAt == Some(now + elapsed)
    ensures e.firstLoginAt.value <= e.lastLoginAt.value
    ensures e.bookedSeats == []
  {
    Employee(
      w3Id := W3IdOf(c),
      email := Claim(c, "email"),
      fullName := Claim(c, "name"),
      manager := Claim(c, "manager"),
      department := Claim(c, "department"),
      firstLoginAt := Some(now),
      lastLoginAt := Some(now + elapsed),
      bookedSeats := [])
  }

  /** Claims that agree on the six profile keys give the same document. */
  lemma EmployeeDocumentIgnoresOtherClaims(c1: Claims, c2: Claims, now: int, elapsed: nat)
    requires forall k :: ProfileClaim(k) ==> Claim(c1, k) == Claim(c2, k)
    ensures EmployeeDocument(c1, now, elapsed) == EmployeeDocument(c2, now, elapsed)
  {
    assert ProfileClaim("uid") && ProfileClaim("preferred_username") && ProfileClaim("email");
    assert ProfileClaim("name") && ProfileClaim("manager") && ProfileClaim("department");
  }

  // ---------------------------------------------------------------------------
  // The employees collection
  // ---------------------------------------------------------------------------

  /** The document `find_one({"w3_id": w})` returns and `update_one` changes. */
  function FindEmployee(es: seq<Employee>, w: string): (r: Option<nat>)
    ensures r.Some? ==> r.value < |es| && es[r.value].w3Id == Some(w)
    ensures r.None? ==> forall k :: 0 <= k < |es| ==> es[k].w3Id != Some(w)
  {
    FirstIndex(es, (e: Employee) => e.w3Id == Some(w))
  }

  /** No two documents share a `w3_id`. */
  ghost predicate UniqueKeys(es: seq<Employee>)
  {
    forall i, j :: 0 <= i < j < |es| && es[i].w3Id.Some? ==> es[i].w3Id != es[j].w3Id
  }

  /** A list with no repeated element, as `$addToSet` keeps `booked_seats`. */
  ghost predicate NoDuplicates(s: seq<int>)
  {
    forall i, j :: 0 <= i < j < |s| ==> s[i] != s[j]
  }

  ghost predicate EmployeesWellFormed(es: seq<Employee>)
  {
    UniqueKeys(es) && forall i :: 0 <= i < |es| ==> NoDuplicates(es[i].bookedSeats)
  }

  /** How many documents carry the key `w`. */
  function KeyCount(es: seq<Employee>, w: string): nat
  {
    if |es| == 0 then 0
    else (if es[0].w3Id == Some(w) then 1 else 0) + KeyCount(es[1..], w)
  }

  /** Under UniqueKeys a key is carried by at most one document. */
  lemma {:induction false} UniqueKeysCount(es: seq<Employee>, w: string)
    requires UniqueKeys(es)
    ensures KeyCount(es, w) <= 1
    ensures KeyCount(es, w) == 1 <==> exists k :: 0 <= k < |es| && es[k].w3Id == Some(w)
    decreases |es|
  {
    if |es| > 0 {
      assert UniqueKeys(es[1..]);
      UniqueKeysCount(es[1..], w);
      if es[0].w3Id == Some(w) {
        assert forall k :: 0 <= k < |es| - 1 ==> es[1..][k].w3Id != Some(w) by {
          forall k | 0 <= k < |es| - 1
            ensures es[1..][k].w3Id != Some(w)
          {
            assert es[1..][k] == es[k + 1];
          }
        }
      }
      if exists k :: 0 <= k < |es| && es[k].w3Id == Some(w) {
        var k :| 0 <= k < |es| && es[k].w3Id == Some(w);
        if k > 0 {
          assert es[1..][k - 1] == es[k];
        }
      }
      if exists k :: 0 <= k < |es| - 1 && es[1..][k].w3Id == Some(w) {
        var k :| 0 <= k < |es| - 1 && es[1..][k].w3Id == Some(w);
        assert es[k + 1] == es[1..][k];
      }
    }
  }

  /** Between two states of the collection no document was removed or re-keyed,
      and every document's `booked_seats` only grew at its end. */
  ghost predicate HistoryKept(before: seq<Employee>, after: seq<Employee>)
  {
    |before| <= |after| &&
    forall i :: 0 <= i < |before| ==>
      after[i].w3Id == before[i].w3Id && before[i].bookedSeats <= after[i].bookedSeats
  }

  lemma HistoryKeptTransitive(a: seq<Employee>, b: seq<Employee>, c: seq<Employee>)
    requires HistoryKept(a, b) && HistoryKept(b, c)
    ensures HistoryKept(a, c)
  {
    forall i | 0 <= i < |a|
      ensures c[i].w3Id == a[i].w3Id && a[i].bookedSeats <= c[i].bookedSeats
    {
      assert a[i].bookedSeats <= b[i].bookedSeats <= c[i].bookedSeats;
    }
  }
}
