/**
 * A trip: a (possibly partial) journey built by appending connecting flights.
 * Appending never changes the trip it starts from: `AddFlight` returns a new
 * trip value, as the source's copy-then-append does.
 */
module Trips {
  import opened Wrappers
  import opened Flights

  datatype Trip = Trip(
    origin: Airport,
    destination: Airport,         // where the trip currently ends
    flights: seq<Flight>,
    totalPrice: int,
    departure: Option<Time>,      // departure of the first appended flight
    arrival: Option<Time>,        // arrival of the last appended flight
    travelTime: int,
    bagsCount: int,
    bagsAllowed: Option<int>)     // running minimum of the flights' allowances

  /** The two `ValueError`s that `add_flight` raises. */
  datatype TripError =
    | Disconnected(tripEnd: Airport, flightOrigin: Airport)
    | OverCapacity(bagsCount: int, bagsAllowed: int)

  /** What one leg costs a passenger carrying `bags` bags. */
  function LegPrice(f: Flight, bags: int): int {
    f.basePrice + bags * f.bagPrice
  }

  function TotalCost(legs: seq<Flight>, bags: int): int {
    if legs == [] then 0
    else TotalCost(legs[..|legs| - 1], bags) + LegPrice(legs[|legs| - 1], bags)
  }

  function Min(a: int, b: int): int {
    if a <= b then a else b
  }

  /** The bag allowance of a sequence of legs: absent for no legs, else the smallest. */
  function MinAllowance(legs: seq<Flight>): Option<int> {
    if legs == [] then None
    else
      var last := legs[|legs| - 1].bagsAllowed;
      match MinAllowance(legs[..|legs| - 1])
      case None => Some(last)
      case Some(m) => Some(Min(last, m))
  }

  /** Each leg departs from where the previous one (or the start) arrived. */
  predicate Chain(start: Airport, legs: seq<Flight>) {
    (legs != [] ==> legs[0].origin == start) &&
    forall i :: 0 < i < |legs| ==> legs[i].origin == legs[i - 1].destination
  }

  /**
   * The aggregate fields of t agree with its flights: price is the sum of the
   * leg prices, allowance the minimum, departure the first leg's, arrival the
   * last leg's and travel time the span between them.
   */
  predicate Summarises(t: Trip) {
    var n := |t.flights|;
    t.totalPrice == TotalCost(t.flights, t.bagsCount) &&
    t.bagsAllowed == MinAllowance(t.flights) &&
    (n == 0 ==> t.departure == None && t.arrival == None && t.travelTime == 0) &&
    (n > 0 ==>
      t.departure == Some(t.flights[0].departure) &&
      t.arrival == Some(t.flights[n - 1].arrival) &&
      t.travelTime == t.flights[n - 1].arrival - t.flights[0].departure)
  }

  /** `Trip(origin, bags)`: an empty trip that starts and ends at origin. */
  function NewTrip(origin: Airport, bags: int): (t: Trip)
    ensures t.origin == origin && t.destination == origin && t.bagsCount == bags
    ensures t.flights == [] && Summarises(t)
    ensures t.totalPrice == 0 && t.travelTime == 0
    ensures t.departure == None && t.arrival == None && t.bagsAllowed == None
  {
    Trip(origin, origin, [], 0, None, None, 0, bags, None)
  }

  /** The copy of t with f appended, without the connectivity and capacity checks. */
  function Appended(t: Trip, f: Flight): Trip {
    var departure := if t.departure == None then f.departure else t.departure.value;
    var allowed := if t.bagsAllowed == None then f.bagsAllowed else Min(f.bagsAllowed, t.bagsAllowed.value);
    t.(destination := f.destination,
       flights := t.flights + [f],
       totalPrice := t.totalPrice + LegPrice(f, t.bagsCount),
       departure := Some(departure),
       arrival := Some(f.arrival),
       travelTime := f.arrival - departure,
       bagsAllowed := Some(allowed))
  }

  /** `add_flight`: checks that f connects and carries the bags, then appends it to a copy of t. */
  function AddFlight(t: Trip, f: Flight): (r: Result<Trip, TripError>)
    ensures f.origin != t.destination ==> r == Err(Disconnected(t.destination, f.origin))
    ensures f.origin == t.destination && f.bagsAllowed < t.bagsCount ==>
              r == Err(OverCapacity(t.bagsCount, f.bagsAllowed))
    ensures r.Ok? <==> f.origin == t.destination && f.bagsAllowed >= t.bagsCount
    ensures r.Ok? ==>
              r.value.origin == t.origin && r.value.bagsCount == t.bagsCount &&
              r.value.destination == f.destination &&
              r.value.flights == t.flights + [f] &&
              r.value.totalPrice == t.totalPrice + f.basePrice + t.bagsCount * f.bagPrice &&
              r.value.departure == (if t.departure == None then Some(f.departure) else t.departure) &&
              r.value.arrival == Some(f.arrival) &&
              r.value.travelTime == f.arrival - r.value.departure.value &&
              r.value.bagsAllowed.Some? && r.value.bagsAllowed.value <= f.bagsAllowed &&
              (t.bagsAllowed.Some? ==> r.value.bagsAllowed.value <= t.bagsAllowed.value) &&
              (r.value.bagsAllowed.value == f.bagsAllowed || r.value.bagsAllowed == t.bagsAllowed)
  {
    if f.origin != t.destination then Err(Disconnected(t.destination, f.origin))
    else if f.bagsAllowed < t.bagsCount then Err(OverCapacity(t.bagsCount, f.bagsAllowed))
    else Ok(Appended(t, f))
  }

  /** Appending keeps the aggregate fields in step with the flights. */
  lemma AppendedSummarises(t: Trip, f: Flight)
    requires Summarises(t)
    ensures Summarises(Appended(t, f))
  {
    var legs := t.flights + [f];
    assert legs[..|legs| - 1] == t.flights;
  }

  /** The trip reached from t by appending the legs of ext in order. */
  function Extend(t: Trip, ext: seq<Flight>): Trip
    decreases |ext|
  {
    if ext == [] then t else Extend(Appended(t, ext[0]), ext[1..])
  }

  lemma {:induction false} ExtendShape(t: Trip, ext: seq<Flight>)
    ensures Extend(t, ext).flights == t.flights + ext
    ensures Extend(t, ext).origin == t.origin && Extend(t, ext).bagsCount == t.bagsCount
    ensures Extend(t, ext).destination == if ext == [] then t.destination else ext[|ext| - 1].destination
    ensures Extend(t, ext).arrival == if ext == [] then t.arrival else Some(ext[|ext| - 1].arrival)
    ensures t.departure.Some? ==> Extend(t, ext).departure == t.departure
    ensures Summarises(t) ==> Summarises(Extend(t, ext))
    decreases |ext|
  {
    if ext != [] {
      var t' := Appended(t, ext[0]);
      ExtendShape(t', ext[1..]);
      assert ext == [ext[0]] + ext[1..];
      if Summarises(t) {
        AppendedSummarises(t, ext[0]);
      }
    }
  }

  /** Appending the legs one by one with `add_flight`; the first error raised stops the fold. */
  function BuildFrom(t: Trip, legs: seq<Flight>): Result<Trip, TripError>
    decreases |legs|
  {
    if legs == [] then Ok(t)
    else match AddFlight(t, legs[0])
      case Err(e) => Err(e)
      case Ok(t') => BuildFrom(t', legs[1..])
  }

  /** Folding `add_flight` succeeds exactly on connected legs that all carry the bags. */
  lemma {:induction false} BuildFromSucceeds(t: Trip, legs: seq<Flight>)
    ensures BuildFrom(t, legs).Ok? <==>
              Chain(t.destination, legs) && forall i :: 0 <= i < |legs| ==> legs[i].bagsAllowed >= t.bagsCount
    ensures BuildFrom(t, legs).Ok? ==> BuildFrom(t, legs).value == Extend(t, legs)
    decreases |legs|
  {
    if legs != [] {
      var f := legs[0];
      if AddFlight(t, f).Ok? {
        var t' := Appended(t, f);
        BuildFromSucceeds(t', legs[1..]);
        var rest := legs[1..];
        if Chain(t'.destination, rest) {
          forall i | 0 < i < |legs| ensures legs[i].origin == legs[i - 1].destination {
            assert legs[i] == rest[i - 1];
            if i > 1 {
              assert legs[i - 1] == rest[i - 2];
            }
          }
        }
        if Chain(t.destination, legs) {
          forall i | 0 < i < |rest| ensures rest[i].origin == rest[i - 1].destination {
            assert rest[i] == legs[i + 1] && rest[i - 1] == legs[i];
          }
          assert rest != [] ==> rest[0] == legs[1];
        }
        if forall i :: 0 <= i < |legs| ==> legs[i].bagsAllowed >= t.bagsCount {
          assert forall i :: 0 <= i < |rest| ==> rest[i] == legs[i + 1];
        }
        if forall i :: 0 <= i < |rest| ==> rest[i].bagsAllowed >= t'.bagsCount {
          assert forall i :: 1 <= i < |legs| ==> legs[i] == rest[i - 1];
        }
      } else if f.origin != t.destination {
        assert legs[0].origin != t.destination;
      } else {
        assert legs[0].bagsAllowed < t.bagsCount;
      }
    }
  }

  /** The allowance of a non-empty leg sequence is its smallest per-leg allowance. */
  lemma {:induction false} MinAllowanceIsMinimum(legs: seq<Flight>)
    requires legs != []
    ensures MinAllowance(legs).Some?
    ensures forall i :: 0 <= i < |legs| ==> MinAllowance(legs).value <= legs[i].bagsAllowed
    ensures exists i :: 0 <= i < |legs| && MinAllowance(legs).value == legs[i].bagsAllowed
  {
    var init := legs[..|legs| - 1];
    if init != [] {
      MinAllowanceIsMinimum(init);
      var k :| 0 <= k < |init| && MinAllowance(init).value == init[k].bagsAllowed;
      assert forall i :: 0 <= i < |init| ==> legs[i] == init[i];
      if MinAllowance(legs).value != legs[|legs| - 1].bagsAllowed {
        assert MinAllowance(legs).value == legs[k].bagsAllowed;
      }
    }
  }

  /**
   * A trip built from `Trip(origin, bags)` by successful `add_flight` calls:
   * its legs form a chain from origin, its price is the sum of the leg prices,
   * and its allowance is the smallest leg allowance, never below the bags carried.
   */
  lemma BuiltTrip(origin: Airport, bags: int, legs: seq<Flight>)
    requires BuildFrom(NewTrip(origin, bags), legs).Ok?
    ensures var t := BuildFrom(NewTrip(origin, bags), legs).value;
      t.flights == legs && t.origin == origin && t.bagsCount == bags &&
      Chain(origin, legs) &&
      t.totalPrice == TotalCost(legs, bags) &&
      t.destination == (if legs == [] then origin else legs[|legs| - 1].destination) &&
      Summarises(t) && t.bagsAllowed == MinAllowance(legs) &&
      (legs != [] ==> t.bagsAllowed.Some? && bags <= t.bagsAllowed.value &&
                      (forall i :: 0 <= i < |legs| ==> t.bagsAllowed.value <= legs[i].bagsAllowed) &&
                      (exists i :: 0 <= i < |legs| && t.bagsAllowed.value == legs[i].bagsAllowed))
  {
    var t0 := NewTrip(origin, bags);
    BuildFromSucceeds(t0, legs);
    ExtendShape(t0, legs);
    var t := Extend(t0, legs);
    assert BuildFrom(t0, legs).value == t;
    assert t.flights == legs by {
      assert [] + legs == legs;
    }
    assert Summarises(t);
    assert t.totalPrice == TotalCost(legs, bags);
    assert Chain(origin, legs);
    if legs != [] {
      MinAllowanceIsMinimum(legs);
      assert t.bagsAllowed == MinAllowance(legs);
    }
  }
}
