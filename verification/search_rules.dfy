/**
 * The rules of the itinerary search, stated declaratively: which sequences of
 * flights may extend a partial trip into a completed outbound or return
 * journey. The depth-first search (`FlightSearch.FlightSchedule.Explore`)
 * is proved to produce exactly the trips these rules allow.
 */
module SearchRules {
  import opened Wrappers
  import opened Flights
  import opened Trips
  import opened ScheduleIndex

  /** `MIN_TRANS_TIME` and `MAX_TRANS_TIME`: the default transfer window bounds. */
  const MinTransTime: int := Hour
  const MaxTransTime: int := 6 * Hour

  /** The outbound search (`dfs`) or the return search (`dfs_back`). */
  datatype Mode = Outbound | Return

  /** The arguments of `search`; times and durations in seconds, the day bounds in days. */
  datatype Request = Request(
    origins: seq<Airport>,
    destinations: seq<Airport>,
    bags: int,
    sortBy: Option<seq<string>>,
    returnFlight: bool,
    returnToOtherAirport: bool,
    returnFromOtherAirport: bool,
    minTransferTime: int,
    maxTransferTime: int,
    minDaysAtDestination: int,
    maxDaysAtDestination: Option<int>,
    minDeparture: Option<Time>,
    maxDeparture: Option<Time>,
    maxTransfers: Option<int>)

  /** A request with the defaults of `search` for every optional argument. */
  function DefaultRequest(origins: seq<Airport>, destinations: seq<Airport>): Request {
    Request(origins, destinations, 0, None, false, false, false,
            MinTransTime, MaxTransTime, 0, None, None, None, None)
  }

  /** When a branch is complete: at a destination (outbound); back at the trip's origin, or at any origin if allowed (return). */
  predicate AcceptsAt(req: Request, mode: Mode, origin: Airport, at: Airport) {
    match mode
    case Outbound => at in req.destinations
    case Return => at == origin || (req.returnToOtherAirport && at in req.origins)
  }

  predicate Accepts(req: Request, mode: Mode, t: Trip) {
    AcceptsAt(req, mode, t.origin, t.destination)
  }

  /** Another leg may be taken while `len(visited) <= max_transfers + 1`, or always without a limit. */
  predicate HasBudget(req: Request, visitedCount: int) {
    req.maxTransfers == None || visitedCount <= req.maxTransfers.value + 1
  }

  /** Destinations a next leg may not go to: the visited airports, plus the origins (outbound) or, if returning from another airport is allowed, the destinations (return). */
  function Excluded(req: Request, mode: Mode, visited: seq<Airport>): seq<Airport> {
    match mode
    case Outbound => req.origins + visited
    case Return => if req.returnFromOtherAirport then req.destinations + visited else visited
  }

  /**
   * The departure window of the next leg. The first outbound leg uses
   * [min_departure, max_departure]; the first return leg starts
   * min_days_at_destination days after arrival and ends max_days_at_destination
   * days after it (unbounded if absent); every transfer leg departs within
   * [arrival + min_transfer_time, arrival + max_transfer_time]. An absent
   * arrival where one is needed is excluded by the search's preconditions;
   * the window is then left unbounded.
   */
  function Bounds(req: Request, mode: Mode, visitedCount: int, arrival: Option<Time>): (Option<Time>, Option<Time>) {
    if visitedCount == 1 && mode == Outbound then (req.minDeparture, req.maxDeparture)
    else if arrival == None then (None, None)
    else if visitedCount == 1 then
      (Some(arrival.value + req.minDaysAtDestination * Day),
       if req.maxDaysAtDestination == None then None
       else Some(arrival.value + req.maxDaysAtDestination.value * Day))
    else (Some(arrival.value + req.minTransferTime), Some(arrival.value + req.maxTransferTime))
  }

  predicate InBounds(t: Time, b: (Option<Time>, Option<Time>)) {
    (b.0 == None || b.0.value <= t) && (b.1 == None || t <= b.1.value)
  }

  /** The `get_departing_flights` arguments of one search step. */
  function StepQuery(req: Request, mode: Mode, visited: seq<Airport>, arrival: Option<Time>): Query {
    var b := Bounds(req, mode, |visited|, arrival);
    Query(b.0, b.1, Some(req.bags), Some(Excluded(req, mode, visited)))
  }

  /** The airport reached after the first i legs of ext, starting at start. */
  function At(start: Airport, ext: seq<Flight>, i: int): Airport
    requires 0 <= i <= |ext|
  {
    if i == 0 then start else ext[i - 1].destination
  }

  /** The arrival time before leg i of ext. */
  function ArrivalBefore(arrival: Option<Time>, ext: seq<Flight>, i: int): Option<Time>
    requires 0 <= i <= |ext|
  {
    if i == 0 then arrival else Some(ext[i - 1].arrival)
  }

  /** Every leg is in the index, in the group of the airport the path is at. */
  ghost predicate Scheduled(index: Index, start: Airport, ext: seq<Flight>) {
    forall i {:trigger At(start, ext, i)} :: 0 <= i < |ext| ==> At(start, ext, i) in index && ext[i] in index[At(start, ext, i)]
  }

  /** The path ends at an accepted airport and passes no accepted airport before. */
  predicate StopsOnArrival(req: Request, mode: Mode, origin: Airport, start: Airport, ext: seq<Flight>) {
    AcceptsAt(req, mode, origin, At(start, ext, |ext|)) &&
    forall i :: 0 <= i < |ext| ==> !AcceptsAt(req, mode, origin, At(start, ext, i))
  }

  /** Each leg is taken while the transfer budget lasts. */
  predicate WithinBudget(req: Request, visitedCount: int, ext: seq<Flight>) {
    ext == [] || HasBudget(req, visitedCount + |ext| - 1)
  }

  /** No leg lands at an excluded airport or at an airport an earlier leg landed at. */
  predicate FreshStops(req: Request, mode: Mode, visited: seq<Airport>, ext: seq<Flight>) {
    forall i :: 0 <= i < |ext| ==>
      ext[i].destination !in Excluded(req, mode, visited) &&
      forall j :: 0 <= j < i ==> ext[j].destination != ext[i].destination
  }

  /** Each leg departs within the window of its step. */
  predicate OnTime(req: Request, mode: Mode, visitedCount: int, arrival: Option<Time>, ext: seq<Flight>) {
    forall i {:trigger ext[i].departure} :: 0 <= i < |ext| ==>
      InBounds(ext[i].departure, Bounds(req, mode, visitedCount + i, ArrivalBefore(arrival, ext, i)))
  }

  predicate CarriesBags(req: Request, ext: seq<Flight>) {
    forall i :: 0 <= i < |ext| ==> ext[i].bagsAllowed >= req.bags
  }

  /** ext completes trip, whose path so far visited `visited`, under the rules of mode. */
  ghost predicate Extension(index: Index, req: Request, mode: Mode, trip: Trip, visited: seq<Airport>, ext: seq<Flight>) {
    Scheduled(index, trip.destination, ext) &&
    StopsOnArrival(req, mode, trip.origin, trip.destination, ext) &&
    WithinBudget(req, |visited|, ext) &&
    FreshStops(req, mode, visited, ext) &&
    OnTime(req, mode, |visited|, trip.arrival, ext) &&
    CarriesBags(req, ext)
  }

  /** r is trip extended by a valid extension. */
  ghost predicate Completes(index: Index, req: Request, mode: Mode, trip: Trip, visited: seq<Airport>, r: Trip) {
    |trip.flights| <= |r.flights| &&
    Extension(index, req, mode, trip, visited, r.flights[|trip.flights|..]) &&
    r == Extend(trip, r.flights[|trip.flights|..])
  }

  lemma ScheduledStep(index: Index, start: Airport, f: Flight, e: seq<Flight>)
    ensures Scheduled(index, start, [f] + e) <==>
              start in index && f in index[start] && Scheduled(index, f.destination, e)
  {
    var ext := [f] + e;
    if Scheduled(index, f.destination, e) && start in index && f in index[start] {
      forall i | 0 <= i < |ext| ensures At(start, ext, i) in index && ext[i] in index[At(start, ext, i)] {
        if i > 0 {
          assert ext[i] == e[i - 1] && At(start, ext, i) == At(f.destination, e, i - 1);
        }
      }
    }
    if Scheduled(index, start, ext) {
      assert At(start, ext, 0) == start;
      forall i | 0 <= i < |e| ensures At(f.destination, e, i) in index && e[i] in index[At(f.destination, e, i)] {
        assert ext[i + 1] == e[i] && At(start, ext, i + 1) == At(f.destination, e, i);
      }
    }
  }

  lemma StopsStep(req: Request, mode: Mode, origin: Airport, start: Airport, f: Flight, e: seq<Flight>)
    ensures StopsOnArrival(req, mode, origin, start, [f] + e) <==>
              !AcceptsAt(req, mode, origin, start) && StopsOnArrival(req, mode, origin, f.destination, e)
  {
    var ext := [f] + e;
    assert At(start, ext, |ext|) == At(f.destination, e, |e|);
    assert forall i :: 0 <= i < |e| ==> At(start, ext, i + 1) == At(f.destination, e, i);
    assert forall i :: 1 <= i < |ext| ==> At(start, ext, i) == At(f.destination, e, i - 1);
    assert At(start, ext, 0) == start;
  }

  lemma BudgetStep(req: Request, visitedCount: int, f: Flight, e: seq<Flight>)
    ensures WithinBudget(req, visitedCount, [f] + e) <==>
              HasBudget(req, visitedCount) && WithinBudget(req, visitedCount + 1, e)
  {
  }

  lemma ExcludedGrows(req: Request, mode: Mode, visited: seq<Airport>, x: Airport)
    ensures Excluded(req, mode, visited + [x]) == Excluded(req, mode, visited) + [x]
    ensures forall a :: a in visited ==> a in Excluded(req, mode, visited)
  {
    match mode {
      case Outbound =>
        assert req.origins + (visited + [x]) == req.origins + visited + [x];
      case Return =>
        assert req.destinations + (visited + [x]) == req.destinations + visited + [x];
    }
  }

  lemma FreshStep(req: Request, mode: Mode, visited: seq<Airport>, f: Flight, e: seq<Flight>)
    ensures FreshStops(req, mode, visited, [f] + e) <==>
              f.destination !in Excluded(req, mode, visited) &&
              FreshStops(req, mode, visited + [f.destination], e)
  {
    var ext := [f] + e;
    ExcludedGrows(req, mode, visited, f.destination);
    var ex := Excluded(req, mode, visited);
    if f.destination !in ex && FreshStops(req, mode, visited + [f.destination], e) {
      forall i | 0 <= i < |ext|
        ensures ext[i].destination !in ex && forall j :: 0 <= j < i ==> ext[j].destination != ext[i].destination
      {
        if i > 0 {
          assert ext[i] == e[i - 1];
          assert forall j :: 1 <= j < i ==> ext[j] == e[j - 1];
        }
      }
    }
    if FreshStops(req, mode, visited, ext) {
      assert ext[0] == f;
      forall i | 0 <= i < |e|
        ensures e[i].destination !in ex + [f.destination] && forall j :: 0 <= j < i ==> e[j].destination != e[i].destination
      {
        assert e[i] == ext[i + 1];
        assert ext[0].destination != ext[i + 1].destination;
        assert forall j :: 0 <= j < i ==> e[j] == ext[j + 1];
      }
    }
  }

  lemma OnTimeStep(req: Request, mode: Mode, visitedCount: int, arrival: Option<Time>, f: Flight, e: seq<Flight>)
    ensures OnTime(req, mode, visitedCount, arrival, [f] + e) <==>
              InBounds(f.departure, Bounds(req, mode, visitedCount, arrival)) &&
              OnTime(req, mode, visitedCount + 1, Some(f.arrival), e)
  {
    if InBounds(f.departure, Bounds(req, mode, visitedCount, arrival)) && OnTime(req, mode, visitedCount + 1, Some(f.arrival), e) {
      OnTimePrepend(req, mode, visitedCount, arrival, f, e);
    }
    if OnTime(req, mode, visitedCount, arrival, [f] + e) {
      OnTimeRest(req, mode, visitedCount, arrival, f, e);
    }
  }

  /** The arrival before leg i of f followed by e is the arrival before leg i - 1 of e, counted from f's arrival. */
  lemma ArrivalShift(arrival: Option<Time>, f: Flight, e: seq<Flight>, i: int)
    requires 0 < i <= |e| + 1
    ensures ArrivalBefore(arrival, [f] + e, i) == ArrivalBefore(Some(f.arrival), e, i - 1)
  {
    if i > 1 {
      assert ([f] + e)[i - 1] == e[i - 2];
    }
  }

  /** Leg i of f followed by e is leg i - 1 of e, and its window is the one e's leg i - 1 has. */
  lemma LegShift(req: Request, mode: Mode, visitedCount: int, arrival: Option<Time>, f: Flight, e: seq<Flight>, i: int)
    requires 0 < i <= |e|
    ensures ([f] + e)[i] == e[i - 1]
    ensures Bounds(req, mode, visitedCount + i, ArrivalBefore(arrival, [f] + e, i)) ==
            Bounds(req, mode, (visitedCount + 1) + (i - 1), ArrivalBefore(Some(f.arrival), e, i - 1))
  {
    ArrivalShift(arrival, f, e, i);
    assert visitedCount + i == (visitedCount + 1) + (i - 1);
  }

  lemma OnTimePrepend(req: Request, mode: Mode, visitedCount: int, arrival: Option<Time>, f: Flight, e: seq<Flight>)
    requires InBounds(f.departure, Bounds(req, mode, visitedCount, arrival))
    requires OnTime(req, mode, visitedCount + 1, Some(f.arrival), e)
    ensures OnTime(req, mode, visitedCount, arrival, [f] + e)
  {
    var ext := [f] + e;
    forall i | 0 <= i < |ext|
      ensures InBounds(ext[i].departure, Bounds(req, mode, visitedCount + i, ArrivalBefore(arrival, ext, i)))
    {
      if i == 0 {
        assert ext[0] == f;
      } else {
        LegShift(req, mode, visitedCount, arrival, f, e, i);
        assert InBounds(e[i - 1].departure, Bounds(req, mode, (visitedCount + 1) + (i - 1), ArrivalBefore(Some(f.arrival), e, i - 1)));
      }
    }
  }

  lemma OnTimeRest(req: Request, mode: Mode, visitedCount: int, arrival: Option<Time>, f: Flight, e: seq<Flight>)
    requires OnTime(req, mode, visitedCount, arrival, [f] + e)
    ensures InBounds(f.departure, Bounds(req, mode, visitedCount, arrival))
    ensures OnTime(req, mode, visitedCount + 1, Some(f.arrival), e)
  {
    var ext := [f] + e;
    assert ext[0] == f && ArrivalBefore(arrival, ext, 0) == arrival;
    forall i | 0 <= i < |e|
      ensures InBounds(e[i].departure, Bounds(req, mode, (visitedCount + 1) + i, ArrivalBefore(Some(f.arrival), e, i)))
    {
      LegShift(req, mode, visitedCount, arrival, f, e, i + 1);
      assert InBounds(ext[i + 1].departure, Bounds(req, mode, visitedCount + (i + 1), ArrivalBefore(arrival, ext, i + 1)));
    }
  }

  lemma CarriesStep(req: Request, f: Flight, e: seq<Flight>)
    ensures CarriesBags(req, [f] + e) <==> f.bagsAllowed >= req.bags && CarriesBags(req, e)
  {
    var ext := [f] + e;
    if f.bagsAllowed >= req.bags && CarriesBags(req, e) {
      forall i | 0 <= i < |ext| ensures ext[i].bagsAllowed >= req.bags {
        if i > 0 {
          assert ext[i] == e[i - 1];
        }
      }
    }
    if CarriesBags(req, ext) {
      assert ext[0] == f;
      forall i | 0 <= i < |e| ensures e[i].bagsAllowed >= req.bags {
        assert e[i] == ext[i + 1];
      }
    }
  }

  /** The empty extension is valid exactly when the trip is already accepted. */
  lemma ExtensionEmpty(index: Index, req: Request, mode: Mode, trip: Trip, visited: seq<Airport>)
    ensures Extension(index, req, mode, trip, visited, []) <==> Accepts(req, mode, trip)
  {
    assert At(trip.destination, [], 0) == trip.destination;
  }

  /**
   * One search step: f followed by e is a valid extension exactly when the
   * trip is not yet accepted, the budget allows another leg, f is among the
   * flights the step's query returns, and e validly extends the trip with f
   * appended, with f's destination marked visited.
   */
  lemma ExtensionStep(index: Index, req: Request, mode: Mode, trip: Trip, visited: seq<Airport>, f: Flight, e: seq<Flight>)
    ensures Extension(index, req, mode, trip, visited, [f] + e) <==>
              !Accepts(req, mode, trip) && HasBudget(req, |visited|) &&
              trip.destination in index && f in index[trip.destination] &&
              Matches(f, StepQuery(req, mode, visited, trip.arrival)) &&
              Extension(index, req, mode, Appended(trip, f), visited + [f.destination], e)
  {
    var child := Appended(trip, f);
    assert child.origin == trip.origin && child.destination == f.destination && child.arrival == Some(f.arrival);
    var visited' := visited + [f.destination];
    assert |visited'| == |visited| + 1;
    MatchesStep(req, mode, visited, trip.arrival, f);
    ScheduledStep(index, trip.destination, f, e);
    StopsStep(req, mode, trip.origin, trip.destination, f, e);
    BudgetStep(req, |visited|, f, e);
    FreshStep(req, mode, visited, f, e);
    OnTimeStep(req, mode, |visited|, trip.arrival, f, e);
    CarriesStep(req, f, e);
  }

  lemma MatchesStep(req: Request, mode: Mode, visited: seq<Airport>, arrival: Option<Time>, f: Flight)
    ensures Matches(f, StepQuery(req, mode, visited, arrival)) <==>
              InBounds(f.departure, Bounds(req, mode, |visited|, arrival)) &&
              f.bagsAllowed >= req.bags && f.destination !in Excluded(req, mode, visited)
  {
  }

  /** Completing the trip with f appended completes the trip itself. */
  lemma CompletesStep(index: Index, req: Request, mode: Mode, trip: Trip, visited: seq<Airport>, f: Flight, r: Trip)
    requires !Accepts(req, mode, trip) && HasBudget(req, |visited|)
    requires trip.destination in index && f in index[trip.destination]
    requires Matches(f, StepQuery(req, mode, visited, trip.arrival))
    requires Completes(index, req, mode, Appended(trip, f), visited + [f.destination], r)
    ensures Completes(index, req, mode, trip, visited, r)
  {
    var child := Appended(trip, f);
    var e := r.flights[|child.flights|..];
    var ext := [f] + e;
    assert Extension(index, req, mode, trip, visited, ext) by {
      ExtensionStep(index, req, mode, trip, visited, f, e);
    }
    assert r == Extend(trip, ext) by {
      assert ext[1..] == e;
    }
    ExtendedCompletes(index, req, mode, trip, visited, ext, r);
  }

  /** A trip extended by a valid extension completes it. */
  lemma ExtendedCompletes(index: Index, req: Request, mode: Mode, trip: Trip, visited: seq<Airport>, ext: seq<Flight>, r: Trip)
    requires Extension(index, req, mode, trip, visited, ext) && r == Extend(trip, ext)
    ensures Completes(index, req, mode, trip, visited, r)
  {
    ExtendShape(trip, ext);
    assert r.flights[|trip.flights|..] == ext;
  }

  /** Every trip in results completes trip. */
  ghost predicate Sound(index: Index, req: Request, mode: Mode, trip: Trip, visited: seq<Airport>, results: seq<Trip>) {
    forall r :: r in results ==> Completes(index, req, mode, trip, visited, r)
  }

  /** Every valid extension of trip whose first leg is in firsts yields a trip in results. */
  ghost predicate CoversVia(index: Index, req: Request, mode: Mode, trip: Trip, visited: seq<Airport>, firsts: seq<Flight>, results: seq<Trip>) {
    forall ext :: Extension(index, req, mode, trip, visited, ext) && ext != [] && ext[0] in firsts ==>
      Extend(trip, ext) in results
  }

  /** Every valid extension of trip yields a trip in results. */
  ghost predicate Covers(index: Index, req: Request, mode: Mode, trip: Trip, visited: seq<Airport>, results: seq<Trip>) {
    forall ext :: Extension(index, req, mode, trip, visited, ext) ==> Extend(trip, ext) in results
  }

  /** What a search step may branch on: the departures from the trip's end that the step's query admits. */
  function Departures(index: Index, req: Request, mode: Mode, trip: Trip, visited: seq<Airport>): seq<Flight> {
    if trip.destination in index then Selected(index[trip.destination], StepQuery(req, mode, visited, trip.arrival)) else []
  }

  /** One pass of the search loop: the results below the k-th departure join those of the earlier departures. */
  lemma LoopStep(index: Index, req: Request, mode: Mode, trip: Trip, visited: seq<Airport>,
                 departing: seq<Flight>, k: int, results: seq<Trip>, found: seq<Trip>)
    requires !Accepts(req, mode, trip) && HasBudget(req, |visited|)
    requires departing == Departures(index, req, mode, trip, visited) && 0 <= k < |departing|
    requires Sound(index, req, mode, trip, visited, results)
    requires CoversVia(index, req, mode, trip, visited, departing[..k], results)
    requires Sound(index, req, mode, Appended(trip, departing[k]), visited + [departing[k].destination], found)
    requires Covers(index, req, mode, Appended(trip, departing[k]), visited + [departing[k].destination], found)
    ensures Sound(index, req, mode, trip, visited, results + found)
    ensures CoversVia(index, req, mode, trip, visited, departing[..k + 1], results + found)
  {
    var f := departing[k];
    SoundStep(index, req, mode, trip, visited, f, found);
    CoversStep(index, req, mode, trip, visited, departing[..k], f, results, found);
    assert departing[..k + 1] == departing[..k] + [f];
  }

  /** An accepted trip is its own only completion. */
  lemma AcceptedCompletes(index: Index, req: Request, mode: Mode, trip: Trip, visited: seq<Airport>)
    requires IndexValid(index) && Accepts(req, mode, trip)
    ensures Sound(index, req, mode, trip, visited, [trip]) && Covers(index, req, mode, trip, visited, [trip])
  {
    assert Completes(index, req, mode, trip, visited, trip) by {
      ExtensionEmpty(index, req, mode, trip, visited);
      assert trip.flights[|trip.flights|..] == [];
    }
    forall ext | Extension(index, req, mode, trip, visited, ext) ensures ext == [] {
      ExtensionRoute(index, req, mode, trip, visited, ext);
    }
  }

  /** A trip that is not accepted and has no transfer budget left has no completion. */
  lemma ExhaustedCompletes(index: Index, req: Request, mode: Mode, trip: Trip, visited: seq<Airport>)
    requires !Accepts(req, mode, trip) && !HasBudget(req, |visited|)
    ensures Covers(index, req, mode, trip, visited, [])
  {
    forall ext ensures !Extension(index, req, mode, trip, visited, ext) {
      if ext == [] {
        ExtensionEmpty(index, req, mode, trip, visited);
      } else {
        assert ext == [ext[0]] + ext[1..];
        ExtensionStep(index, req, mode, trip, visited, ext[0], ext[1..]);
      }
    }
  }

  /** The completions found after taking departure f complete the trip itself. */
  lemma SoundStep(index: Index, req: Request, mode: Mode, trip: Trip, visited: seq<Airport>, f: Flight, found: seq<Trip>)
    requires !Accepts(req, mode, trip) && HasBudget(req, |visited|)
    requires f in Departures(index, req, mode, trip, visited)
    requires Sound(index, req, mode, Appended(trip, f), visited + [f.destination], found)
    ensures Sound(index, req, mode, trip, visited, found)
  {
    SelectedMembers(index[trip.destination], StepQuery(req, mode, visited, trip.arrival));
    forall r | r in found ensures Completes(index, req, mode, trip, visited, r) {
      CompletesStep(index, req, mode, trip, visited, f, r);
    }
  }

  /** Taking departure f next covers the extensions that start with f. */
  lemma CoversStep(index: Index, req: Request, mode: Mode, trip: Trip, visited: seq<Airport>,
                   firsts: seq<Flight>, f: Flight, results: seq<Trip>, found: seq<Trip>)
    requires CoversVia(index, req, mode, trip, visited, firsts, results)
    requires Covers(index, req, mode, Appended(trip, f), visited + [f.destination], found)
    ensures CoversVia(index, req, mode, trip, visited, firsts + [f], results + found)
  {
    forall ext | Extension(index, req, mode, trip, visited, ext) && ext != [] && ext[0] in firsts + [f]
      ensures Extend(trip, ext) in results + found
    {
      if ext[0] !in firsts {
        assert ext == [f] + ext[1..];
        ExtensionStep(index, req, mode, trip, visited, f, ext[1..]);
      }
    }
  }

  /** Covering the extensions through every admitted departure covers them all. */
  lemma CoversAll(index: Index, req: Request, mode: Mode, trip: Trip, visited: seq<Airport>, results: seq<Trip>)
    requires IndexValid(index) && !Accepts(req, mode, trip)
    requires CoversVia(index, req, mode, trip, visited, Departures(index, req, mode, trip, visited), results)
    ensures Covers(index, req, mode, trip, visited, results)
  {
    ExtensionEmpty(index, req, mode, trip, visited);
    forall ext | Extension(index, req, mode, trip, visited, ext)
      ensures ext != [] && ext[0] in Departures(index, req, mode, trip, visited)
    {
      assert ext != [];
      assert ext == [ext[0]] + ext[1..];
      ExtensionStep(index, req, mode, trip, visited, ext[0], ext[1..]);
      SelectedMembers(index[trip.destination], StepQuery(req, mode, visited, trip.arrival));
    }
  }

  /** The return search's seed: the outbound trip with its destination overwritten (`trip.destination = destination`). */
  function WithDestination(t: Trip, d: Airport): (r: Trip)
    ensures r.destination == d && r.flights == t.flights && r.origin == t.origin
    ensures r.bagsCount == t.bagsCount && r.arrival == t.arrival && r.departure == t.departure
    ensures r.totalPrice == t.totalPrice && r.travelTime == t.travelTime && r.bagsAllowed == t.bagsAllowed
    ensures Summarises(t) ==> Summarises(r)
  {
    t.(destination := d)
  }

  /** Every leg of a scheduled path departs from where the path is, so the legs connect. */
  lemma ScheduledChains(index: Index, start: Airport, ext: seq<Flight>)
    requires IndexValid(index) && Scheduled(index, start, ext)
    ensures Chain(start, ext)
  {
    forall i | 0 <= i < |ext| ensures ext[i].origin == At(start, ext, i) {
      assert ext[i] in index[At(start, ext, i)];
    }
  }

  /** The legs of a valid extension are the legs r gained, they connect, and the trip's totals still agree with its legs. */
  lemma CompletedShape(index: Index, req: Request, mode: Mode, trip: Trip, visited: seq<Airport>, r: Trip)
    requires IndexValid(index)
    requires Completes(index, req, mode, trip, visited, r)
    ensures var ext := r.flights[|trip.flights|..];
      r.flights == trip.flights + ext && Chain(trip.destination, ext) &&
      r.origin == trip.origin && r.bagsCount == trip.bagsCount &&
      (trip.departure.Some? ==> r.departure == trip.departure) &&
      (Summarises(trip) ==> Summarises(r)) &&
      r.destination == At(trip.destination, ext, |ext|) &&
      r.arrival == (if ext == [] then trip.arrival else Some(ext[|ext| - 1].arrival)) &&
      AcceptsAt(req, mode, trip.origin, r.destination)
  {
    var ext := r.flights[|trip.flights|..];
    ExtendShape(trip, ext);
    ScheduledChains(index, trip.destination, ext);
  }

  /** A completion keeps a set departure and keeps the totals in step with the legs. */
  lemma CompletedTotals(index: Index, req: Request, mode: Mode, trip: Trip, visited: seq<Airport>, r: Trip)
    requires Completes(index, req, mode, trip, visited, r)
    ensures r.origin == trip.origin && r.bagsCount == trip.bagsCount
    ensures trip.departure.Some? ==> r.departure == trip.departure
    ensures Summarises(trip) ==> Summarises(r)
  {
    ExtendShape(trip, r.flights[|trip.flights|..]);
  }

  /** The route facts a valid extension carries, leg by leg. */
  lemma ExtensionRoute(index: Index, req: Request, mode: Mode, trip: Trip, visited: seq<Airport>, ext: seq<Flight>)
    requires IndexValid(index) && Extension(index, req, mode, trip, visited, ext)
    ensures Chain(trip.destination, ext)
    ensures ext == [] <==> AcceptsAt(req, mode, trip.origin, trip.destination)
    ensures ext != [] ==> AcceptsAt(req, mode, trip.origin, ext[|ext| - 1].destination)
    ensures forall i :: 0 <= i < |ext| - 1 ==> !AcceptsAt(req, mode, trip.origin, ext[i].destination)
    ensures forall i :: 0 <= i < |ext| ==> ext[i].destination !in Excluded(req, mode, visited)
    ensures forall i, j :: 0 <= i < j < |ext| ==> ext[i].destination != ext[j].destination
    ensures ext != [] && req.maxTransfers.Some? ==> |visited| + |ext| - 1 <= req.maxTransfers.value + 1
    ensures forall i :: 0 <= i < |ext| ==> ext[i].bagsAllowed >= req.bags
  {
    ScheduledChains(index, trip.destination, ext);
    assert At(trip.destination, ext, 0) == trip.destination;
    forall i | 0 <= i < |ext| - 1 ensures !AcceptsAt(req, mode, trip.origin, ext[i].destination) {
      assert At(trip.destination, ext, i + 1) == ext[i].destination;
    }
  }

  /** The departure windows a valid extension keeps, leg by leg. */
  lemma ExtensionTiming(req: Request, mode: Mode, visitedCount: int, arrival: Option<Time>, ext: seq<Flight>)
    requires visitedCount >= 1 && OnTime(req, mode, visitedCount, arrival, ext)
    ensures ext != [] ==> InBounds(ext[0].departure, Bounds(req, mode, visitedCount, arrival))
    ensures forall i :: 0 < i < |ext| ==>
              ext[i - 1].arrival + req.minTransferTime <= ext[i].departure <= ext[i - 1].arrival + req.maxTransferTime
  {
    if ext != [] {
      assert ArrivalBefore(arrival, ext, 0) == arrival;
    }
    forall i | 0 < i < |ext|
      ensures ext[i - 1].arrival + req.minTransferTime <= ext[i].departure <= ext[i - 1].arrival + req.maxTransferTime
    {
      assert ArrivalBefore(arrival, ext, i) == Some(ext[i - 1].arrival);
    }
  }

  /**
   * Every trip of the outbound search from origin leaves origin, has
   * connecting legs, ends at a requested destination and passes none before,
   * never lands at a requested origin or twice at the same airport, and has
   * at most max_transfers + 1 legs.
   */
  lemma OutboundRoute(index: Index, req: Request, origin: Airport, r: Trip)
    requires IndexValid(index) && origin !in req.destinations
    requires Completes(index, req, Outbound, NewTrip(origin, req.bags), [origin], r)
    ensures r.origin == origin && r.bagsCount == req.bags
    ensures r.flights != [] && Chain(origin, r.flights)
    ensures r.destination == r.flights[|r.flights| - 1].destination && r.destination in req.destinations
    ensures forall i :: 0 <= i < |r.flights| - 1 ==> r.flights[i].destination !in req.destinations
    ensures forall i :: 0 <= i < |r.flights| ==>
              r.flights[i].destination != origin && r.flights[i].destination !in req.origins
    ensures forall i, j :: 0 <= i < j < |r.flights| ==> r.flights[i].destination != r.flights[j].destination
    ensures req.maxTransfers.Some? ==> |r.flights| <= req.maxTransfers.value + 1
  {
    var t0 := NewTrip(origin, req.bags);
    CompletedShape(index, req, Outbound, t0, [origin], r);
    var ext := r.flights[|t0.flights|..];
    assert ext == r.flights;
    ExtensionRoute(index, req, Outbound, t0, [origin], ext);
    assert Excluded(req, Outbound, [origin]) == req.origins + [origin];
  }

  /**
   * Every trip of the outbound search departs within [min_departure,
   * max_departure], makes each transfer within the transfer window, carries
   * the bags on every leg, and its totals agree with its legs.
   */
  lemma OutboundTiming(index: Index, req: Request, origin: Airport, r: Trip)
    requires IndexValid(index) && origin !in req.destinations
    requires Completes(index, req, Outbound, NewTrip(origin, req.bags), [origin], r)
    ensures r.flights != []
    ensures InBounds(r.flights[0].departure, (req.minDeparture, req.maxDeparture))
    ensures forall i :: 0 < i < |r.flights| ==>
              r.flights[i - 1].arrival + req.minTransferTime <= r.flights[i].departure <= r.flights[i - 1].arrival + req.maxTransferTime
  {
    var t0 := NewTrip(origin, req.bags);
    assert r.flights[|t0.flights|..] == r.flights;
    assert r.flights != [] by {
      ExtensionEmpty(index, req, Outbound, t0, [origin]);
    }
    OutboundWindow(req, r.flights);
  }

  /**
   * Every trip of the outbound search has totals that agree with its legs:
   * its price is the sum of the leg prices for the bags carried, and its
   * allowance, the smallest leg allowance, carries those bags.
   */
  lemma OutboundTotals(index: Index, req: Request, origin: Airport, r: Trip)
    requires IndexValid(index) && origin !in req.destinations
    requires Completes(index, req, Outbound, NewTrip(origin, req.bags), [origin], r)
    ensures Summarises(r) && r.bagsCount == req.bags
    ensures r.totalPrice == TotalCost(r.flights, req.bags)
    ensures r.bagsAllowed.Some? && r.bagsAllowed.value >= req.bags
  {
    var t0 := NewTrip(origin, req.bags);
    assert r.flights[|t0.flights|..] == r.flights;
    CompletedTotals(index, req, Outbound, t0, [origin], r);
    assert r.flights != [] by {
      ExtensionEmpty(index, req, Outbound, t0, [origin]);
    }
    AllowanceCarries(req, r.flights);
  }

  /** The windows of the legs of an outbound trip. */
  lemma OutboundWindow(req: Request, ext: seq<Flight>)
    requires ext != [] && OnTime(req, Outbound, 1, None, ext)
    ensures InBounds(ext[0].departure, (req.minDeparture, req.maxDeparture))
    ensures forall i :: 0 < i < |ext| ==>
              ext[i - 1].arrival + req.minTransferTime <= ext[i].departure <= ext[i - 1].arrival + req.maxTransferTime
  {
    ExtensionTiming(req, Outbound, 1, None, ext);
  }

  /** Legs that each carry the bags have an allowance, their smallest, that carries them too. */
  lemma AllowanceCarries(req: Request, ext: seq<Flight>)
    requires ext != [] && CarriesBags(req, ext)
    ensures MinAllowance(ext).Some? && MinAllowance(ext).value >= req.bags
  {
    MinAllowanceIsMinimum(ext);
  }

  /**
   * Every trip of the return search seeded with out at d keeps the outbound
   * legs as a prefix and gains at least one leg (`back`); the gained legs
   * leave d and connect, end back at the trip's origin (or, if allowed, at
   * any requested origin) and pass no such airport before, never land at d
   * or twice at the same airport (nor at a requested destination when
   * returning from another airport is allowed), and number at most
   * max_transfers + 1.
   */
  lemma ReturnRoute(index: Index, req: Request, out: Trip, d: Airport, r: Trip)
    requires IndexValid(index)
    requires d != out.origin && d !in req.origins
    requires Completes(index, req, Return, WithDestination(out, d), [d], r)
    ensures |out.flights| < |r.flights| && r.flights == out.flights + r.flights[|out.flights|..]
    ensures r.origin == out.origin && r.bagsCount == out.bagsCount
    ensures var back := r.flights[|out.flights|..];
      Chain(d, back) &&
      r.destination == back[|back| - 1].destination &&
      (r.destination == out.origin || (req.returnToOtherAirport && r.destination in req.origins)) &&
      (forall i :: 0 <= i < |back| - 1 ==>
         back[i].destination != out.origin && !(req.returnToOtherAirport && back[i].destination in req.origins)) &&
      (forall i :: 0 <= i < |back| ==>
         back[i].destination != d && (req.returnFromOtherAirport ==> back[i].destination !in req.destinations)) &&
      (forall i, j :: 0 <= i < j < |back| ==> back[i].destination != back[j].destination) &&
      (req.maxTransfers.Some? ==> |back| <= req.maxTransfers.value + 1)
  {
    var seed := WithDestination(out, d);
    var back := r.flights[|out.flights|..];
    assert r.flights == out.flights + back && r.origin == out.origin && r.bagsCount == out.bagsCount &&
           r.destination == At(d, back, |back|) by {
      CompletedShape(index, req, Return, seed, [d], r);
    }
    assert Extension(index, req, Return, seed, [d], back);
    ReturnLegsRoute(index, req, seed, back);
  }

  /** The route facts of the legs a return search gains from its seed. */
  lemma ReturnLegsRoute(index: Index, req: Request, seed: Trip, back: seq<Flight>)
    requires IndexValid(index) && !Accepts(req, Return, seed)
    requires Extension(index, req, Return, seed, [seed.destination], back)
    ensures back != [] && Chain(seed.destination, back)
    ensures At(seed.destination, back, |back|) == back[|back| - 1].destination
    ensures AcceptsAt(req, Return, seed.origin, back[|back| - 1].destination)
    ensures forall i :: 0 <= i < |back| - 1 ==> !AcceptsAt(req, Return, seed.origin, back[i].destination)
    ensures forall i :: 0 <= i < |back| ==>
              back[i].destination != seed.destination && (req.returnFromOtherAirport ==> back[i].destination !in req.destinations)
    ensures forall i, j :: 0 <= i < j < |back| ==> back[i].destination != back[j].destination
    ensures req.maxTransfers.Some? ==> |back| <= req.maxTransfers.value + 1
  {
    ExtensionRoute(index, req, Return, seed, [seed.destination], back);
    assert forall a :: a !in Excluded(req, Return, [seed.destination]) ==>
      a != seed.destination && (req.returnFromOtherAirport ==> a !in req.destinations);
  }

  /**
   * The first gained leg of a return trip departs within the stay window
   * after the outbound arrival, each later one within the transfer window,
   * and the totals (price, departure, travel time) span the whole round trip.
   */
  lemma ReturnTiming(index: Index, req: Request, out: Trip, d: Airport, r: Trip)
    requires IndexValid(index) && out.arrival.Some?
    requires d != out.origin && d !in req.origins
    requires Completes(index, req, Return, WithDestination(out, d), [d], r)
    ensures |out.flights| < |r.flights|
    ensures var back := r.flights[|out.flights|..];
      out.arrival.value + req.minDaysAtDestination * Day <= back[0].departure &&
      (req.maxDaysAtDestination.Some? ==> back[0].departure <= out.arrival.value + req.maxDaysAtDestination.value * Day) &&
      forall i :: 0 < i < |back| ==>
        back[i - 1].arrival + req.minTransferTime <= back[i].departure <= back[i - 1].arrival + req.maxTransferTime
  {
    var seed := WithDestination(out, d);
    assert !Accepts(req, Return, seed);
    SeedWindow(index, req, seed, d, r);
  }

  /** The windows of the legs a return trip gains from a seed that is not yet back. */
  lemma SeedWindow(index: Index, req: Request, seed: Trip, d: Airport, r: Trip)
    requires seed.arrival.Some? && !Accepts(req, Return, seed)
    requires Completes(index, req, Return, seed, [d], r)
    ensures |seed.flights| < |r.flights|
    ensures var back := r.flights[|seed.flights|..];
      seed.arrival.value + req.minDaysAtDestination * Day <= back[0].departure &&
      (req.maxDaysAtDestination.Some? ==> back[0].departure <= seed.arrival.value + req.maxDaysAtDestination.value * Day) &&
      forall i :: 0 < i < |back| ==>
        back[i - 1].arrival + req.minTransferTime <= back[i].departure <= back[i - 1].arrival + req.maxTransferTime
  {
    var back := r.flights[|seed.flights|..];
    assert back != [] by {
      ExtensionEmpty(index, req, Return, seed, [d]);
    }
    CompletedOnTime(index, req, Return, seed, [d], r);
    ReturnWindow(req, seed.arrival.value, back);
  }

  /** The legs a completion gains depart within the windows of their steps. */
  lemma CompletedOnTime(index: Index, req: Request, mode: Mode, trip: Trip, visited: seq<Airport>, r: Trip)
    requires Completes(index, req, mode, trip, visited, r)
    ensures OnTime(req, mode, |visited|, trip.arrival, r.flights[|trip.flights|..])
  {
  }

  /** The windows of the gained legs of a return trip, from the outbound arrival on. */
  lemma ReturnWindow(req: Request, arrival: Time, back: seq<Flight>)
    requires back != [] && OnTime(req, Return, 1, Some(arrival), back)
    ensures arrival + req.minDaysAtDestination * Day <= back[0].departure
    ensures req.maxDaysAtDestination.Some? ==> back[0].departure <= arrival + req.maxDaysAtDestination.value * Day
    ensures forall i :: 0 < i < |back| ==>
              back[i - 1].arrival + req.minTransferTime <= back[i].departure <= back[i - 1].arrival + req.maxTransferTime
  {
    ExtensionTiming(req, Return, 1, Some(arrival), back);
  }
}
