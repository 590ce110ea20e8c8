/**
 * The flight schedule: an index of flights by origin airport, the
 * departure query over it, and the itinerary search.
 */
module FlightSearch {
  import opened Wrappers
  import opened Flights
  import opened Trips
  import opened ScheduleIndex
  import opened SearchRules
  import Ranking

  /** Why `search` refuses a request: `KeyError` for an unknown code, `ValueError` for overlapping airports. */
  datatype SearchError = UnknownAirport(code: Airport) | OverlappingAirports

  /** The first code in codes that is not a key of index. */
  function FirstMissing(index: Index, codes: seq<Airport>): Option<Airport> {
    if codes == [] then None
    else if codes[0] !in index then Some(codes[0])
    else FirstMissing(index, codes[1..])
  }

  lemma {:induction false} FirstMissingIsFirst(index: Index, codes: seq<Airport>)
    ensures FirstMissing(index, codes) == None <==> forall c :: c in codes ==> c in index
    ensures FirstMissing(index, codes) != None ==>
              exists i :: 0 <= i < |codes| && codes[i] == FirstMissing(index, codes).value &&
                          codes[i] !in index && forall j :: 0 <= j < i ==> codes[j] in index
  {
    if codes != [] && codes[0] in index {
      FirstMissingIsFirst(index, codes[1..]);
      assert forall c :: c in codes ==> c == codes[0] || c in codes[1..];
      if FirstMissing(index, codes) != None {
        var i :| 0 <= i < |codes[1..]| && codes[1..][i] == FirstMissing(index, codes[1..]).value &&
                 codes[1..][i] !in index && forall j :: 0 <= j < i ==> codes[1..][j] in index;
        assert forall j :: 0 < j < i + 1 ==> codes[j] == codes[1..][j - 1];
      }
    }
  }

  /** Checking origins, then destinations, finds the first unknown code of both lists together. */
  lemma {:induction false} FirstMissingAppend(index: Index, a: seq<Airport>, b: seq<Airport>)
    ensures FirstMissing(index, a + b) == if FirstMissing(index, a) == None then FirstMissing(index, b) else FirstMissing(index, a)
  {
    if a != [] {
      FirstMissingAppend(index, a[1..], b);
      assert (a + b)[1..] == a[1..] + b;
    } else {
      assert a + b == b;
    }
  }

  /** One validation loop: the first code that is not a key of index, if any. */
  method FirstUnknown(index: Index, codes: seq<Airport>) returns (missing: Option<Airport>)
    ensures missing == FirstMissing(index, codes)
  {
    var i := 0;
    while i < |codes|
      invariant 0 <= i <= |codes|
      invariant FirstMissing(index, codes) == FirstMissing(index, codes[i..])
    {
      if codes[i] !in index {
        return Some(codes[i]);
      }
      assert codes[i..][1..] == codes[i + 1..];
      i := i + 1;
    }
    return None;
  }

  predicate Overlapping(origins: seq<Airport>, destinations: seq<Airport>) {
    exists a :: a in origins && a in destinations
  }

  /**
   * What `get_departing_flights` answers for a known origin: exactly the
   * origin's flights that the query admits, all leaving that origin, in
   * departure order.
   */
  lemma DeparturesAnswer(index: Index, o: Airport, q: Query)
    requires IndexValid(index) && o in index
    ensures forall f :: f in Selected(index[o], q) <==> f in index[o] && Matches(f, q)
    ensures forall f :: f in Selected(index[o], q) ==> f.origin == o
    ensures SortedByDeparture(Selected(index[o], q))
  {
    SelectedMembers(index[o], q);
    SelectedKeepsOrder(index[o], q);
  }

  /** The airports some scheduled flight lands at. */
  ghost function Landings(index: Index): set<Airport> {
    set o, f | o in index && f in index[o] :: f.destination
  }

  /** The airports a search branch may still land at: the measure that bounds the recursion. */
  ghost function Unvisited(index: Index, visited: seq<Airport>): set<Airport> {
    set a | a in Landings(index) && a !in visited
  }

  lemma UnvisitedShrinks(index: Index, visited: seq<Airport>, x: Airport)
    requires x in Landings(index) && x !in visited
    ensures |Unvisited(index, visited + [x])| < |Unvisited(index, visited)|
  {
    assert Unvisited(index, visited + [x]) == Unvisited(index, visited) - {x};
  }

  /** The outbound results: exactly the completions of a new trip from origin. */
  ghost predicate OutboundSearch(index: Index, req: Request, origin: Airport, results: seq<Trip>) {
    Sound(index, req, Outbound, NewTrip(origin, req.bags), [origin], results) &&
    Covers(index, req, Outbound, NewTrip(origin, req.bags), [origin], results)
  }

  /** The airports a return search from out is seeded at. */
  function Seeds(req: Request, out: Trip): seq<Airport> {
    if req.returnFromOtherAirport then req.destinations else [out.destination]
  }

  /** Every trip in results completes some seed of out. */
  ghost predicate SeedSound(index: Index, req: Request, out: Trip, results: seq<Trip>) {
    forall r :: r in results ==>
      exists d :: d in Seeds(req, out) && Completes(index, req, Return, WithDestination(out, d), [d], r)
  }

  /** Every valid extension of every seed of out yields a trip in results. */
  ghost predicate SeedCovers(index: Index, req: Request, out: Trip, results: seq<Trip>) {
    forall d, ext :: d in Seeds(req, out) && Extension(index, req, Return, WithDestination(out, d), [d], ext) ==>
      Extend(WithDestination(out, d), ext) in results
  }

  /** The return results: exactly the completions of every seed of every outbound trip. */
  ghost predicate ReturnSearch(index: Index, req: Request, outbound: seq<Trip>, results: seq<Trip>) {
    (forall r :: r in results ==>
       exists i, d :: 0 <= i < |outbound| && d in Seeds(req, outbound[i]) &&
                      Completes(index, req, Return, WithDestination(outbound[i], d), [d], r)) &&
    (forall i, d, ext ::
       0 <= i < |outbound| && d in Seeds(req, outbound[i]) &&
       Extension(index, req, Return, WithDestination(outbound[i], d), [d], ext)
       ==> Extend(WithDestination(outbound[i], d), ext) in results)
  }

  /** Adding the return trips of one more outbound trip extends the return results. */
  lemma ReturnSearchStep(index: Index, req: Request, outbound: seq<Trip>, j: int, results: seq<Trip>, back: seq<Trip>)
    requires 0 <= j < |outbound|
    requires ReturnSearch(index, req, outbound[..j], results)
    requires SeedSound(index, req, outbound[j], back) && SeedCovers(index, req, outbound[j], back)
    ensures ReturnSearch(index, req, outbound[..j + 1], results + back)
  {
    var prefix := outbound[..j + 1];
    assert forall i :: 0 <= i < j ==> prefix[i] == outbound[..j][i];
    assert prefix[j] == outbound[j];
    forall r | r in results + back
      ensures exists i, d :: 0 <= i < |prefix| && d in Seeds(req, prefix[i]) &&
                             Completes(index, req, Return, WithDestination(prefix[i], d), [d], r)
    {
      if r in results {
        var i, d :| 0 <= i < j && d in Seeds(req, outbound[..j][i]) &&
                    Completes(index, req, Return, WithDestination(outbound[..j][i], d), [d], r);
        assert prefix[i] == outbound[..j][i];
      } else {
        var d :| d in Seeds(req, outbound[j]) && Completes(index, req, Return, WithDestination(outbound[j], d), [d], r);
        assert prefix[j] == outbound[j];
      }
    }
    forall i, d, ext |
      0 <= i < |prefix| && d in Seeds(req, prefix[i]) &&
      Extension(index, req, Return, WithDestination(prefix[i], d), [d], ext)
      ensures Extend(WithDestination(prefix[i], d), ext) in results + back
    {
      if i < j {
        assert prefix[i] == outbound[..j][i];
      }
    }
  }

  /** The return search can start from every outbound trip: each has arrived and carries the bags. */
  ghost predicate Arrived(req: Request, outbound: seq<Trip>) {
    forall r :: r in outbound ==> r.arrival.Some? && r.bagsCount == req.bags
  }

  /** Every completed outbound trip has arrived somewhere and carries the requested bags. */
  lemma OutboundArrives(index: Index, req: Request, origin: Airport, results: seq<Trip>)
    requires IndexValid(index) && origin !in req.destinations
    requires Sound(index, req, Outbound, NewTrip(origin, req.bags), [origin], results)
    ensures Arrived(req, results)
  {
    var t0 := NewTrip(origin, req.bags);
    forall r | r in results ensures r.arrival.Some? && r.bagsCount == req.bags {
      CompletedShape(index, req, Outbound, t0, [origin], r);
      ExtensionRoute(index, req, Outbound, t0, [origin], r.flights[|t0.flights|..]);
    }
  }

  /** Reading one more record extends its origin's group and leaves every other group alone. */
  lemma GroupingStep(records: seq<Flight>, i: int)
    requires 0 <= i < |records|
    ensures OriginsOf(records[..i + 1]) == OriginsOf(records[..i]) + {records[i].origin}
    ensures records[i].origin !in OriginsOf(records[..i]) ==> FromOrigin(records[..i], records[i].origin) == []
    ensures forall o :: FromOrigin(records[..i + 1], o) ==
              FromOrigin(records[..i], o) + (if records[i].origin == o then [records[i]] else [])
  {
    assert records[..i + 1][..i] == records[..i];
    FromOriginMembers(records[..i], records[i].origin);
  }

  /** index holds exactly the groups of records: one per origin, in load order. */
  ghost predicate Grouped(index: Index, records: seq<Flight>) {
    index.Keys == OriginsOf(records) && forall o :: o in index ==> index[o] == FromOrigin(records, o)
  }

  /** The loop body of the build, creating the group if new and appending the record, keeps `Grouped`. */
  lemma GroupedStep(index: Index, grown: Index, records: seq<Flight>, i: int)
    requires 0 <= i < |records| && Grouped(index, records[..i])
    requires grown.Keys == index.Keys + {records[i].origin}
    requires grown[records[i].origin] == (if records[i].origin in index then index[records[i].origin] else []) + [records[i]]
    requires forall o :: o in index && o != records[i].origin ==> grown[o] == index[o]
    ensures Grouped(grown, records[..i + 1])
  {
    GroupingStep(records, i);
  }

  /** A loaded group is sorted and holds only flights from its key. */
  lemma GroupValid(records: seq<Flight>, o: Airport)
    ensures SortedByDeparture(SortByDeparture(FromOrigin(records, o)))
    ensures forall f :: f in SortByDeparture(FromOrigin(records, o)) ==> f.origin == o
  {
    LoadedGroup(records, o);
  }

  class FlightSchedule {
    /** `_flight_schedule`: origin airport to its departing flights. */
    var schedule: Index

    ghost predicate Valid()
      reads this
    {
      IndexValid(schedule)
    }

    constructor()
      ensures schedule == map[] && Valid()
    {
      schedule := map[];
    }

    /**
     * The index build of `load_from_csv` over already parsed records: clear
     * the index, append each record to its origin's group, then sort every
     * group by departure.
     */
    method LoadRecords(records: seq<Flight>)
      modifies this
      ensures Valid()
      ensures schedule.Keys == OriginsOf(records)
      ensures forall o :: o in schedule ==> schedule[o] == SortByDeparture(FromOrigin(records, o))
    {
      schedule := map[];
      GroupRecords(records);
      SortGroups();
      forall o | o in schedule ensures SortedByDeparture(schedule[o]) && forall f :: f in schedule[o] ==> f.origin == o {
        GroupValid(records, o);
      }
    }

    /**
     * The first half of the build: each record appended to its origin's
     * group, in load order, the group created on first use.
     */
    method GroupRecords(records: seq<Flight>)
      requires schedule == map[]
      modifies this
      ensures Grouped(schedule, records)
    {
      var groups := schedule;
      var i := 0;
      while i < |records|
        invariant 0 <= i <= |records|
        invariant Grouped(groups, records[..i])
      {
        var row := records[i];
        ghost var before := groups;
        if row.origin !in groups {
          groups := groups[row.origin := []];
        }
        groups := groups[row.origin := groups[row.origin] + [row]];
        GroupedStep(before, groups, records, i);
        i := i + 1;
      }
      assert records[..i] == records;
      schedule := groups;
    }

    /** The second half of the build: every group sorted by departure in place, the keys untouched. */
    method SortGroups()
      modifies this
      ensures schedule.Keys == old(schedule.Keys)
      ensures forall o :: o in schedule ==> schedule[o] == SortByDeparture(old(schedule)[o])
    {
      var pending := schedule.Keys;
      while pending != {}
        invariant pending <= schedule.Keys == old(schedule.Keys)
        invariant forall o :: o in schedule ==>
          schedule[o] == if o in pending then old(schedule)[o] else SortByDeparture(old(schedule)[o])
        decreases |pending|
      {
        var o :| o in pending;
        schedule := schedule[o := SortByDeparture(schedule[o])];
        pending := pending - {o};
      }
    }

    /**
     * `get_departing_flights`: nothing for an unknown origin; otherwise the
     * flights of the origin's group that the query admits, in departure order.
     */
    method GetDepartingFlights(origin: Airport, q: Query) returns (flights: seq<Flight>)
      requires Valid()
      ensures origin !in schedule ==> flights == []
      ensures origin in schedule ==> flights == Selected(schedule[origin], q)
    {
      if origin !in schedule {
        return [];
      }
      flights := SelectDepartures(schedule[origin], q);
    }

    /**
     * `dfs` (Outbound) and `dfs_back` (Return): every trip the search emits
     * completes trip by a valid extension, and every valid extension is
     * emitted.
     */
    method Explore(req: Request, mode: Mode, trip: Trip, visited: seq<Airport>) returns (results: seq<Trip>)
      requires Valid()
      requires |visited| >= 1 && trip.bagsCount == req.bags
      requires |visited| > 1 || mode == Return ==> trip.arrival.Some?
      ensures Sound(schedule, req, mode, trip, visited, results)
      ensures Covers(schedule, req, mode, trip, visited, results)
      decreases |Unvisited(schedule, visited)|
    {
      if Accepts(req, mode, trip) {
        AcceptedCompletes(schedule, req, mode, trip, visited);
        return [trip];
      }
      results := [];
      if !HasBudget(req, |visited|) {
        ExhaustedCompletes(schedule, req, mode, trip, visited);
        return;
      }
      var q := StepQuery(req, mode, visited, trip.arrival);
      var departing := GetDepartingFlights(trip.destination, q);
      assert departing == Departures(schedule, req, mode, trip, visited);
      var k := 0;
      while k < |departing|
        invariant 0 <= k <= |departing|
        invariant Sound(schedule, req, mode, trip, visited, results)
        invariant CoversVia(schedule, req, mode, trip, visited, departing[..k], results)
      {
        var f := departing[k];
        assert f in schedule[trip.destination] && Matches(f, q) by {
          SelectedMembers(schedule[trip.destination], q);
        }
        var next := AddFlight(trip, f).value;
        assert next == Appended(trip, f);
        assert f.destination in Landings(schedule);
        ExcludedGrows(req, mode, visited, f.destination);
        UnvisitedShrinks(schedule, visited, f.destination);
        var found := Explore(req, mode, next, visited + [f.destination]);
        LoopStep(schedule, req, mode, trip, visited, departing, k, results, found);
        results := results + found;
        k := k + 1;
      }
      assert departing[..k] == departing;
      CoversAll(schedule, req, mode, trip, visited, results);
    }

    /**
     * The return search for one outbound trip: seeded at its own destination,
     * or, when returning from another airport is allowed, once at every
     * requested destination after overwriting the trip's destination.
     */
    method ReturnLegs(req: Request, out: Trip) returns (back: seq<Trip>)
      requires Valid()
      requires out.arrival.Some? && out.bagsCount == req.bags
      ensures SeedSound(schedule, req, out, back) && SeedCovers(schedule, req, out, back)
    {
      if req.returnFromOtherAirport {
        back := [];
        var trip := out;
        var m := 0;
        while m < |req.destinations|
          invariant 0 <= m <= |req.destinations|
          invariant trip == WithDestination(out, trip.destination)
          invariant forall r :: r in back ==>
                      exists d :: d in req.destinations[..m] && Completes(schedule, req, Return, WithDestination(out, d), [d], r)
          invariant forall d, ext :: d in req.destinations[..m] && Extension(schedule, req, Return, WithDestination(out, d), [d], ext) ==>
                      Extend(WithDestination(out, d), ext) in back
        {
          var d := req.destinations[m];
          trip := trip.(destination := d);
          var found := Explore(req, Return, trip, [d]);
          assert req.destinations[..m + 1] == req.destinations[..m] + [d];
          back := back + found;
          m := m + 1;
        }
        assert req.destinations[..m] == req.destinations;
      } else {
        assert WithDestination(out, out.destination) == out;
        back := Explore(req, Return, out, [out.destination]);
      }
    }

    /** The validation of `search`: an unknown airport first, then overlapping airports. */
    method Validate(req: Request) returns (error: Option<SearchError>)
      ensures var missing := FirstMissing(schedule, req.origins + req.destinations);
        (missing.Some? ==> error == Some(UnknownAirport(missing.value))) &&
        (missing == None && Overlapping(req.origins, req.destinations) ==> error == Some(OverlappingAirports)) &&
        (missing == None && !Overlapping(req.origins, req.destinations) ==> error == None)
    {
      FirstMissingAppend(schedule, req.origins, req.destinations);
      var missing := FirstUnknown(schedule, req.origins);
      if missing.Some? {
        return Some(UnknownAirport(missing.value));
      }
      missing := FirstUnknown(schedule, req.destinations);
      if missing.Some? {
        return Some(UnknownAirport(missing.value));
      }
      if Overlapping(req.origins, req.destinations) {
        return Some(OverlappingAirports);
      }
      return None;
    }

    /** The outbound loop of `search`: each origin's results replace the previous ones. */
    method OutboundTrips(req: Request) returns (results: seq<Trip>)
      requires Valid()
      ensures req.origins == [] ==> results == []
      ensures req.origins != [] ==> OutboundSearch(schedule, req, req.origins[|req.origins| - 1], results)
    {
      results := [];
      var i := 0;
      while i < |req.origins|
        invariant 0 <= i <= |req.origins|
        invariant i == 0 ==> results == []
        invariant i > 0 ==> OutboundSearch(schedule, req, req.origins[i - 1], results)
      {
        var origin := req.origins[i];
        results := Explore(req, Outbound, NewTrip(origin, req.bags), [origin]);
        i := i + 1;
      }
    }

    /** The return loop of `search`: the return trips of every outbound trip, in order. */
    method ReturnTrips(req: Request, outbound: seq<Trip>) returns (results: seq<Trip>)
      requires Valid() && Arrived(req, outbound)
      ensures ReturnSearch(schedule, req, outbound, results)
    {
      results := [];
      var j := 0;
      while j < |outbound|
        invariant 0 <= j <= |outbound|
        invariant ReturnSearch(schedule, req, outbound[..j], results)
      {
        var back := ReturnLegs(req, outbound[j]);
        ReturnSearchStep(schedule, req, outbound, j, results, back);
        results := results + back;
        j := j + 1;
      }
      assert outbound[..j] == outbound;
    }

    /**
     * `search`: validates the airports, runs the outbound search from each
     * origin in turn (only the last origin's results are kept, as each run
     * replaces the previous one), runs the return search for every outbound
     * trip when a return flight is requested, and finally sorts by the
     * requested keys if any. `outbound` and `unsorted` name the intermediate
     * result lists.
     */
    method Search(req: Request) returns (outcome: Result<seq<Trip>, SearchError>, ghost outbound: seq<Trip>, ghost unsorted: seq<Trip>)
      requires Valid()
      ensures var missing := FirstMissing(schedule, req.origins + req.destinations);
        (missing.Some? ==> outcome == Err(UnknownAirport(missing.value))) &&
        (missing == None && Overlapping(req.origins, req.destinations) ==> outcome == Err(OverlappingAirports)) &&
        (missing == None && !Overlapping(req.origins, req.destinations) ==> outcome.Ok?)
      ensures outcome.Err? ==> outbound == [] && unsorted == []
      ensures outcome.Ok? && req.origins == [] ==> outbound == []
      ensures outcome.Ok? && req.origins != [] ==> OutboundSearch(schedule, req, req.origins[|req.origins| - 1], outbound)
      ensures outcome.Ok? ==> if req.returnFlight then ReturnSearch(schedule, req, outbound, unsorted) else unsorted == outbound
      ensures outcome.Ok? ==> outcome.value == if req.sortBy == None then unsorted else Ranking.SortTrips(unsorted, req.sortBy.value)
    {
      outbound, unsorted := [], [];
      var error := Validate(req);
      if error.Some? {
        return Err(error.value), outbound, unsorted;
      }
      var results := OutboundTrips(req);
      outbound := results;
      if req.returnFlight {
        if req.origins != [] {
          var origin := req.origins[|req.origins| - 1];
          assert origin !in req.destinations;
          OutboundArrives(schedule, req, origin, results);
        }
        results := ReturnTrips(req, results);
      }
      unsorted := results;
      if req.sortBy.Some? {
        results := Ranking.SortTrips(results, req.sortBy.value);
      }
      return Ok(results), outbound, unsorted;
    }
  }
}
