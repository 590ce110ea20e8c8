/**
 * A worked example: three airports, a flight A to B, a connection B to C,
 * and a flight leaving C (so that C is a known airport). The outbound
 * search from A to C with one bag finds exactly the trip A, B, C.
 */
module Scenario {
  import opened Wrappers
  import opened Flights
  import opened Trips
  import opened ScheduleIndex
  import opened SearchRules
  import FlightSearch
  import Sorting

  const AtoB := Flight("A", "B", 10 * Hour, 12 * Hour, 100, 10, 2)
  const BtoC := Flight("B", "C", 13 * Hour, 15 * Hour, 80, 5, 1)
  const CtoA := Flight("C", "A", 20 * Hour, 22 * Hour, 90, 5, 1)

  const Records: seq<Flight> := [AtoB, BtoC, CtoA]

  /** The index the build produces from Records. */
  const Schedule: Index := map["A" := [AtoB], "B" := [BtoC], "C" := [CtoA]]

  /** `search(['A'], ['C'], bags=1)` with every other argument left at its default. */
  function OneBag(): Request {
    DefaultRequest(["A"], ["C"]).(bags := 1)
  }

  const Expected := Trip("A", "C", [AtoB, BtoC], 195, Some(10 * Hour), Some(15 * Hour), 5 * Hour, 1, Some(1))

  lemma GroupsOfRecords()
    ensures FromOrigin(Records, "A") == [AtoB] && FromOrigin(Records, "B") == [BtoC] && FromOrigin(Records, "C") == [CtoA]
    ensures OriginsOf(Records) == {"A", "B", "C"}
  {
    assert Records[..0] == [] && Records[..3] == Records;
    assert Records[0] == AtoB && Records[1] == BtoC && Records[2] == CtoA;
    FlightSearch.GroupingStep(Records, 0);
    FlightSearch.GroupingStep(Records, 1);
    FlightSearch.GroupingStep(Records, 2);
  }

  lemma SortSingleton(f: Flight)
    ensures SortByDeparture([f]) == [f]
  {
    assert [f][..0] == [];
    assert Sorting.Sort([f], DepartsNoLater) == Sorting.Insert(Sorting.Sort([], DepartsNoLater), f, DepartsNoLater);
  }

  lemma LoadedGroups()
    ensures forall o :: o in Schedule ==> Schedule[o] == SortByDeparture(FromOrigin(Records, o))
  {
    forall o | o in Schedule ensures Schedule[o] == SortByDeparture(FromOrigin(Records, o)) {
      GroupsOfRecords();
      if o == "A" {
        SortSingleton(AtoB);
      } else if o == "B" {
        SortSingleton(BtoC);
      } else {
        SortSingleton(CtoA);
      }
    }
  }

  lemma ScheduleValid()
    ensures IndexValid(Schedule)
  {
    forall o | o in Schedule ensures SortedByDeparture(Schedule[o]) && forall f :: f in Schedule[o] ==> f.origin == o {
      assert |Schedule[o]| == 1;
    }
  }

  /** Loading Records groups one flight under each airport. */
  lemma ScheduleLoaded()
    ensures OriginsOf(Records) == Schedule.Keys
    ensures forall o :: o in Schedule ==> Schedule[o] == SortByDeparture(FromOrigin(Records, o))
    ensures IndexValid(Schedule)
  {
    assert Schedule.Keys == {"A", "B", "C"};
    GroupsOfRecords();
    LoadedGroups();
    ScheduleValid();
  }

  /** A and C are known airports, so the request passes validation. */
  lemma RequestValid()
    ensures FlightSearch.FirstMissing(Schedule, OneBag().origins + OneBag().destinations) == None
    ensures !FlightSearch.Overlapping(OneBag().origins, OneBag().destinations)
  {
    assert OneBag().origins + OneBag().destinations == ["A", "C"];
    assert "A" in Schedule && "C" in Schedule;
    assert ["A", "C"][1..] == ["C"] && ["C"][1..] == [];
    assert FlightSearch.FirstMissing(Schedule, ["C"]) == FlightSearch.FirstMissing(Schedule, []);
    assert FlightSearch.FirstMissing(Schedule, ["A", "C"]) == FlightSearch.FirstMissing(Schedule, ["C"]);
  }

  /** The two legs A to B and B to C are a valid outbound extension. */
  lemma ExpectedIsExtension()
    ensures Extension(Schedule, OneBag(), Outbound, NewTrip("A", 1), ["A"], [AtoB, BtoC])
  {
    var ext := [AtoB, BtoC];
    assert At("A", ext, 1) == "B" && At("A", ext, 2) == "C";
    assert ArrivalBefore(None, ext, 1) == Some(12 * Hour);
    assert Excluded(OneBag(), Outbound, ["A"]) == ["A", "A"];
  }

  /** Every valid outbound extension from A is A to B followed by B to C. */
  lemma OnlyExtension(ext: seq<Flight>)
    requires Extension(Schedule, OneBag(), Outbound, NewTrip("A", 1), ["A"], ext)
    ensures ext == [AtoB, BtoC]
  {
    var req := OneBag();
    ScheduleLoaded();
    ExtensionRoute(Schedule, req, Outbound, NewTrip("A", 1), ["A"], ext);
    assert At("A", ext, 0) == "A";
    assert ext[0] == AtoB;
    assert |ext| >= 2;
    assert At("A", ext, 1) == "B";
    assert ext[1] == BtoC;
  }

  /**
   * The outbound search from A to C with one bag: a trip completes the
   * search exactly when it is A to B to C, priced 100 + 10 + 80 + 5 = 195.
   */
  lemma OnlyTripAtoC(r: Trip)
    ensures Completes(Schedule, OneBag(), Outbound, NewTrip("A", 1), ["A"], r) <==> r == Expected
    ensures Expected.totalPrice == 195 && Expected.flights == [AtoB, BtoC]
  {
    var t0 := NewTrip("A", 1);
    assert Extend(t0, [AtoB, BtoC]) == Expected by {
      var t1 := Appended(t0, AtoB);
      assert t1 == Trip("A", "B", [AtoB], 110, Some(10 * Hour), Some(12 * Hour), 2 * Hour, 1, Some(2));
      assert Appended(t1, BtoC) == Expected;
      assert [AtoB, BtoC][1..] == [BtoC] && [BtoC][1..] == [];
      assert Extend(t0, [AtoB, BtoC]) == Extend(t1, [BtoC]);
      assert Extend(t1, [BtoC]) == Extend(Appended(t1, BtoC), []);
    }
    if Completes(Schedule, OneBag(), Outbound, t0, ["A"], r) {
      OnlyExtension(r.flights[|t0.flights|..]);
    }
    if r == Expected {
      ExpectedIsExtension();
      assert r.flights[|t0.flights|..] == [AtoB, BtoC];
    }
  }

  /**
   * With only the flights A to B and B to C, C has no departures and is
   * therefore not a key of the index: the same request is refused as
   * naming an unknown airport.
   */
  lemma DestinationWithoutDepartures()
    ensures FlightSearch.FirstMissing(map["A" := [AtoB], "B" := [BtoC]], OneBag().origins + OneBag().destinations) == Some("C")
  {
    var index := map["A" := [AtoB], "B" := [BtoC]];
    assert OneBag().origins + OneBag().destinations == ["A", "C"];
    assert "A" in index && "C" !in index;
    assert ["A", "C"][1..] == ["C"];
    assert FlightSearch.FirstMissing(index, ["A", "C"]) == FlightSearch.FirstMissing(index, ["C"]);
  }
}
