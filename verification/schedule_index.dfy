/**
 * The schedule index: flights grouped by origin airport, each group ordered by
 * departure, and the range-and-filter query answered on one group.
 */
module ScheduleIndex {
  import opened Wrappers
  import opened Flights
  import Sorting

  type Index = map<Airport, seq<Flight>>

  predicate DepartsNoLater(a: Flight, b: Flight) {
    a.departure <= b.departure
  }

  predicate SortedByDeparture(s: seq<Flight>) {
    Sorting.Sorted(s, DepartsNoLater)
  }

  /** `list.sort(key=departure)`: a stable sort by departure time. */
  function SortByDeparture(s: seq<Flight>): seq<Flight> {
    Sorting.Sort(s, DepartsNoLater)
  }

  /** Every group is ordered by departure and holds only flights leaving its key airport. */
  ghost predicate IndexValid(index: Index) {
    forall o :: o in index ==>
      SortedByDeparture(index[o]) && forall f :: f in index[o] ==> f.origin == o
  }

  /** The records leaving o, in load order. */
  function FromOrigin(records: seq<Flight>, o: Airport): seq<Flight> {
    if records == [] then []
    else
      var last := records[|records| - 1];
      FromOrigin(records[..|records| - 1], o) + (if last.origin == o then [last] else [])
  }

  /** The airports some record departs from. */
  function OriginsOf(records: seq<Flight>): set<Airport> {
    if records == [] then {} else OriginsOf(records[..|records| - 1]) + {records[|records| - 1].origin}
  }

  lemma {:induction false} FromOriginMembers(records: seq<Flight>, o: Airport)
    ensures forall f :: f in FromOrigin(records, o) <==> f in records && f.origin == o
    ensures o !in OriginsOf(records) <==> FromOrigin(records, o) == []
  {
    if records != [] {
      var init := records[..|records| - 1];
      FromOriginMembers(init, o);
      assert records == init + [records[|records| - 1]];
    }
  }

  lemma DepartureOrder()
    ensures Sorting.TotalPreorder(DepartsNoLater)
  {
  }

  /**
   * After the build, the group of o holds exactly the records leaving o,
   * ordered by departure, with equal departures kept in load order.
   */
  lemma LoadedGroup(records: seq<Flight>, o: Airport)
    ensures SortedByDeparture(SortByDeparture(FromOrigin(records, o)))
    ensures multiset(SortByDeparture(FromOrigin(records, o))) == multiset(FromOrigin(records, o))
    ensures forall f :: f in SortByDeparture(FromOrigin(records, o)) <==> f in records && f.origin == o
    ensures forall y :: Sorting.Peers(SortByDeparture(FromOrigin(records, o)), DepartsNoLater, y)
                     == Sorting.Peers(FromOrigin(records, o), DepartsNoLater, y)
  {
    var group := FromOrigin(records, o);
    DepartureOrder();
    Sorting.SortSorts(group, DepartsNoLater);
    Sorting.SortPermutes(group, DepartsNoLater);
    FromOriginMembers(records, o);
    var sorted := SortByDeparture(group);
    assert forall f :: f in sorted <==> f in multiset(sorted);
    forall y ensures Sorting.Peers(sorted, DepartsNoLater, y) == Sorting.Peers(group, DepartsNoLater, y) {
      Sorting.SortKeepsPeers(group, DepartsNoLater, y);
    }
  }

  /**
   * The arguments of `get_departing_flights`; None imposes nothing.
   * `excluded` is a list of airport codes, tested with `in`.
   */
  datatype Query = Query(
    timeFrom: Option<Time>,
    timeTo: Option<Time>,
    bagsCount: Option<int>,
    excluded: Option<seq<Airport>>)

  /** Departure in [timeFrom, timeTo], both ends inclusive, enough bag allowance, destination not excluded. */
  predicate Matches(f: Flight, q: Query) {
    (q.timeFrom == None || q.timeFrom.value <= f.departure) &&
    (q.timeTo == None || f.departure <= q.timeTo.value) &&
    (q.bagsCount == None || f.bagsAllowed >= q.bagsCount.value) &&
    (q.excluded == None || f.destination !in q.excluded.value)
  }

  /** The naive answer: one linear pass keeping the matching flights, in order. */
  function Selected(s: seq<Flight>, q: Query): seq<Flight> {
    if s == [] then []
    else Selected(s[..|s| - 1], q) + (if Matches(s[|s| - 1], q) then [s[|s| - 1]] else [])
  }

  lemma {:induction false} SelectedMembers(s: seq<Flight>, q: Query)
    ensures forall f :: f in Selected(s, q) <==> f in s && Matches(f, q)
  {
    if s != [] {
      SelectedMembers(s[..|s| - 1], q);
      assert s == s[..|s| - 1] + [s[|s| - 1]];
    }
  }

  /** Filtering keeps the order of what it keeps, so a group sorted by departure gives an answer sorted by departure. */
  lemma {:induction false} SelectedKeepsOrder(s: seq<Flight>, q: Query)
    requires SortedByDeparture(s)
    ensures SortedByDeparture(Selected(s, q))
  {
    if s != [] {
      var init, last := s[..|s| - 1], s[|s| - 1];
      SelectedKeepsOrder(init, q);
      SelectedMembers(init, q);
      var kept := Selected(init, q);
      forall x | x in kept ensures x.departure <= last.departure {
        var i :| 0 <= i < |init| && init[i] == x;
        assert s[i] == x;
      }
    }
  }

  lemma {:induction false} SelectedAppend(a: seq<Flight>, b: seq<Flight>, q: Query)
    ensures Selected(a + b, q) == Selected(a, q) + Selected(b, q)
    decreases |b|
  {
    if b == [] {
      assert a + b == a;
    } else {
      assert (a + b)[..|a + b| - 1] == a + b[..|b| - 1];
      SelectedAppend(a, b[..|b| - 1], q);
    }
  }

  lemma {:induction false} SelectedAll(s: seq<Flight>, q: Query)
    requires forall i :: 0 <= i < |s| ==> Matches(s[i], q)
    ensures Selected(s, q) == s
  {
    if s != [] {
      SelectedAll(s[..|s| - 1], q);
    }
  }

  lemma {:induction false} SelectedNone(s: seq<Flight>, q: Query)
    requires forall i :: 0 <= i < |s| ==> !Matches(s[i], q)
    ensures Selected(s, q) == []
  {
    if s != [] {
      SelectedNone(s[..|s| - 1], q);
    }
  }

  /** Filtering twice is filtering once by the conjunction. */
  lemma {:induction false} SelectedTwice(s: seq<Flight>, q1: Query, q2: Query, q: Query)
    requires forall f :: Matches(f, q) <==> Matches(f, q1) && Matches(f, q2)
    ensures Selected(Selected(s, q1), q2) == Selected(s, q)
  {
    if s != [] {
      var init, last := s[..|s| - 1], s[|s| - 1];
      SelectedTwice(init, q1, q2, q);
      SelectedAppend(Selected(init, q1), if Matches(last, q1) then [last] else [], q2);
      if Matches(last, q1) {
        assert [last][..0] == [];
      }
    }
  }

  /** A cut point splitting s into a prefix where no flight matches and a suffix where all do. */
  lemma CutSelects(s: seq<Flight>, i: nat, q: Query)
    requires i <= |s|
    requires forall j :: 0 <= j < i ==> !Matches(s[j], q)
    requires forall j :: i <= j < |s| ==> Matches(s[j], q)
    ensures Selected(s, q) == s[i..]
  {
    assert s == s[..i] + s[i..];
    SelectedAppend(s[..i], s[i..], q);
    SelectedNone(s[..i], q);
    SelectedAll(s[i..], q);
  }

  /** A cut point splitting s into a prefix where all flights match and a suffix where none does. */
  lemma CutSelectsPrefix(s: seq<Flight>, i: nat, q: Query)
    requires i <= |s|
    requires forall j :: 0 <= j < i ==> Matches(s[j], q)
    requires forall j :: i <= j < |s| ==> !Matches(s[j], q)
    ensures Selected(s, q) == s[..i]
  {
    assert s == s[..i] + s[i..];
    SelectedAppend(s[..i], s[i..], q);
    SelectedAll(s[..i], q);
    SelectedNone(s[i..], q);
  }

  /** `bisect_left` keyed by departure: the first position whose departure is not before t. */
  method BisectLeft(a: seq<Flight>, t: Time) returns (lo: nat)
    requires SortedByDeparture(a)
    ensures lo <= |a|
    ensures forall j :: 0 <= j < lo ==> a[j].departure < t
    ensures forall j :: lo <= j < |a| ==> t <= a[j].departure
  {
    lo := 0;
    var hi := |a|;
    while lo < hi
      invariant 0 <= lo <= hi <= |a|
      invariant forall j :: 0 <= j < lo ==> a[j].departure < t
      invariant forall j :: hi <= j < |a| ==> t <= a[j].departure
    {
      var mid := (lo + hi) / 2;
      if a[mid].departure < t {
        lo := mid + 1;
      } else {
        hi := mid;
      }
    }
  }

  /** `bisect_right` keyed by departure: the first position whose departure is after t. */
  method BisectRight(a: seq<Flight>, t: Time) returns (lo: nat)
    requires SortedByDeparture(a)
    ensures lo <= |a|
    ensures forall j :: 0 <= j < lo ==> a[j].departure <= t
    ensures forall j :: lo <= j < |a| ==> t < a[j].departure
  {
    lo := 0;
    var hi := |a|;
    while lo < hi
      invariant 0 <= lo <= hi <= |a|
      invariant forall j :: 0 <= j < lo ==> a[j].departure <= t
      invariant forall j :: hi <= j < |a| ==> t < a[j].departure
    {
      var mid := (lo + hi) / 2;
      if t < a[mid].departure {
        hi := mid;
      } else {
        lo := mid + 1;
      }
    }
  }

  /** The two slices of `get_departing_flights`: departure narrowed to [timeFrom, timeTo] by binary search. */
  method SliceByDeparture(group: seq<Flight>, timeFrom: Option<Time>, timeTo: Option<Time>) returns (flights: seq<Flight>)
    requires SortedByDeparture(group)
    ensures flights == Selected(group, Query(timeFrom, timeTo, None, None))
  {
    var fromOnly := Query(timeFrom, None, None, None);
    var toOnly := Query(None, timeTo, None, None);
    flights := group;
    if timeFrom != None {
      var i := BisectLeft(flights, timeFrom.value);
      CutSelects(flights, i, fromOnly);
      flights := flights[i..];
    } else {
      SelectedAll(flights, fromOnly);
    }
    assert SortedByDeparture(flights);
    ghost var narrowed := flights;
    if timeTo != None {
      var i := BisectRight(flights, timeTo.value);
      CutSelectsPrefix(flights, i, toOnly);
      flights := flights[..i];
    } else {
      SelectedAll(flights, toOnly);
    }
    assert flights == Selected(narrowed, toOnly);
    SelectedTwice(group, fromOnly, toOnly, Query(timeFrom, timeTo, None, None));
  }

  /** The comprehension keeping the flights that allow at least `bags` bags. */
  method KeepBags(s: seq<Flight>, bags: int) returns (kept: seq<Flight>)
    ensures kept == Selected(s, Query(None, None, Some(bags), None))
  {
    kept := [];
    var k := 0;
    while k < |s|
      invariant 0 <= k <= |s|
      invariant kept == Selected(s[..k], Query(None, None, Some(bags), None))
    {
      assert s[..k + 1][..k] == s[..k];
      if s[k].bagsAllowed >= bags {
        kept := kept + [s[k]];
      }
      k := k + 1;
    }
    assert s[..k] == s;
  }

  /** The comprehension dropping the flights to an excluded destination. */
  method DropExcluded(s: seq<Flight>, excluded: seq<Airport>) returns (kept: seq<Flight>)
    ensures kept == Selected(s, Query(None, None, None, Some(excluded)))
  {
    kept := [];
    var k := 0;
    while k < |s|
      invariant 0 <= k <= |s|
      invariant kept == Selected(s[..k], Query(None, None, None, Some(excluded)))
    {
      assert s[..k + 1][..k] == s[..k];
      if s[k].destination !in excluded {
        kept := kept + [s[k]];
      }
      k := k + 1;
    }
    assert s[..k] == s;
  }

  /**
   * The body of `get_departing_flights` on one group: narrow the departure
   * range with the two binary searches, then filter by bags and by excluded
   * destinations. The answer equals the naive linear filter.
   */
  method SelectDepartures(group: seq<Flight>, q: Query) returns (flights: seq<Flight>)
    requires SortedByDeparture(group)
    ensures flights == Selected(group, q)
  {
    var timeOnly := Query(q.timeFrom, q.timeTo, None, None);
    var withBags := Query(q.timeFrom, q.timeTo, q.bagsCount, None);
    flights := SliceByDeparture(group, q.timeFrom, q.timeTo);
    if q.bagsCount != None {
      flights := KeepBags(flights, q.bagsCount.value);
      SelectedTwice(group, timeOnly, Query(None, None, q.bagsCount, None), withBags);
    } else {
      SelectedTwice(group, timeOnly, Query(None, None, None, None), withBags);
      SelectedAll(flights, Query(None, None, None, None));
    }
    if q.excluded != None {
      flights := DropExcluded(flights, q.excluded.value);
      SelectedTwice(group, withBags, Query(None, None, None, q.excluded), q);
    } else {
      SelectedTwice(group, withBags, Query(None, None, None, None), q);
      SelectedAll(flights, Query(None, None, None, None));
    }
  }
}
