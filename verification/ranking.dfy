/**
 * The final ordering of search results: a stable sort by a tuple of trip
 * attributes named by the caller, where a name that is not an attribute of
 * a trip reads as the constant 0.
 */
module Ranking {
  import opened Wrappers
  import opened Trips
  import opened Sorting

  /** The attributes a result can be sorted by; `Unknown` stands for any other name. */
  datatype SortKey = TotalPrice | Departure | Arrival | TravelTime | BagsCount | BagsAllowed | Origin | Destination | Unknown

  function KeyNamed(name: string): SortKey {
    if name == "total_price" then TotalPrice
    else if name == "departure" then Departure
    else if name == "arrival" then Arrival
    else if name == "travel_time" then TravelTime
    else if name == "bags_count" then BagsCount
    else if name == "bags_allowed" then BagsAllowed
    else if name == "origin" then Origin
    else if name == "destination" then Destination
    else Unknown
  }

  /** An attribute value: absent (None), a number (price, time, count), or an airport code. */
  datatype KeyValue = Absent | Num(n: int) | Text(s: string)

  function FromOption(o: Option<int>): KeyValue {
    if o == None then Absent else Num(o.value)
  }

  /** The value of one attribute of t; an unknown name reads as 0. */
  function ValueOf(t: Trip, k: SortKey): KeyValue {
    match k
    case TotalPrice => Num(t.totalPrice)
    case Departure => FromOption(t.departure)
    case Arrival => FromOption(t.arrival)
    case TravelTime => Num(t.travelTime)
    case BagsCount => Num(t.bagsCount)
    case BagsAllowed => FromOption(t.bagsAllowed)
    case Origin => Text(t.origin)
    case Destination => Text(t.destination)
    case Unknown => Num(0)
  }

  /** The sort key of t: one value per requested name, in order. */
  function KeyTuple(t: Trip, names: seq<string>): (key: seq<KeyValue>)
    ensures |key| == |names|
    ensures forall i :: 0 <= i < |names| ==> key[i] == ValueOf(t, KeyNamed(names[i]))
  {
    if names == [] then [] else [ValueOf(t, KeyNamed(names[0]))] + KeyTuple(t, names[1..])
  }

  predicate CharLess(a: char, b: char) {
    a < b
  }

  /** Absent values come first, then numbers by size, then codes by Python string order. */
  predicate ValueLess(a: KeyValue, b: KeyValue) {
    match (a, b)
    case (Absent, Absent) => false
    case (Absent, _) => true
    case (Num(x), Num(y)) => x < y
    case (Num(_), Text(_)) => true
    case (Text(x), Text(y)) => Lex(x, y, CharLess)
    case _ => false
  }

  /** t may stay before u: u's key tuple is not smaller than t's. */
  predicate RanksNoLater(names: seq<string>, t: Trip, u: Trip) {
    !Lex(KeyTuple(u, names), KeyTuple(t, names), ValueLess)
  }

  function TripOrder(names: seq<string>): (Trip, Trip) -> bool {
    (t: Trip, u: Trip) => RanksNoLater(names, t, u)
  }

  lemma CharLessIsStrict()
    ensures StrictTotalOrder(CharLess)
  {
  }

  lemma ValueLessIsStrict()
    ensures StrictTotalOrder(ValueLess)
  {
    CharLessIsStrict();
    forall a: KeyValue ensures !ValueLess(a, a) {
      if a.Text? {
        LexIrreflexive(a.s, CharLess);
      }
    }
    forall a: KeyValue, b: KeyValue, c: KeyValue | ValueLess(a, b) && ValueLess(b, c) ensures ValueLess(a, c) {
      if a.Text? && b.Text? && c.Text? {
        LexTransitive(a.s, b.s, c.s, CharLess);
      }
    }
    forall a: KeyValue, b: KeyValue ensures a == b || ValueLess(a, b) || ValueLess(b, a) {
      if a.Text? && b.Text? {
        LexTrichotomy(a.s, b.s, CharLess);
      }
    }
  }

  /** The order of the final sort is total and transitive, so the sort is well defined for any key names. */
  lemma TripOrderIsTotalPreorder(names: seq<string>)
    ensures TotalPreorder(TripOrder(names))
  {
    ValueLessIsStrict();
    forall t: Trip, u: Trip ensures RanksNoLater(names, t, u) || RanksNoLater(names, u, t) {
      var kt, ku := KeyTuple(t, names), KeyTuple(u, names);
      if Lex(ku, kt, ValueLess) && Lex(kt, ku, ValueLess) {
        LexTransitive(kt, ku, kt, ValueLess);
        LexIrreflexive(kt, ValueLess);
      }
    }
    forall t: Trip, u: Trip, v: Trip | RanksNoLater(names, t, u) && RanksNoLater(names, u, v)
      ensures RanksNoLater(names, t, v)
    {
      var kt, ku, kv := KeyTuple(t, names), KeyTuple(u, names), KeyTuple(v, names);
      LexTrichotomy(kt, ku, ValueLess);
      LexTrichotomy(ku, kv, ValueLess);
      if kt != ku && ku != kv {
        LexTransitive(kt, ku, kv, ValueLess);
      }
      if Lex(kv, kt, ValueLess) {
        if kt == kv {
          LexIrreflexive(kt, ValueLess);
        } else {
          LexTransitive(kt, kv, kt, ValueLess);
          LexIrreflexive(kt, ValueLess);
        }
      }
    }
  }

  /** `results.sort(key=...)`: the results reordered so that the key tuples never decrease. */
  function SortTrips(results: seq<Trip>, names: seq<string>): (sorted: seq<Trip>)
    ensures multiset(sorted) == multiset(results)
    ensures forall i, j :: 0 <= i < j < |sorted| ==> !Lex(KeyTuple(sorted[j], names), KeyTuple(sorted[i], names), ValueLess)
  {
    TripOrderIsTotalPreorder(names);
    SortPermutes(results, TripOrder(names));
    SortSorts(results, TripOrder(names));
    Sort(results, TripOrder(names))
  }

  /** The sort is stable: trips with equal key tuples keep their relative order. */
  lemma SortTripsIsStable(results: seq<Trip>, names: seq<string>, y: Trip)
    ensures Peers(SortTrips(results, names), TripOrder(names), y) == Peers(results, TripOrder(names), y)
  {
    TripOrderIsTotalPreorder(names);
    SortKeepsPeers(results, TripOrder(names), y);
  }

  /** Under an order that ranks everything level, every element is a peer of any y. */
  lemma {:induction false} AllPeers<T>(s: seq<T>, leq: (T, T) -> bool, y: T)
    requires forall a, b :: leq(a, b)
    ensures Peers(s, leq, y) == s
  {
    if s != [] {
      AllPeers(s[..|s| - 1], leq, y);
    }
  }

  /** Sorting only by names that are not trip attributes keeps the search order, since every key reads as 0. */
  lemma UnknownKeysKeepOrder(results: seq<Trip>, names: seq<string>)
    requires forall i :: 0 <= i < |names| ==> KeyNamed(names[i]) == Unknown
    ensures SortTrips(results, names) == results
  {
    forall t: Trip, u: Trip ensures TripOrder(names)(t, u) {
      assert KeyTuple(t, names) == KeyTuple(u, names);
      LexIrreflexive(KeyTuple(t, names), ValueLess);
    }
    if results != [] {
      var y := results[0];
      SortTripsIsStable(results, names, y);
      AllPeers(results, TripOrder(names), y);
      AllPeers(SortTrips(results, names), TripOrder(names), y);
    }
  }

  /** Sorting by ["total_price", "departure"]: price never decreases, and among equal prices departure never decreases. */
  lemma PriceThenDeparture(results: seq<Trip>)
    ensures var r := SortTrips(results, ["total_price", "departure"]);
      forall i, j :: 0 <= i < j < |r| ==>
        r[i].totalPrice < r[j].totalPrice ||
        (r[i].totalPrice == r[j].totalPrice &&
         (r[i].departure == None || (r[j].departure.Some? && r[i].departure.value <= r[j].departure.value)))
  {
    var names := ["total_price", "departure"];
    var r := SortTrips(results, names);
    forall i, j | 0 <= i < j < |r|
      ensures r[i].totalPrice < r[j].totalPrice ||
        (r[i].totalPrice == r[j].totalPrice &&
         (r[i].departure == None || (r[j].departure.Some? && r[i].departure.value <= r[j].departure.value)))
    {
      var ki, kj := KeyTuple(r[i], names), KeyTuple(r[j], names);
      assert ki == [Num(r[i].totalPrice), FromOption(r[i].departure)];
      assert kj == [Num(r[j].totalPrice), FromOption(r[j].departure)];
      assert !Lex(kj, ki, ValueLess);
      if r[i].totalPrice == r[j].totalPrice {
        var di, dj := FromOption(r[i].departure), FromOption(r[j].departure);
        assert ki[1..] == [di] && kj[1..] == [dj];
        assert !Lex([dj], [di], ValueLess);
        assert [dj][1..] == [] && [di][1..] == [];
        assert !ValueLess(dj, di);
      }
    }
  }
}
