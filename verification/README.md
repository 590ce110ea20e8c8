# Flight itinerary search, modelled in Dafny

This project models the core of a flight-itinerary search engine and proves
properties about it. The engine has three parts:

- **The schedule index.** Flight records are grouped by origin airport, and
  each group is sorted by departure time.
- **The departure query** (`get_departing_flights`). For one airport it
  returns the flights whose departure lies in a time window, that allow
  enough bags, and that do not fly to an excluded airport.
- **The search.** A depth-first search builds outbound trips from the
  requested origins to the requested destinations. On request, a second
  depth-first search builds the way back. The results can then be sorted by
  a tuple of trip attributes.

A `Trip` is the partial or complete journey the search builds. `add_flight`
copies a trip and appends one leg to the copy.

Times and durations are integer seconds. A day is 86400 seconds and the
default transfer window is one to six hours. Prices are integers.

## Modules

| file | module | what it holds |
|---|---|---|
| `wrappers.dfy` | `Wrappers` | `Option` and `Result` |
| `flights.dfy` | `Flights` | the flight record, airport codes, times |
| `trips.dfy` | `Trips` | the `Trip` value, `Trip(origin, bags)`, `add_flight` and its fold over a leg sequence |
| `sorting.dfy` | `Sorting` | a stable insertion sort over a total preorder, and Python's lexicographic sequence order |
| `schedule_index.dfy` | `ScheduleIndex` | grouping by origin, the query, the bisection methods and the linear filter that specifies them |
| `search_rules.dfy` | `SearchRules` | the search request and the declarative rules. `Extension` says which legs may complete a trip; its lemmas relate one search step to it |
| `ranking.dfy` | `Ranking` | sort keys, key tuples and the final sort |
| `flight_schedule.dfy` | `FlightSearch` | class `FlightSchedule`: the index build, the query, the depth-first search and `search` |
| `scenario.dfy` | `Scenario` | a worked example with three airports |

### How the search is specified

`Extension(index, req, mode, trip, visited, ext)` holds when the leg
sequence `ext` can complete `trip` under the rules of `mode`:

- every leg is scheduled from the airport where the path currently is;
- the path ends at an accepted airport and passes none before it;
- the transfer budget allows each leg;
- no leg lands at an excluded or already visited airport;
- each leg departs within the window of its step;
- each leg carries the requested bags.

The outbound search (`dfs`) and the return search (`dfs_back`) are the two
values of `mode`.

`FlightSchedule.Explore` is the search procedure, a recursive method with a
loop over departing flights. It is proved both sound and complete:

- every trip it returns is `trip` extended by a valid extension;
- every valid extension appears among its results.

The lemmas `OutboundRoute`, `OutboundTiming`, `ReturnRoute` and
`ReturnTiming` turn this characterisation into concrete statements about the
legs of each result.

## Model

| member | source | states |
|---|---|---|
| Trips.NewTrip | Trip.py:26-34 | a new trip starts and ends at its origin with no flights, price 0, travel time 0, the given bag count, and no departure, arrival or allowance; its totals agree with its (empty) legs |
| Trips.AddFlight | Trip.py:43-58 | raises the connectivity error when the leg does not leave the trip's end, else the capacity error when the leg allows fewer bags than carried; succeeds exactly otherwise, with the new end, the leg appended, the price raised by base price plus bags times bag price, departure kept once set, arrival and travel time from the new leg, and allowance the running minimum |
| Trips.Appended | Trip.py:48-57 | the success branch of `add_flight`: a copy of the trip ending at the leg's destination, with the leg appended, the price raised by the leg's price for the bags carried, the departure set by the first leg only, the arrival and travel time from the new leg, and the allowance the running minimum |
| Trips.AppendedSummarises | Trip.py:48-57 | appending a leg keeps price, departure, arrival, travel time and allowance in step with the legs |
| Trips.ExtendShape | Trip.py:48-57 | appending several legs appends exactly those legs, keeps origin, bag count and a set departure, ends at the last leg, and preserves the agreement of totals with legs |
| Trips.BuildFromSucceeds | Trip.py:43-58 | repeated `add_flight` succeeds exactly when the legs connect from the trip's end and each carries the bags, and then yields the trip with those legs appended |
| Trips.MinAllowanceIsMinimum | Trip.py:56-57 | the allowance of a non-empty leg sequence is at most every leg's allowance and equals one of them |
| Trips.BuiltTrip | Trip.py:26-58 | a trip built from `Trip(origin, bags)` by successful appends has exactly those legs chained from origin, price equal to the sum of leg prices, totals in step with the legs, and an allowance that is the minimum leg allowance (at most every leg's, equal to one of them) and at least the bags carried |
| Sorting.SortSorts | FlightSchedule.py:45 | the stable sort returns a sequence ordered by the given total preorder |
| Sorting.SortPermutes | FlightSchedule.py:45 | the stable sort returns a permutation of its input |
| Sorting.SortKeepsPeers | FlightSchedule.py:45 | the sort is stable: the elements ranking level with any y keep their relative order |
| ScheduleIndex.FromOriginMembers | FlightSchedule.py:39-41 | a record is in the group of o exactly when it leaves o; the group is empty exactly when no record leaves o |
| ScheduleIndex.SortByDeparture | FlightSchedule.py:44-45 | the per-group sort: the stable sort by departure time |
| ScheduleIndex.LoadedGroup | FlightSchedule.py:39-45 | after the build, the group of o is sorted by departure, is a permutation of the records leaving o, and keeps load order among equal departures |
| ScheduleIndex.SelectedMembers | FlightSchedule.py:59-77 | a flight is in the answer exactly when it is in the group and satisfies every given condition |
| ScheduleIndex.SelectedKeepsOrder | FlightSchedule.py:59-77 | filtering a group sorted by departure yields an answer sorted by departure |
| ScheduleIndex.SelectedTwice | FlightSchedule.py:70-77 | filtering by one condition and then another equals filtering once by both |
| ScheduleIndex.CutSelects | FlightSchedule.py:62-65 | when no flight before a cut matches and every flight from the cut on does, the filter is the suffix from the cut |
| ScheduleIndex.CutSelectsPrefix | FlightSchedule.py:66-69 | when every flight before a cut matches and none from the cut on does, the filter is the prefix up to the cut |
| ScheduleIndex.BisectLeft | FlightSchedule.py:62-65 | returns the cut where every earlier departure is before t and every later one is not |
| ScheduleIndex.BisectRight | FlightSchedule.py:66-69 | returns the cut where every earlier departure is at most t and every later one is after t |
| ScheduleIndex.SliceByDeparture | FlightSchedule.py:62-69 | the two bisection slices of a sorted group equal the linear filter on time_from ≤ departure ≤ time_to, each bound ignored when absent |
| ScheduleIndex.KeepBags | FlightSchedule.py:70-73 | the comprehension keeps exactly the flights allowing at least the bag count, in order |
| ScheduleIndex.DropExcluded | FlightSchedule.py:74-77 | the comprehension keeps exactly the flights not going to an excluded airport, in order |
| ScheduleIndex.SelectDepartures | FlightSchedule.py:62-78 | on a sorted group, slicing and then filtering equals one linear filter by all the query's conditions |
| SearchRules.WithDestination | FlightSchedule.py:196 | overwriting a trip's destination changes only the destination, so its legs and totals still agree |
| SearchRules.DefaultRequest | FlightSchedule.py:80-84 | a request with the defaults of `search`: no bags, no sort, one-way, both return options off, a transfer window of one to six hours, at least 0 days at the destination, and no other bound |
| SearchRules.AcceptsAt | FlightSchedule.py:111-113 | a branch completes: outbound, at a requested destination; on the way back, at the trip's origin, or at any requested origin when returning to another airport is allowed (lines 140-144) |
| SearchRules.HasBudget | FlightSchedule.py:114 | another leg may be taken when there is no transfer limit or the visited count is at most max_transfers + 1, in both searches (line 145) |
| SearchRules.Excluded | FlightSchedule.py:118 | the next leg may not land at a visited airport or a requested origin; on the way back, at a visited airport, or also at a requested destination when returning from another airport is allowed (line 150) |
| SearchRules.Bounds | FlightSchedule.py:119-124 | the next leg's departure window: [min_departure, max_departure] for the first outbound leg; [arrival + min_days days, arrival + max_days days], open above when max_days is absent, for the first return leg (lines 151-155); [arrival + min transfer, arrival + max transfer] for every transfer leg |
| SearchRules.StepQuery | FlightSchedule.py:125-129 | the `get_departing_flights` arguments of one step: the step's window, the requested bags and the step's excluded airports (lines 159-163) |
| SearchRules.ExtensionEmpty | FlightSchedule.py:111-113 | the empty extension is valid exactly when the trip is already accepted |
| SearchRules.ExtensionStep | FlightSchedule.py:114-134 | a leg followed by more legs is a valid extension exactly when the trip is not yet accepted, the budget allows another leg, the leg is among the flights the step's query admits, and the rest validly extends the trip with that leg appended and its destination visited |
| SearchRules.MatchesStep | FlightSchedule.py:118-129 | a flight passes the step's query exactly when it departs within the step's window, allows the bags and avoids the step's excluded airports |
| SearchRules.CompletesStep | FlightSchedule.py:130-134 | a completion found after appending an admitted leg completes the trip itself |
| SearchRules.AcceptedCompletes | FlightSchedule.py:111-113 | an accepted trip is returned as its own only completion |
| SearchRules.ExhaustedCompletes | FlightSchedule.py:114 | a trip that is not accepted and has no transfer budget left has no completion |
| SearchRules.SoundStep | FlightSchedule.py:128-134 | results found below an admitted departure complete the current trip |
| SearchRules.CoversStep | FlightSchedule.py:128-134 | after searching below departure f, every valid extension starting with f is covered |
| SearchRules.LoopStep | FlightSchedule.py:130-134 | one pass of the loop over the step's departures: the trips found below the next departure complete the trip, and together with the earlier results they cover every valid extension starting with a departure seen so far |
| SearchRules.CoversAll | FlightSchedule.py:125-135 | covering the extensions through every admitted departure covers all valid extensions |
| SearchRules.ScheduledChains | FlightSchedule.py:125-131 | legs drawn from the index one step at a time connect |
| SearchRules.CompletedShape | FlightSchedule.py:130-134 | a completion keeps the trip's legs as a prefix, its origin, bag count and departure, ends at an accepted airport, and keeps totals in step with legs |
| SearchRules.ExtensionRoute | FlightSchedule.py:111-134 | the legs of a valid extension connect, end at an accepted airport and pass none before, avoid the excluded airports and each other's destinations, fit the transfer budget, and carry the bags |
| SearchRules.ExtensionTiming | FlightSchedule.py:119-124 | the first leg of a valid extension departs within its step's window, and each later leg within [previous arrival + min transfer, previous arrival + max transfer] |
| SearchRules.OutboundRoute | FlightSchedule.py:109-135 | every outbound trip leaves the origin, connects, ends at a requested destination and passes none before, never lands at a requested origin or twice at the same airport, and has at most max_transfers + 1 legs |
| SearchRules.OutboundTiming | FlightSchedule.py:119-124 | every outbound trip has a first leg that departs within [min_departure, max_departure], each bound ignored when absent, and each transfer leg departs within [previous arrival + min transfer, previous arrival + max transfer] |
| SearchRules.OutboundTotals | FlightSchedule.py:125-131 | every outbound trip carries the requested bags, its price is the sum of its leg prices for those bags, and its allowance is set and at least the bags carried |
| SearchRules.ReturnRoute | FlightSchedule.py:137-169 | every return trip keeps the outbound legs as a prefix and gains at least one leg from its seed; it ends back at the origin (or at any requested origin when allowed) and passes none before; it never lands at the seed, twice at one airport, or at a requested destination when returning from another airport is allowed; it gains at most max_transfers + 1 legs |
| SearchRules.ReturnTiming | FlightSchedule.py:151-158 | the first return leg departs within [arrival + min_days days, arrival + max_days days], unbounded above when max_days is absent; later return legs keep the transfer window |
| SearchRules.SeedWindow | FlightSchedule.py:151-158 | a return trip completed from a seed that is not yet back gains at least one leg; the first departs within the days window after the seed's arrival, and each later one within the transfer window |
| SearchRules.CompletedTotals | FlightSchedule.py:130-134 | a completion keeps the trip's origin, bag count and a set departure, so departure, price and travel time of a return trip span the whole round trip, and its totals stay in step with its legs |
| Ranking.KeyTuple | FlightSchedule.py:204 | the key has one value per requested name, the named attribute, or 0 for a name that is not an attribute |
| Ranking.KeyNamed | FlightSchedule.py:204 | the trip attribute a sort name denotes, with every other name unknown |
| Ranking.ValueOf | FlightSchedule.py:204 | the value `getattr` reads for an attribute, with an unknown name reading as 0 |
| Ranking.ValueLessIsStrict | FlightSchedule.py:204 | the comparison of attribute values is a strict total order |
| Ranking.TripOrderIsTotalPreorder | FlightSchedule.py:204 | comparing trips by key tuple is total and transitive |
| Ranking.SortTrips | FlightSchedule.py:203-204 | the sorted results are a permutation of the results in which key tuples never decrease |
| Ranking.SortTripsIsStable | FlightSchedule.py:204 | trips with equal key tuples keep their search order |
| Ranking.UnknownKeysKeepOrder | FlightSchedule.py:204 | sorting only by names that are not trip attributes leaves the results unchanged |
| Ranking.PriceThenDeparture | FlightSchedule.py:204 | sorting by total_price then departure orders by price, and by departure among equal prices |
| FlightSearch.FirstMissingIsFirst | FlightSchedule.py:172-178 | no code is reported exactly when every code is known; a reported code is unknown and every code before it is known |
| FlightSearch.FirstMissingAppend | FlightSchedule.py:172-178 | checking origins and then destinations reports the first unknown code of both lists in that order |
| FlightSearch.FirstUnknown | FlightSchedule.py:172-174 | the validation loop returns the first unknown code, or none |
| FlightSearch.DeparturesAnswer | FlightSchedule.py:59-78 | for a known origin the answer holds exactly the origin's flights that meet the query, all leaving that origin, in departure order |
| FlightSearch.UnvisitedShrinks | FlightSchedule.py:130-134 | landing at a new airport shrinks the set of airports still unvisited, which bounds the recursion |
| FlightSearch.OutboundArrives | FlightSchedule.py:184-199 | every trip the outbound search from an origin returns has an arrival time and carries the requested bags, as the return search needs |
| FlightSearch.Seeds | FlightSchedule.py:193-199 | the airports one outbound trip's return search starts at: every requested destination when returning from another airport is allowed, else the trip's own destination |
| FlightSearch.ReturnSearchStep | FlightSchedule.py:193-199 | adding one outbound trip's return trips extends the return results over the outbound trips seen so far |
| FlightSearch.GroupingStep | FlightSchedule.py:39-41 | reading one more record appends it to its origin's group, creating the group if new, and leaves the other groups alone |
| FlightSearch.GroupedStep | FlightSchedule.py:39-41 | one pass of the loop body, creating the group if new and appending the record, keeps the keys equal to the origins read so far and each group equal to the records read so far from that origin |
| FlightSearch.FlightSchedule.constructor | FlightSchedule.py:11-12 | a new schedule has an empty index |
| FlightSearch.FlightSchedule.LoadRecords | FlightSchedule.py:23-45 | after loading, the keys are exactly the records' origins, each group is the records leaving that origin sorted by departure, and the index is valid |
| FlightSearch.FlightSchedule.GroupRecords | FlightSchedule.py:39-41 | starting from an empty index, the keys become exactly the records' origins and each group exactly the records leaving that origin, in load order |
| FlightSearch.FlightSchedule.SortGroups | FlightSchedule.py:43-45 | every group is replaced by its stable sort by departure, and the keys are unchanged |
| FlightSearch.FlightSchedule.GetDepartingFlights | FlightSchedule.py:59-78 | returns nothing for an unknown origin; otherwise returns exactly the origin's flights admitted by the query, in departure order |
| FlightSearch.FlightSchedule.Explore | FlightSchedule.py:109-169 | every returned trip completes the given trip by a valid extension, and every valid extension is returned |
| FlightSearch.FlightSchedule.Validate | FlightSchedule.py:172-181 | reports the first unknown code among the origins and then the destinations; with every code known, reports overlapping airports exactly when an origin is also a destination, and nothing otherwise |
| FlightSearch.FlightSchedule.OutboundTrips | FlightSchedule.py:182-186 | with no origins the outbound results are empty; otherwise they are exactly the completions from the last origin |
| FlightSearch.FlightSchedule.ReturnTrips | FlightSchedule.py:188-199 | every return result completes a seed of some outbound trip, and every valid completion of every seed of every outbound trip is among the results |
| FlightSearch.FlightSchedule.ReturnLegs | FlightSchedule.py:193-199 | searches back from the outbound trip's own destination, or, when returning from another airport is allowed, from every requested destination after overwriting the trip's destination; returns exactly the completions of those seeds |
| FlightSearch.FlightSchedule.Search | FlightSchedule.py:171-206 | reports the first unknown airport, else overlapping airports, else succeeds. The outbound results are exactly the completions from the last origin. With a return flight, the results are exactly the completions of every seed of every outbound trip. The results are sorted by the key tuple when sort keys are given, and left in search order otherwise |
| Scenario.ScheduleLoaded | FlightSchedule.py:39-45 | loading the three example flights gives one group per airport |
| Scenario.RequestValid | FlightSchedule.py:172-181 | the example request names known, non-overlapping airports |
| Scenario.OnlyExtension | FlightSchedule.py:109-135 | the only valid outbound extension from A is A to B and then B to C |
| Scenario.OnlyTripAtoC | FlightSchedule.py:182-186 | a trip completes the example search exactly when it is A to B to C at price 100 + 10 + 80 + 5 = 195 |
| Scenario.DestinationWithoutDepartures | FlightSchedule.py:175-178 | without a flight leaving C, C is not a key of the index and the request is refused as naming an unknown airport |

## Behaviour the model follows from the code

Where the documented behaviour and the code differ, the model follows the
code:

- **Only the last origin's outbound trips are kept.** Inside the loop over
  origins, the outbound results are reassigned rather than extended.
  `Search` states that the outbound results are exactly the completions from
  the last origin.
- **A destination with no departing flights is unknown.** The validation
  tests membership in the index, whose keys are the airports with departures.
  A requested destination that only has arriving flights is therefore
  refused (`Scenario.DestinationWithoutDepartures`).
- **The return legs follow the outbound legs in one trip.** When returning
  from another airport is allowed, the trip's destination is overwritten
  before the return search, so there may be no leg connecting the two
  parts at the turnaround. `ReturnRoute` states only that the return legs
  connect from the seed.
- **Without sort keys there is no sort.** The docstring names a default sort
  order, but the default `sort_by` is `None`, and then the search order is
  kept.

## Left out

- Reading the CSV file (`open`, `csv.DictReader`, the header check) and
  converting fields. `LoadRecords` starts from parsed flight records.
- Floating-point prices. Prices are integers, for example cents.
- The `datetime` and `timedelta` types. Times are integer seconds and days are
  86400 seconds.
- `Trip.to_dict` and the string formatting of the travel time. They only
  serve output.
- `Trip.copy`. `Trip` is a value, so `AddFlight` never changes the trip it
  extends. The aliasing that `copy` prevents cannot arise in the model.
- The in-place mutation of the outbound trip at FlightSchedule.py:196. It is
  modelled as a value update (`WithDestination`). The outbound list is not
  used after the return search, so nothing observable is lost.
- Python's `bisect` and `list.sort` internals. Bisection is written out as
  binary search. Sorting is a stable insertion sort over sequences, assigned
  back in place of the list.
- Dynamic attribute lookup in the final sort. It becomes a fixed set of sort
  keys, and any other name reads as 0. A name that Python would resolve to
  something else reads as 0 too. This covers `flights` and the method names,
  for which Python would compare lists of dictionaries or raise `TypeError`.
- Comparisons of mismatched types in the final sort, such as `None` against a
  number, which raise `TypeError` in Python. The model orders absent values
  before numbers and numbers before codes. Completed trips always have a
  departure, an arrival and an allowance, so this case does not arise for
  search results.
- FlightSearch.FlightSchedule.Explore: the order and multiplicity of
  results are not stated. The contract gives the set of results exactly
  (sound and complete) but not the depth-first order in which they are
  listed.
- FlightSearch.FlightSchedule.OutboundTrips: the order and multiplicity of
  the last origin's trips are not stated, for the same reason as `Explore`;
  the contract gives the set of those trips exactly.
- FlightSearch.FlightSchedule.ReturnLegs: the order of the seeds' trips and
  the repeats that a destination listed twice produces are not stated; the
  contract gives the set of the seeds' completions exactly.
- FlightSearch.FlightSchedule.ReturnTrips: the outbound-trip-by-outbound-trip
  order and the multiplicity of the return trips are not stated; the
  contract gives their set exactly.
- FlightSearch.FlightSchedule.Search: the multiplicity of the results, and
  their order when no sort keys are given, are not stated. With sort keys the
  key tuples are stated never to decrease, and ties keep the search order,
  which is itself not stated. So the model shows that every result of the
  example search is the trip A to B to C, and that this trip is a result, but
  not that it is the only entry of the list.
- FlightSearch.FlightSchedule.GroupRecords: the groups are built in a local
  map, which is stored in the index once the loop ends. The source appends
  to the index's lists in place; the final index is the same.
- The command-line front end, its argument parsing and its JSON output.
