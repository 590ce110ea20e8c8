/**
 * One scheduled flight leg, as the ingest layer hands it to the schedule
 * index after its fields were parsed. Timestamps and durations are whole
 * seconds; prices are integer amounts in the smallest currency unit.
 */
module Flights {

  type Airport = string

  /** A point in time, in seconds. */
  type Time = int

  /** Seconds in one hour and in one day (`timedelta(hours=1)`, `timedelta(days=1)`). */
  const Hour: int := 3600
  const Day: int := 86400

  datatype Flight = Flight(
    origin: Airport,
    destination: Airport,
    departure: Time,
    arrival: Time,
    basePrice: int,
    bagPrice: int,
    bagsAllowed: int)
}
