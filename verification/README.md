# Parking reservation engine: a verified model

This project models the reservation and availability engine of a parking-lot
backend. A parking lot has a fixed number of spots for cars and for bikes, and
hourly rates for each type. Users reserve a spot for a vehicle type, either
immediately or for a later start. The engine does four things:

- It decides whether a request is admitted.
- It moves each reservation through its statuses: pending → active →
  completed, or pending → cancelled.
- It charges a fee when a reservation ends.
- It reports occupancy at an instant. When a type is full, it searches the
  next 24 hours in 30-minute steps for an instant with room.

A periodic sweep cancels pending reservations whose start passed more than 15
minutes ago.

The modules follow the backend's structure:

- `ReservationModel` (`model.dfy`) holds the reservation and parking-lot
  records, with the enumerations and defaults of the reservation schema. It
  also holds the error outcomes the handlers return and the record-level
  invariants and legal status moves.
- `Occupancy` (`occupancy.dfy`) models the counting queries the controllers
  send to the reservation collection, as a `Query` datatype and a recursive
  count. It also holds the per-type figures that the lot-by-id and nearby-lots
  handlers report.
- `Probe` (`probe.dfy`) specifies the next-available-time search over any
  occupancy function. Probe k is 30·k minutes after the start, for k = 1..48.
- `Availability` (`availability.dfy`) holds the availability check and the
  parking-lot controller's copy of the search, as a method with its loop.
- `Fees` (`fees.dfy`) holds the fee arithmetic over exact reals. Rounding to
  cents is `floor(100·x + 1/2) / 100`.
- `Reservations` (`reservations.dfy`) holds the reservation store, a class
  whose `seq` of records the create, start, end and cancel handlers update.
  Each record's identifier is its index. It also holds the reservation
  controller's copy of the search.
- `Cleanup` (`cleanup.dfy`) holds the expiry sweep, as a method over the store
  with a loop, and its specification.

The handlers' inputs become parameters:

- the calling user;
- the current instant `now`, in milliseconds;
- the map of parking lots;
- for the sweep, the set of reservations whose save fails.

A handler's error response becomes an `Err` value of the `Error` datatype, and
the store is left unchanged.

## Model

| member | source | states |
|---|---|---|
| ReservationModel.ParseVehicleType | backend/models/reservation.js:6 | only "car" and "bike" name a vehicle type; a parsed type spells back to the input, and any other string has no type |
| ReservationModel.NewReservation | backend/models/reservation.js:3-13 | a new record has no end instant, no fee, payment unpaid, the given plate (absent by default), and status pending unless one is given |
| ReservationModel.CapacityByName | backend/controllers/parkingLotController.js:319-322 | a type name selects a capacity entry exactly when it names a vehicle type, and then selects that type's total spots |
| Occupancy.CountDocuments | backend/controllers/parkingLotController.js:325-342 | a count never exceeds the collection's size |
| Occupancy.CountExtremes | backend/controllers/parkingLotController.js:325-342 | a count is zero exactly when the filter selects no record, and equals the size exactly when it selects every record |
| Occupancy.CountAppend | backend/controllers/reservationController.js:96-104 | inserting a record raises a count by one exactly when the filter selects that record |
| Occupancy.CountUpdate | backend/controllers/reservationController.js:212-213 | replacing a record changes a count by what the old and the new record contribute |
| Occupancy.CountMonotone | backend/controllers/parkingLotController.js:325-334 | a filter that selects at least what another selects counts at least as many |
| Occupancy.Snapshot | backend/controllers/parkingLotController.js:111-144 | free + active + pending equals the type's total spots; active counts every active reservation whatever its window; pending counts those started by now; the figure goes negative exactly when over-booked and is not clamped |
| Occupancy.GetById | backend/controllers/parkingLotController.js:101-151 | an unknown lot is an error; otherwise the view is that lot's, and each type's figures are its snapshot at now: every active reservation, the pending ones started by now, and the free spots they leave, adding up to the lot's total spots |
| Occupancy.GetNearby | backend/controllers/parkingLotController.js:35-88 | no lots gives the "none nearby" outcome; otherwise there is one view per lot, in order, each with that lot's two snapshots |
| Occupancy.LiveAtSplits | backend/controllers/parkingLotController.js:402-423 | when no pending record carries an end instant, the single two-status count equals the windowed active count plus the started pending count |
| Occupancy.WindowedNoMoreThanSnapshot | backend/controllers/parkingLotController.js:325-345 | at the current instant, the windowed count never exceeds the lot view's count, so the availability check never reports fewer free spots than the lot view |
| Probe.ProbeAt | backend/controllers/parkingLotController.js:397-399 | every probe after the zeroth lies strictly after the starting instant |
| Probe.ProbeAtClosedForm | backend/controllers/parkingLotController.js:399 | probe k lies exactly 30·k minutes after the start |
| Probe.FirstFreeProbeIsLeast | backend/controllers/parkingLotController.js:397-428 | the probe index found is the least one from k on with occupancy below capacity; there is none exactly when every probe from k to 48 is full |
| Probe.ProbeRound | backend/controllers/parkingLotController.js:397-427 | one loop round: probe k is one step after probe k−1, and the search stops at k or moves on to k+1 |
| Probe.NextAvailable | backend/controllers/parkingLotController.js:393-430 | a reported instant is after the start and is a probe in 1..48 with room; nothing is reported exactly when the search finds no free probe |
| Probe.NextAvailableIsLeastFreeProbe | backend/controllers/parkingLotController.js:393-430 | nothing is reported exactly when all 48 probes are full; otherwise the search reports the earliest probe with room |
| Probe.FirstFreeProbeAgree | backend/controllers/parkingLotController.js:402-423 | two occupancy functions that agree on every probe from k on find the same probe |
| Probe.NextAvailableAgree | backend/controllers/parkingLotController.js:402-423 | two occupancy functions that agree on all 48 probes give the same search result |
| Availability.FindNextAvailableTime | backend/controllers/parkingLotController.js:393-430 | the 48-round loop returns what the specification of the search gives for the windowed occupancy, and never the start itself |
| Availability.CheckAvailability | backend/controllers/parkingLotController.js:298-376 | errors come in source order: missing lot or type, unknown lot, then a type with no capacity entry, and a report comes back exactly when none of them applies. On success it reports the windowed active and started pending counts at the requested instant (now by default). It is available exactly when occupancy is below capacity, with free spots = capacity − occupancy ≥ 1; otherwise it reports the search's next instant |
| Fees.BaseFee | backend/controllers/reservationController.js:265-273 | the pre-surcharge fee never exceeds the daily cap; it is the first-hour rate (capped) for stays up to an hour; and it is at least the first-hour rate when that is within the cap and the additional rate is non-negative |
| Fees.LateFee | backend/controllers/reservationController.js:276-287 | no surcharge without a cutoff or when ending by it; the surcharge is non-negative for a non-negative rate, and positive when late with a positive rate |
| Fees.Round2 | backend/controllers/reservationController.js:290 | rounding to cents moves a value by at most half a cent, keeps non-negative values non-negative, and yields a whole number of cents |
| Fees.Fee | backend/controllers/reservationController.js:257-290 | the recorded fee is non-negative for non-negative rates, and never exceeds the rounded daily cap when the stay ends by its cutoff |
| Fees.RoundMonotone | backend/controllers/reservationController.js:290 | rounding to cents is monotone |
| Fees.BaseFeeMonotone | backend/controllers/reservationController.js:265-273 | with a non-negative additional rate, a longer stay never costs less before the surcharge |
| Fees.DurationMonotone | backend/controllers/reservationController.js:258-260 | a later end never gives a shorter duration |
| Fees.LateFeeMonotone | backend/controllers/reservationController.js:279-287 | with a non-negative additional rate, ending later never lowers the surcharge |
| Fees.FeeMonotone | backend/controllers/reservationController.js:257-290 | with a non-negative additional rate and a fixed cutoff, ending later never lowers the recorded fee |
| Fees.WorkedExample | backend/controllers/reservationController.js:258-290 | rates 50/30/300 for a 3.5-hour stay give 125.00; ending one hour past the cutoff gives 170.00 |
| Reservations.FindNextAvailableTime | backend/controllers/reservationController.js:138-165 | the 48-round loop returns what the specification of the search gives for the single two-status count, and never the start itself |
| Reservations.ProbersAgree | backend/controllers/reservationController.js:147-160 | when no pending record of the lot and type carries an end instant, the two copies of the search give the same answer |
| Reservations.ProbersAgreeInStore | backend/controllers/reservationController.js:147-160 | in a store of well-formed records, the two copies of the search always agree |
| Reservations.FirstOutstanding | backend/controllers/reservationController.js:27-37 | the user's first pending or active reservation in store order, at any lot; none exactly when the user holds no such reservation |
| Reservations.AdmissionMatchesSnapshot | backend/controllers/reservationController.js:40-59 | a scheduled request at the current instant is admitted against the lot view's free-spot figure; an immediate request also counts the started pending reservations as free |
| Reservations.EarliestPendingAfter | backend/controllers/reservationController.js:82-87 | the earliest start among pending reservations of the lot and type that start strictly after the given instant; none exactly when there is no such reservation |
| Reservations.MaxEndFor | backend/controllers/reservationController.js:77-93 | a cutoff is set only for an immediate request taking the last free spot; it is then the earliest start among the later pending reservations of the lot and type (one of those starts, and no later than any), and lies after the start; it is absent exactly when no such start exists |
| Reservations.UpdateAvailability | backend/controllers/reservationController.js:384-431 | no figures for an unknown lot; otherwise the broadcast active count is all active reservations of the lot and type, the pending count those started by now, and free = total − active − pending |
| Reservations.AppendKeepsInvariant | backend/controllers/reservationController.js:27-37 | inserting a fresh well-formed record for a user with no outstanding reservation keeps the store invariant, and every old record is unchanged |
| Reservations.ReservationStore.constructor | backend/models/reservation.js:3-13 | an empty store satisfies the invariant |
| Reservations.ReservationStore.Create | backend/controllers/reservationController.js:18-104 | An unknown lot is rejected; so is a user who already holds an outstanding reservation, with that reservation reported; neither inserts anything. The request is admitted exactly when capacity − (all active + (immediate ? 0 : pending started by the start)) > 0. On rejection it reports the search's next instant and stores nothing. On admission it appends a record that is active exactly when immediate, with the requested start (now by default), no end or fee, and the last-spot cutoff. The store invariant is kept |
| Reservations.ReservationStore.Start | backend/controllers/reservationController.js:178-213 | Checks come in order: not found, not the owner, not pending, then before start − 15 min (reporting scheduled, earliest and current instants). On success only the status changes, pending → active. Errors leave the store unchanged |
| Reservations.ReservationStore.End | backend/controllers/reservationController.js:231-312 | Checks come in order: not found, not the owner, not active, unknown lot. On success it sets the end to now, the status to completed and the fee to the rounded sum of base fee and surcharge. It reports the duration in hours rounded to cents, and the rounded surcharge exactly when the end is past the cutoff |
| Reservations.ReservationStore.Cancel | backend/controllers/reservationController.js:346-365 | checks come in order: not found, not the owner, not pending; on success only the status changes, pending → cancelled; errors leave the store unchanged |
| Reservations.CancelTwice | backend/controllers/reservationController.js:358-365 | cancelling the same reservation twice: the second attempt always fails, and after a successful first it fails because the reservation is cancelled |
| Reservations.ImmediateCreateTakesOneSpot | backend/controllers/reservationController.js:96-109 | an immediate reservation lowers its lot and type's free figure by exactly one and leaves every other lot and type unchanged |
| Reservations.StartMovesSpot | backend/controllers/reservationController.js:212-216 | starting a pending reservation leaves its lot and type's free figure unchanged if its start has passed, and lowers it by one if started early; every other lot and type keeps its figure |
| Reservations.CancelFreesSpot | backend/controllers/reservationController.js:364-368 | cancelling a pending reservation whose start has passed frees one spot of its lot and type; cancelling a future one leaves the figure unchanged; every other lot and type keeps its figure |
| Cleanup.Expire | backend/middlewares/reservationCleanup.js:16-26 | a selected record becomes cancelled; any other record stays as it was; only the status changes; no record is selected afterwards |
| Cleanup.CleanupReservations | backend/middlewares/reservationCleanup.js:6-37 | The sweep finishes exactly when no selected reservation's save fails, and then the store equals the full sweep. Otherwise it stops at the first selected reservation, in store order, whose save fails. The earlier records are swept and the rest are untouched. The store invariant is kept, and every record moves by a legal step |
| Cleanup.SaveCancelled | backend/middlewares/reservationCleanup.js:25-26 | saving one pending reservation as cancelled changes only that record's status and keeps the store invariant |
| Cleanup.SweptUpToFacts | backend/middlewares/reservationCleanup.js:24-32 | a partial sweep is a full sweep of a prefix followed by the untouched rest, every record has moved by a legal step, and one more round replaces only the next record |
| Cleanup.CancelKeepsInvariant | backend/middlewares/reservationCleanup.js:25-26 | cancelling one pending record keeps the store invariant and is a legal step |
| Cleanup.SweepCancelsExactlyExpired | backend/middlewares/reservationCleanup.js:16-26 | after a sweep no pending reservation starts before the cutoff; each record keeps its place and every field but its status; the status changes exactly for the selected ones |
| Cleanup.BoundaryIsKept | backend/middlewares/reservationCleanup.js:18 | a pending reservation starting exactly at now − 15 min is not cancelled |
| Cleanup.SweepIdempotent | backend/middlewares/reservationCleanup.js:16-26 | a second sweep with the same now changes nothing |
| Cleanup.SweepKeepsInvariant | backend/middlewares/reservationCleanup.js:24-26 | a full sweep keeps the store invariant and moves every record by a legal step |
| Cleanup.SweepKeepsActive | backend/middlewares/reservationCleanup.js:16-26 | a sweep leaves the active count of every lot and type unchanged |
| Cleanup.SweepRemovesExpiredPending | backend/middlewares/reservationCleanup.js:16-19 | at any instant at or after the cutoff, a sweep lowers the started-pending count by exactly the number of pending reservations that start before the cutoff |
| Cleanup.SweepFreesSpots | backend/middlewares/reservationCleanup.js:16-29 | in the lot figures at now, a sweep frees one spot of a lot and type for each pending reservation of that lot and type that it cancels |

## Left out

- HTTP plumbing is not modelled: status codes, JSON shaping, formatted dates and the warning texts. Each error response is one `Error` value.
- Geospatial search, radius handling, latitude/longitude validation and geocoding are not modelled. `GetNearby` takes the lots the proximity query returned, in its order.
- The lots-by-destination handler is not part of this model.
- Broadcasting availability over sockets is not modelled. `UpdateAvailability` computes the figures that would be broadcast and stores nothing.
- Authentication is not modelled; the caller's id is a parameter.
- The clock is not modelled; `now` is a parameter in milliseconds.
- Time-zone conversion of client-supplied start times is not modelled. A requested start arrives as an instant, and malformed times are not modelled.
- Timer scheduling of the sweep and interleavings of concurrent handlers are not modelled. Each operation runs atomically, so the one-outstanding-reservation-per-user invariant holds only for sequential runs.
- Database failures are not modelled, except a failed save in the sweep. So the search's fallback of "one hour later", reached only when a lookup fails, is not modelled either. Each copy of the search takes the lot's capacity as a parameter.
- IEEE-754 floating point is not modelled. Durations and fees are exact reals, and `Math.round` is `floor(x + 1/2)`.
- Lots whose `total_spots` or `rates` lack an entry are not modelled (JavaScript would compute with `undefined`/`NaN`). Every lot has both entries.
- Invalid object identifiers are not modelled. Identifiers are strings and indices.
- Reservations.ReservationStore.Create: it takes a vehicle type rather than a string. The handler never validates `vehicle_type`, so an invalid type would reach the database's schema check; the model admits only the two valid types.
- The reservation schema declares no `max_end_time` path, yet creation writes one and ending reads one. The model keeps the cutoff as an optional field of the record. Under Mongoose's default strict mode the path may be dropped on save, and then no late surcharge is ever charged.
- Ideally, active + pending would never exceed the total spots. Create does not guarantee it: it counts every active reservation whatever its window, and an immediate request ignores pending ones. It is not proved. `Occupancy.Snapshot` instead states how far the figure can go negative.
- Ideally, an end instant would never precede the start. The end handler does not check this. A reservation started up to 15 minutes early and ended at once has a negative duration and is charged the first-hour rate, and the model does the same.
- Ideally, the sweep would continue after one reservation fails. The code wraps the whole loop in one try/catch, so the first failed save ends the sweep. `Cleanup.CleanupReservations` follows the code.
- The sweep's query-then-loop runs as one pass over the store in store order. The query's order is the store's natural order, and the loop changes only the records the query selected, so the two agree.
- A failure of the availability update after a successful save in the sweep would also end it. This is not modelled, because the update stores nothing.
- Availability.FindNextAvailableTime: its contract ties the result to `Probe.NextAvailable` over `Occupancy.LotOccupancy` and does not repeat the least-free-probe property. That property is proved once, for any occupancy function, in `Probe.NextAvailableIsLeastFreeProbe`.
- Reservations.FindNextAvailableTime: the same holds, over `Occupancy.LiveOccupancy`.
- The type-name lookup of the availability check accepts exactly "car" and "bike". Other property names of the stored `total_spots` object are not modelled.
