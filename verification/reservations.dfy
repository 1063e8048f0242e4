/** The reservation lifecycle: creation with its admission check and
    last-spot cap, start with its grace window, end with its fee, and
    cancellation, over a store of reservation records. */
module Reservations {
  import opened ReservationModel
  import opened Occupancy
  import opened Probe
  import Fees

  /** How long before its scheduled start a reservation may be started. */
  const GRACE_MS: int := 15 * MS_PER_MINUTE

  /** The reservation controller's copy of the search: each probe counts
      active and pending reservations of the lot and type whose window covers
      it. A failed lookup of the lot falls back to a heuristic outcome and is
      not modelled. */
  method FindNextAvailableTime(rs: seq<Reservation>, lotId: LotId, vt: VehicleType, cap: int, from: Instant)
    returns (next: Option<Instant>)
    ensures next == NextAvailable(LiveOccupancy(rs, lotId, vt), cap, from)
    ensures next.Some? ==> next.value > from
  {
    ghost var occ := LiveOccupancy(rs, lotId, vt);
    var checkTime := from;
    var foundSlot := false;
    var maxIterations := MAX_PROBES;
    while !foundSlot && maxIterations > 0
      invariant 0 <= maxIterations <= MAX_PROBES
      invariant checkTime == ProbeAt(from, MAX_PROBES - maxIterations)
      invariant foundSlot ==> (maxIterations < MAX_PROBES &&
        FirstFreeProbe(occ, cap, from, 1) == Some(MAX_PROBES - maxIterations))
      invariant !foundSlot ==> FirstFreeProbe(occ, cap, from, 1) == FirstFreeProbe(occ, cap, from, MAX_PROBES - maxIterations + 1)
      decreases maxIterations
    {
      ProbeRound(occ, cap, from, MAX_PROBES - maxIterations + 1);
      checkTime := checkTime + PROBE_STEP_MS;
      var reservationsAtTime := LiveAt(rs, lotId, vt, checkTime);
      assert occ(checkTime) == reservationsAtTime;
      if reservationsAtTime < cap {
        foundSlot := true;
      }
      maxIterations := maxIterations - 1;
    }
    next := if foundSlot then Some(checkTime) else None;
  }

  /** The two copies of the search give the same answer whenever no pending
      record of the lot and type carries an end instant. */
  lemma ProbersAgree(rs: seq<Reservation>, lotId: LotId, vt: VehicleType, cap: int, from: Instant)
    requires PendingHaveNoEnd(rs, lotId, vt)
    ensures NextAvailable(LiveOccupancy(rs, lotId, vt), cap, from) == NextAvailable(LotOccupancy(rs, lotId, vt), cap, from)
  {
    forall j | 1 <= j <= MAX_PROBES
      ensures LiveOccupancy(rs, lotId, vt)(ProbeAt(from, j)) == LotOccupancy(rs, lotId, vt)(ProbeAt(from, j))
    {
      LiveAtSplits(rs, lotId, vt, ProbeAt(from, j));
    }
    NextAvailableAgree(LiveOccupancy(rs, lotId, vt), LotOccupancy(rs, lotId, vt), cap, from);
  }

  /** The first record, in store order, that the user owns and that is still outstanding. */
  function FirstOutstanding(rs: seq<Reservation>, user: UserId): (r: Option<nat>)
    ensures r.Some? ==> r.value < |rs| && rs[r.value].user == user && Outstanding(rs[r.value])
    ensures r.Some? ==> forall i :: 0 <= i < r.value ==> !(rs[i].user == user && Outstanding(rs[i]))
    ensures r.None? <==> forall i :: 0 <= i < |rs| ==> !(rs[i].user == user && Outstanding(rs[i]))
  {
    if rs == [] then None
    else if rs[0].user == user && Outstanding(rs[0]) then Some(0)
    else
      var rest := FirstOutstanding(rs[1..], user);
      assert forall i :: 1 <= i < |rs| ==> rs[i] == rs[1..][i - 1];
      match rest
      case Some(k) => Some(k + 1)
      case None => None
  }

  /** Spots left for a new request: all active reservations of the lot and
      type count whatever their window, and for a scheduled request so do the
      pending ones starting at or before the requested start. */
  function AdmissionAvailable(rs: seq<Reservation>, lotId: LotId, vt: VehicleType, cap: int,
                              start: Instant, reserveNow: bool): int
  {
    var activeReservations := CountDocuments(rs, ActiveQuery(lotId, vt));
    var pendingCount := if reserveNow then 0 else CountDocuments(rs, PendingStartedQuery(lotId, vt, start));
    cap - (activeReservations + pendingCount)
  }

  /** A scheduled request at the current instant is admitted against the
      same figure the lot view reports, and an immediate request also
      counts the started pending reservations as free. */
  lemma AdmissionMatchesSnapshot(rs: seq<Reservation>, lotId: LotId, lot: Lot, vt: VehicleType, now: Instant)
    ensures AdmissionAvailable(rs, lotId, vt, Capacity(lot, vt), now, false) == Snapshot(rs, lotId, lot, vt, now).available
    ensures AdmissionAvailable(rs, lotId, vt, Capacity(lot, vt), now, true)
         == Snapshot(rs, lotId, lot, vt, now).available + Snapshot(rs, lotId, lot, vt, now).pending
  {
  }

  predicate UpcomingPending(r: Reservation, lotId: LotId, vt: VehicleType, t: Instant) {
    r.lot == lotId && r.vehicle == vt && r.status == Pending && r.startTime > t
  }

  /** The earliest start among pending reservations of the lot and type
      scheduled strictly after t. */
  function EarliestPendingAfter(rs: seq<Reservation>, lotId: LotId, vt: VehicleType, t: Instant): (m: Option<Instant>)
    ensures m.Some? ==> m.value > t
    ensures m.Some? ==> exists i :: 0 <= i < |rs| && UpcomingPending(rs[i], lotId, vt, t) && rs[i].startTime == m.value
    ensures m.Some? ==> forall i :: 0 <= i < |rs| && UpcomingPending(rs[i], lotId, vt, t) ==> m.value <= rs[i].startTime
    ensures m.None? <==> forall i :: 0 <= i < |rs| ==> !UpcomingPending(rs[i], lotId, vt, t)
  {
    if rs == [] then None
    else
      var rest := EarliestPendingAfter(rs[1..], lotId, vt, t);
      assert forall i :: 1 <= i < |rs| ==> rs[i] == rs[1..][i - 1];
      if !UpcomingPending(rs[0], lotId, vt, t) then rest
      else if rest.Some? && rest.value < rs[0].startTime then rest
      else Some(rs[0].startTime)
  }

  /** The cutoff a new reservation receives: only an immediate request taking
      the last free spot is capped, at the earliest later pending start. */
  function MaxEndFor(rs: seq<Reservation>, lotId: LotId, vt: VehicleType, start: Instant,
                     reserveNow: bool, available: int): (m: Option<Instant>)
    ensures m.Some? ==> reserveNow && available == 1 && m.value > start
    ensures m.Some? ==> exists i :: 0 <= i < |rs| && UpcomingPending(rs[i], lotId, vt, start) && rs[i].startTime == m.value
    ensures m.Some? ==> forall i :: 0 <= i < |rs| && UpcomingPending(rs[i], lotId, vt, start) ==> m.value <= rs[i].startTime
    ensures reserveNow && available == 1 ==>
      (m.None? <==> forall i :: 0 <= i < |rs| ==> !UpcomingPending(rs[i], lotId, vt, start))
  {
    if reserveNow && available == 1 then EarliestPendingAfter(rs, lotId, vt, start) else None
  }

  /** The figures recomputed after each change to a lot's reservations, or
      nothing when the lot is gone. */
  function UpdateAvailability(lots: map<LotId, Lot>, rs: seq<Reservation>, lotId: LotId, vt: VehicleType, now: Instant)
    : (s: Option<TypeSnapshot>)
    ensures s.None? <==> lotId !in lots
    ensures s.Some? ==> (s.value.available == Capacity(lots[lotId], vt)
      - CountDocuments(rs, ActiveQuery(lotId, vt)) - CountDocuments(rs, PendingStartedQuery(lotId, vt, now)))
    ensures s.Some? ==> (s.value.active == CountDocuments(rs, ActiveQuery(lotId, vt)) &&
      s.value.pending == CountDocuments(rs, PendingStartedQuery(lotId, vt, now)))
  {
    if lotId !in lots then None else Some(Snapshot(rs, lotId, lots[lotId], vt, now))
  }

  /** What ending a reservation reports besides the record: the stay in
      hours and, when late, the surcharge, both rounded to cents. */
  datatype Completion = Completion(reservation: Reservation, durationHours: real, lateFee: Option<real>)

  /** The store's invariant: each record's identifier is its position, every
      record is well formed, and no user holds two outstanding reservations. */
  predicate StoreInvariant(rs: seq<Reservation>) {
    (forall i :: 0 <= i < |rs| ==> rs[i].id == i && WellFormed(rs[i])) &&
    AtMostOneOutstanding(rs)
  }

  /** Appending a fresh well-formed record keeps the invariant, provided its
      owner holds no outstanding reservation yet. */
  lemma AppendKeepsInvariant(rs: seq<Reservation>, r: Reservation)
    requires StoreInvariant(rs)
    requires r.id == |rs| && WellFormed(r)
    requires FirstOutstanding(rs, r.user).None?
    ensures StoreInvariant(rs + [r]) && LegalHistory(rs, rs + [r])
  {
    var after := rs + [r];
    forall i | 0 <= i < |rs| ensures after[i] == rs[i] && LegalStep(rs[i], after[i]) {
    }
    assert forall i :: 0 <= i < |rs| && Outstanding(rs[i]) ==> rs[i].user != r.user;
  }

  class ReservationStore {
    var reservations: seq<Reservation>

    ghost predicate Valid()
      reads this
    {
      StoreInvariant(reservations)
    }

    constructor ()
      ensures Valid() && reservations == []
    {
      reservations := [];
    }

    /** Books a spot. Fails, storing nothing, when the lot is unknown, when
        the caller already holds an outstanding reservation anywhere, or when
        no spot is left at the requested start (reporting the next instant
        the search finds). */
    method Create(lots: map<LotId, Lot>, user: UserId, lotId: LotId, vehicle: VehicleType,
                  plate: Option<string>, requested: Option<Instant>, reserveNow: bool, now: Instant)
      returns (res: Result<Reservation>)
      requires Valid()
      modifies this
      ensures Valid()
      ensures LegalHistory(old(reservations), reservations)
      ensures res.Err? ==> reservations == old(reservations)
      ensures lotId !in lots ==> res == Err(LotNotFound)
      ensures lotId in lots && FirstOutstanding(old(reservations), user).Some? ==>
        res == Err(AlreadyReserved(FirstOutstanding(old(reservations), user).value))
      ensures lotId in lots && FirstOutstanding(old(reservations), user).None? ==>
        var start := requested.GetOr(now);
        var cap := Capacity(lots[lotId], vehicle);
        var available := AdmissionAvailable(old(reservations), lotId, vehicle, cap, start, reserveNow);
        (available <= 0 ==> res == Err(NoSpots(NextAvailable(LiveOccupancy(old(reservations), lotId, vehicle), cap, start)))) &&
        (available > 0 ==> (res.Ok? && reservations == old(reservations) + [res.value] &&
          res.value == NewReservation(|old(reservations)|, user, lotId, vehicle, plate, start,
                                      MaxEndFor(old(reservations), lotId, vehicle, start, reserveNow, available),
                                      Some(if reserveNow then Active else Pending))))
      ensures res.Ok? ==> (res.value.status == Active <==> reserveNow) && res.value.status in {Active, Pending}
    {
      var startDate := requested.GetOr(now);
      if lotId !in lots {
        return Err(LotNotFound);
      }
      var lot := lots[lotId];
      var existing := FirstOutstanding(reservations, user);
      if existing.Some? {
        return Err(AlreadyReserved(existing.value));
      }
      var activeReservations := CountDocuments(reservations, ActiveQuery(lotId, vehicle));
      var pendingCount := 0;
      if !reserveNow {
        pendingCount := CountDocuments(reservations, PendingStartedQuery(lotId, vehicle, startDate));
      }
      var totalCapacity := Capacity(lot, vehicle);
      var availableSpots := totalCapacity - (activeReservations + pendingCount);
      if availableSpots <= 0 {
        var nextAvailable := FindNextAvailableTime(reservations, lotId, vehicle, totalCapacity, startDate);
        return Err(NoSpots(nextAvailable));
      }
      var initialStatus := if reserveNow then Active else Pending;
      var maxEndTime: Option<Instant> := None;
      if reserveNow && availableSpots == 1 {
        maxEndTime := EarliestPendingAfter(reservations, lotId, vehicle, startDate);
      }
      var r := NewReservation(|reservations|, user, lotId, vehicle, plate, startDate, maxEndTime, Some(initialStatus));
      AppendKeepsInvariant(reservations, r);
      reservations := reservations + [r];
      return Ok(r);
    }

    /** Marks a pending reservation of the caller active, at most 15 minutes
        before its scheduled start. */
    method Start(id: ResId, user: UserId, now: Instant) returns (res: Result<Reservation>)
      requires Valid()
      modifies this
      ensures Valid()
      ensures LegalHistory(old(reservations), reservations)
      ensures res.Err? ==> reservations == old(reservations)
      ensures id >= |old(reservations)| ==> res == Err(ReservationNotFound)
      ensures id < |old(reservations)| ==>
        var r := old(reservations)[id];
        (r.user != user ==> res == Err(NotAuthorized)) &&
        (r.user == user && r.status != Pending ==> res == Err(InvalidStatus(r.status))) &&
        (r.user == user && r.status == Pending && now < r.startTime - GRACE_MS ==>
          res == Err(TooEarly(r.startTime, r.startTime - GRACE_MS, now))) &&
        (r.user == user && r.status == Pending && now >= r.startTime - GRACE_MS ==>
          res == Ok(r.(status := Active)) && reservations == old(reservations)[id := r.(status := Active)])
    {
      if id >= |reservations| {
        return Err(ReservationNotFound);
      }
      var reservation := reservations[id];
      if reservation.user != user {
        return Err(NotAuthorized);
      }
      if reservation.status != Pending {
        return Err(InvalidStatus(reservation.status));
      }
      var fifteenMinutesBeforeStart := reservation.startTime - GRACE_MS;
      if now < fifteenMinutesBeforeStart {
        return Err(TooEarly(reservation.startTime, fifteenMinutesBeforeStart, now));
      }
      reservation := reservation.(status := Active);
      reservations := reservations[id := reservation];
      return Ok(reservation);
    }

    /** Completes an active reservation of the caller at `now`, recording the
        end instant and the fee computed from the lot's rates for its type. */
    method End(lots: map<LotId, Lot>, id: ResId, user: UserId, now: Instant) returns (res: Result<Completion>)
      requires Valid()
      modifies this
      ensures Valid()
      ensures LegalHistory(old(reservations), reservations)
      ensures res.Err? ==> reservations == old(reservations)
      ensures id >= |old(reservations)| ==> res == Err(ReservationNotFound)
      ensures id < |old(reservations)| ==>
        var r := old(reservations)[id];
        (r.user != user ==> res == Err(NotAuthorized)) &&
        (r.user == user && r.status != Active ==> res == Err(InvalidStatus(r.status))) &&
        (r.user == user && r.status == Active && r.lot !in lots ==> res == Err(LotNotFound)) &&
        (r.user == user && r.status == Active && r.lot in lots ==>
          var rate := RateFor(lots[r.lot], r.vehicle);
          var done := r.(endTime := Some(now), status := Completed,
                         fee := Some(Fees.Fee(rate, r.startTime, now, r.maxEndTime)));
          res.Ok? && res.value.reservation == done &&
          reservations == old(reservations)[id := done] &&
          res.value.durationHours == Fees.Round2(Fees.DurationHours(r.startTime, now)) &&
          (res.value.lateFee.Some? <==> r.maxEndTime.Some? && now > r.maxEndTime.value) &&
          (res.value.lateFee.Some? ==> res.value.lateFee.value == Fees.Round2(Fees.LateFee(rate, now, r.maxEndTime))))
    {
      if id >= |reservations| {
        return Err(ReservationNotFound);
      }
      var reservation := reservations[id];
      if reservation.user != user {
        return Err(NotAuthorized);
      }
      if reservation.status != Active {
        return Err(InvalidStatus(reservation.status));
      }
      if reservation.lot !in lots {
        return Err(LotNotFound);
      }
      var endTime := now;
      var durationHours := Fees.DurationHours(reservation.startTime, endTime);
      var vehicleRates := RateFor(lots[reservation.lot], reservation.vehicle);
      var isLate := reservation.maxEndTime.Some? && endTime > reservation.maxEndTime.value;
      var lateFeePenalty := Fees.LateFee(vehicleRates, endTime, reservation.maxEndTime);
      reservation := reservation.(endTime := Some(endTime), status := Completed,
                                  fee := Some(Fees.Fee(vehicleRates, reservation.startTime, endTime, reservation.maxEndTime)));
      reservations := reservations[id := reservation];
      var lateFee := if isLate then Some(Fees.Round2(lateFeePenalty)) else None;
      return Ok(Completion(reservation, Fees.Round2(durationHours), lateFee));
    }

    /** Cancels a pending reservation of the caller; any other status is refused. */
    method Cancel(id: ResId, user: UserId) returns (res: Result<Reservation>)
      requires Valid()
      modifies this
      ensures Valid()
      ensures LegalHistory(old(reservations), reservations)
      ensures res.Err? ==> reservations == old(reservations)
      ensures id >= |old(reservations)| ==> res == Err(ReservationNotFound)
      ensures id < |old(reservations)| ==>
        var r := old(reservations)[id];
        (r.user != user ==> res == Err(NotAuthorized)) &&
        (r.user == user && r.status != Pending ==> res == Err(InvalidStatus(r.status))) &&
        (r.user == user && r.status == Pending ==>
          res == Ok(r.(status := Cancelled)) && reservations == old(reservations)[id := r.(status := Cancelled)])
    {
      if id >= |reservations| {
        return Err(ReservationNotFound);
      }
      var reservation := reservations[id];
      if reservation.user != user {
        return Err(NotAuthorized);
      }
      if reservation.status != Pending {
        return Err(InvalidStatus(reservation.status));
      }
      reservation := reservation.(status := Cancelled);
      reservations := reservations[id := reservation];
      return Ok(reservation);
    }
  }

  /** Cancelling the same reservation twice succeeds at most once: the
      second attempt finds it cancelled. */
  method CancelTwice(store: ReservationStore, id: ResId, user: UserId) returns (first: Result<Reservation>, second: Result<Reservation>)
    requires store.Valid()
    modifies store
    ensures store.Valid()
    ensures first.Ok? ==> second == Err(InvalidStatus(Cancelled))
    ensures second.Err?
  {
    first := store.Cancel(id, user);
    second := store.Cancel(id, user);
  }

  /** In a consistent store the two copies of the search always agree,
      since a pending record never carries an end instant. */
  lemma ProbersAgreeInStore(rs: seq<Reservation>, lotId: LotId, vt: VehicleType, cap: int, from: Instant)
    requires forall i :: 0 <= i < |rs| ==> WellFormed(rs[i])
    ensures NextAvailable(LiveOccupancy(rs, lotId, vt), cap, from) == NextAvailable(LotOccupancy(rs, lotId, vt), cap, from)
  {
    ProbersAgree(rs, lotId, vt, cap, from);
  }

  /** An immediate reservation takes exactly one spot from its lot and type
      in the lot's figures, and leaves every other lot and type as it was. */
  lemma {:induction false} ImmediateCreateTakesOneSpot(rs: seq<Reservation>, r: Reservation, lotId: LotId, lot: Lot,
                                                      vt: VehicleType, now: Instant)
    requires r.status == Active
    ensures Snapshot(rs + [r], lotId, lot, vt, now).available ==
      Snapshot(rs, lotId, lot, vt, now).available - (if r.lot == lotId && r.vehicle == vt then 1 else 0)
  {
    CountAppend(rs, r, ActiveQuery(lotId, vt));
    CountAppend(rs, r, PendingStartedQuery(lotId, vt, now));
  }

  /** Starting a pending reservation whose start has passed leaves the lot's
      figures as they were; starting one early takes a spot; every other lot
      and type keeps its figure. */
  lemma {:induction false} StartMovesSpot(rs: seq<Reservation>, id: nat, lotId: LotId, lot: Lot, vt: VehicleType, now: Instant)
    requires id < |rs| && rs[id].status == Pending
    ensures rs[id].lot != lotId || rs[id].vehicle != vt ==>
      Snapshot(rs[id := rs[id].(status := Active)], lotId, lot, vt, now).available == Snapshot(rs, lotId, lot, vt, now).available
    ensures rs[id].lot == lotId && rs[id].vehicle == vt && rs[id].startTime <= now ==>
      Snapshot(rs[id := rs[id].(status := Active)], lotId, lot, vt, now).available == Snapshot(rs, lotId, lot, vt, now).available
    ensures rs[id].lot == lotId && rs[id].vehicle == vt && rs[id].startTime > now ==>
      Snapshot(rs[id := rs[id].(status := Active)], lotId, lot, vt, now).available == Snapshot(rs, lotId, lot, vt, now).available - 1
  {
    CountUpdate(rs, id, rs[id].(status := Active), ActiveQuery(lotId, vt));
    CountUpdate(rs, id, rs[id].(status := Active), PendingStartedQuery(lotId, vt, now));
  }

  /** Cancelling a pending reservation whose start has passed frees one spot
      in the lot's figures; every other lot and type keeps its figure. */
  lemma {:induction false} CancelFreesSpot(rs: seq<Reservation>, id: nat, lotId: LotId, lot: Lot, vt: VehicleType, now: Instant)
    requires id < |rs| && rs[id].status == Pending
    ensures rs[id].lot != lotId || rs[id].vehicle != vt ==>
      Snapshot(rs[id := rs[id].(status := Cancelled)], lotId, lot, vt, now).available == Snapshot(rs, lotId, lot, vt, now).available
    ensures rs[id].lot == lotId && rs[id].vehicle == vt && rs[id].startTime <= now ==>
      Snapshot(rs[id := rs[id].(status := Cancelled)], lotId, lot, vt, now).available == Snapshot(rs, lotId, lot, vt, now).available + 1
    ensures rs[id].lot == lotId && rs[id].vehicle == vt && rs[id].startTime > now ==>
      Snapshot(rs[id := rs[id].(status := Cancelled)], lotId, lot, vt, now).available == Snapshot(rs, lotId, lot, vt, now).available
  {
    CountUpdate(rs, id, rs[id].(status := Cancelled), ActiveQuery(lotId, vt));
    CountUpdate(rs, id, rs[id].(status := Cancelled), PendingStartedQuery(lotId, vt, now));
  }
}
