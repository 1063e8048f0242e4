/** The availability check for a lot, vehicle type and instant, and the
    parking-lot controller's copy of the next-available-time search. */
module Availability {
  import opened ReservationModel
  import opened Occupancy
  import opened Probe

  /** The parking-lot controller's search: occupancy at each probe is the
      windowed active count plus the started pending count. A failed lookup
      of the lot falls back to a heuristic outcome and is not modelled. */
  method FindNextAvailableTime(rs: seq<Reservation>, lotId: LotId, vt: VehicleType, cap: int, from: Instant)
    returns (next: Option<Instant>)
    ensures next == NextAvailable(LotOccupancy(rs, lotId, vt), cap, from)
    ensures next.Some? ==> next.value > from
  {
    ghost var occ := LotOccupancy(rs, lotId, vt);
    var checkTime := from;
    var foundSlot := false;
    var maxIterations := MAX_PROBES;
    while !foundSlot && maxIterations > 0
      invariant 0 <= maxIterations <= MAX_PROBES
      invariant checkTime == ProbeAt(from, MAX_PROBES - maxIterations)
      invariant foundSlot ==> (maxIterations < MAX_PROBES &&
        FirstFreeProbe(occ, cap, from, 1) == Some(MAX_PROBES - maxIterations))
      invariant !foundSlot ==> FirstFreeProbe(occ, cap, from, 1) == FirstFreeProbe(occ, cap, from, MAX_PROBES - maxIterations + 1)
      decreases maxIterations
    {
      ProbeRound(occ, cap, from, MAX_PROBES - maxIterations + 1);
      checkTime := checkTime + PROBE_STEP_MS;
      var activeReservations := CountDocuments(rs, ActiveAtQuery(lotId, vt, checkTime));
      var pendingReservations := CountDocuments(rs, PendingStartedQuery(lotId, vt, checkTime));
      var totalOccupied := activeReservations + pendingReservations;
      assert occ(checkTime) == totalOccupied;
      if totalOccupied < cap {
        foundSlot := true;
      }
      maxIterations := maxIterations - 1;
    }
    next := if foundSlot then Some(checkTime) else None;
  }

  datatype Report =
    | Available(availableSpots: int, capacity: int, active: nat, pending: nat, requested: Instant)
    | Unavailable(nextAvailable: Option<Instant>, capacity: int, active: nat, pending: nat, requested: Instant)

  /** Availability of a vehicle type at a lot at the requested instant (the
      current one when none is given). Missing parameters are reported
      first, then an unknown lot, then a type with no capacity entry. */
  method CheckAvailability(lots: map<LotId, Lot>, rs: seq<Reservation>, lotId: LotId, vehicleType: string,
                           startTime: Option<Instant>, now: Instant)
    returns (res: Result<Report>)
    ensures (lotId == "" || vehicleType == "") <==> res == Err(MissingParameters)
    ensures lotId != "" && vehicleType != "" && lotId !in lots <==> res == Err(LotNotFound)
    ensures lotId != "" && vehicleType != "" && lotId in lots && ParseVehicleType(vehicleType).None?
      <==> res == Err(InvalidVehicleType)
    ensures res.Ok? <==> lotId != "" && vehicleType != "" && lotId in lots && ParseVehicleType(vehicleType).Some?
    ensures res.Ok? ==>
      var vt := ParseVehicleType(vehicleType).value;
      var t := startTime.GetOr(now);
      var cap := Capacity(lots[lotId], vt);
      res.value.requested == t && res.value.capacity == cap &&
      res.value.active == CountDocuments(rs, ActiveAtQuery(lotId, vt, t)) &&
      res.value.pending == CountDocuments(rs, PendingStartedQuery(lotId, vt, t)) &&
      (res.value.Available? <==> OccupiedAt(rs, lotId, vt, t) < cap) &&
      (res.value.Available? ==> res.value.availableSpots == cap - OccupiedAt(rs, lotId, vt, t) >= 1) &&
      (res.value.Unavailable? ==> res.value.nextAvailable == NextAvailable(LotOccupancy(rs, lotId, vt), cap, t))
  {
    var checkTime := startTime.GetOr(now);
    if lotId == "" || vehicleType == "" {
      return Err(MissingParameters);
    }
    if lotId !in lots {
      return Err(LotNotFound);
    }
    var lot := lots[lotId];
    var totalCapacity := CapacityByName(lot, vehicleType);
    if totalCapacity.None? {
      return Err(InvalidVehicleType);
    }
    var vt := ParseVehicleType(vehicleType).value;
    var activeReservations := CountDocuments(rs, ActiveAtQuery(lotId, vt, checkTime));
    var pendingReservations := CountDocuments(rs, PendingStartedQuery(lotId, vt, checkTime));
    var totalOccupied := activeReservations + pendingReservations;
    var availableSpots := totalCapacity.value - totalOccupied;
    if availableSpots <= 0 {
      var nextAvailable := FindNextAvailableTime(rs, lotId, vt, totalCapacity.value, checkTime);
      return Ok(Unavailable(nextAvailable, totalCapacity.value, activeReservations, pendingReservations, checkTime));
    }
    return Ok(Available(availableSpots, totalCapacity.value, activeReservations, pendingReservations, checkTime));
  }
}
