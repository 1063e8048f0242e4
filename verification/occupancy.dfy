/** Occupancy counting over the reservation collection: the count queries
    the controllers issue, the windowed count used for a given instant, and
    the per-type snapshots reported for a lot. */
module Occupancy {
  import opened ReservationModel

  /** A count filter on (lot, vehicle type, status), optionally restricted to
      reservations that started at or before an instant and to those whose
      end is unset or lies after an instant. */
  datatype Query = Query(
    lot: LotId,
    vehicle: VehicleType,
    statuses: set<Status>,
    startAtMost: Option<Instant>,
    liveAt: Option<Instant>)

  predicate Matches(r: Reservation, q: Query) {
    r.lot == q.lot && r.vehicle == q.vehicle && r.status in q.statuses &&
    (q.startAtMost.Some? ==> r.startTime <= q.startAtMost.value) &&
    (q.liveAt.Some? ==> (r.endTime.None? || r.endTime.value > q.liveAt.value))
  }

  /** Number of reservations the filter selects. */
  function CountDocuments(rs: seq<Reservation>, q: Query): (n: nat)
    ensures n <= |rs|
  {
    if rs == [] then 0
    else
      var rest := CountDocuments(rs[1..], q);
      (if Matches(rs[0], q) then 1 else 0) + rest
  }

  /** Every active reservation of the lot and type, whatever its window. */
  function ActiveQuery(lot: LotId, vt: VehicleType): Query {
    Query(lot, vt, {Active}, None, None)
  }

  /** Pending reservations of the lot and type whose start is at or before t. */
  function PendingStartedQuery(lot: LotId, vt: VehicleType, t: Instant): Query {
    Query(lot, vt, {Pending}, Some(t), None)
  }

  /** Active reservations of the lot and type whose window covers t. */
  function ActiveAtQuery(lot: LotId, vt: VehicleType, t: Instant): Query {
    Query(lot, vt, {Active}, Some(t), Some(t))
  }

  /** Active or pending reservations of the lot and type whose window covers t. */
  function LiveAtQuery(lot: LotId, vt: VehicleType, t: Instant): Query {
    Query(lot, vt, {Active, Pending}, Some(t), Some(t))
  }

  /** Occupancy at an instant as the availability check computes it: active
      reservations covering t plus pending ones already started at t. */
  function OccupiedAt(rs: seq<Reservation>, lot: LotId, vt: VehicleType, t: Instant): nat {
    CountDocuments(rs, ActiveAtQuery(lot, vt, t)) + CountDocuments(rs, PendingStartedQuery(lot, vt, t))
  }

  /** Occupancy at an instant as one single query over both statuses. */
  function LiveAt(rs: seq<Reservation>, lot: LotId, vt: VehicleType, t: Instant): nat {
    CountDocuments(rs, LiveAtQuery(lot, vt, t))
  }

  /** Occupancy at each instant as the availability check counts it. */
  function LotOccupancy(rs: seq<Reservation>, lot: LotId, vt: VehicleType): Instant -> int
  {
    t => OccupiedAt(rs, lot, vt, t)
  }

  /** Occupancy at each instant as the reservation controller counts it. */
  function LiveOccupancy(rs: seq<Reservation>, lot: LotId, vt: VehicleType): Instant -> int
  {
    t => LiveAt(rs, lot, vt, t)
  }

  /** The per-type figures a lot reports: spots left, and the active and
      pending reservations counted against them. */
  datatype TypeSnapshot = TypeSnapshot(available: int, active: nat, pending: nat)

  /** Snapshot of one vehicle type at `now`: every active reservation counts
      regardless of its window, pending ones count once started, and the
      figure is not clamped at zero. */
  function Snapshot(rs: seq<Reservation>, lotId: LotId, lot: Lot, vt: VehicleType, now: Instant): (s: TypeSnapshot)
    ensures s.available + s.active + s.pending == Capacity(lot, vt)
    ensures s.available < 0 <==> s.active + s.pending > Capacity(lot, vt)
    ensures s.active == CountDocuments(rs, ActiveQuery(lotId, vt))
    ensures s.pending == CountDocuments(rs, PendingStartedQuery(lotId, vt, now))
  {
    var active := CountDocuments(rs, ActiveQuery(lotId, vt));
    var pending := CountDocuments(rs, PendingStartedQuery(lotId, vt, now));
    TypeSnapshot(Capacity(lot, vt) - (active + pending), active, pending)
  }

  datatype LotView = LotView(id: LotId, lot: Lot, car: TypeSnapshot, bike: TypeSnapshot)

  function ViewOf(rs: seq<Reservation>, lotId: LotId, lot: Lot, now: Instant): LotView {
    LotView(lotId, lot, Snapshot(rs, lotId, lot, Car, now), Snapshot(rs, lotId, lot, Bike, now))
  }

  /** A lot by identifier with its current availability per vehicle type. */
  function GetById(lots: map<LotId, Lot>, rs: seq<Reservation>, lotId: LotId, now: Instant): (r: Result<LotView>)
    ensures r.Err? <==> lotId !in lots
    ensures r.Err? ==> r.error == LotNotFound
    ensures r.Ok? ==> r.value.lot == lots[lotId]
    ensures r.Ok? ==> r.value.car.available + r.value.car.active + r.value.car.pending == lots[lotId].totalSpots.car
    ensures r.Ok? ==> r.value.bike.available + r.value.bike.active + r.value.bike.pending == lots[lotId].totalSpots.bike
    ensures r.Ok? ==> (r.value.id == lotId &&
      r.value.car == Snapshot(rs, lotId, lots[lotId], Car, now) &&
      r.value.bike == Snapshot(rs, lotId, lots[lotId], Bike, now))
  {
    if lotId !in lots then Err(LotNotFound)
    else Ok(ViewOf(rs, lotId, lots[lotId], now))
  }

  datatype NearbyResult = NoNearbyLots | NearbyLots(views: seq<LotView>)

  /** Availability of each lot the proximity search returned, in its order. */
  function GetNearby(nearby: seq<(LotId, Lot)>, rs: seq<Reservation>, now: Instant): (r: NearbyResult)
    ensures r.NoNearbyLots? <==> nearby == []
    ensures r.NearbyLots? ==> |r.views| == |nearby|
    ensures r.NearbyLots? ==> forall i :: 0 <= i < |nearby| ==>
      (r.views[i].id == nearby[i].0 && r.views[i].lot == nearby[i].1 &&
       r.views[i].car == Snapshot(rs, nearby[i].0, nearby[i].1, Car, now) &&
       r.views[i].bike == Snapshot(rs, nearby[i].0, nearby[i].1, Bike, now))
  {
    if nearby == [] then NoNearbyLots
    else NearbyLots(seq(|nearby|, i requires 0 <= i < |nearby| => ViewOf(rs, nearby[i].0, nearby[i].1, now)))
  }

  // ---------------------------------------------------------------------
  // Lemmas about the counts

  /** A count is zero exactly when the filter selects nothing, and equals the
      collection's size exactly when it selects everything. */
  lemma {:induction false} CountExtremes(rs: seq<Reservation>, q: Query)
    ensures CountDocuments(rs, q) == 0 <==> forall i :: 0 <= i < |rs| ==> !Matches(rs[i], q)
    ensures CountDocuments(rs, q) == |rs| <==> forall i :: 0 <= i < |rs| ==> Matches(rs[i], q)
  {
    if rs != [] {
      CountExtremes(rs[1..], q);
      assert forall i :: 1 <= i < |rs| ==> rs[i] == rs[1..][i - 1];
    }
  }

  lemma {:induction false} CountAppend(rs: seq<Reservation>, r: Reservation, q: Query)
    ensures CountDocuments(rs + [r], q) == CountDocuments(rs, q) + (if Matches(r, q) then 1 else 0)
  {
    if rs == [] {
      assert rs + [r] == [r];
    } else {
      assert (rs + [r])[1..] == rs[1..] + [r];
      CountAppend(rs[1..], r, q);
    }
  }

  /** Replacing one record changes a count by what the old and new record contribute. */
  lemma {:induction false} CountUpdate(rs: seq<Reservation>, i: nat, r: Reservation, q: Query)
    requires i < |rs|
    ensures CountDocuments(rs[i := r], q) + (if Matches(rs[i], q) then 1 else 0)
         == CountDocuments(rs, q) + (if Matches(r, q) then 1 else 0)
  {
    if i == 0 {
      assert rs[i := r][1..] == rs[1..];
    } else {
      assert rs[i := r][1..] == rs[1..][i - 1 := r];
      CountUpdate(rs[1..], i - 1, r, q);
    }
  }

  /** A filter that selects at least what another selects counts at least as many. */
  lemma {:induction false} CountMonotone(rs: seq<Reservation>, q1: Query, q2: Query)
    requires forall i :: 0 <= i < |rs| && Matches(rs[i], q1) ==> Matches(rs[i], q2)
    ensures CountDocuments(rs, q1) <= CountDocuments(rs, q2)
  {
    if rs != [] {
      assert forall i :: 0 <= i < |rs[1..]| ==> rs[1..][i] == rs[i + 1];
      CountMonotone(rs[1..], q1, q2);
    }
  }

  /** No pending record of the lot and type carries an end instant. */
  predicate PendingHaveNoEnd(rs: seq<Reservation>, lot: LotId, vt: VehicleType) {
    forall i :: 0 <= i < |rs| && rs[i].lot == lot && rs[i].vehicle == vt && rs[i].status == Pending ==> rs[i].endTime.None?
  }

  /** The single two-status query and the sum of the two separate queries
      agree whenever no pending record carries an end instant. */
  lemma {:induction false} LiveAtSplits(rs: seq<Reservation>, lot: LotId, vt: VehicleType, t: Instant)
    requires PendingHaveNoEnd(rs, lot, vt)
    ensures LiveAt(rs, lot, vt, t) == OccupiedAt(rs, lot, vt, t)
  {
    if rs != [] {
      assert forall i :: 0 <= i < |rs[1..]| ==> rs[1..][i] == rs[i + 1];
      LiveAtSplits(rs[1..], lot, vt, t);
    }
  }

  /** The windowed count at `now` never exceeds the snapshot's count, so the
      availability check at the current instant reports at least as many free
      spots as the lot view. */
  lemma WindowedNoMoreThanSnapshot(rs: seq<Reservation>, lotId: LotId, lot: Lot, vt: VehicleType, now: Instant)
    ensures OccupiedAt(rs, lotId, vt, now) <= Snapshot(rs, lotId, lot, vt, now).active + Snapshot(rs, lotId, lot, vt, now).pending
    ensures Capacity(lot, vt) - OccupiedAt(rs, lotId, vt, now) >= Snapshot(rs, lotId, lot, vt, now).available
  {
    CountMonotone(rs, ActiveAtQuery(lotId, vt, now), ActiveQuery(lotId, vt));
  }
}
