/** The reservation and parking-lot records, with the enumerations and
    defaults of their schemas, and the error outcomes of the handlers. */
module ReservationModel {

  datatype Option<+T> = None | Some(value: T) {
    function GetOr(default: T): T {
      match this
      case Some(v) => v
      case None => default
    }
  }

  /** Instants are absolute times in milliseconds since the epoch. */
  type Instant = int
  type UserId = nat
  type ResId = nat
  /** Lot identifiers as the client sends them; the empty string stands for an absent one. */
  type LotId = string

  const MS_PER_MINUTE: int := 60 * 1000
  const MS_PER_HOUR: int := 60 * MS_PER_MINUTE

  datatype VehicleType = Car | Bike
  datatype Status = Pending | Active | Completed | Cancelled
  datatype PaymentStatus = Unpaid | Paid

  /** The wire name of a vehicle type, as the enumeration of the schema spells it. */
  function VehicleTypeName(vt: VehicleType): string {
    match vt
    case Car => "car"
    case Bike => "bike"
  }

  /** Reads a vehicle type sent by a client; only the two names of the enumeration are accepted. */
  function ParseVehicleType(s: string): (vt: Option<VehicleType>)
    ensures vt.Some? ==> VehicleTypeName(vt.value) == s
    ensures vt.None? <==> (forall t: VehicleType :: VehicleTypeName(t) != s)
  {
    if s == "car" then Some(Car)
    else if s == "bike" then Some(Bike)
    else
      assert VehicleTypeName(Car) != s && VehicleTypeName(Bike) != s;
      None
  }

  datatype Reservation = Reservation(
    id: ResId,
    user: UserId,
    lot: LotId,
    vehicle: VehicleType,
    plate: Option<string>,
    startTime: Instant,
    endTime: Option<Instant>,
    maxEndTime: Option<Instant>,
    status: Status,
    fee: Option<real>,
    payment: PaymentStatus)

  /** A record as the store creates it from the fields a handler supplies:
      the fields the handler leaves out take the schema's defaults. */
  function NewReservation(id: ResId, user: UserId, lot: LotId, vehicle: VehicleType,
                          plate: Option<string>, startTime: Instant,
                          maxEndTime: Option<Instant>, status: Option<Status>): (r: Reservation)
    ensures r.endTime.None? && r.fee.None? && r.payment == Unpaid
    ensures status.None? ==> r.status == Pending
    ensures status.Some? ==> r.status == status.value
    ensures r.plate == plate && r.maxEndTime == maxEndTime && r.startTime == startTime
  {
    Reservation(id, user, lot, vehicle, plate, startTime, None, maxEndTime,
                status.GetOr(Pending), None, Unpaid)
  }

  /** A reservation that still holds, or is about to hold, a spot. */
  predicate Outstanding(r: Reservation) {
    r.status == Pending || r.status == Active
  }

  /** The record invariants the handlers keep: an end instant and a fee exist
      exactly on completed reservations, and a cap lies after the start. */
  predicate WellFormed(r: Reservation) {
    (r.endTime.Some? <==> r.status == Completed) &&
    (r.fee.Some? <==> r.status == Completed) &&
    (r.maxEndTime.Some? ==> r.maxEndTime.value > r.startTime)
  }

  /** At most one outstanding reservation per user, across all lots. */
  predicate AtMostOneOutstanding(rs: seq<Reservation>) {
    forall i, j :: 0 <= i < j < |rs| && Outstanding(rs[i]) && Outstanding(rs[j]) ==> rs[i].user != rs[j].user
  }

  /** The legal moves of one record: none, pending to active, pending to
      cancelled, or active to completed (which also sets end and fee). */
  predicate LegalStep(before: Reservation, after: Reservation) {
    after == before ||
    (before.status == Pending && after == before.(status := Active)) ||
    (before.status == Pending && after == before.(status := Cancelled)) ||
    (before.status == Active && after.status == Completed && after.endTime.Some? && after.fee.Some? &&
     after == before.(status := Completed, endTime := after.endTime, fee := after.fee))
  }

  /** Every record moved by a legal step, and records only added at the end. */
  predicate LegalHistory(before: seq<Reservation>, after: seq<Reservation>) {
    |before| <= |after| && forall i :: 0 <= i < |before| ==> LegalStep(before[i], after[i])
  }

  datatype Spots = Spots(car: int, bike: int)
  datatype Rate = Rate(firstHour: real, additionalHour: real, dailyCap: real)
  datatype Rates = Rates(car: Rate, bike: Rate)
  datatype Lot = Lot(name: string, address: string, totalSpots: Spots, rates: Rates)

  function Capacity(lot: Lot, vt: VehicleType): int {
    match vt
    case Car => lot.totalSpots.car
    case Bike => lot.totalSpots.bike
  }

  function RateFor(lot: Lot, vt: VehicleType): Rate {
    match vt
    case Car => lot.rates.car
    case Bike => lot.rates.bike
  }

  /** The capacity entry a client-supplied type name selects; a name with no
      entry in total_spots selects nothing. */
  function CapacityByName(lot: Lot, name: string): (c: Option<int>)
    ensures c.Some? <==> ParseVehicleType(name).Some?
    ensures c.Some? ==> c.value == Capacity(lot, ParseVehicleType(name).value)
  {
    match ParseVehicleType(name)
    case Some(vt) => Some(Capacity(lot, vt))
    case None => None
  }

  datatype Error =
    | MissingParameters
    | LotNotFound
    | InvalidVehicleType
    | ReservationNotFound
    | NotAuthorized
    | AlreadyReserved(existing: ResId)
    | NoSpots(nextAvailable: Option<Instant>)
    | InvalidStatus(status: Status)
    | TooEarly(scheduled: Instant, earliest: Instant, now: Instant)

  datatype Result<+T> = Ok(value: T) | Err(error: Error)
}
