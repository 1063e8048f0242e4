/** The periodic sweep that cancels pending reservations whose start lies
    more than 15 minutes in the past. */
module Cleanup {
  import opened ReservationModel
  import opened Occupancy
  import Reservations

  /** How long a pending reservation may stay unstarted past its start. */
  const EXPIRY_MS: int := 15 * MS_PER_MINUTE

  /** The sweep's cutoff: pending reservations starting strictly before it expire. */
  function Cutoff(now: Instant): Instant {
    now - EXPIRY_MS
  }

  predicate Expired(r: Reservation, cutoff: Instant) {
    r.status == Pending && r.startTime < cutoff
  }

  /** What the sweep does to one record: an expired one becomes cancelled,
      and nothing else about any record changes. */
  function Expire(r: Reservation, cutoff: Instant): (e: Reservation)
    ensures Expired(r, cutoff) ==> e.status == Cancelled
    ensures !Expired(r, cutoff) ==> e == r
    ensures e == r.(status := e.status)
    ensures !Expired(e, cutoff)
  {
    if Expired(r, cutoff) then r.(status := Cancelled) else r
  }

  /** The store after a sweep that ran to the end. */
  function Sweep(rs: seq<Reservation>, cutoff: Instant): seq<Reservation> {
    seq(|rs|, i requires 0 <= i < |rs| => Expire(rs[i], cutoff))
  }

  /** The outcome of one sweep: it ran to the end, or a save failed at the
      given reservation and the remaining ones were left as they were. */
  datatype SweepOutcome = Finished | Aborted(failedAt: ResId)

  /** Cancels every expired pending reservation in store order. The set
      `saveFails` names the reservations whose save fails; the first such
      failure ends the sweep, and the reservations cancelled before it stay
      cancelled. */
  method CleanupReservations(store: Reservations.ReservationStore, now: Instant, saveFails: set<ResId>)
    returns (outcome: SweepOutcome)
    requires store.Valid()
    modifies store
    ensures store.Valid()
    ensures LegalHistory(old(store.reservations), store.reservations)
    ensures outcome.Finished? <==>
      forall i :: 0 <= i < |old(store.reservations)| && Expired(old(store.reservations)[i], Cutoff(now)) ==> i !in saveFails
    ensures outcome.Finished? ==> store.reservations == Sweep(old(store.reservations), Cutoff(now))
    ensures outcome.Aborted? ==>
      var rs, f := old(store.reservations), outcome.failedAt;
      f < |rs| && Expired(rs[f], Cutoff(now)) && f in saveFails &&
      (forall i :: 0 <= i < f && Expired(rs[i], Cutoff(now)) ==> i !in saveFails) &&
      store.reservations == Sweep(rs[..f], Cutoff(now)) + rs[f..]
  {
    var expiryTime := Cutoff(now);
    ghost var before := store.reservations;
    var i := 0;
    SweptUpToFacts(before, 0, expiryTime);
    while i < |store.reservations|
      invariant 0 <= i <= |before| == |store.reservations|
      invariant store.Valid()
      invariant store.reservations == SweptUpTo(before, i, expiryTime)
      invariant forall k :: 0 <= k < i && Expired(before[k], expiryTime) ==> k !in saveFails
      decreases |store.reservations| - i
    {
      var reservation := store.reservations[i];
      assert reservation == before[i];
      if Expired(reservation, expiryTime) {
        if i in saveFails {
          SweptUpToFacts(before, i, expiryTime);
          assert Expired(before[i], expiryTime) && i in saveFails;
          return Aborted(i);
        }
        SaveCancelled(store, i);
      }
      SweptUpToFacts(before, i, expiryTime);
      i := i + 1;
    }
    SweptUpToFacts(before, i, expiryTime);
    assert before[..i] == before;
    return Finished;
  }

  /** The store part-way through a sweep: the first n records have been
      through it, the rest are untouched. */
  function SweptUpTo(rs: seq<Reservation>, n: nat, cutoff: Instant): seq<Reservation> {
    seq(|rs|, k requires 0 <= k < |rs| => if k < n then Expire(rs[k], cutoff) else rs[k])
  }

  /** Part of a sweep is a sweep of a prefix followed by the untouched rest,
      every record has moved by a legal step, and one more round replaces
      just the next record. */
  lemma SweptUpToFacts(rs: seq<Reservation>, n: nat, cutoff: Instant)
    requires n <= |rs|
    ensures SweptUpTo(rs, n, cutoff) == Sweep(rs[..n], cutoff) + rs[n..]
    ensures LegalHistory(rs, SweptUpTo(rs, n, cutoff))
    ensures n < |rs| ==> SweptUpTo(rs, n + 1, cutoff) == SweptUpTo(rs, n, cutoff)[n := Expire(rs[n], cutoff)]
  {
    var a, b := SweptUpTo(rs, n, cutoff), Sweep(rs[..n], cutoff) + rs[n..];
    assert |a| == |b|;
    forall k | 0 <= k < |a| ensures a[k] == b[k] {
      if k < n {
        assert b[k] == Sweep(rs[..n], cutoff)[k];
      } else {
        assert b[k] == rs[n..][k - n];
      }
    }
  }

  /** Marks one pending reservation cancelled and saves it. */
  method SaveCancelled(store: Reservations.ReservationStore, i: nat)
    requires store.Valid()
    requires i < |store.reservations| && store.reservations[i].status == Pending
    modifies store
    ensures store.Valid()
    ensures store.reservations == old(store.reservations)[i := old(store.reservations)[i].(status := Cancelled)]
  {
    CancelKeepsInvariant(store.reservations, i);
    store.reservations := store.reservations[i := store.reservations[i].(status := Cancelled)];
  }

  /** Cancelling one pending record keeps the store's invariant. */
  lemma CancelKeepsInvariant(rs: seq<Reservation>, i: nat)
    requires Reservations.StoreInvariant(rs)
    requires i < |rs| && rs[i].status == Pending
    ensures Reservations.StoreInvariant(rs[i := rs[i].(status := Cancelled)])
    ensures LegalStep(rs[i], rs[i].(status := Cancelled))
  {
    var after := rs[i := rs[i].(status := Cancelled)];
    forall j, k | 0 <= j < k < |after| && Outstanding(after[j]) && Outstanding(after[k])
      ensures after[j].user != after[k].user
    {
      assert j != i && k != i;
    }
  }

  // ---------------------------------------------------------------------
  // Lemmas about the sweep

  /** After a sweep no expired reservation is left, every record keeps its
      place and everything but its status, and the status changes exactly
      for the expired ones. */
  lemma SweepCancelsExactlyExpired(rs: seq<Reservation>, cutoff: Instant)
    ensures |Sweep(rs, cutoff)| == |rs|
    ensures forall i :: 0 <= i < |rs| ==> !Expired(Sweep(rs, cutoff)[i], cutoff)
    ensures forall i :: 0 <= i < |rs| ==> Sweep(rs, cutoff)[i] == rs[i].(status := Sweep(rs, cutoff)[i].status)
    ensures forall i :: 0 <= i < |rs| ==>
      (Sweep(rs, cutoff)[i].status != rs[i].status <==> Expired(rs[i], cutoff))
  {
  }

  /** A pending reservation starting exactly at the cutoff survives the sweep. */
  lemma BoundaryIsKept(r: Reservation, now: Instant)
    requires r.status == Pending && r.startTime == Cutoff(now)
    ensures Expire(r, Cutoff(now)).status == Pending
  {
  }

  /** A second sweep with the same cutoff changes nothing. */
  lemma SweepIdempotent(rs: seq<Reservation>, cutoff: Instant)
    ensures Sweep(Sweep(rs, cutoff), cutoff) == Sweep(rs, cutoff)
  {
  }

  /** A sweep keeps the store's invariant and moves every record by a legal step. */
  lemma SweepKeepsInvariant(rs: seq<Reservation>, cutoff: Instant)
    requires Reservations.StoreInvariant(rs)
    ensures Reservations.StoreInvariant(Sweep(rs, cutoff))
    ensures LegalHistory(rs, Sweep(rs, cutoff))
  {
    var after := Sweep(rs, cutoff);
    forall j, k | 0 <= j < k < |after| && Outstanding(after[j]) && Outstanding(after[k])
      ensures after[j].user != after[k].user
    {
      assert Outstanding(rs[j]) && Outstanding(rs[k]);
    }
  }

  /** The sweep leaves the active count of every lot and type as it was. */
  lemma {:induction false} SweepKeepsActive(rs: seq<Reservation>, cutoff: Instant, lotId: LotId, vt: VehicleType)
    ensures CountDocuments(Sweep(rs, cutoff), ActiveQuery(lotId, vt)) == CountDocuments(rs, ActiveQuery(lotId, vt))
  {
    if rs != [] {
      assert Sweep(rs, cutoff)[1..] == Sweep(rs[1..], cutoff);
      SweepKeepsActive(rs[1..], cutoff, lotId, vt);
    }
  }

  /** At any instant at or after the cutoff, the sweep removes from the
      started-pending count exactly the pending reservations of that lot and
      type that started before the cutoff. */
  lemma {:induction false} SweepRemovesExpiredPending(rs: seq<Reservation>, cutoff: Instant, lotId: LotId,
                                                     vt: VehicleType, now: Instant)
    requires cutoff <= now
    ensures CountDocuments(Sweep(rs, cutoff), PendingStartedQuery(lotId, vt, now))
          + CountDocuments(rs, PendingStartedQuery(lotId, vt, cutoff - 1))
         == CountDocuments(rs, PendingStartedQuery(lotId, vt, now))
  {
    if rs != [] {
      assert Sweep(rs, cutoff)[1..] == Sweep(rs[1..], cutoff);
      SweepRemovesExpiredPending(rs[1..], cutoff, lotId, vt, now);
    }
  }

  /** In the lot's figures at `now`, a sweep frees one spot of a type for
      each pending reservation of that lot and type it cancels. */
  lemma SweepFreesSpots(rs: seq<Reservation>, lotId: LotId, lot: Lot, vt: VehicleType, now: Instant)
    ensures Snapshot(Sweep(rs, Cutoff(now)), lotId, lot, vt, now).available
         == Snapshot(rs, lotId, lot, vt, now).available + CountDocuments(rs, PendingStartedQuery(lotId, vt, Cutoff(now) - 1))
  {
    SweepKeepsActive(rs, Cutoff(now), lotId, vt);
    SweepRemovesExpiredPending(rs, Cutoff(now), lotId, vt, now);
  }
}
