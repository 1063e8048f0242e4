/** The search both controllers use for the next instant with a free spot:
    probe the instants 30, 60, ..., 1440 minutes after a starting instant and
    take the first whose occupancy is below capacity. */
module Probe {
  import opened ReservationModel

  const PROBE_STEP_MS: int := 30 * MS_PER_MINUTE
  const MAX_PROBES: nat := 48

  /** The k-th probed instant: each probe lies one step after the previous one. */
  function ProbeAt(from: Instant, k: nat): (t: Instant)
    ensures k >= 1 ==> t > from
  {
    if k == 0 then from else ProbeAt(from, k - 1) + PROBE_STEP_MS
  }

  /** The k-th probe lies exactly 30k minutes after the starting instant. */
  lemma {:induction false} ProbeAtClosedForm(from: Instant, k: nat)
    ensures ProbeAt(from, k) == from + k * 30 * MS_PER_MINUTE
  {
    if k > 0 {
      ProbeAtClosedForm(from, k - 1);
      assert k * 30 * MS_PER_MINUTE == (k - 1) * 30 * MS_PER_MINUTE + PROBE_STEP_MS;
    }
  }

  /** The least probe index in k..MAX_PROBES at which occupancy is below
      capacity, if there is one. */
  function FirstFreeProbe(occ: Instant -> int, cap: int, from: Instant, k: nat): Option<nat>
    requires 1 <= k <= MAX_PROBES + 1
    decreases MAX_PROBES + 1 - k
  {
    if k > MAX_PROBES then None
    else if occ(ProbeAt(from, k)) < cap then Some(k)
    else FirstFreeProbe(occ, cap, from, k + 1)
  }

  /** The index found is the least free one from k on, and there is none
      exactly when every probe from k on is full. */
  lemma {:induction false} FirstFreeProbeIsLeast(occ: Instant -> int, cap: int, from: Instant, k: nat)
    requires 1 <= k <= MAX_PROBES + 1
    ensures var r := FirstFreeProbe(occ, cap, from, k);
      r.Some? ==> (k <= r.value <= MAX_PROBES && occ(ProbeAt(from, r.value)) < cap &&
        forall j :: k <= j < r.value ==> occ(ProbeAt(from, j)) >= cap)
    ensures FirstFreeProbe(occ, cap, from, k).None? <==> forall j :: k <= j <= MAX_PROBES ==> occ(ProbeAt(from, j)) >= cap
    decreases MAX_PROBES + 1 - k
  {
    if k <= MAX_PROBES && occ(ProbeAt(from, k)) >= cap {
      FirstFreeProbeIsLeast(occ, cap, from, k + 1);
    }
  }

  /** One round of the search loop: probe k lies one step after probe k - 1,
      and the search from k either stops there or moves on to k + 1. */
  lemma ProbeRound(occ: Instant -> int, cap: int, from: Instant, k: nat)
    requires 1 <= k <= MAX_PROBES
    ensures ProbeAt(from, k) == ProbeAt(from, k - 1) + PROBE_STEP_MS
    ensures FirstFreeProbe(occ, cap, from, k) ==
      if occ(ProbeAt(from, k)) < cap then Some(k) else FirstFreeProbe(occ, cap, from, k + 1)
  {
  }

  /** The instant the search reports: the first free probe, or nothing once
      all MAX_PROBES probes found the type full. */
  function NextAvailable(occ: Instant -> int, cap: int, from: Instant): (r: Option<Instant>)
    ensures r.Some? ==> r.value > from
    ensures r.Some? ==> exists k :: 1 <= k <= MAX_PROBES && r.value == ProbeAt(from, k) && occ(r.value) < cap
    ensures r.None? <==> FirstFreeProbe(occ, cap, from, 1).None?
  {
    FirstFreeProbeIsLeast(occ, cap, from, 1);
    match FirstFreeProbe(occ, cap, from, 1)
    case Some(k) => Some(ProbeAt(from, k))
    case None => None
  }

  /** The search reports nothing exactly when all MAX_PROBES probes find the
      type full, and otherwise the earliest probe with room. */
  lemma NextAvailableIsLeastFreeProbe(occ: Instant -> int, cap: int, from: Instant)
    ensures NextAvailable(occ, cap, from).None? <==> forall k :: 1 <= k <= MAX_PROBES ==> occ(ProbeAt(from, k)) >= cap
    ensures NextAvailable(occ, cap, from).Some? ==> exists k :: (1 <= k <= MAX_PROBES &&
      NextAvailable(occ, cap, from).value == ProbeAt(from, k) && occ(ProbeAt(from, k)) < cap &&
      forall j :: 1 <= j < k ==> occ(ProbeAt(from, j)) >= cap)
  {
    FirstFreeProbeIsLeast(occ, cap, from, 1);
    var first := FirstFreeProbe(occ, cap, from, 1);
    if first.Some? {
      var k := first.value;
      assert 1 <= k <= MAX_PROBES && occ(ProbeAt(from, k)) < cap;
    }
  }

  /** Two occupancy functions that agree on every probed instant give the same search result. */
  lemma {:induction false} FirstFreeProbeAgree(occ1: Instant -> int, occ2: Instant -> int, cap: int, from: Instant, k: nat)
    requires 1 <= k <= MAX_PROBES + 1
    requires forall j :: k <= j <= MAX_PROBES ==> occ1(ProbeAt(from, j)) == occ2(ProbeAt(from, j))
    ensures FirstFreeProbe(occ1, cap, from, k) == FirstFreeProbe(occ2, cap, from, k)
    decreases MAX_PROBES + 1 - k
  {
    if k <= MAX_PROBES {
      FirstFreeProbeAgree(occ1, occ2, cap, from, k + 1);
    }
  }

  lemma NextAvailableAgree(occ1: Instant -> int, occ2: Instant -> int, cap: int, from: Instant)
    requires forall j :: 1 <= j <= MAX_PROBES ==> occ1(ProbeAt(from, j)) == occ2(ProbeAt(from, j))
    ensures NextAvailable(occ1, cap, from) == NextAvailable(occ2, cap, from)
  {
    FirstFreeProbeAgree(occ1, occ2, cap, from, 1);
  }
}
