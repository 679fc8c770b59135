/** When the satellite answers a resource request (SatelliteSim/simulator.cpp): it waits
    for the next ASC slot with a millisecond timer and drops the answer when the tracked
    slot is then more than five slots off. */
module Allocation {
  import opened Segments
  import opened SlotClock

  /** The number of slots to the nearest later ASC slot. */
  function SlotsToAsc(current: Slot): (w: nat)
    ensures 1 <= w <= 721 && IsAscSlot(Plus(current, w))
    ensures forall k :: 1 <= k < w ==> !IsAscSlot(Plus(current, k))
  {
    if current < 90 then 90 - current
    else if current < 179 then 1
    else if current < 810 then 810 - current
    else if current < 899 then 1
    else if current < 1530 then 1530 - current
    else if current < 1619 then 1
    else 2340 - current
  }

  function DelayMs(wait: nat): nat {
    wait * 80 / 3
  }

  /** The drop rule: keep the answer only within five slots of the target, either way. */
  predicate WithinGuard(current: Slot, target: Slot) {
    var diff := (current - target + FRAME) % FRAME;
    !(5 < diff < 2245)
  }

  /** The source's search.  Its fallbacks, slot 90 for a search without result and 1 ms for
      a delay below that, are absent because they are never taken: the loop always finds a
      slot, and the shortest delay is 26 ms. */
  method FindNextAsc(currentSlot: Slot) returns (nextAscSlot: Slot, delayMs: nat)
    ensures nextAscSlot == Plus(currentSlot, SlotsToAsc(currentSlot))
    ensures delayMs == DelayMs(SlotsToAsc(currentSlot)) >= 26
  {
    var found: int := -1;
    var offset := 1;
    while offset <= 2250 && found == -1
      invariant 1 <= offset
      invariant found == -1 ==> offset <= SlotsToAsc(currentSlot)
      invariant found != -1 ==> found == Plus(currentSlot, SlotsToAsc(currentSlot))
      decreases 2251 - offset, if found == -1 then 1 else 0
    {
      var slot := Plus(currentSlot, offset);
      if IsAscSlot(slot) {
        found := slot;
      }
      offset := offset + 1;
    }
    nextAscSlot := found;
    LagOfPlus(currentSlot, SlotsToAsc(currentSlot));
    var slotsToWait := Lag(currentSlot, nextAscSlot);
    delayMs := slotsToWait * 80 / 3;
  }

  /** The timer lands on the slot it was set for or on the one before. */
  lemma DelayLands(ms: nat, wait: nat)
    ensures Elapsed(ms) + wait - 1 <= Elapsed(ms + DelayMs(wait)) <= Elapsed(ms) + wait
  {
    var r := wait * 80 - 3 * DelayMs(wait);
    assert 0 <= r <= 2;
    assert (ms + DelayMs(wait)) * 3 == ms * 3 - r + 80 * wait;
    assert Elapsed(ms + DelayMs(wait)) == (ms * 3 - r) / 80 + wait;
  }

  lemma LateLands(ms: nat, late: nat)
    requires late <= 80
    ensures Elapsed(ms) <= Elapsed(ms + late) <= Elapsed(ms) + 3
  {}

  /** A tracked slot that is `behind` slots behind the clock. */
  predicate Tracks(slot: Slot, ms: nat, behind: nat) {
    Elapsed(ms) >= behind && slot == (Elapsed(ms) - behind) % FRAME
  }

  /** Circular distance: the guard asks for at most five slots either way. */
  lemma GuardIsDistance(a: int, b: int)
    requires 0 <= a && 0 <= b && -1000 <= a - b <= 1000
    ensures WithinGuard(a % FRAME, b % FRAME) <==> -5 <= a - b <= 5
  {
    var q, r := b / FRAME, b % FRAME;
    assert b == q * FRAME + r;
    var e := r + (a - b);
    assert a == q * FRAME + e;
    if e < 0 {
      assert a % FRAME == e + FRAME;
    } else if e < FRAME {
      assert a % FRAME == e;
    } else {
      assert a % FRAME == e - FRAME;
    }
  }

  /** While the tracker is at most two slots behind at both moments and the timer fires at
      most 80 ms late, the answer is never dropped. */
  lemma AllocationGoesThrough(ms: nat, late: nat, slot: Slot, behind: nat, slot': Slot, behind': nat)
    requires late <= 80 && behind <= 2 && behind' <= 2
    requires Tracks(slot, ms, behind)
    requires var fires := ms + DelayMs(SlotsToAsc(slot)) + late; Tracks(slot', fires, behind')
    ensures WithinGuard(slot', Plus(slot, SlotsToAsc(slot)))
  {
    var wait := SlotsToAsc(slot);
    var due := ms + DelayMs(wait);
    DelayLands(ms, wait);
    LateLands(due, late);
    TargetSlot(Elapsed(ms) - behind, wait);
    GuardIsDistance(Elapsed(due + late) - behind', Elapsed(ms) - behind + wait);
  }

  /** Between two 10 ms ticks a locked tracker is at most one slot behind. */
  lemma LockedTracks(slot: Slot, start: nat, k: nat, ms: nat) returns (behind: nat)
    requires AfterTicks(slot, start, k) == ClockSlot(start + 10 * k)
    requires start + 10 * k <= ms <= start + 10 * k + 10
    ensures behind <= 1 && Tracks(AfterTicks(slot, start, k), ms, behind)
  {
    TickAdvancesAtMostOne(start + 10 * k);
    ElapsedMonotone(start + 10 * k, ms);
    ElapsedMonotone(ms, start + 10 * k + 10);
    behind := Elapsed(ms) - Elapsed(start + 10 * k);
  }

  lemma ElapsedMonotone(a: nat, b: nat)
    requires a <= b
    ensures Elapsed(a) <= Elapsed(b)
  {}

  /** So with 10 ms ticks every request that comes after the tracker has locked is answered:
      request after tick j, timer after tick k. */
  lemma LockedAnswers(slot: Slot, start: nat, j: nat, k: nat, ms: nat, late: nat)
    requires AfterTicks(slot, start, j) == ClockSlot(start + 10 * j) && j <= k && late <= 80
    requires start + 10 * j <= ms <= start + 10 * j + 10
    requires var fires := ms + DelayMs(SlotsToAsc(AfterTicks(slot, start, j))) + late;
             start + 10 * k <= fires <= start + 10 * k + 10
    ensures var asked := AfterTicks(slot, start, j);
            WithinGuard(AfterTicks(slot, start, k), Plus(asked, SlotsToAsc(asked)))
  {
    var asked, answered := AfterTicks(slot, start, j), AfterTicks(slot, start, k);
    var fires := ms + DelayMs(SlotsToAsc(asked)) + late;
    StaysLocked(slot, start, j, k);
    var behind := LockedTracks(slot, start, j, ms);
    var behind' := LockedTracks(slot, start, k, fires);
    AllocationGoesThrough(ms, late, asked, behind, answered, behind');
  }

  lemma TargetSlot(u: nat, wait: nat)
    ensures Plus(u % FRAME, wait) == (u + wait) % FRAME
  {}

  /** The bound is tight: 81 ms of lateness with the same tracker can lose the answer. */
  lemma LateByOneMoreIsDropped()
    ensures Tracks(375, 10079, 2) && SlotsToAsc(375) == 435
    ensures Tracks(816, 10079 + DelayMs(435) + 81, 0) && !WithinGuard(816, Plus(375, 435))
  {
    // 10079 ms is the last millisecond of slot 377, and 435 slots take exactly 11600 ms.
    assert Elapsed(10079) == 377 && DelayMs(435) == 11600 && Elapsed(21760) == 816;
  }
}
