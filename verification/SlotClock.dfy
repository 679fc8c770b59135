/** The satellite's slot tracker (SatelliteSim/slotscheduler.cpp).

    A slot lasts 80/3 ms and a frame has 2250 slots.  The tracker follows the clock in
    steps of at most two slots per update, and of one slot when it is further behind. */
module SlotClock {
  import Segments

  const FRAME: nat := 2250

  datatype Channel = BBSC | ASC | RAC | DC

  type Slot = s: int | 0 <= s < FRAME

  function ChannelOf(slot: Slot): Channel {
    if slot <= 89 then BBSC
    else if Segments.IsAscSlot(slot) then ASC
    else if 2070 <= slot then RAC
    else DC
  }

  /** Slots elapsed since the epoch, not reduced to a frame. */
  function Elapsed(ms: nat): nat {
    ms * 3 / 80
  }

  function ClockSlot(ms: nat): Slot {
    Elapsed(ms) % FRAME
  }

  /** The slot `n` places further around the frame. */
  function Plus(slot: Slot, n: nat): Slot {
    (slot + n) % FRAME
  }

  /** How many slots the tracker is behind, seen around the frame. */
  function Lag(slot: Slot, expected: Slot): (lag: nat)
    ensures lag < FRAME && Plus(slot, lag) == expected
    ensures lag == 0 <==> slot == expected
  {
    (expected - slot + FRAME) % FRAME
  }

  function Steps(lag: nat): nat {
    if lag > 2 then 1 else lag
  }

  /** The tracker's slot after one update at time `ms`. */
  function Follow(slot: Slot, ms: nat): Slot {
    Plus(slot, Steps(Lag(slot, ClockSlot(ms))))
  }

  datatype Report = Report(slot: Slot, channel: Channel)

  function ReportOf(slot: Slot): Report {
    Report(slot, ChannelOf(slot))
  }

  /** The `n` reports that follow `slot`: consecutive slots, each with its own channel. */
  function ReportsAfter(slot: Slot, n: nat): (r: seq<Report>)
    ensures |r| == n
    ensures forall i :: 0 <= i < n ==> r[i] == ReportOf(Plus(slot, i + 1))
  {
    if n == 0 then [] else ReportsAfter(slot, n - 1) + [ReportOf(Plus(slot, n))]
  }

  lemma PlusNext(slot: Slot, n: nat)
    ensures Plus(slot, n + 1) == if Plus(slot, n) + 1 >= FRAME then 0 else Plus(slot, n) + 1
  {
    assert (slot + n) % FRAME < FRAME;
  }

  /** The channel of a report is that of its slot: the first ninety slots are BBSC, three windows
      are ASC, the last 180 slots are RAC, and everything else is data. */
  predicate NamesChannel(r: Report) {
    && (r.channel == BBSC <==> 0 <= r.slot <= 89)
    && (r.channel == ASC <==> 90 <= r.slot <= 179 || 810 <= r.slot <= 899 || 1530 <= r.slot <= 1619)
    && (r.channel == RAC <==> 2070 <= r.slot <= 2249)
    && (r.channel == DC <==> 180 <= r.slot <= 809 || 900 <= r.slot <= 1529 || 1620 <= r.slot <= 2069)
  }

  lemma ReportsNamed(slot: Slot, n: nat)
    ensures forall r :: r in ReportsAfter(slot, n) ==> NamesChannel(r)
  {}

  class SlotScheduler {
    var currentSlot: Slot
    var currentChannel: Channel

    constructor (nowMs: nat)
      ensures currentSlot == ClockSlot(nowMs) && currentChannel == ChannelOf(currentSlot)
    {
      currentSlot := nowMs * 3 / 80 % 2250;
      currentChannel := ChannelOf(nowMs * 3 / 80 % 2250);
    }

    method UpdateSlotByRealTime(nowMs: nat) returns (emitted: seq<Report>)
      modifies this
      ensures currentSlot == Follow(old(currentSlot), nowMs)
      ensures emitted == ReportsAfter(old(currentSlot), Steps(Lag(old(currentSlot), ClockSlot(nowMs))))
      ensures currentChannel == if emitted == [] then old(currentChannel) else ChannelOf(currentSlot)
      ensures forall r :: r in emitted ==> NamesChannel(r)
    {
      ReportsNamed(currentSlot, Steps(Lag(currentSlot, ClockSlot(nowMs))));
      emitted := [];
      var expectedSlot := nowMs * 3 / 80 % 2250;
      if expectedSlot != currentSlot {
        var slotsToAdvance := (expectedSlot - currentSlot + 2250) % 2250;
        if slotsToAdvance > 2 {
          slotsToAdvance := 1;
        }
        for i := 0 to slotsToAdvance
          invariant currentSlot == Plus(old(currentSlot), i)
          invariant emitted == ReportsAfter(old(currentSlot), i)
          invariant currentChannel == if i == 0 then old(currentChannel) else ChannelOf(currentSlot)
        {
          PlusNext(old(currentSlot), i);
          var next := currentSlot + 1;
          if next >= 2250 {
            next := 0;
          }
          currentSlot := next;
          currentChannel := ChannelOf(currentSlot);
          emitted := emitted + [Report(currentSlot, currentChannel)];
        }
      }
    }
  }

  // ---------- Whatever the clock does: no slot is skipped or repeated ----------

  function Track(slot: Slot, times: seq<nat>): Slot {
    if times == [] then slot else Follow(Track(slot, times[..|times| - 1]), times[|times| - 1])
  }

  /** Everything reported over a run of updates at the given times. */
  function Emitted(slot: Slot, times: seq<nat>): seq<Report> {
    if times == [] then []
    else
      var before := Track(slot, times[..|times| - 1]);
      Emitted(slot, times[..|times| - 1])
      + ReportsAfter(before, Steps(Lag(before, ClockSlot(times[|times| - 1]))))
  }

  lemma PlusPlus(slot: Slot, m: nat, n: nat)
    ensures Plus(Plus(slot, m), n) == Plus(slot, m + n)
  {}

  lemma ReportsConcat(slot: Slot, m: nat, n: nat)
    ensures ReportsAfter(slot, m) + ReportsAfter(Plus(slot, m), n) == ReportsAfter(slot, m + n)
  {
    forall i | 0 <= i < n ensures ReportsAfter(Plus(slot, m), n)[i] == ReportsAfter(slot, m + n)[m + i] {
      PlusPlus(slot, m, i + 1);
    }
  }

  /** Over every run the reports are the slots of the frame in order, none skipped and none
      repeated, and the tracker stands at the last one. */
  lemma {:induction false} NeverSkips(slot: Slot, times: seq<nat>)
    ensures Emitted(slot, times) == ReportsAfter(slot, |Emitted(slot, times)|)
    ensures Track(slot, times) == Plus(slot, |Emitted(slot, times)|)
  {
    if times != [] {
      var front, last := times[..|times| - 1], times[|times| - 1];
      NeverSkips(slot, front);
      var n, steps := |Emitted(slot, front)|, Steps(Lag(Track(slot, front), ClockSlot(last)));
      ReportsConcat(slot, n, steps);
      PlusPlus(slot, n, steps);
    }
  }

  /** One update: nothing when the tracker shows the clock's slot, both slots when it is two
      behind, and the next slot otherwise, however far behind or ahead it is. */
  lemma Advances(slot: Slot, now: nat)
    ensures var clock := now * 3 / 80 % 2250;
            var next, second := if slot < 2249 then slot + 1 else 0, if slot < 2248 then slot + 2 else slot - 2248;
            && Follow(slot, now) == (if clock == slot then slot else if clock == second then second else next)
            && ReportsAfter(slot, Steps(Lag(slot, ClockSlot(now))))
               == if clock == slot then [] else if clock == second then [ReportOf(next), ReportOf(second)]
                  else [ReportOf(next)]
  {
    LagByCases(slot, ClockSlot(now));
    PlusByCases(slot, 1);
    PlusByCases(slot, 2);
    assert Plus(slot, 0) == slot;
  }

  /** Over every run: what each report calls its slot. */
  lemma ReportsNameChannels(slot: Slot, times: seq<nat>, i: nat)
    requires i < |Emitted(slot, times)|
    ensures var r := Emitted(slot, times)[i];
            r.slot == (slot + i + 1) % 2250 && NamesChannel(r)
  {
    NeverSkips(slot, times);
    assert Emitted(slot, times)[i] == ReportsAfter(slot, |Emitted(slot, times)|)[i];
  }

  /** The same against the segment table: the first segment is BBSC, those at place 1 of a round
      are ASC, and of the three at place 9, which are random access, only the last one is called
      that, together with the slot behind it; the other two are called data. */
  lemma ReportsMatchSegments(slot: Slot, times: seq<nat>, i: nat)
    requires i < |Emitted(slot, times)|
    ensures var r := Emitted(slot, times)[i];
            && (r.channel == BBSC <==> Segments.InSegment(Segments.SlotOccupy(), 0, r.slot))
            && (r.channel == ASC <==> Segments.InRound(1, r.slot))
            && (r.channel == RAC <==> (Segments.InRound(9, r.slot) && r.slot >= 2070) || r.slot == 2249)
            && (r.channel == DC && Segments.InRound(9, r.slot) <==> 630 <= r.slot <= 808 || 1350 <= r.slot <= 1528)
            && forall place: nat :: 2 <= place <= 7 && Segments.InRound(place, r.slot) ==> r.channel == DC
  {
    ReportsNameChannels(slot, times, i);
    var s := Emitted(slot, times)[i].slot;
    Segments.WindowsAreSegments(0, s);
    FirstSegment(s);
    forall place: nat | 2 <= place <= 7 && Segments.InRound(place, s)
      ensures Segments.InDcChannel(place - 2, s)
    {
      Segments.WindowsAreSegments(place - 2, s);
    }
  }

  lemma FirstSegment(slot: Slot)
    ensures Segments.InSegment(Segments.SlotOccupy(), 0, slot) <==> slot <= 89
  {}

  // ---------- Ideal 10 ms ticks: the tracker locks ----------

  /** The tracker after `k` ticks that start 10 ms after `start`. */
  function AfterTicks(slot: Slot, start: nat, k: nat): Slot {
    if k == 0 then slot else Follow(AfterTicks(slot, start, k - 1), start + 10 * k)
  }

  lemma TickAdvancesAtMostOne(ms: nat)
    ensures Elapsed(ms) <= Elapsed(ms + 10) <= Elapsed(ms) + 1
  {}

  lemma NextSlot(u: nat)
    ensures (u + 1) % FRAME == if u % FRAME == FRAME - 1 then 0 else u % FRAME + 1
  {
    var q, r := u / FRAME, u % FRAME;
    assert u == q * FRAME + r;
    if r == FRAME - 1 {
      assert u + 1 == (q + 1) * FRAME;
    } else {
      assert u + 1 == q * FRAME + (r + 1);
    }
  }

  lemma LagToNext(slot: Slot, expected: Slot, next: Slot)
    requires next == if expected == FRAME - 1 then 0 else expected + 1
    ensures Lag(slot, next) == if Lag(slot, expected) == FRAME - 1 then 0 else Lag(slot, expected) + 1
  {}

  lemma LagOfPlus(slot: Slot, n: nat)
    requires n < FRAME
    ensures Lag(slot, Plus(slot, n)) == n
  {}

  lemma LagShrinks(slot: Slot, expected: Slot, n: nat)
    requires n <= Lag(slot, expected)
    ensures Lag(Plus(slot, n), expected) == Lag(slot, expected) - n
  {
    LagByCases(slot, expected);
    PlusByCases(slot, n);
    LagByCases(Plus(slot, n), expected);
  }

  lemma LagByCases(slot: Slot, expected: Slot)
    ensures Lag(slot, expected) == if slot <= expected then expected - slot else expected - slot + FRAME
  {}

  lemma PlusByCases(slot: Slot, n: nat)
    requires n < FRAME
    ensures Plus(slot, n) == if slot + n < FRAME then slot + n else slot + n - FRAME
  {}

  /** A tick either locks the tracker or makes up one slot. */
  lemma TickStep(slot: Slot, ms: nat)
    ensures var lag, lag' := Lag(slot, ClockSlot(ms)), Lag(Follow(slot, ms + 10), ClockSlot(ms + 10));
            lag' == 0 || (lag > 1 && lag' == lag + Elapsed(ms + 10) - Elapsed(ms) - 1)
    ensures slot == ClockSlot(ms) ==> Follow(slot, ms + 10) == ClockSlot(ms + 10)
  {
    TickAdvancesAtMostOne(ms);
    NextSlot(Elapsed(ms));
    LagToNext(slot, ClockSlot(ms), (Elapsed(ms) + 1) % FRAME);
    var before := Lag(slot, ClockSlot(ms + 10));
    LagShrinks(slot, ClockSlot(ms + 10), Steps(before));
  }

  lemma {:induction false} LockedOrGaining(slot: Slot, start: nat, k: nat)
    ensures var lag := Lag(AfterTicks(slot, start, k), ClockSlot(start + 10 * k));
            lag == 0 || lag == Lag(slot, ClockSlot(start)) + Elapsed(start + 10 * k) - Elapsed(start) - k
  {
    if k > 0 {
      LockedOrGaining(slot, start, k - 1);
      TickStep(AfterTicks(slot, start, k - 1), start + 10 * (k - 1));
    }
  }

  lemma EightTicksAreThreeSlots(ms: nat, m: nat)
    ensures Elapsed(ms + 80 * m) == Elapsed(ms) + 3 * m
  {
    assert (ms + 80 * m) * 3 == ms * 3 + 80 * (3 * m);
  }

  lemma {:induction false} StaysLocked(slot: Slot, start: nat, k: nat, n: nat)
    requires k <= n && AfterTicks(slot, start, k) == ClockSlot(start + 10 * k)
    ensures AfterTicks(slot, start, n) == ClockSlot(start + 10 * n)
  {
    if k < n {
      StaysLocked(slot, start, k, n - 1);
      TickStep(AfterTicks(slot, start, n - 1), start + 10 * (n - 1));
    }
  }

  /** From any lag L the tracker shows the clock's slot at every tick from number
      8*ceil(L/5) on. */
  lemma LocksWithinBound(slot: Slot, start: nat, n: nat)
    requires n >= 8 * ((Lag(slot, ClockSlot(start)) + 4) / 5)
    ensures AfterTicks(slot, start, n) == ClockSlot(start + 10 * n)
  {
    var m := (Lag(slot, ClockSlot(start)) + 4) / 5;
    LockedOrGaining(slot, start, 8 * m);
    EightTicksAreThreeSlots(start, m);
    assert start + 10 * (8 * m) == start + 80 * m;
    StaysLocked(slot, start, 8 * m, n);
  }
}
