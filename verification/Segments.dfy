/** The segment table of a frame (VdesService/vdes_global.cpp) and the slot windows that
    the machines write out by hand. */
module Segments {
  const SEGMENT_COUNT: nat := 31
  const WORD: nat := 0x1_0000_0000

  type Length = n: int | 0 <= n < 256

  function SlotOccupy(): (t: seq<Length>)
    ensures |t| == 10
  {
    [90, 30, 90, 90, 90, 90, 30, 30, 179, 1]
  }

  // ---------- The windows as written in the machines ----------

  predicate IsRacSlot(slot: int) {
    630 <= slot <= 808 || 1350 <= slot <= 1528 || 2070 <= slot <= 2248
  }

  predicate InDcChannel(channel: int, slot: int) {
    match channel
    case 0 => 180 <= slot <= 209 || 900 <= slot <= 929 || 1620 <= slot <= 1649
    case 1 => 210 <= slot <= 299 || 930 <= slot <= 1019 || 1650 <= slot <= 1739
    case 2 => 300 <= slot <= 389 || 1020 <= slot <= 1109 || 1740 <= slot <= 1829
    case 3 => 390 <= slot <= 479 || 1110 <= slot <= 1199 || 1830 <= slot <= 1919
    case 4 => 480 <= slot <= 569 || 1200 <= slot <= 1289 || 1920 <= slot <= 2009
    case 5 => 570 <= slot <= 599 || 1290 <= slot <= 1319 || 2010 <= slot <= 2039
    case _ => false
  }

  predicate IsAscSlot(slot: int) {
    90 <= slot <= 179 || 810 <= slot <= 899 || 1530 <= slot <= 1619
  }

  // ---------- sum_slot ----------

  /** The first `n` terms of the table, repeated without end, added up. */
  function CyclicSum(table: seq<Length>, n: nat): nat
    requires |table| == 10
  {
    if n == 0 then 0 else CyclicSum(table, n - 1) + table[(n - 1) % 10]
  }

  /** Where segment `seg` starts: after the 90 slots of segment 0 and the segments before it. */
  function Boundary(table: seq<Length>, seg: nat): nat
    requires |table| == 10
  {
    if seg == 0 then 0 else 90 + CyclicSum(table, seg - 1)
  }

  /** The value sum_slot returns: whole rounds count 720 slots whatever the table says, and
      the sum wraps at 32 bits. */
  function SumSlotValue(table: seq<Length>, seg: nat): nat
    requires |table| == 10
  {
    if seg == 0 then 0 else (720 * ((seg - 1) / 10) + CyclicSum(table, (seg - 1) % 10) + 90) % WORD
  }

  lemma SumSlotByRounds(table: seq<Length>, rounds: nat, left: nat)
    requires |table| == 10 && left < 10
    ensures SumSlotValue(table, 10 * rounds + left + 1) == (720 * rounds + CyclicSum(table, left) + 90) % WORD
  {
    var n := 10 * rounds + left;
    assert n / 10 == rounds && n % 10 == left;
  }

  method SumSlot(src: seq<Length>, seg: nat) returns (result: nat)
    requires |src| == 10 && seg < WORD
    ensures result == SumSlotValue(src, seg)
  {
    result := 0;
    if seg == 0 {
      return;
    }
    var left: nat := seg - 1;
    ghost var rounds: nat := 0;
    ghost var total: nat := 0;
    while left >= 10
      invariant seg - 1 == 10 * rounds + left
      invariant total == 720 * rounds && result == total % WORD
    {
      WrapAdd(total, 720);
      result := (result + 720) % WORD;
      left := left - 10;
      rounds := rounds + 1;
      total := total + 720;
    }
    for i := 0 to left
      invariant total == 720 * rounds + CyclicSum(src, i) && result == total % WORD
    {
      NextTerm(src, i);
      WrapAdd(total, src[i]);
      result := (result + src[i]) % WORD;
      total := total + src[i];
    }
    WrapAdd(total, 90);
    result := (result + 90) % WORD;
    SumSlotByRounds(src, rounds, left);
  }

  lemma NextTerm(table: seq<Length>, i: nat)
    requires |table| == 10 && i < 10
    ensures CyclicSum(table, i + 1) == CyclicSum(table, i) + table[i]
  {}

  lemma WrapAdd(a: nat, b: nat)
    ensures (a % WORD + b) % WORD == (a + b) % WORD
  {
    assert a == WORD * (a / WORD) + a % WORD;
  }

  lemma {:induction false} CyclicSumInRounds(table: seq<Length>, rounds: nat, n: nat)
    requires |table| == 10
    ensures CyclicSum(table, 10 * rounds + n) == CyclicSum(table, 10) * rounds + CyclicSum(table, n)
  {
    if rounds > 0 {
      var before := 10 * (rounds - 1) + n;
      CyclicSumInRounds(table, rounds - 1, n);
      CyclicSumShift(table, before);
      assert before + 10 == 10 * rounds + n;
      OneMoreRound(CyclicSum(table, 10), rounds, CyclicSum(table, n));
    }
  }

  lemma OneMoreRound(round: nat, rounds: nat, rest: nat)
    requires rounds > 0
    ensures (round * (rounds - 1) + rest) + round == round * rounds + rest
  {}

  lemma {:induction false} CyclicSumShift(table: seq<Length>, n: nat)
    requires |table| == 10
    ensures CyclicSum(table, n + 10) == CyclicSum(table, n) + CyclicSum(table, 10)
  {
    if n > 0 {
      CyclicSumShift(table, n - 1);
      assert (n + 9) % 10 == (n - 1) % 10;
    }
  }

  /** sum_slot computes segment boundaries, for every segment number, exactly when the table
      adds up to the 720 slots of a subframe. */
  lemma SumSlotIsBoundaryIff(table: seq<Length>)
    requires |table| == 10
    ensures (forall seg :: 0 <= seg < WORD ==> SumSlotValue(table, seg) == Boundary(table, seg) % WORD)
       <==> CyclicSum(table, 10) == 720
  {
    if CyclicSum(table, 10) == 720 {
      forall seg | 0 <= seg < WORD ensures SumSlotValue(table, seg) == Boundary(table, seg) % WORD {
        if seg > 0 {
          BoundaryIfSums720(table, (seg - 1) / 10, (seg - 1) % 10);
        }
      }
    } else {
      CyclicSumAtMost(table, 10);
      SumSlotByRounds(table, 1, 0);
      assert SumSlotValue(table, 11) != Boundary(table, 11) % WORD;
    }
  }

  lemma BoundaryIfSums720(table: seq<Length>, rounds: nat, left: nat)
    requires |table| == 10 && left < 10 && CyclicSum(table, 10) == 720
    ensures var seg := 10 * rounds + left + 1; SumSlotValue(table, seg) == Boundary(table, seg) % WORD
  {
    SumSlotByRounds(table, rounds, left);
    CyclicSumInRounds(table, rounds, left);
  }

  lemma {:induction false} CyclicSumAtMost(table: seq<Length>, n: nat)
    requires |table| == 10
    ensures CyclicSum(table, n) <= 255 * n
  {
    if n > 0 {
      CyclicSumAtMost(table, n - 1);
    }
  }

  // ---------- slot_resize ----------

  /** What the ten lengths of a subframe must satisfy. */
  predicate ValidTable(table: seq<Length>) {
    |table| == 10 && CyclicSum(table, 10) == 720 && forall r :: 0 <= r < 10 ==> table[r] > 0
  }

  lemma BoundaryStep(table: seq<Length>, i: nat)
    requires ValidTable(table)
    ensures 0 < Boundary(table, i + 1) - Boundary(table, i) < 256
  {}

  lemma {:induction false} BoundaryMonotone(table: seq<Length>, i: nat, j: nat)
    requires ValidTable(table) && i < j
    ensures Boundary(table, i) < Boundary(table, j)
  {
    BoundaryStep(table, j - 1);
    if i < j - 1 {
      BoundaryMonotone(table, i, j - 1);
    }
  }

  lemma BoundaryEnd(table: seq<Length>)
    requires ValidTable(table)
    ensures Boundary(table, SEGMENT_COUNT) == 2250
  {
    CyclicSumInRounds(table, 3, 0);
  }

  lemma SumSlotExact(table: seq<Length>, i: nat)
    requires ValidTable(table) && i <= SEGMENT_COUNT
    ensures SumSlotValue(table, i) == Boundary(table, i) <= 2250
  {
    BoundaryEnd(table);
    if i < SEGMENT_COUNT {
      BoundaryMonotone(table, i, SEGMENT_COUNT);
    }
    SumSlotIsBoundaryIff(table);
  }

  lemma SegmentFacts(table: seq<Length>, i: nat)
    requires ValidTable(table) && i < SEGMENT_COUNT
    ensures SumSlotValue(table, i) == Boundary(table, i)
    ensures SumSlotValue(table, i + 1) == Boundary(table, i + 1)
    ensures var n := Boundary(table, i + 1) - Boundary(table, i); 0 < n < 256 && n % 256 == n
  {
    SumSlotExact(table, i);
    SumSlotExact(table, i + 1);
    BoundaryStep(table, i);
  }

  class Schedule {
    var slotOccupy: seq<Length>
    const startSlot: array<int>
    const stopSlot: array<int>
    const slotLength: array<int>

    ghost predicate Valid()
      reads this
    {
      && ValidTable(slotOccupy)
      && startSlot.Length == stopSlot.Length == slotLength.Length == SEGMENT_COUNT
      && startSlot != stopSlot && startSlot != slotLength && stopSlot != slotLength
    }

    constructor ()
      ensures Valid() && slotOccupy == SlotOccupy()
      ensures fresh(startSlot) && fresh(stopSlot) && fresh(slotLength)
    {
      slotOccupy := SlotOccupy();
      startSlot := new int[SEGMENT_COUNT];
      stopSlot := new int[SEGMENT_COUNT];
      slotLength := new int[SEGMENT_COUNT];
      new;
      OccupySums(10);
    }

    /** The 31 segments follow one another without gap, none is empty, and each length fits
        the byte it is stored in. */
    method SlotResize()
      requires Valid()
      modifies startSlot, stopSlot, slotLength
      ensures startSlot[0] == 0 && stopSlot[30] == 2250
      ensures forall i :: 0 <= i < 31 ==> startSlot[i] == Boundary(slotOccupy, i)
      ensures forall i :: 0 <= i < 31 ==> stopSlot[i] == Boundary(slotOccupy, i + 1)
      ensures forall i :: 0 <= i < 31 ==> 0 < slotLength[i] == stopSlot[i] - startSlot[i] < 256
    {
      for i := 0 to SEGMENT_COUNT
        invariant forall j :: 0 <= j < i ==> startSlot[j] == Boundary(slotOccupy, j)
        invariant forall j :: 0 <= j < i ==> stopSlot[j] == Boundary(slotOccupy, j + 1)
        invariant forall j :: 0 <= j < i ==> 0 < slotLength[j] == stopSlot[j] - startSlot[j] < 256
      {
        var first := SumSlot(slotOccupy, i);
        var after := SumSlot(slotOccupy, i + 1);
        SegmentFacts(slotOccupy, i);
        startSlot[i] := first;
        stopSlot[i] := after;
        slotLength[i] := (after - first) % 256;
      }
      BoundaryEnd(slotOccupy);
      assert startSlot[0] == Boundary(slotOccupy, 0) && stopSlot[30] == Boundary(slotOccupy, 31);
    }
  }

  predicate InSegment(table: seq<Length>, i: nat, slot: int)
    requires |table| == 10
  {
    Boundary(table, i) <= slot < Boundary(table, i + 1)
  }

  lemma {:induction false} SomeSegment(table: seq<Length>, slot: nat, n: nat) returns (i: nat)
    requires ValidTable(table) && slot < Boundary(table, n)
    ensures i < n && InSegment(table, i, slot)
  {
    if Boundary(table, n - 1) <= slot {
      i := n - 1;
    } else {
      i := SomeSegment(table, slot, n - 1);
    }
  }

  /** Every slot of the frame lies in exactly one of the 31 segments. */
  lemma OneSegmentPerSlot(table: seq<Length>, slot: nat)
    requires ValidTable(table) && slot < 2250
    ensures exists i :: 0 <= i < SEGMENT_COUNT && InSegment(table, i, slot)
    ensures forall i, j :: 0 <= i < j ==> !(InSegment(table, i, slot) && InSegment(table, j, slot))
  {
    BoundaryEnd(table);
    var i := SomeSegment(table, slot, SEGMENT_COUNT);
    forall i, j | 0 <= i < j ensures !(InSegment(table, i, slot) && InSegment(table, j, slot)) {
      if i + 1 < j {
        BoundaryMonotone(table, i + 1, j);
      }
    }
  }

  // ---------- The hand-written windows against the table ----------

  /** The running sums of the real table. */
  function Offset(r: nat): nat {
    if r == 0 then 0 else if r == 1 then 90 else if r == 2 then 120 else if r == 3 then 210
    else if r == 4 then 300 else if r == 5 then 390 else if r == 6 then 480 else if r == 7 then 510
    else if r == 8 then 540 else if r == 9 then 719 else 720
  }

  lemma {:induction false} OccupySums(n: nat)
    requires n <= 10
    ensures CyclicSum(SlotOccupy(), n) == Offset(n)
  {
    if n > 0 {
      OccupySums(n - 1);
    }
  }

  ghost predicate HasOffsets(table: seq<Length>) {
    ValidTable(table) && forall n :: 0 <= n <= 10 ==> CyclicSum(table, n) == Offset(n)
  }

  lemma OccupyHasOffsets()
    ensures HasOffsets(SlotOccupy())
  {
    forall n | 0 <= n <= 10 ensures CyclicSum(SlotOccupy(), n) == Offset(n) {
      OccupySums(n);
    }
  }

  lemma SegmentSpan(table: seq<Length>, q: nat, r: nat)
    requires HasOffsets(table) && r < 10
    ensures Boundary(table, 10 * q + r + 1) == 90 + 720 * q + Offset(r)
    ensures Boundary(table, 10 * q + r + 2) == 90 + 720 * q + Offset(r + 1)
  {
    CyclicSumInRounds(table, q, r);
    CyclicSumInRounds(table, q, r + 1);
  }

  /** The slot lies in a segment that stands at place `r` of its round of ten. */
  ghost predicate InRound(r: nat, slot: int) {
    exists i :: 0 <= i < SEGMENT_COUNT && i % 10 == r && InSegment(SlotOccupy(), i, slot)
  }

  /** Where a segment after the first begins and ends. */
  lemma InSegmentIff(q: nat, r: nat, slot: int)
    requires q < 3 && r < 10
    ensures InSegment(SlotOccupy(), 10 * q + r + 1, slot) <==> Offset(r) <= slot - 90 - 720 * q < Offset(r + 1)
  {
    OccupyHasOffsets();
    SegmentSpan(SlotOccupy(), q, r);
  }

  lemma SpanInRound(q: nat, r: nat, slot: int)
    requires q < 3 && r < 9 && Spans(q, r, slot)
    ensures InRound(r + 1, slot)
  {
    InSegmentIff(q, r, slot);
    PlaceInRound(q, r + 1);
    var i := 10 * q + r + 1;
    assert InSegment(SlotOccupy(), i, slot);
  }

  lemma PlaceInRound(q: nat, place: nat)
    requires place < 10
    ensures (10 * q + place) % 10 == place && (10 * q + place) / 10 == q
  {}

  lemma SegmentSpans(i: nat, r: nat, slot: int)
    requires i < SEGMENT_COUNT && i % 10 == r + 1 && r < 9 && InSegment(SlotOccupy(), i, slot)
    ensures i / 10 < 3 && Spans(i / 10, r, slot)
  {
    var q := i / 10;
    assert i == 10 * q + (r + 1) && q < 3;
    InSegmentIff(q, r, slot);
  }

  lemma InRoundIff(r: nat, slot: int)
    requires r < 9
    ensures InRound(r + 1, slot) <==> InSpan(r, slot)
  {
    if q: nat :| q < 3 && Spans(q, r, slot) {
      SpanInRound(q, r, slot);
    }
    if InRound(r + 1, slot) {
      var i :| 0 <= i < SEGMENT_COUNT && i % 10 == r + 1 && InSegment(SlotOccupy(), i, slot);
      SegmentSpans(i, r, slot);
    }
  }

  ghost predicate InSpan(r: nat, slot: int)
    requires r < 10
  {
    exists q: nat :: q < 3 && Spans(q, r, slot)
  }

  predicate Spans(q: nat, r: nat, slot: int)
    requires r < 10
  {
    Offset(r) <= slot - 90 - 720 * q < Offset(r + 1)
  }

  /** Each hand-written window is exactly the union of three segments of the table, over all
      slots and all channel numbers: data channel `c` of those at place `c` + 2 of each round of
      ten, the random access window of those at place 9, and the ASC window of those at
      place 1. */
  lemma WindowsAreSegments(channel: int, slot: int)
    ensures InDcChannel(channel, slot) <==> 0 <= channel < 6 && InRound(channel + 2, slot)
    ensures IsRacSlot(slot) <==> InRound(9, slot)
    ensures IsAscSlot(slot) <==> InRound(1, slot)
  {
    if 0 <= channel < 6 {
      InRoundIff(channel + 1, slot);
      DcWindow(channel, slot);
    }
    InRoundIff(8, slot);
    InRoundIff(0, slot);
    OtherWindows(slot);
  }

  lemma DcWindow(channel: int, slot: int)
    requires 0 <= channel < 6
    ensures InDcChannel(channel, slot) <==> InSpan(channel + 1, slot)
  {
    assert Spans(0, channel + 1, slot) || Spans(1, channel + 1, slot) || Spans(2, channel + 1, slot)
      <==> InDcChannel(channel, slot);
  }

  lemma OtherWindows(slot: int)
    ensures IsRacSlot(slot) <==> InSpan(8, slot)
    ensures IsAscSlot(slot) <==> InSpan(0, slot)
  {
    assert Spans(0, 8, slot) || Spans(1, 8, slot) || Spans(2, 8, slot) <==> IsRacSlot(slot);
    assert Spans(0, 0, slot) || Spans(1, 0, slot) || Spans(2, 0, slot) <==> IsAscSlot(slot);
  }

  /** Two machines with different logic channels never have a slot in common, and no data
      slot is a random access or an ASC slot. */
  lemma ChannelsDisjoint(c: int, d: int, slot: int)
    requires InDcChannel(c, slot)
    ensures InDcChannel(d, slot) ==> d == c
    ensures !IsRacSlot(slot) && !IsAscSlot(slot)
  {}
}
