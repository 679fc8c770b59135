/** The ship's uplink machine in place: the methods of
    VdesService/uplinkaddressedstatemachine.cpp and the allocation loop of
    VdesService/globallistener.cpp, each proved to take the step its event function in
    UplinkShip describes. */
module UplinkMachine {
  import opened Bytes
  import opened UplinkWire
  import opened Segments
  import opened UplinkShip
  import ShipOutcomes
  import Ship = UplinkShip

  lemma {:induction false} GrantedAllConcat(m: Machine, done: seq<Grant>, more: seq<Grant>)
    requires |more| <= 1
    ensures GrantedAll(m, done + more) == GrantedAll(GrantedAll(m, done), more)
  {
    if more == [] {
      assert done + more == done;
    } else {
      assert (done + more)[..|done|] == done && more[..0] == [];
    }
  }

  /** The fragments reported missing, in order. */
  function Lost(bits: seq<bool>): seq<int> {
    if bits == [] then []
    else
      var n := |bits| - 1;
      if bits[n] then Lost(bits[..n]) else Lost(bits[..n]) + [n]
  }

  lemma {:induction false} LostIff(bits: seq<bool>)
    ensures forall k :: k in Lost(bits) <==> 0 <= k < |bits| && !bits[k]
    ensures forall i :: 0 <= i < |Lost(bits)| ==> 0 <= Lost(bits)[i] < |bits|
    ensures forall i, j :: 0 <= i < j < |Lost(bits)| ==> Lost(bits)[i] < Lost(bits)[j]
  {
    if bits != [] {
      LostIff(bits[..|bits| - 1]);
    }
  }

  /** Some fragment in `lost` is over the limit; the order of the list does not matter. */
  ghost predicate OverLimit(m: Machine, lost: seq<int>) {
    exists i :: 0 <= i < |lost| && 0 <= lost[i] < |m.pieces| && m.pieces[lost[i]].retry + 1 > m.arqLimit
  }

  lemma OverLimitIff(m: Machine, bits: seq<bool>)
    requires |bits| <= |m.pieces|
    ensures OverLimit(m, Lost(bits))
       <==> exists k :: 0 <= k < |bits| && !bits[k] && m.pieces[k].retry + 1 > m.arqLimit
  {
    var lost := Lost(bits);
    LostIff(bits);
    if OverLimit(m, lost) {
      var i :| 0 <= i < |lost| && 0 <= lost[i] < |m.pieces| && m.pieces[lost[i]].retry + 1 > m.arqLimit;
      assert lost[i] in lost;
    }
    if k :| 0 <= k < |bits| && !bits[k] && m.pieces[k].retry + 1 > m.arqLimit {
      var i :| 0 <= i < |lost| && lost[i] == k;
    }
  }

  lemma NothingLostIff(bits: seq<bool>)
    ensures Lost(bits) == [] <==> forall k :: 0 <= k < |bits| ==> bits[k]
  {
    LostIff(bits);
    if Lost(bits) != [] {
      assert Lost(bits)[0] in Lost(bits);
    }
  }

  /** An acknowledgement told by the fragments it reports missing. */
  ghost function Told(m: Machine, realloc: byte, bits: seq<bool>): Out
    requires |bits| <= |m.pieces|
  {
    if realloc == 0 then
      if Lost(bits) == [] then Ended(m, true, Acknowledged) else Ended(m, false, Cancelled)
    else if OverLimit(m, Lost(bits)) then Ended(m, false, TooManyRetries)
    else if Lost(bits) != [] then Out(m.(pieces := Blamed(m.pieces, bits), next := 0, state := Send), [])
    else Out(m.(pieces := Marked(m.pieces, bits)), [])
  }

  lemma ToldByLost(m: Machine, realloc: byte, bits: seq<bool>)
    requires |bits| <= |m.pieces|
    ensures HandleMarks(m, realloc, bits) == Told(m, realloc, bits)
  {
    OverLimitIff(m, bits);
    NothingLostIff(bits);
  }

  lemma MarkedNone(pieces: seq<Piece>, bits: seq<bool>)
    requires bits == []
    ensures Marked(pieces, bits) == pieces
  {}

  lemma MarkedNext(pieces: seq<Piece>, bits: seq<bool>, i: nat)
    requires i < |bits| <= |pieces|
    ensures var before := Marked(pieces, bits[..i]);
            Marked(pieces, bits[..i + 1]) == before[i := before[i].(acked := bits[i])]
    ensures Lost(bits[..i + 1]) == if bits[i] then Lost(bits[..i]) else Lost(bits[..i]) + [i]
  {
    assert bits[..i + 1][..i] == bits[..i];
  }

  lemma LostAreBlamed(pieces: seq<Piece>, counted: seq<Piece>, bits: seq<bool>)
    requires |bits| <= |pieces| == |counted|
    requires var marked := Marked(pieces, bits);
             forall k :: 0 <= k < |pieces| ==>
               counted[k] == if k in Lost(bits) then marked[k].(retry := marked[k].retry + 1) else marked[k]
    ensures counted == Blamed(pieces, bits)
  {
    LostIff(bits);
  }

  lemma AckPacketSound(m: Machine, raw: seq<byte>)
    requires Sound(m) && Active(m) && DecodeAck(raw).Some?
    ensures Sound(HandleAck(m, DecodeAck(raw).value).m)
  {
    HandleAckSound(m, DecodeAck(raw).value);
  }

  /** The fragment transmitted next. */
  lemma NextPiece(m: Machine, slot: int)
    requires Sound(m) && m.state == Send && DropAcked(m.pieces) != []
    ensures var rest := DropAcked(m.pieces);
            var p := rest[0];
            && p.num < FragmentCount(m.message) == m.total && SameFragment(p, PieceOf(m.message, p.num))
            && SendNext(m, slot) ==
               Out(m.(pieces := rest[1..], next := m.next - (|m.pieces| - |rest|),
                      state := if p.num == m.total - 1 then WaitAck else Send),
                   [Sent(slot, PhyChannel(m.channel), m.linkId, p.num,
                         FragmentPacket(m.message, p.num, m.mmsi, m.session, m.dest))])
  {
    DropAckedSuffix(m.pieces, m.message);
  }

  class UplinkMachine {
    var state: State
    var messageData: seq<byte>
    var destId: u32
    var totalFragments: nat
    var nextFragment: int
    var fragments: seq<Piece>
    var assignedLogicChannel: byte
    var assignedLinkId: byte
    var sessionId: byte
    var retryCount15min: nat
    var specifiedRacSlot: int
    var useSpecifiedRacSlot: bool
    var missedRacSlot: bool
    var racRetryCount: nat
    var arqTimeoutLimit: byte
    var macArqTimeoutLimit: byte   // the limit of the latest MAC frame, a global in the source
    const myMmsi: u32

    ghost function Abs(): Machine
      reads this
    {
      Machine(state, messageData, destId, totalFragments, nextFragment, fragments,
              assignedLogicChannel, assignedLinkId, sessionId,
              retryCount15min, specifiedRacSlot, useSpecifiedRacSlot, missedRacSlot, racRetryCount,
              arqTimeoutLimit, macArqTimeoutLimit, myMmsi)
    }

    ghost predicate Valid()
      reads this
    {
      Sound(Abs())
    }

    constructor (mmsi: u32, macLimit: byte)
      ensures Valid() && Abs() == Initial(mmsi, macLimit)
    {
      state, messageData, destId, totalFragments, nextFragment, fragments := Idle, [], 0, 0, 0, [];
      assignedLogicChannel, assignedLinkId, sessionId, retryCount15min := 0, 0, 0, 0;
      specifiedRacSlot, useSpecifiedRacSlot, missedRacSlot, racRetryCount := -1, false, false, 0;
      macArqTimeoutLimit, arqTimeoutLimit := macLimit, if macLimit == 0 then 3 else macLimit;
      myMmsi := mmsi;
    }

    method UpdateConfigFromGlobals()
      modifies this`arqTimeoutLimit
      ensures arqTimeoutLimit == Limit(macArqTimeoutLimit)
    {
      arqTimeoutLimit := macArqTimeoutLimit;
      if arqTimeoutLimit == 0 {
        arqTimeoutLimit := 3;
      }
    }

    method ClearSession()
      modifies this`messageData, this`destId, this`totalFragments, this`nextFragment, this`fragments
      modifies this`assignedLinkId, this`assignedLogicChannel, this`sessionId
      ensures messageData == [] && destId == 0 && totalFragments == 0 && nextFragment == 0 && fragments == []
      ensures assignedLinkId == 0 && assignedLogicChannel == 0 && sessionId == 0
    {
      messageData := [];
      destId := 0;
      totalFragments := 0;
      nextFragment := 0;
      fragments := [];
      assignedLinkId := 0;
      assignedLogicChannel := 0;
      sessionId := 0;
    }

    method ForgetChosenSlot()
      modifies this`useSpecifiedRacSlot, this`specifiedRacSlot, this`missedRacSlot, this`racRetryCount
      ensures !useSpecifiedRacSlot && specifiedRacSlot == -1 && !missedRacSlot && racRetryCount == 0
    {
      useSpecifiedRacSlot := false;
      specifiedRacSlot := -1;
      missedRacSlot := false;
      racRetryCount := 0;
    }

    method EnterIdle()
      modifies this
      ensures Valid() && Abs() == ToIdle(old(Abs()))
    {
      state := Idle;
      ClearSession();
      ForgetChosenSlot();
      UpdateConfigFromGlobals();
    }

    method End(ok: bool, why: Reason) returns (events: seq<Event>)
      modifies this
      ensures Out(Abs(), events) == Ended(old(Abs()), ok, why)
    {
      ClearSession();
      EnterIdle();
      events := [Finished(ok, why)];
    }

    method SendLongMessage(data: seq<byte>, dest: u32) returns (events: seq<Event>)
      requires Valid()
      modifies this
      ensures Valid() && Out(Abs(), events) == Ship.SendLongMessage(old(Abs()), data, dest)
    {
      events := [];
      if state != Idle {
        return [Finished(false, Busy)];
      }
      messageData := data;
      destId := dest;
      retryCount15min := 0;
      state := ResReq;
    }

    method SendLongMessageWithSpecifiedSlot(currentSlot: int, specifiedSlot: int, data: seq<byte>, dest: u32)
      returns (events: seq<Event>)
      requires Valid()
      modifies this
      ensures Valid() && Out(Abs(), events) == SendAtSlot(old(Abs()), currentSlot, specifiedSlot, data, dest)
    {
      events := [];
      if state != Idle {
        return [Finished(false, Busy)];
      }
      if !IsRacSlot(specifiedSlot) {
        return [Finished(false, NotRacSlot)];
      }
      if currentSlot > specifiedSlot {
        return [Finished(false, SlotMissed)];
      }
      messageData := data;
      destId := dest;
      RememberChosenSlot(specifiedSlot);
      state := ResReq;
    }

    method RememberChosenSlot(specifiedSlot: int)
      modifies this`useSpecifiedRacSlot, this`specifiedRacSlot, this`missedRacSlot, this`racRetryCount
      ensures useSpecifiedRacSlot && specifiedRacSlot == specifiedSlot && !missedRacSlot && racRetryCount == 0
    {
      specifiedRacSlot := specifiedSlot;
      useSpecifiedRacSlot := true;
      missedRacSlot := false;
      racRetryCount := 0;
    }

    method OnAscTimeout()
      requires Valid()
      modifies this
      ensures Valid() && Abs() == AscTimeout(old(Abs()))
    {
      if state == Asc {
        retryCount15min := retryCount15min + 1;
        state := if retryCount15min < MAX_RETRY then ResReq else Wait;
      }
    }

    method OnWaitTimeout()
      requires Valid()
      modifies this
      ensures Valid() && Abs() == WaitTimeout(old(Abs()))
    {
      if state == Wait {
        retryCount15min := 0;
        EnterIdle();
      }
    }

    /** Whether some fragment was still to be acknowledged and is now over the limit. */
    method CountTimeouts() returns (anyExceed: bool)
      modifies this`fragments
      ensures |fragments| == |old(fragments)|
      ensures forall k :: 0 <= k < |fragments| ==> fragments[k] == CountedUp(old(fragments)[k])
      ensures anyExceed <==> exists p :: p in old(fragments) && !p.acked && p.retry + 1 > arqTimeoutLimit
    {
      anyExceed := false;
      for i := 0 to |fragments|
        invariant |fragments| == |old(fragments)|
        invariant forall k :: i <= k < |fragments| ==> fragments[k] == old(fragments)[k]
        invariant forall k :: 0 <= k < i ==> fragments[k] == CountedUp(old(fragments)[k])
        invariant anyExceed <==> exists k :: 0 <= k < i && !old(fragments)[k].acked
                                             && old(fragments)[k].retry + 1 > arqTimeoutLimit
      {
        var frag := fragments[i];
        if !frag.acked {
          fragments := fragments[i := frag.(retry := frag.retry + 1)];
          if frag.retry + 1 > arqTimeoutLimit {
            anyExceed := true;
          }
        }
      }
    }

    method UnmarkAll()
      modifies this`fragments
      ensures |fragments| == |old(fragments)|
      ensures forall k :: 0 <= k < |fragments| ==> fragments[k] == old(fragments)[k].(acked := false)
    {
      for i := 0 to |fragments|
        invariant |fragments| == |old(fragments)|
        invariant forall k :: i <= k < |fragments| ==> fragments[k] == old(fragments)[k]
        invariant forall k :: 0 <= k < i ==> fragments[k] == old(fragments)[k].(acked := false)
      {
        fragments := fragments[i := fragments[i].(acked := false)];
      }
    }

    /** Stated for any list: that the list is empty here by then is AckTimeoutNeverFails. */
    method OnAckWaitTimeout() returns (events: seq<Event>)
      modifies this
      ensures Out(Abs(), events) == AckTimeout(old(Abs()))
      ensures old(Valid()) ==> Valid()
    {
      events := [];
      if state == WaitAck {
        var anyExceed := CountTimeouts();
        if anyExceed {
          events := End(false, AckTimedOut);
          return;
        }
        UnmarkAll();
        assert fragments == Retried(old(fragments));
        nextFragment := 0;
        state := Send;
      }
    }

    static function CountedUp(p: Piece): Piece {
      if p.acked then p else p.(retry := p.retry + 1)
    }

    method SplitMessage() returns (list: seq<Piece>)
      ensures list == Split(messageData)
    {
      list := [];
      var totalSize := |messageData|;
      var numFrags := (totalSize + CHUNK - 1) / CHUNK;
      for i := 0 to numFrags
        invariant |list| == i && forall k :: 0 <= k < i ==> list[k] == PieceOf(messageData, k)
      {
        var dataStart := i * CHUNK;
        list := list + [Piece(i, dataStart, Min(CHUNK, totalSize - dataStart), 0, false)];
      }
    }

    method OnMyResourceAllocationReceived(g: Grant)
      modifies this
      ensures Abs() == Granted(old(Abs()), g)
    {
      if state != Asc || totalFragments > 0 {
        return;
      }
      if messageData == [] {
        EnterIdle();
        return;
      }
      assignedLogicChannel := g.channel;
      assignedLinkId := g.linkId;
      sessionId := g.session;
      StartSendingFragments();
      state := Send;
    }

    method StartSendingFragments()
      modifies this`fragments, this`totalFragments, this`nextFragment
      ensures fragments == Split(messageData) && totalFragments == |fragments| && nextFragment == 0
    {
      fragments := SplitMessage();
      totalFragments := |fragments|;
      nextFragment := 0;
    }

    /** The listener's part: up to four allocations in one packet, each handed on when it is
        for this ship. */
    method ParseResourceAllocation(data: seq<byte>)
      requires Valid()
      modifies this
      ensures Valid() && Abs() == GrantedAll(old(Abs()), DecodeAllocation(data))
    {
      if |data| < 3 || data[0] != 12 {
        return;
      }
      var numShips := (|data| - 3) / 8;
      if numShips > 4 {
        numShips := 4;
      }
      GrantedAllSound(Abs(), FirstGrants(data, numShips));
      ParseEntries(data, numShips);
    }

    method ParseEntries(data: seq<byte>, numShips: nat)
      requires |data| >= 3 + 8 * numShips
      modifies this
      ensures Abs() == GrantedAll(old(Abs()), FirstGrants(data, numShips))
    {
      ghost var m := Abs();
      for i := 0 to numShips
        invariant Abs() == GrantedAll(m, FirstGrants(data, i))
      {
        GrantedAllConcat(m, FirstGrants(data, i), EntryGrant(data, i));
        ParseEntry(data, i);
      }
    }

    method ParseEntry(data: seq<byte>, i: nat)
      requires |data| >= 11 + 8 * i
      modifies this
      ensures Abs() == GrantedAll(old(Abs()), EntryGrant(data, i))
    {
      var idx := 3 + i * 8;
      if Quad(data[idx..idx + 4]) == MY_MMSI {
        GrantedAllConcat(Abs(), [], EntryGrant(data, i));
        OnMyResourceAllocationReceived(Grant(data[idx + 4], data[idx + 5], data[idx + 6]));
      }
    }

    /** Drops acknowledged fragments from the front.  The source reads the front of the list
        before testing whether there is one; here the test comes first. */
    method DropAckedFront()
      requires Valid() && state == Send
      modifies this`fragments, this`nextFragment
      ensures fragments == DropAcked(old(fragments))
      ensures nextFragment == old(nextFragment) - (|old(fragments)| - |fragments|)
    {
      assert messageData != [];
      while nextFragment < totalFragments && |fragments| > 0 && fragments[0].acked
        invariant DropAcked(fragments) == DropAcked(old(fragments))
        invariant |fragments| <= |old(fragments)| && nextFragment <= 0 < totalFragments
        invariant nextFragment == old(nextFragment) - (|old(fragments)| - |fragments|)
        decreases |fragments|
      {
        fragments := fragments[1..];
        nextFragment := nextFragment - 1;
      }
    }

    method BuildFragment(frag: Piece) returns (packet: seq<byte>)
      requires frag.num < FragmentCount(messageData) == totalFragments
      requires SameFragment(frag, PieceOf(messageData, frag.num))
      ensures packet == FragmentPacket(messageData, frag.num, myMmsi, sessionId, destId)
    {
      var kind: byte := if frag.num == totalFragments - 1 then 32 else if frag.num == 0 then 30 else 31;
      packet := [kind, High(frag.size), Low(frag.size)] + BigEndian32(myMmsi) + [SAT_ID, sessionId]
        + BigEndian32(destId);
      if kind == 30 {
        packet := packet + BigEndian16((totalFragments - 1) % 0x1_0000);
      } else {
        packet := packet + BigEndian16(frag.num % 0x1_0000);
      }
      packet := packet + messageData[frag.start..frag.start + frag.size];
    }

    /** Transmits the first fragment that is not acknowledged and forgets it. */
    method SendNextFragment(currentSlot: int) returns (events: seq<Event>)
      requires Valid() && state == Send
      modifies this
      ensures Out(Abs(), events) == SendNext(old(Abs()), currentSlot)
    {
      events := [];
      ghost var m := Abs();
      DropAckedFront();
      if fragments == [] {
        state := WaitAck;
        return;
      }
      NextPiece(m, currentSlot);
      var frag := fragments[0];
      var packet := BuildFragment(frag);
      var phyChannel: byte := if assignedLogicChannel < 6 then 0x0A + assignedLogicChannel else 0x0A;
      events := [Sent(currentSlot, phyChannel, assignedLinkId, frag.num, packet)];
      fragments := fragments[1..];
      if frag.num == totalFragments - 1 {
        state := WaitAck;
      }
    }

    method OnSlot(currentSlot: int) returns (events: seq<Event>)
      requires Valid()
      modifies this
      ensures Valid() && Out(Abs(), events) == SlotTick(old(Abs()), currentSlot)
      ensures ShipOutcomes.Requests(events) <==>
                && old(state) == ResReq && ShipOutcomes.RandomAccess(currentSlot)
                && (old(useSpecifiedRacSlot) ==> currentSlot == old(specifiedRacSlot) - 2)
    {
      ShipOutcomes.SlotRequests(Abs(), currentSlot);
      events := [];
      if state == Send && InDcChannel(assignedLogicChannel, currentSlot) {
        SendNextSound(Abs(), currentSlot);
        events := SendNextFragment(currentSlot);
      } else if state == ResReq {
        if useSpecifiedRacSlot {
          if currentSlot == specifiedRacSlot - 2 {
            if IsRacSlot(currentSlot) {
              events := [Requested(specifiedRacSlot, RequestPacket(myMmsi))];
              state := Asc;
              useSpecifiedRacSlot := false;
            } else {
              events := [Finished(false, NotRacSlot)];
              EnterIdle();
            }
            return;
          }
          if currentSlot > specifiedRacSlot - 2 && !missedRacSlot {
            missedRacSlot := true;
            racRetryCount := racRetryCount + 1;
            if racRetryCount < MAX_RETRY {
              events := [Finished(false, MissedRetrying)];
            } else {
              events := [Finished(false, MissedTooOften)];
              useSpecifiedRacSlot := false;
              EnterIdle();
            }
          }
          if currentSlot < specifiedRacSlot - 2 && missedRacSlot {
            missedRacSlot := false;
          }
        } else if IsRacSlot(currentSlot) {
          events := [Requested(currentSlot, RequestPacket(myMmsi))];
          state := Asc;
        }
      }
    }

    /** The marks of an acknowledgement, walked along the list of unsent fragments. */
    method MarkAcked(mask: seq<byte>) returns (allAcked: bool, lost: seq<int>)
      requires |mask| >= 25
      modifies this`fragments
      ensures var bits := MaskBits(mask, Covered(old(Abs())));
              && fragments == Marked(old(fragments), bits)
              && lost == Lost(bits) && (allAcked <==> lost == [])
    {
      ghost var before, bits := fragments, MaskBits(mask, Covered(Abs()));
      var maskBytes := (totalFragments + 7) / 8;
      if maskBytes > 25 {
        maskBytes := 25;
      }
      allAcked, lost := MarkUpTo(mask, maskBytes, bits);
    }

    method MarkUpTo(mask: seq<byte>, maskBytes: nat, ghost bits: seq<bool>) returns (allAcked: bool, lost: seq<int>)
      requires maskBytes <= |mask| && |bits| == Min(|fragments|, 8 * maskBytes) && bits == MaskBits(mask, |bits|)
      modifies this`fragments
      ensures fragments == Marked(old(fragments), bits)
      ensures lost == Lost(bits) && (allAcked <==> lost == [])
    {
      ghost var before := fragments;
      allAcked, lost := true, [];
      var idx := 0;
      MarkedNone(before, bits[..0]);
      while idx < |fragments| && idx / 8 < maskBytes
        invariant 0 <= idx <= |bits| && |fragments| == |before|
        invariant fragments == Marked(before, bits[..idx])
        invariant lost == Lost(bits[..idx]) && (allAcked <==> lost == [])
      {
        MarkedNext(before, bits, idx);
        var bitSet := MaskBit(mask, idx);
        if !bitSet {
          allAcked := false;
          lost := lost + [idx];
        }
        fragments := fragments[idx := fragments[idx].(acked := bitSet)];
        idx := idx + 1;
      }
      assert bits[..idx] == bits;
    }

    /** Counts a retry for every lost fragment, giving up at the first one over the limit. */
    method CountRetries(lost: seq<int>) returns (exceeded: bool)
      requires forall i :: 0 <= i < |lost| ==> 0 <= lost[i] < |fragments|
      requires forall i, j :: 0 <= i < j < |lost| ==> lost[i] < lost[j]
      modifies this`fragments
      ensures exceeded <==> exists i :: 0 <= i < |lost| && old(fragments)[lost[i]].retry + 1 > arqTimeoutLimit
      ensures |fragments| == |old(fragments)|
      ensures !exceeded ==> forall k :: 0 <= k < |fragments| ==>
                fragments[k] == if k in lost then old(fragments)[k].(retry := old(fragments)[k].retry + 1)
                                else old(fragments)[k]
    {
      exceeded := false;
      for i := 0 to |lost|
        invariant |fragments| == |old(fragments)|
        invariant forall k :: 0 <= k < |fragments| ==>
                    fragments[k] == if k in lost[..i] then old(fragments)[k].(retry := old(fragments)[k].retry + 1)
                                    else old(fragments)[k]
        invariant forall j :: 0 <= j < i ==> old(fragments)[lost[j]].retry + 1 <= arqTimeoutLimit
      {
        var frag := fragments[lost[i]];
        assert lost[..i + 1] == lost[..i] + [lost[i]] && lost[i] !in lost[..i];
        fragments := fragments[lost[i] := frag.(retry := frag.retry + 1)];
        if frag.retry + 1 > arqTimeoutLimit {
          return true;
        }
      }
      assert lost[..|lost|] == lost;
    }

    method ParseUplinkAck(data: seq<byte>) returns (events: seq<Event>)
      modifies this
      ensures var a := DecodeAck(data);
              Out(Abs(), events) == if a.None? then Out(old(Abs()), []) else HandleAck(old(Abs()), a.value)
    {
      events := [];
      if |data| < 10 + 25 || data[0] != 13 || Quad(data[2..6]) != MY_MMSI || data[6] != sessionId {
        return;
      }
      ghost var bits := MaskBits(data[10..], Covered(Abs()));
      ToldByLost(Abs(), data[7], bits);
      var allAcked, lost := MarkAcked(data[10..]);
      if data[7] == 0 {
        events := End(allAcked, if allAcked then Acknowledged else Cancelled);
      } else {
        events := Retransmit(lost, old(Abs()), bits);
      }
    }

    /** The rest of an acknowledgement that keeps the allocation. */
    method Retransmit(lost: seq<int>, ghost m: Machine, ghost bits: seq<bool>) returns (events: seq<Event>)
      requires |bits| <= |m.pieces| && lost == Lost(bits)
      requires Abs() == m.(pieces := Marked(m.pieces, bits))
      modifies this
      ensures Out(Abs(), events) == Told(m, 1, bits)
    {
      events := [];
      LostIff(bits);
      var exceeded := CountRetries(lost);
      if exceeded {
        events := End(false, TooManyRetries);
        return;
      }
      LostAreBlamed(m.pieces, fragments, bits);
      if lost != [] {
        nextFragment := 0;
        state := Send;
      }
    }

    method HandlePacket(packet: seq<byte>) returns (events: seq<Event>)
      requires Valid()
      modifies this
      ensures Valid() && Out(Abs(), events) == Ship.HandlePacket(old(Abs()), packet)
    {
      events := [];
      if packet == [] {
        return;
      }
      if state in {Send, WaitAck} && packet[0] == 13 {
        if DecodeAck(packet).Some? {
          AckPacketSound(Abs(), packet);
        }
        events := ParseUplinkAck(packet);
      } else if state == Idle && packet[0] in {1, 10} {
        UpdateConfigFromGlobals();
      }
    }

    method OnMacFrameUpdated(macLimit: byte)
      requires Valid()
      modifies this
      ensures Valid() && Abs() == MacFrame(old(Abs()), macLimit)
    {
      macArqTimeoutLimit := macLimit;
      UpdateConfigFromGlobals();
    }
  }
}
