/** What the ship's uplink machine puts on the air and what it tells the user, over every run,
    read off the inputs and the bytes (VdesService/uplinkaddressedstatemachine.cpp). */
module ShipOutcomes {
  import opened Bytes
  import opened Segments
  import opened UplinkWire
  import opened UplinkShip

  // ---------- Packets, byte by byte ----------

  /** A resource request: ten bytes, high byte first. */
  predicate RequestOnAir(p: seq<byte>, ship: int) {
    && |p| == 10 && p[0] == 20
    && Value32(p[4], p[3], p[2], p[1]) == ship
    && p[5] == 99 && p[6] == 180 && p[7] == 16 && p[8] == 214 && p[9] == 0
  }

  lemma RequestPacketOnAir(ship: u32)
    ensures RequestOnAir(RequestPacket(ship), ship)
  {}

  // ---------- What the run says of the machine ----------

  function Start(mmsi: u32, macLimit: byte): (h: History)
    ensures Orderly(h)
  {
    History(Initial(mmsi, macLimit), [])
  }

  function After(mmsi: u32, macLimit: byte, inputs: seq<Input>): (m: Machine)
    ensures Sound(m)
  {
    RunShip(Start(mmsi, macLimit), inputs).m
  }

  lemma AfterNext(mmsi: u32, macLimit: byte, inputs: seq<Input>)
    requires inputs != []
    ensures var before, last := After(mmsi, macLimit, inputs[..|inputs| - 1]), inputs[|inputs| - 1];
            After(mmsi, macLimit, inputs) == React(before, last).m
  {}

  /** The submission under way, if any. */
  function Opening(mmsi: u32, macLimit: byte, inputs: seq<Input>): Option<Input> {
    if After(mmsi, macLimit, inputs).state == Idle || inputs == [] then None
    else
      var n := |inputs| - 1;
      if After(mmsi, macLimit, inputs[..n]).state == Idle then Some(inputs[n])
      else Opening(mmsi, macLimit, inputs[..n])
  }

  /** The slot the user chose for its request, as long as none has gone out. */
  function Chosen(mmsi: u32, macLimit: byte, inputs: seq<Input>): Option<int> {
    if After(mmsi, macLimit, inputs).state != ResReq || inputs == [] then None
    else
      var n := |inputs| - 1;
      if After(mmsi, macLimit, inputs[..n]).state != Idle then Chosen(mmsi, macLimit, inputs[..n])
      else if inputs[n].SubmitAt? then Some(inputs[n].specSlot)
      else None
  }

  /** The retry limit of the latest MAC frame, where zero means three. */
  function RetryLimit(macLimit: byte, inputs: seq<Input>): byte {
    if inputs == [] then if macLimit == 0 then 3 else macLimit
    else
      var last := inputs[|inputs| - 1];
      if last.Mac? then if last.macLimit == 0 then 3 else last.macLimit
      else RetryLimit(macLimit, inputs[..|inputs| - 1])
  }

  predicate WorksOn(m: Machine, opening: Option<Input>) {
    && opening.Some? && Submission(opening.value)
    && m.message == opening.value.data && m.dest == opening.value.dest
  }

  predicate Steady(m: Machine) {
    && (m.useSpec ==> m.state == ResReq)
    && m.arqLimit == (if m.macLimit == 0 then 3 else m.macLimit)
  }

  lemma GrantedAllKeeps(m: Machine, gs: seq<Grant>)
    ensures var m' := GrantedAll(m, gs);
            && m'.mmsi == m.mmsi && m'.macLimit == m.macLimit && (Steady(m) ==> Steady(m'))
            && (m'.state != Idle ==> m'.message == m.message && m'.dest == m.dest && m.state != Idle)
            && (m'.state == ResReq ==> m' == m)
  {}

  predicate Keeps(m: Machine, m': Machine) {
    && m'.mmsi == m.mmsi && m'.macLimit == m.macLimit && Steady(m')
    && (m'.state != Idle ==> m.state != Idle && m'.message == m.message && m'.dest == m.dest)
    && (m'.state == ResReq ==> m'.useSpec == m.useSpec && m'.specSlot == m.specSlot)
  }

  lemma SlotKeeps(m: Machine, slot: int)
    requires Sound(m) && Steady(m)
    ensures Keeps(m, SlotTick(m, slot).m)
  {}

  lemma PacketKeeps(m: Machine, raw: seq<byte>)
    requires Sound(m) && Steady(m)
    ensures Keeps(m, Receive(m, raw).m)
  {
    GrantedAllKeeps(m, DecodeAllocation(raw));
    HandleKeeps(GrantedAll(m, DecodeAllocation(raw)), raw);
  }

  lemma HandleKeeps(m: Machine, raw: seq<byte>)
    requires Steady(m)
    ensures Keeps(m, HandlePacket(m, raw).m)
  {}

  lemma TimersKeep(m: Machine)
    requires Steady(m)
    ensures Keeps(m, AscTimeout(m)) && Keeps(m, WaitTimeout(m)) && Keeps(m, AckTimeout(m).m)
  {}

  lemma SubmissionStarts(m: Machine, input: Input)
    requires Sound(m) && Steady(m) && Submission(input)
    ensures var m' := React(m, input).m;
            if m.state != Idle || m'.state == Idle then m' == m
            else
              && m'.mmsi == m.mmsi && m'.macLimit == m.macLimit && Steady(m') && m'.state == ResReq
              && m'.message == input.data && m'.dest == input.dest
              && m'.useSpec == input.SubmitAt? && (m'.useSpec ==> m'.specSlot == input.specSlot)
  {}

  lemma StepKeeps(m: Machine, input: Input)
    requires Sound(m) && Steady(m) && !Submission(input) && !input.Mac?
    ensures Keeps(m, React(m, input).m)
  {
    TimersKeep(m);
    match input
    case Slot(slot) => SlotKeeps(m, slot);
    case Packet(raw) => PacketKeeps(m, raw);
    case _ =>
  }

  lemma {:induction false} RunTells(mmsi: u32, macLimit: byte, inputs: seq<Input>)
    ensures var m, chosen := After(mmsi, macLimit, inputs), Chosen(mmsi, macLimit, inputs);
            && m.mmsi == mmsi && Steady(m) && m.arqLimit == RetryLimit(macLimit, inputs)
            && (m.state != Idle ==> WorksOn(m, Opening(mmsi, macLimit, inputs)))
            && (m.useSpec <==> chosen.Some?) && (m.useSpec ==> chosen.value == m.specSlot)
  {
    if inputs != [] {
      var n := |inputs| - 1;
      RunTells(mmsi, macLimit, inputs[..n]);
      AfterNext(mmsi, macLimit, inputs);
      var m := After(mmsi, macLimit, inputs[..n]);
      if Submission(inputs[n]) {
        SubmissionStarts(m, inputs[n]);
      } else if !inputs[n].Mac? {
        StepKeeps(m, inputs[n]);
      }
    }
  }

  // ---------- Requests ----------

  predicate RandomAccess(slot: int) {
    630 <= slot <= 808 || 1350 <= slot <= 1528 || 2070 <= slot <= 2248
  }

  predicate Requests(events: seq<Event>) {
    exists e :: e in events && e.Requested?
  }

  lemma SlotRequests(m: Machine, slot: int)
    requires Sound(m)
    ensures var o := SlotTick(m, slot);
            var due := m.state == ResReq && RandomAccess(slot) && (m.useSpec ==> slot == m.specSlot - 2);
            && (Requests(o.events) <==> due)
            && (due ==> o.m.state == Asc
                        && o.events == [Requested(if m.useSpec then m.specSlot else slot, RequestPacket(m.mmsi))])
  {
    var o := SlotTick(m, slot);
    if o.events != [] {
      assert o.events == [o.events[0]] && o.events[0] in o.events;
    }
  }

  lemma OthersRequestNothing(m: Machine, input: Input)
    requires Sound(m) && !input.Slot?
    ensures !Requests(React(m, input).events)
  {
    match input
    case Packet(raw) => PacketReportsOnly(GrantedAll(m, DecodeAllocation(raw)), raw);
    case _ =>
  }

  lemma PacketReportsOnly(m: Machine, raw: seq<byte>)
    ensures forall e :: e in HandlePacket(m, raw).events ==> e.Finished?
  {}

  /** Over every run: a request leaves exactly in a random access slot while the machine wants one
      and, when the user chose a slot, exactly two slots before it; it asks in this ship's name,
      and is meant for the chosen slot or for the current one. */
  lemma RequestedIff(mmsi: u32, macLimit: byte, inputs: seq<Input>, input: Input)
    ensures var m, chosen := After(mmsi, macLimit, inputs), Chosen(mmsi, macLimit, inputs);
            Requests(React(m, input).events)
            <==> m.state == ResReq && input.Slot? && RandomAccess(input.slot)
                 && (chosen.Some? ==> input.slot == chosen.value - 2)
    ensures var m, chosen := After(mmsi, macLimit, inputs), Chosen(mmsi, macLimit, inputs);
            forall e :: e in React(m, input).events && e.Requested? ==>
              && React(m, input).events == [e] && React(m, input).m.state == Asc
              && e.slot == (if chosen.Some? then chosen.value else input.slot) && RequestOnAir(e.packet, mmsi)
  {
    var m := After(mmsi, macLimit, inputs);
    RunTells(mmsi, macLimit, inputs);
    if input.Slot? {
      SlotRequests(m, input.slot);
      RequestPacketOnAir(mmsi);
    } else {
      OthersRequestNothing(m, input);
    }
    assert forall e :: e in React(m, input).events && e.Requested? ==> Requests(React(m, input).events);
  }

  // ---------- Unanswered requests ----------

  /** How many requests went unanswered since a message was submitted without a chosen slot, or
      since the pause.  A chosen slot does not start the count afresh, and neither does the end
      of a message. */
  function Unanswered(mmsi: u32, macLimit: byte, inputs: seq<Input>): nat {
    if inputs == [] then 0
    else
      var n := |inputs| - 1;
      var state, last := After(mmsi, macLimit, inputs[..n]).state, inputs[n];
      if (last.Submit? && state == Idle) || (last.WaitExpires? && state == Wait) then 0
      else Unanswered(mmsi, macLimit, inputs[..n]) + if last.AscExpires? && state == Asc then 1 else 0
  }

  lemma StepCounts(m: Machine, input: Input)
    requires Sound(m)
    ensures React(m, input).m.retries
         == if (input.Submit? && m.state == Idle) || (input.WaitExpires? && m.state == Wait) then 0
            else m.retries + if input.AscExpires? && m.state == Asc then 1 else 0
  {
    match input
    case Packet(raw) => GrantedAllCounts(m, DecodeAllocation(raw));
    case _ =>
  }

  lemma GrantedAllCounts(m: Machine, gs: seq<Grant>)
    ensures GrantedAll(m, gs).retries == m.retries
  {}

  lemma {:induction false} CountTells(mmsi: u32, macLimit: byte, inputs: seq<Input>)
    ensures After(mmsi, macLimit, inputs).retries == Unanswered(mmsi, macLimit, inputs)
  {
    if inputs != [] {
      CountTells(mmsi, macLimit, inputs[..|inputs| - 1]);
      AfterNext(mmsi, macLimit, inputs);
      StepCounts(After(mmsi, macLimit, inputs[..|inputs| - 1]), inputs[|inputs| - 1]);
    }
  }

  /** Over every run: an unanswered request is repeated exactly when fewer than two were counted
      before it; otherwise the pause begins. */
  lemma PausesIff(mmsi: u32, macLimit: byte, inputs: seq<Input>)
    requires After(mmsi, macLimit, inputs).state == Asc
    ensures var o := React(After(mmsi, macLimit, inputs), AscExpires);
            o.events == [] && o.m.state == if Unanswered(mmsi, macLimit, inputs) < 2 then ResReq else Wait
  {
    CountTells(mmsi, macLimit, inputs);
  }

  /** So requests left unanswered for one message count against the next: after two of them, and
      a third that was answered, a message with a chosen slot pauses at its first unanswered
      request. */
  lemma LeftOverCounts(m: Machine, a: int, b: int, c: int, g: Grant,
                       current: int, specSlot: int, data: seq<byte>, dest: u32)
    requires Sound(m) && m.state == ResReq && !m.useSpec && m.retries == 0 && m.message != []
    requires IsRacSlot(a) && IsRacSlot(b) && IsRacSlot(c)
    requires IsRacSlot(specSlot) && IsRacSlot(specSlot - 2) && current <= specSlot
    ensures var third := SlotTick(AscTimeout(SlotTick(AscTimeout(SlotTick(m, a).m), b).m), c).m;
            var idle := Receive(Granted(third, g), AckPacket(MY_MMSI, g.session)).m;
            var chosen := SendAtSlot(idle, current, specSlot, data, dest).m;
            && third.state == Asc && idle.state == Idle && Sound(chosen)
            && SlotTick(chosen, specSlot - 2).m.state == Asc
            && AscTimeout(SlotTick(chosen, specSlot - 2).m).state == Wait
  {
    var third := SlotTick(AscTimeout(SlotTick(AscTimeout(SlotTick(m, a).m), b).m), c).m;
    GrantedSound(third, g);
    SatelliteAckMeansAllSent(Granted(third, g), g.session);
  }

  // ---------- Channels ----------

  /** Entry `i` of an allocation, of the four that are read, names this ship. */
  predicate Names(raw: seq<byte>, i: nat) {
    && i < 4 && |raw| >= 11 + 8 * i && raw[0] == 12
    && Value32(raw[6 + 8 * i], raw[5 + 8 * i], raw[4 + 8 * i], raw[3 + 8 * i]) == 200000002
  }

  /** The first of the first `n` entries that does. */
  function FirstNamed(raw: seq<byte>, n: nat): (first: Option<nat>)
    ensures first.None? ==> forall i: nat :: i < n ==> !Names(raw, i)
    ensures first.Some? ==> first.value < n && Names(raw, first.value)
    ensures first.Some? ==> forall j: nat :: j < first.value ==> !Names(raw, j)
  {
    if n == 0 then None
    else
      var first := FirstNamed(raw, n - 1);
      if first.Some? then first else if Names(raw, n - 1) then Some(n - 1) else None
  }

  function Given(raw: seq<byte>, i: nat): Grant
    requires Names(raw, i)
  {
    Grant(raw[7 + 8 * i], raw[8 + 8 * i], raw[9 + 8 * i])
  }

  lemma EntryNamed(raw: seq<byte>, i: nat)
    requires i < 4 && |raw| >= 11 + 8 * i && raw[0] == 12
    ensures EntryGrant(raw, i)
         == if Names(raw, i) then [Given(raw, i)] else []
  {}

  /** The grants an allocation holds begin with that entry's. */
  lemma {:induction false} GrantsNamed(raw: seq<byte>, n: nat)
    requires n <= 4 && |raw| >= 3 + 8 * n && raw[0] == 12
    ensures var first, gs := FirstNamed(raw, n), FirstGrants(raw, n);
            if first.None? then gs == [] else gs != [] && gs[0] == Given(raw, first.value)
  {
    if n > 0 {
      GrantsNamed(raw, n - 1);
      EntryNamed(raw, n - 1);
    }
  }

  /** The first grant is taken, and it is the only one. */
  lemma {:induction false} FirstGrantWins(m: Machine, gs: seq<Grant>)
    requires m.state == Asc
    ensures GrantedAll(m, gs) == if gs == [] then m else Granted(m, gs[0])
  {
    if |gs| > 1 {
      FirstGrantWins(m, gs[..|gs| - 1]);
      GrantedOnce(m, gs[0], gs[|gs| - 1]);
    } else if |gs| == 1 {
      assert gs[..0] == [];
    }
  }

  lemma GrantedOnce(m: Machine, g: Grant, g': Grant)
    requires m.state == Asc
    ensures Granted(Granted(m, g), g') == Granted(m, g)
  {}

  /** While it waits for a channel, the first entry that names this ship gives it one and the
      sending starts; other packets change nothing, and neither does an allocation at any other
      time.  An empty message is dropped instead. */
  lemma AllocationTaken(m: Machine, raw: seq<byte>)
    requires Sound(m) && m.state == Asc
    ensures var o, first := Receive(m, raw), FirstNamed(raw, 4);
            if first.None? then o == Out(m, [])
            else if m.message == [] then o.events == [] && o.m.state == Idle
            else
              && o.events == [] && o.m.state == Send
              && o.m.channel == raw[7 + 8 * first.value] && o.m.linkId == raw[8 + 8 * first.value]
              && o.m.session == raw[9 + 8 * first.value]
              && o.m.message == m.message && o.m.dest == m.dest && o.m.total == (|m.message| + 99) / 100
  {
    AllocationGrants(m, raw);
    assert FirstNamed(raw, 4).Some? ==> raw[0] == 12;
  }

  lemma AllocationGrants(m: Machine, raw: seq<byte>)
    requires m.state == Asc
    ensures var first := FirstNamed(raw, 4);
            GrantedAll(m, DecodeAllocation(raw)) == if first.Some? then Granted(m, Given(raw, first.value)) else m
  {
    FirstGrantWins(m, DecodeAllocation(raw));
    if |raw| >= 3 && raw[0] == 12 {
      GrantsNamed(raw, Min((|raw| - 3) / 8, 4));
      SameFirst(raw, Min((|raw| - 3) / 8, 4));
    }
  }

  lemma SameFirst(raw: seq<byte>, n: nat)
    requires |raw| >= 3 && n == Min((|raw| - 3) / 8, 4)
    ensures FirstNamed(raw, 4) == FirstNamed(raw, n)
  {
    assert forall i: nat :: Names(raw, i) ==> i < n;
  }

  // ---------- Fragments ----------

  /** A header of fifteen bytes, high byte first. */
  predicate HeaderReads(p: seq<byte>, kind: int, size: int, ship: int, session: byte, dest: int, num: int) {
    && |p| >= 15
    && p[0] == kind && Value16(p[2], p[1]) == size && Value32(p[6], p[5], p[4], p[3]) == ship
    && p[7] == 99 && p[8] == session
    && Value32(p[12], p[11], p[10], p[9]) == dest && Value16(p[14], p[13]) == num
  }

  function Kind(data: seq<byte>, n: nat): int {
    if |data| <= 100 * n + 100 then 32 else if n == 0 then 30 else 31
  }

  /** Fragment `n` of the message; the first one counts those that follow. */
  predicate FragmentOnAir(p: seq<byte>, ship: int, session: byte, dest: int, data: seq<byte>, n: nat) {
    && 100 * n < |data|
    && |p| == 15 + (if |data| - 100 * n < 100 then |data| - 100 * n else 100)
    && HeaderReads(p, Kind(data, n), |p| - 15, ship, session, dest,
                   (if Kind(data, n) == 30 then (|data| + 99) / 100 - 1 else n) % 65536)
    && PayloadFrom(p, data, 100 * n)
  }

  lemma HeaderFieldsRead(kind: byte, size: u16, mmsi: u32, session: byte, dest: u32, num: u16)
    ensures HeaderReads([kind] + BigEndian16(size) + BigEndian32(mmsi) + [SAT_ID, session]
                        + BigEndian32(dest) + BigEndian16(num), kind, size, mmsi, session, dest, num)
  {}

  lemma SameHeader(h: seq<byte>, p: seq<byte>, kind: int, size: int, ship: int, session: byte, dest: int, num: int)
    requires h <= p && HeaderReads(h, kind, size, ship, session, dest, num)
    ensures HeaderReads(p, kind, size, ship, session, dest, num)
  {}

  lemma HeaderInFront(h: seq<byte>, ship: u32, session: byte, dest: u32, data: seq<byte>, n: nat, stop: nat, num: int)
    requires 100 * n < |data| && stop == (if |data| - 100 * n < 100 then |data| else 100 * n + 100)
    requires num == (if Kind(data, n) == 30 then (|data| + 99) / 100 - 1 else n) % 65536
    requires |h| == 15 && HeaderReads(h, Kind(data, n), stop - 100 * n, ship, session, dest, num)
    ensures FragmentOnAir(h + data[100 * n..stop], ship, session, dest, data, n)
  {
    PayloadBehind(h, data, 100 * n, stop);
    SameHeader(h, h + data[100 * n..stop], Kind(data, n), stop - 100 * n, ship, session, dest, num);
  }

  lemma FragmentFields(data: seq<byte>, n: nat)
    requires n < FragmentCount(data)
    ensures 100 * n < |data| && FragmentType(FragmentCount(data), n) == Kind(data, n)
    ensures 100 * n + ChunkSize(data, n) == if |data| - 100 * n < 100 then |data| else 100 * n + 100
    ensures NumberField(FragmentCount(data), n)
         == (if Kind(data, n) == 30 then (|data| + 99) / 100 - 1 else n) % 65536
  {}

  lemma FragmentSplit(data: seq<byte>, n: nat, mmsi: u32, session: byte, dest: u32) returns (h: seq<byte>)
    requires n < FragmentCount(data)
    ensures |h| == 15
    ensures HeaderReads(h, FragmentType(FragmentCount(data), n), ChunkSize(data, n), mmsi, session, dest,
                        NumberField(FragmentCount(data), n))
    ensures FragmentPacket(data, n, mmsi, session, dest) == h + data[100 * n..100 * n + ChunkSize(data, n)]
  {
    var count := FragmentCount(data);
    h := [FragmentType(count, n)] + BigEndian16(ChunkSize(data, n)) + BigEndian32(mmsi)
      + [SAT_ID, session] + BigEndian32(dest) + BigEndian16(NumberField(count, n));
    HeaderFieldsRead(FragmentType(count, n), ChunkSize(data, n), mmsi, session, dest, NumberField(count, n));
  }

  lemma FragmentParts(data: seq<byte>, n: nat, mmsi: u32, session: byte, dest: u32)
    returns (h: seq<byte>, stop: nat, num: int)
    requires n < FragmentCount(data)
    ensures 100 * n < |data| && stop == (if |data| - 100 * n < 100 then |data| else 100 * n + 100)
    ensures num == (if Kind(data, n) == 30 then (|data| + 99) / 100 - 1 else n) % 65536
    ensures |h| == 15 && HeaderReads(h, Kind(data, n), stop - 100 * n, mmsi, session, dest, num)
    ensures FragmentPacket(data, n, mmsi, session, dest) == h + data[100 * n..stop]
  {
    h := FragmentSplit(data, n, mmsi, session, dest);
    FragmentFields(data, n);
    stop, num := 100 * n + ChunkSize(data, n), NumberField(FragmentCount(data), n);
  }

  lemma PacketOnAir(data: seq<byte>, n: nat, mmsi: u32, session: byte, dest: u32)
    requires n < FragmentCount(data)
    ensures FragmentOnAir(FragmentPacket(data, n, mmsi, session, dest), mmsi, session, dest, data, n)
  {
    var h, stop, num := FragmentParts(data, n, mmsi, session, dest);
    HeaderInFront(h, mmsi, session, dest, data, n, stop, num);
  }

  /** The list starts with `k` fragments marked acknowledged, and no more. */
  predicate AckedAhead(pieces: seq<Piece>, k: nat) {
    && k <= |pieces|
    && (forall i :: 0 <= i < k ==> pieces[i].acked)
    && (k < |pieces| ==> !pieces[k].acked)
  }

  lemma {:induction false} DropsAhead(pieces: seq<Piece>, k: nat)
    requires AckedAhead(pieces, k)
    ensures DropAcked(pieces) == pieces[k..]
  {
    if k > 0 {
      DropsAhead(pieces[1..], k - 1);
    }
  }

  function Transmission(m: Machine, slot: int, n: nat): Event
    requires n < FragmentCount(m.message)
  {
    Sent(slot, if m.channel < 6 then 10 + m.channel else 10, m.linkId, n,
         FragmentPacket(m.message, n, m.mmsi, m.session, m.dest))
  }

  /** The first fragment on the list that is not marked goes out and leaves the list, with those
      before it; an empty list or the last fragment begins the wait. */
  lemma SendNextExact(m: Machine, slot: int, k: nat)
    requires m.state == Send && Sound(m) && AckedAhead(m.pieces, k)
    ensures var o, n := SendNext(m, slot), m.total - |m.pieces| + k;
            if k == |m.pieces| then o.events == [] && o.m.pieces == [] && o.m.state == WaitAck
            else
              && 0 <= n < FragmentCount(m.message) && o.events == [Transmission(m, slot, n)]
              && o.m.pieces == m.pieces[k + 1..] && o.m.state == if n + 1 == m.total then WaitAck else Send
  {
    DropsAhead(m.pieces, k);
  }

  /** A transmission in this slot, as the machine's allocation asks for it. */
  predicate Carries(e: Event, m: Machine, slot: int, ship: int, data: seq<byte>, dest: int) {
    && e.Sent? && e.slot == slot && e.linkId == m.linkId
    && e.phyChannel == (if m.channel < 6 then 10 + m.channel else 10)
    && FragmentOnAir(e.packet, ship, m.session, dest, data, e.num)
  }

  lemma TransmissionCarries(m: Machine, slot: int, n: nat)
    requires n < FragmentCount(m.message)
    ensures Carries(Transmission(m, slot, n), m, slot, m.mmsi, m.message, m.dest)
  {
    PacketOnAir(m.message, n, m.mmsi, m.session, m.dest);
  }

  predicate Transmits(events: seq<Event>) {
    exists e :: e in events && e.Sent?
  }

  lemma {:induction false} Ahead(pieces: seq<Piece>) returns (k: nat)
    ensures AckedAhead(pieces, k)
  {
    k := 0;
    if pieces != [] && pieces[0].acked {
      k := Ahead(pieces[1..]);
      k := k + 1;
    }
  }

  lemma {:induction false} NoTransmissions(events: seq<Event>)
    requires Transmissions(events) == []
    ensures !Transmits(events)
  {
    if events != [] {
      NoTransmissions(events[1..]);
      assert forall e :: e in events ==> e == events[0] || e in events[1..];
    }
  }

  /** It is the machine's turn: a slot of its channel, and a fragment not marked acknowledged. */
  predicate Due(m: Machine, input: Input) {
    m.state == Send && input.Slot? && InDcChannel(m.channel, input.slot) && exists p :: p in m.pieces && !p.acked
  }

  /** Then the first such fragment goes out, and nothing ever goes out otherwise. */
  lemma TransmitsFirst(m: Machine, input: Input) returns (k: nat)
    requires Sound(m) && Due(m, input)
    ensures AckedAhead(m.pieces, k) && k < |m.pieces| && 0 <= m.total - |m.pieces| + k < FragmentCount(m.message)
    ensures React(m, input).events == [Transmission(m, input.slot, m.total - |m.pieces| + k)]
  {
    k := Ahead(m.pieces);
    SendNextExact(m, input.slot, k);
  }

  lemma NoneOpen(pieces: seq<Piece>, k: nat)
    requires AckedAhead(pieces, k) && forall p :: p in pieces ==> p.acked
    ensures k == |pieces|
  {}

  lemma TransmitsNothing(m: Machine, input: Input)
    requires Sound(m) && !Due(m, input)
    ensures !Transmits(React(m, input).events)
  {
    if m.state == Send && input.Slot? && InDcChannel(m.channel, input.slot) {
      var k := Ahead(m.pieces);
      NoneOpen(m.pieces, k);
      SendNextExact(m, input.slot, k);
    } else {
      OnlySlotsTransmit(m, input);
      NoTransmissions(React(m, input).events);
    }
  }

  lemma OnlyTransmission(m: Machine, slot: int, n: nat, events: seq<Event>)
    requires n < FragmentCount(m.message) && events == [Transmission(m, slot, n)]
    ensures Transmits(events) && forall e :: e in events ==> Carries(e, m, slot, m.mmsi, m.message, m.dest)
  {
    TransmissionCarries(m, slot, n);
    assert events[0] in events;
  }

  lemma TransmittedIff(m: Machine, input: Input)
    requires Sound(m)
    ensures Transmits(React(m, input).events) <==> Due(m, input)
    ensures forall e :: e in React(m, input).events && e.Sent? ==>
              input.Slot? && Carries(e, m, input.slot, m.mmsi, m.message, m.dest)
  {
    if Due(m, input) {
      var k := TransmitsFirst(m, input);
      OnlyTransmission(m, input.slot, m.total - |m.pieces| + k, React(m, input).events);
    } else {
      TransmitsNothing(m, input);
    }
  }

  /** Over every run: a fragment goes out exactly when it is due, and it is the next one of the
      message submitted, byte for byte, to the address submitted and in this ship's name. */
  lemma TransmitsWhatWasSubmitted(mmsi: u32, macLimit: byte, inputs: seq<Input>, input: Input)
    ensures var m, opening := After(mmsi, macLimit, inputs), Opening(mmsi, macLimit, inputs);
            && (Transmits(React(m, input).events) <==> Due(m, input))
            && forall e :: e in React(m, input).events && e.Sent? ==>
                 && WorksOn(m, opening) && input.Slot?
                 && Carries(e, m, input.slot, mmsi, opening.value.data, opening.value.dest)
  {
    RunTells(mmsi, macLimit, inputs);
    TransmittedIff(After(mmsi, macLimit, inputs), input);
  }

  // ---------- Acknowledgements ----------

  /** An acknowledgement for this ship and its session. */
  predicate AckFor(raw: seq<byte>, session: byte) {
    && |raw| >= 35 && raw[0] == 13
    && Value32(raw[5], raw[4], raw[3], raw[2]) == 200000002 && raw[6] == session
  }

  /** Bit `k` of its mask, highest bit first. */
  predicate AckBit(raw: seq<byte>, k: nat) {
    |raw| >= 35 && k < 200 && raw[10 + k / 8] / [128, 64, 32, 16, 8, 4, 2, 1][k % 8] % 2 == 1
  }

  /** The mask speaks of the first two hundred fragments on the list. */
  predicate Lost(m: Machine, raw: seq<byte>, k: nat) {
    k < |m.pieces| && k < 200 && !AckBit(raw, k)
  }

  lemma Weights(k: nat)
    requires k < 8
    ensures Power2(7 - k) == [128, 64, 32, 16, 8, 4, 2, 1][k]
  {
    assert Power2(0) == 1 && Power2(1) == 2 && Power2(2) == 4 && Power2(3) == 8;
    assert Power2(4) == 16 && Power2(5) == 32 && Power2(6) == 64 && Power2(7) == 128;
  }

  lemma AckReads(raw: seq<byte>, m: Machine)
    requires Sound(m) && Active(m)
    ensures AckFor(raw, m.session)
            <==> DecodeAck(raw).Some?
                 && DecodeAck(raw).value.ship == MY_MMSI && DecodeAck(raw).value.session == m.session
    ensures AckFor(raw, m.session) ==>
              && DecodeAck(raw).value.realloc == raw[7]
              && Covered(m) == (if |m.pieces| < 200 then |m.pieces| else 200)
              && forall k: nat :: k < Covered(m) ==>
                   MaskBits(DecodeAck(raw).value.mask, Covered(m))[k] == AckBit(raw, k)
  {
    if AckFor(raw, m.session) {
      forall k: nat | k < Covered(m)
        ensures MaskBits(DecodeAck(raw).value.mask, Covered(m))[k] == AckBit(raw, k)
      {
        Weights(k % 8);
      }
    }
  }

  /** An acknowledgement that leaves no channel ends the message, as a success exactly when every
      fragment it speaks of is confirmed; otherwise a fragment reported lost too often ends it,
      and short of that the lost ones are counted and, if there are any, sending starts again. */
  ghost predicate Settles(m: Machine, raw: seq<byte>, o: Out)
    requires |raw| >= 35
  {
    var lost := exists k: nat :: Lost(m, raw, k);
    if raw[7] == 0 then
      && o.m.state == Idle
      && o.events == [if lost then Finished(false, Cancelled) else Finished(true, Acknowledged)]
    else if exists k: nat :: Lost(m, raw, k) && m.pieces[k].retry >= m.arqLimit then
      o.m.state == Idle && o.events == [Finished(false, TooManyRetries)]
    else
      && o.events == [] && o.m.state == (if lost then Send else m.state)
      && |o.m.pieces| == |m.pieces|
      && forall k: nat :: k < |m.pieces| ==>
           o.m.pieces[k] == if k >= 200 then m.pieces[k]
                            else if AckBit(raw, k) then m.pieces[k].(acked := true)
                            else m.pieces[k].(acked := false, retry := m.pieces[k].retry + 1)
  }

  /** What an acknowledgement for the session does. */
  lemma AckOutcome(m: Machine, raw: seq<byte>)
    requires Sound(m) && Active(m) && AckFor(raw, m.session)
    ensures Settles(m, raw, Receive(m, raw))
  {
    var a := DecodeAck(raw).value;
    AckReads(raw, m);
    GrantsOnlyInAsc(m, DecodeAllocation(raw));
    MarksOutcome(m, raw, MaskBits(a.mask, Covered(m)));
  }

  lemma MarksOutcome(m: Machine, raw: seq<byte>, bits: seq<bool>)
    requires |raw| >= 35 && |bits| == (if |m.pieces| < 200 then |m.pieces| else 200)
    requires forall k: nat :: k < |bits| ==> bits[k] == AckBit(raw, k)
    ensures Settles(m, raw, HandleMarks(m, raw[7], bits))
  {
    assert forall k: nat :: Lost(m, raw, k) <==> k < |bits| && !bits[k];
  }

  /** Any other packet changes nothing. */
  lemma OthersIgnored(m: Machine, raw: seq<byte>)
    requires Sound(m) && Active(m) && !AckFor(raw, m.session)
    ensures Receive(m, raw) == Out(m, [])
  {
    AckReads(raw, m);
    GrantsOnlyInAsc(m, DecodeAllocation(raw));
  }

  // ---------- What the user is told, and when ----------

  /** When each report is made; `chosen` is the slot the user chose for the request. */
  ghost predicate Called(m: Machine, chosen: Option<int>, input: Input, why: Reason) {
    var waiting := m.state == ResReq && input.Slot? && chosen.Some?;
    var answered := Active(m) && input.Packet? && AckFor(input.raw, m.session);
    match why
    case Busy => Submission(input) && m.state != Idle
    case NotRacSlot =>
      || (input.SubmitAt? && m.state == Idle && !RandomAccess(input.specSlot))
      || (waiting && input.slot == chosen.value - 2 && !RandomAccess(input.slot))
    case SlotMissed =>
      input.SubmitAt? && m.state == Idle && RandomAccess(input.specSlot) && input.current > input.specSlot
    case MissedRetrying => waiting && input.slot > chosen.value - 2 && !m.missed && m.racRetries < 2
    case MissedTooOften => waiting && input.slot > chosen.value - 2 && !m.missed && m.racRetries >= 2
    case Acknowledged => answered && input.raw[7] == 0 && forall k: nat :: !Lost(m, input.raw, k)
    case Cancelled => answered && input.raw[7] == 0 && exists k: nat :: Lost(m, input.raw, k)
    case TooManyRetries =>
      answered && input.raw[7] != 0 && exists k: nat :: Lost(m, input.raw, k) && m.pieces[k].retry >= m.arqLimit
    case AckTimedOut => false
  }

  ghost predicate ReportsAre(m: Machine, chosen: Option<int>, input: Input, events: seq<Event>) {
    forall ok, why :: Finished(ok, why) in events <==> ok == (why == Acknowledged) && Called(m, chosen, input, why)
  }

  lemma SubmissionReports(m: Machine, chosen: Option<int>, input: Input)
    requires Sound(m) && Submission(input)
    ensures ReportsAre(m, chosen, input, React(m, input).events)
  {}

  lemma SlotReports(m: Machine, chosen: Option<int>, slot: int)
    requires Sound(m) && (m.useSpec <==> chosen.Some?) && (m.useSpec ==> chosen.value == m.specSlot)
    ensures ReportsAre(m, chosen, Slot(slot), SlotTick(m, slot).events)
  {}

  lemma PacketReports(m: Machine, chosen: Option<int>, raw: seq<byte>)
    requires Sound(m)
    ensures ReportsAre(m, chosen, Packet(raw), Receive(m, raw).events)
  {
    if Active(m) && AckFor(raw, m.session) {
      AckOutcome(m, raw);
      AnsweredReports(m, chosen, raw, Receive(m, raw).events);
    } else if Active(m) {
      OthersIgnored(m, raw);
    } else {
      AllocationsSilent(m, raw);
    }
  }

  lemma AnsweredReports(m: Machine, chosen: Option<int>, raw: seq<byte>, events: seq<Event>)
    requires Active(m) && AckFor(raw, m.session)
    requires raw[7] == 0 ==>
               events == [if exists k: nat :: Lost(m, raw, k) then Finished(false, Cancelled)
                          else Finished(true, Acknowledged)]
    requires raw[7] != 0 ==>
               events == if exists k: nat :: Lost(m, raw, k) && m.pieces[k].retry >= m.arqLimit then
                           [Finished(false, TooManyRetries)]
                         else []
    ensures ReportsAre(m, chosen, Packet(raw), events)
  {}

  lemma AllocationsSilent(m: Machine, raw: seq<byte>)
    requires Sound(m) && !Active(m)
    ensures Receive(m, raw).events == []
  {
    if m.state == Asc {
      AllocationTaken(m, raw);
    } else {
      GrantsOnlyInAsc(m, DecodeAllocation(raw));
    }
  }

  lemma TimersSilent(m: Machine, input: Input)
    requires Sound(m) && (input.AscExpires? || input.WaitExpires? || input.AckExpires? || input.Mac?)
    ensures React(m, input).events == []
  {
    if m.state == WaitAck {
      AckTimeoutNeverFails(m);
    }
  }

  /** Over every run: each report is made exactly when its condition holds, and success only for
      an acknowledgement that confirms everything. */
  lemma ReportedIff(mmsi: u32, macLimit: byte, inputs: seq<Input>, input: Input)
    ensures var m := After(mmsi, macLimit, inputs);
            ReportsAre(m, Chosen(mmsi, macLimit, inputs), input, React(m, input).events)
  {
    var m, chosen := After(mmsi, macLimit, inputs), Chosen(mmsi, macLimit, inputs);
    RunTells(mmsi, macLimit, inputs);
    match input
    case Slot(slot) => SlotReports(m, chosen, slot);
    case Packet(raw) => PacketReports(m, chosen, raw);
    case _ =>
      if Submission(input) {
        SubmissionReports(m, chosen, input);
      } else {
        TimersSilent(m, input);
      }
  }
}
