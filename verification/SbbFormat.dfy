/** The satellite bulletin board as six fragments: written by buildSbbFragment1..6
    (SatelliteSim/simulator.cpp), read by assembleSbb (VdesService/globallistener.cpp).
    Slot sizes and functions share a byte, four bits each. */
module SbbFormat {
  import opened Bytes

  datatype Channel = Channel(dlFreq: u16, ulFreq: u16, bandwidth: byte, slotSizes: seq<byte>, functions: seq<byte>) {
    predicate Shaped() {
      |slotSizes| == 12 && |functions| == 12
    }
  }

  datatype Head = Head(
    satelliteID: byte, mainNetID: byte, roamNetID: byte, version: u16, startTime: u32, availability: u16,
    capability: byte, spareFreq: u16, uplinkMaxLength: u16, reserved: byte, totalLength: u16)

  datatype Board = Board(head: Head, channels: seq<Channel>, signature1: seq<byte>, signature2: seq<byte>) {
    predicate Shaped() {
      |channels| == 6 && forall i :: 0 <= i < 6 ==> channels[i].Shaped()
    }
  }

  // ---------- Two values in a byte ----------

  /** Bitwise or of the lowest `n` bits. */
  function Or(x: nat, y: nat, n: nat): (r: nat)
    ensures r < Power2(n)
  {
    if n == 0 then 0 else 2 * Or(x / 2, y / 2, n - 1) + if x % 2 == 1 || y % 2 == 1 then 1 else 0
  }

  /** The width of a byte. */
  function Width(): nat {
    8
  }

  lemma SmallPowers()
    ensures Power2(4) == 16 && Power2(Width()) == 256
  {
    assert Power2(4) == 16;
    assert Power2(8) == 16 * Power2(4);
  }

  /** A shift left by four and an or, in eight bits. */
  function Packed(a: byte, b: byte): byte {
    SmallPowers();
    Or(a * 16 % 256, b, Width())
  }

  lemma {:induction false} OrZero(x: nat, n: nat)
    requires x < Power2(n)
    ensures Or(x, 0, n) == x
  {
    if n > 0 {
      OrZero(x / 2, n - 1);
    }
  }

  lemma {:induction false} OrAboveLow(h: nat, l: nat, n: nat, k: nat)
    requires k <= n && h < Power2(n - k) && l < Power2(k)
    ensures Or(h * Power2(k), l, n) == h * Power2(k) + l
  {
    if k == 0 {
      OrZero(h, n);
    } else {
      var x := h * Power2(k - 1);
      assert h * Power2(k) == 2 * x;
      OrAboveLow(h, l / 2, n - 1, k - 1);
    }
  }

  lemma PackedSum(a: byte, b: byte)
    requires a < 16 && b < 16
    ensures Packed(a, b) == 16 * a + b
  {
    SmallPowers();
    PackedSumBy(a, b, Width(), 4);
  }

  lemma PackedSumBy(a: byte, b: byte, n: nat, k: nat)
    requires k <= n && a < Power2(n - k) && b < Power2(k) && Power2(k) == 16 && a < 16
    ensures Or(a * 16 % 256, b, n) == a * 16 + b
  {
    assert a * 16 % 256 == a * 16;
    OrAboveLow(a, b, n, k);
  }

  /** Both values come back exactly when both fit four bits. */
  lemma UnpackedIff(a: byte, b: byte)
    ensures Nibble(Packed(a, b), false) == a && Nibble(Packed(a, b), true) == b <==> a < 16 && b < 16
  {
    if a < 16 && b < 16 {
      PackedSum(a, b);
      SplitNibbles(a, b, Packed(a, b));
    }
  }

  lemma SplitNibbles(a: byte, b: byte, p: byte)
    requires a < 16 && b < 16 && p == 16 * a + b
    ensures Nibble(p, false) == a && Nibble(p, true) == b
  {}

  function Nibble(packed: byte, low: bool): (v: byte)
    ensures v < 16
  {
    if low then packed % 16 else packed / 16 % 16
  }

  /** Values by twos; an odd one at the end would be dropped. */
  function PackAll(v: seq<byte>): (p: seq<byte>)
    ensures |p| == |v| / 2
  {
    if |v| < 2 then [] else [Packed(v[0], v[1])] + PackAll(v[2..])
  }

  /** High half first. */
  function UnpackAll(p: seq<byte>): (v: seq<byte>)
    ensures |v| == 2 * |p|
  {
    if p == [] then [] else [Nibble(p[0], false), Nibble(p[0], true)] + UnpackAll(p[1..])
  }

  predicate FourBits(values: seq<byte>) {
    forall k :: 0 <= k < |values| ==> values[k] < 16
  }

  lemma {:induction false} UnpackAllIff(v: seq<byte>)
    requires |v| % 2 == 0
    ensures UnpackAll(PackAll(v)) == v <==> FourBits(v)
  {
    if |v| >= 2 {
      UnpackedIff(v[0], v[1]);
      UnpackAllIff(v[2..]);
      var back := UnpackAll(PackAll(v[2..]));
      assert PackAll(v)[1..] == PackAll(v[2..]);
      SameByTwos(UnpackAll(PackAll(v)), v);
      FourBitsByTwos(v);
    }
  }

  lemma SameByTwos(a: seq<byte>, b: seq<byte>)
    requires |a| == |b| >= 2
    ensures a == b <==> a[0] == b[0] && a[1] == b[1] && a[2..] == b[2..]
  {
    if a[0] == b[0] && a[1] == b[1] && a[2..] == b[2..] {
      assert a == [a[0], a[1]] + a[2..] && b == [b[0], b[1]] + b[2..];
    }
  }

  lemma FourBitsByTwos(v: seq<byte>)
    requires |v| >= 2
    ensures FourBits(v) <==> v[0] < 16 && v[1] < 16 && FourBits(v[2..])
  {
    if v[0] < 16 && v[1] < 16 && FourBits(v[2..]) {
      forall k | 0 <= k < |v| ensures v[k] < 16 {
        if k >= 2 {
          assert v[k] == v[2..][k - 2];
        }
      }
    }
  }

  // ---------- Channels: 17 bytes each ----------

  function ChannelBytes(c: Channel): (b: seq<byte>)
    requires c.Shaped()
    ensures |b| == 17
  {
    BigEndian16(c.dlFreq) + BigEndian16(c.ulFreq) + [c.bandwidth] + PackAll(c.slotSizes) + PackAll(c.functions)
  }

  function ReadChannel(data: seq<byte>, at: nat): Channel
    requires at + 17 <= |data|
  {
    Channel(Pair(data[at], data[at + 1]), Pair(data[at + 2], data[at + 3]), data[at + 4],
            UnpackAll(data[at + 5..at + 11]), UnpackAll(data[at + 11..at + 17]))
  }

  predicate ChannelFits(c: Channel) {
    FourBits(c.slotSizes) && FourBits(c.functions)
  }

  /** A channel as it comes back: each pair of values as the shared byte yields it. */
  function ReadBack(c: Channel): Channel
    requires c.Shaped()
  {
    c.(slotSizes := UnpackAll(PackAll(c.slotSizes)), functions := UnpackAll(PackAll(c.functions)))
  }

  lemma ReadBackIff(c: Channel)
    requires c.Shaped()
    ensures ReadBack(c) == c <==> ChannelFits(c)
  {
    UnpackAllIff(c.slotSizes);
    UnpackAllIff(c.functions);
  }

  lemma ChannelRead(c: Channel, data: seq<byte>, at: nat)
    requires c.Shaped() && at + 17 <= |data| && data[at..at + 17] == ChannelBytes(c)
    ensures ReadChannel(data, at) == ReadBack(c)
  {
    var b := ChannelBytes(c);
    PartOfSlice(data, at, b);
    assert b[5..11] == PackAll(c.slotSizes) && b[11..17] == PackAll(c.functions);
    HeadOfChannel(c, data, at);
  }

  /** A channel comes back exactly when its slot sizes and functions fit four bits. */
  lemma ChannelRoundTripIff(c: Channel, data: seq<byte>, at: nat)
    requires c.Shaped() && at + 17 <= |data| && data[at..at + 17] == ChannelBytes(c)
    ensures ReadChannel(data, at) == c <==> ChannelFits(c)
  {
    ChannelRead(c, data, at);
    ReadBackIff(c);
  }

  lemma PartOfSlice(data: seq<byte>, at: nat, b: seq<byte>)
    requires |b| == 17 && at + 17 <= |data| && data[at..at + 17] == b
    ensures forall k :: 0 <= k < 17 ==> data[at + k] == b[k]
    ensures data[at + 5..at + 11] == b[5..11] && data[at + 11..at + 17] == b[11..17]
  {
    forall k | 0 <= k < 17 ensures data[at + k] == b[k] {
      assert data[at..at + 17][k] == data[at + k];
    }
  }

  lemma HeadOfChannel(c: Channel, data: seq<byte>, at: nat)
    requires c.Shaped() && at + 17 <= |data|
    requires forall k :: 0 <= k < 17 ==> data[at + k] == ChannelBytes(c)[k]
    ensures var back := ReadChannel(data, at);
            back.dlFreq == c.dlFreq && back.ulFreq == c.ulFreq && back.bandwidth == c.bandwidth
  {
    var b := ChannelBytes(c);
    PairOf(c.dlFreq);
    PairOf(c.ulFreq);
    assert data[at + 0] == b[0] && data[at + 1] == b[1] && data[at + 2] == b[2] && data[at + 3] == b[3];
    assert data[at + 4] == b[4];
  }

  /** The builders' loops: slot sizes, then functions. */
  method BuildNibbles(values: seq<byte>) returns (data: seq<byte>)
    requires |values| == 12
    ensures data == PackAll(values)
  {
    data := [];
    for i := 0 to 6
      invariant data + PackAll(values[2 * i..]) == PackAll(values)
    {
      assert values[2 * i..][2..] == values[2 * i + 2..];
      Regroup(data, Packed(values[i * 2], values[i * 2 + 1]), PackAll(values[2 * i + 2..]));
      data := data + [Packed(values[i * 2], values[i * 2 + 1])];
    }
    assert PackAll(values[12..]) == [];
  }

  lemma Regroup(a: seq<byte>, b: byte, c: seq<byte>)
    ensures a + ([b] + c) == (a + [b]) + c
  {}

  method BuildChannel(c: Channel) returns (data: seq<byte>)
    requires c.Shaped()
    ensures data == ChannelBytes(c)
  {
    data := [High(c.dlFreq), Low(c.dlFreq)];
    data := data + [High(c.ulFreq), Low(c.ulFreq)];
    data := data + [c.bandwidth];
    var slotSizes := BuildNibbles(c.slotSizes);
    var functions := BuildNibbles(c.functions);
    data := data + slotSizes + functions;
  }

  /** The reader's loop over six bytes; `idx` is the source's moving index. */
  method ReadNibbles(data: seq<byte>, at: nat) returns (values: seq<byte>, idx: nat)
    requires at + 6 <= |data|
    ensures values == UnpackAll(data[at..at + 6]) && idx == at + 6
  {
    values, idx := [], at;
    ghost var rest := data[at..at + 6];
    ghost var all := UnpackAll(rest);
    for i := 0 to 6
      invariant idx == at + i && |rest| == 6 - i && rest == data[idx..at + 6]
      invariant values + UnpackAll(rest) == all
    {
      var packed := data[idx];
      UnpackStep(rest, packed, values);
      idx := idx + 1;
      values := values + [packed / 16 % 16, packed % 16];
      rest := rest[1..];
    }
    assert UnpackAll(rest) == [];
  }

  lemma UnpackStep(rest: seq<byte>, packed: byte, values: seq<byte>)
    requires rest != [] && rest[0] == packed
    ensures values + UnpackAll(rest) == (values + [packed / 16 % 16, packed % 16]) + UnpackAll(rest[1..])
  {
    RegroupTwo(values, packed / 16 % 16, packed % 16, UnpackAll(rest[1..]));
  }

  lemma RegroupTwo(a: seq<byte>, b: byte, b': byte, c: seq<byte>)
    ensures a + ([b, b'] + c) == (a + [b, b']) + c
  {}

  method ReadChannelAt(data: seq<byte>, at: nat) returns (c: Channel, idx: nat)
    requires at + 17 <= |data|
    ensures c == ReadChannel(data, at) && idx == at + 17
  {
    idx := at;
    var dlFreq := Pair(data[idx], data[idx + 1]);
    idx := idx + 2;
    var ulFreq := Pair(data[idx], data[idx + 1]);
    idx := idx + 2;
    var bandwidth := data[idx];
    idx := idx + 1;
    var slotSizes, functions;
    slotSizes, idx := ReadNibbles(data, idx);
    functions, idx := ReadNibbles(data, idx);
    c := Channel(dlFreq, ulFreq, bandwidth, slotSizes, functions);
  }

  // ---------- The six fragments ----------

  function HeadBytes(h: Head): (b: seq<byte>)
    ensures |b| == 26
  {
    [1, h.satelliteID, h.mainNetID, h.roamNetID] + BigEndian16(h.version) + BigEndian32(h.startTime)
    + BigEndian16(h.availability) + [h.capability] + BigEndian16(h.spareFreq) + BigEndian16(h.uplinkMaxLength)
    + [h.reserved] + BigEndian16(h.totalLength) + [0, 0, 0, 0, 0, 0]
  }

  function ReadHead(f: seq<byte>): Head
    requires |f| >= 20
  {
    Head(f[1], f[2], f[3], Pair(f[4], f[5]), Quad(f[6..10]), Pair(f[10], f[11]),
         f[12], Pair(f[13], f[14]), Pair(f[15], f[16]), f[17], Pair(f[18], f[19]))
  }

  lemma HeadRoundTrip(h: Head)
    ensures ReadHead(HeadBytes(h)) == h
  {
    QuadOf(h.startTime);
    PairOf(h.version);
    PairOf(h.availability);
    PairOf(h.spareFreq);
    PairOf(h.uplinkMaxLength);
    PairOf(h.totalLength);
    assert HeadBytes(h)[6..10] == BigEndian32(h.startTime);
  }

  /** Fragment `k` of a broadcast, as the satellite sends it in slot k - 1. */
  function FragmentBytes(b: Board, k: nat): (f: seq<byte>)
    requires b.Shaped() && 1 <= k <= 6
    ensures |f| > 0 && f[0] == k
  {
    if k == 1 then HeadBytes(b.head)
    else if k <= 4 then [k] + ChannelBytes(b.channels[2 * k - 4]) + ChannelBytes(b.channels[2 * k - 3])
    else if k == 5 then [5] + b.signature1
    else [6] + b.signature2
  }

  /** The lengths the parsers ask for, and reading never goes beyond. */
  predicate LongEnough(k: int, data: seq<byte>) {
    if k == 1 then |data| >= 20 else if 2 <= k <= 4 then |data| >= 35 else |data| >= 2
  }

  predicate AllSix(f: map<int, seq<byte>>) {
    && 1 in f && LongEnough(1, f[1]) && 2 in f && LongEnough(2, f[2]) && 3 in f && LongEnough(3, f[3])
    && 4 in f && LongEnough(4, f[4]) && 5 in f && LongEnough(5, f[5]) && 6 in f && LongEnough(6, f[6])
  }

  /** Two channels from each of fragments 2, 3 and 4. */
  function ReadChannels(f2: seq<byte>, f3: seq<byte>, f4: seq<byte>): (channels: seq<Channel>)
    requires |f2| >= 35 && |f3| >= 35 && |f4| >= 35
    ensures |channels| == 6
  {
    seq(6, i requires 0 <= i < 6 =>
      ReadChannel(if i < 2 then f2 else if i < 4 then f3 else f4, if i % 2 == 0 then 1 else 18))
  }

  function ReadBoard(f: map<int, seq<byte>>): Board
    requires AllSix(f)
  {
    Board(ReadHead(f[1]), ReadChannels(f[2], f[3], f[4]), f[5][1..], f[6][1..])
  }

  predicate BoardFits(b: Board)
    requires b.Shaped()
  {
    forall i :: 0 <= i < 6 ==> ChannelFits(b.channels[i])
  }

  lemma PairOfChannels(c: Channel, d: Channel, k: byte)
    requires c.Shaped() && d.Shaped()
    ensures var f := [k] + ChannelBytes(c) + ChannelBytes(d);
            ReadChannel(f, 1) == ReadBack(c) && ReadChannel(f, 18) == ReadBack(d)
  {
    var f := [k] + ChannelBytes(c) + ChannelBytes(d);
    assert f[1..18] == ChannelBytes(c);
    assert f[18..35] == ChannelBytes(d);
    ChannelRead(c, f, 1);
    ChannelRead(d, f, 18);
  }

  /** The channels of a board as they come back. */
  function AsRead(b: Board): (channels: seq<Channel>)
    requires b.Shaped()
    ensures |channels| == 6
  {
    seq(6, i requires 0 <= i < 6 => ReadBack(b.channels[i]))
  }

  /** They are the board's exactly when all its slot sizes and functions fit four bits. */
  lemma AsReadIff(b: Board)
    requires b.Shaped()
    ensures AsRead(b) == b.channels <==> BoardFits(b)
  {
    forall i | 0 <= i < 6 ensures AsRead(b)[i] == b.channels[i] <==> ChannelFits(b.channels[i]) {
      ReadBackIff(b.channels[i]);
    }
    if BoardFits(b) {
      assert forall i :: 0 <= i < 6 ==> AsRead(b)[i] == b.channels[i];
    }
  }

  lemma PairRead(b: Board, k: nat) returns (f: seq<byte>)
    requires b.Shaped() && 2 <= k <= 4
    ensures f == FragmentBytes(b, k) && |f| == 35
    ensures ReadChannel(f, 1) == AsRead(b)[2 * k - 4] && ReadChannel(f, 18) == AsRead(b)[2 * k - 3]
  {
    var c, d := b.channels[2 * k - 4], b.channels[2 * k - 3];
    f := [k] + ChannelBytes(c) + ChannelBytes(d);
    PairOfChannels(c, d, k);
  }

  lemma InOrderRead(f2: seq<byte>, f3: seq<byte>, f4: seq<byte>, read: seq<Channel>)
    requires |f2| == |f3| == |f4| == 35 && |read| == 6
    requires ReadChannel(f2, 1) == read[0] && ReadChannel(f2, 18) == read[1]
    requires ReadChannel(f3, 1) == read[2] && ReadChannel(f3, 18) == read[3]
    requires ReadChannel(f4, 1) == read[4] && ReadChannel(f4, 18) == read[5]
    ensures ReadChannels(f2, f3, f4) == read
  {}

  lemma ChannelsRead(b: Board)
    requires b.Shaped()
    ensures ReadChannels(FragmentBytes(b, 2), FragmentBytes(b, 3), FragmentBytes(b, 4)) == AsRead(b)
  {
    var f2 := PairRead(b, 2);
    var f3 := PairRead(b, 3);
    var f4 := PairRead(b, 4);
    InOrderRead(f2, f3, f4, AsRead(b));
  }

  /** All six fragments are the board's. */
  predicate FragmentsOf(f: map<int, seq<byte>>, b: Board)
    requires b.Shaped()
  {
    forall k :: 1 <= k <= 6 ==> k in f && f[k] == FragmentBytes(b, k)
  }

  /** Reading the six fragments of a board gives the board back exactly when all its slot
      sizes and functions fit four bits. */
  lemma BoardRoundTripIff(b: Board, f: map<int, seq<byte>>)
    requires b.Shaped() && AllSix(f) && FragmentsOf(f, b)
    ensures ReadBoard(f) == b <==> BoardFits(b)
  {
    HeadRoundTrip(b.head);
    AsReadIff(b);
    ChannelsRead(b);
    assert ReadBoard(f) == Board(b.head, AsRead(b), b.signature1, b.signature2);
  }

  // ---------- Where everything lies ----------

  /** Fragment 1: twenty bytes of fields, high byte first, and six zeros. */
  lemma HeadLayout(h: Head)
    ensures var f := HeadBytes(h);
            && f[0] == 1 && f[1] == h.satelliteID && f[2] == h.mainNetID && f[3] == h.roamNetID
            && Value16(f[5], f[4]) == h.version && Value32(f[9], f[8], f[7], f[6]) == h.startTime
            && Value16(f[11], f[10]) == h.availability && f[12] == h.capability
            && Value16(f[14], f[13]) == h.spareFreq && Value16(f[16], f[15]) == h.uplinkMaxLength
            && f[17] == h.reserved && Value16(f[19], f[18]) == h.totalLength && f[20..] == [0, 0, 0, 0, 0, 0]
  {}

  lemma {:induction false} PackedPlaces(v: seq<byte>, k: nat, a: byte, b: byte)
    requires 2 * k + 1 < |v| && v[2 * k] == a && v[2 * k + 1] == b
    ensures PackAll(v)[k] == Packed(a, b)
  {
    if k > 0 {
      assert v[2..][2 * k - 2] == a && v[2..][2 * k - 1] == b;
      PackedPlaces(v[2..], k - 1, a, b);
    }
  }

  /** A channel: two frequencies, the bandwidth, then twelve slot sizes and twelve functions, two
      to a byte, the earlier one in the high half. */
  lemma ChannelLayout(c: Channel, k: nat)
    requires c.Shaped() && ChannelFits(c) && k < 6
    ensures var b := ChannelBytes(c);
            && Value16(b[1], b[0]) == c.dlFreq && Value16(b[3], b[2]) == c.ulFreq && b[4] == c.bandwidth
            && b[5 + k] == 16 * c.slotSizes[2 * k] + c.slotSizes[2 * k + 1]
            && b[11 + k] == 16 * c.functions[2 * k] + c.functions[2 * k + 1]
  {
    var head := BigEndian16(c.dlFreq) + BigEndian16(c.ulFreq) + [c.bandwidth];
    InThreeParts(head, PackAll(c.slotSizes), PackAll(c.functions), k);
    PackedPlaces(c.slotSizes, k, c.slotSizes[2 * k], c.slotSizes[2 * k + 1]);
    PackedPlaces(c.functions, k, c.functions[2 * k], c.functions[2 * k + 1]);
    PackedSum(c.slotSizes[2 * k], c.slotSizes[2 * k + 1]);
    PackedSum(c.functions[2 * k], c.functions[2 * k + 1]);
  }

  lemma InThreeParts(head: seq<byte>, sizes: seq<byte>, functions: seq<byte>, k: nat)
    requires |head| == 5 && |sizes| == |functions| == 6 && k < 6
    ensures var b := head + sizes + functions; b[..5] == head && b[5 + k] == sizes[k] && b[11 + k] == functions[k]
  {}

  /** Fragments 2 to 4 carry two channels each, in order, and 5 and 6 a signature each. */
  lemma FragmentLayout(b: Board, k: nat)
    requires b.Shaped() && 2 <= k <= 6
    ensures var f := FragmentBytes(b, k);
            && f[0] == k
            && (k <= 4 ==> |f| == 35 && f[1..18] == ChannelBytes(b.channels[2 * k - 4])
                           && f[18..] == ChannelBytes(b.channels[2 * k - 3]))
            && (k == 5 ==> f[1..] == b.signature1) && (k == 6 ==> f[1..] == b.signature2)
  {}
}
