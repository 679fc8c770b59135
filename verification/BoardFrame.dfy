/** Frames from the gateway to the satellite's board: written by sendToBoard
    (VdesService/vdes_global.cpp) and read by the parser at the head of readUdpData
    (SatelliteSim/simulator.cpp). */
module BoardFrame {
  import opened Bytes

  type i16 = x: int | -32768 <= x < 32768

  const HEADER: nat := 17
  const MAX_PAYLOAD: nat := 65525

  datatype Header = Header(phyChannel: byte, lcStartSlot: u16, linkId: byte, freqOffset: i16, attenuation: u16)

  function Sum(b: seq<byte>): nat {
    if b == [] then 0 else Sum(b[..|b| - 1]) + b[|b| - 1]
  }

  /** The two's complement bits of a signed offset. */
  function Bits16(x: i16): u16 {
    if x < 0 then x + 0x1_0000 else x
  }

  /** Everything up to the checksum; the length field keeps sixteen bits of 10 + |payload|. */
  function Unchecked(seqNo: u16, h: Header, payload: seq<byte>): (f: seq<byte>)
    ensures |f| == HEADER + |payload| && f[..3] == [0xEB, 0xA0, 0xF9] && f[HEADER..] == payload
    ensures f[5..7] == LittleEndian16((10 + |payload|) % 0x1_0000)
  {
    [0xEB, 0xA0, 0xF9] + LittleEndian16(seqNo) + LittleEndian16((10 + |payload|) % 0x1_0000)
    + [h.phyChannel] + LittleEndian16(h.lcStartSlot) + [0, 0, h.linkId]
    + LittleEndian16(Bits16(h.freqOffset)) + LittleEndian16(h.attenuation) + payload
  }

  function Checksum(f: seq<byte>): byte
    requires |f| >= 3
  {
    Sum(f[3..]) % 256
  }

  function Frame(seqNo: u16, h: Header, payload: seq<byte>): seq<byte> {
    var f := Unchecked(seqNo, h, payload);
    f + [Checksum(f)]
  }

  /** How many payload bytes the length field announces. */
  function Announced(d: seq<byte>): int
    requires |d| > HEADER
  {
    Pair(d[6], d[5]) - 10
  }

  predicate Intact(d: seq<byte>)
    requires |d| > HEADER
  {
    var n := Announced(d);
    n > 0 && |d| >= HEADER + n + 1 && Checksum(d[..HEADER + n]) == d[HEADER + n]
  }

  /** Bytes after the checksum are ignored. */
  function Parse(d: seq<byte>): Option<seq<byte>> {
    if |d| < HEADER + 1 || d[..3] != [0xEB, 0xA0, 0xF9] || !Intact(d) then None
    else Some(d[HEADER..HEADER + Announced(d)])
  }

  // ---------- In place ----------

  method ChecksumOf(f: seq<byte>, stop: nat) returns (checksum: byte)
    requires 3 <= stop <= |f|
    ensures checksum == Checksum(f[..stop])
  {
    checksum := 0;
    ghost var total: nat := 0;
    for i := 3 to stop
      invariant total == Sum(f[3..i]) && checksum == total % 256
    {
      assert f[3..i + 1][..i - 3] == f[3..i];
      WrapAdd(total, f[i]);
      total := total + f[i];
      checksum := AddByte(checksum, f[i]);
    }
    assert f[..stop][3..] == f[3..stop];
  }

  function AddByte(a: int, b: int): byte {
    (a + b) % 256
  }

  lemma WrapAdd(a: nat, b: nat)
    ensures AddByte(a % 256, b) == (a + b) % 256
  {}

  class BoardPort {
    var frameSeq: u16

    constructor ()
      ensures frameSeq == 0
    {
      frameSeq := 0;
    }

    method SendToBoard(h: Header, rawData: seq<byte>) returns (frame: seq<byte>)
      modifies this
      ensures frame == Frame(old(frameSeq), h, rawData)
      ensures frameSeq == (old(frameSeq) + 1) % 0x1_0000
    {
      frame := [0xEB, 0xA0, 0xF9];
      var seqNo := frameSeq;
      frameSeq := (frameSeq + 1) % 0x1_0000;
      frame := frame + [Low(seqNo), High(seqNo)];
      var payloadLen := (1 + 2 + 1 + 1 + 1 + 2 + 2 + |rawData|) % 0x1_0000;
      frame := frame + [Low(payloadLen), High(payloadLen)];
      frame := frame + [h.phyChannel];
      frame := frame + [Low(h.lcStartSlot), High(h.lcStartSlot)];
      frame := frame + [0x00, 0x00];
      frame := frame + [h.linkId];
      frame := frame + [Low(Bits16(h.freqOffset)), High(Bits16(h.freqOffset))];
      frame := frame + [Low(h.attenuation), High(h.attenuation)];
      frame := frame + rawData;
      assert frame == Unchecked(seqNo, h, rawData);
      var checksum := ChecksumOf(frame, |frame|);
      assert frame[..|frame|] == frame;
      frame := frame + [checksum];
    }
  }

  method ParseFrame(d: seq<byte>) returns (rawMsg: Option<seq<byte>>)
    ensures rawMsg == Parse(d)
  {
    if |d| < HEADER + 1 {
      return None;
    }
    if d[0] != 0xEB || d[1] != 0xA0 || d[2] != 0xF9 {
      return None;
    }
    assert d[..3] == [0xEB, 0xA0, 0xF9];
    var rawLen := Pair(d[6], d[5]) - 10;
    if rawLen <= 0 {
      return None;
    }
    if |d| < HEADER + rawLen + 1 {
      return None;
    }
    var calcChecksum := ChecksumOf(d, HEADER + rawLen);
    if calcChecksum != d[HEADER + rawLen] {
      return None;
    }
    rawMsg := Some(d[HEADER..HEADER + rawLen]);
  }

  // ---------- Where everything lies ----------

  /** The seventeen bytes in front, low byte first in every field. */
  predicate HeadReads(f: seq<byte>, seqNo: int, h: Header, length: int) {
    && |f| >= 17
    && f[0] == 0xEB && f[1] == 0xA0 && f[2] == 0xF9
    && Value16(f[3], f[4]) == seqNo && Value16(f[5], f[6]) == length
    && f[7] == h.phyChannel && Value16(f[8], f[9]) == h.lcStartSlot
    && f[10] == 0 && f[11] == 0 && f[12] == h.linkId
    && Value16(f[13], f[14]) == (if h.freqOffset < 0 then 65536 + h.freqOffset else h.freqOffset)
    && Value16(f[15], f[16]) == h.attenuation
  }

  /** The bytes from place `i` on, added up. */
  function TotalFrom(f: seq<byte>, i: nat): nat
    decreases |f| - i
  {
    if i >= |f| then 0 else f[i] + TotalFrom(f, i + 1)
  }

  lemma HeadFields(seqNo: u16, h: Header)
    ensures HeadReads(Unchecked(seqNo, h, []), seqNo, h, 10)
  {
    var f := HeadBytes(seqNo, h);
    HeadListed(f, seqNo, h);
  }

  lemma ValueOf(n: u16)
    ensures Value16(Low(n), High(n)) == n
  {}

  /** The head, byte after byte. */
  lemma HeadBytes(seqNo: u16, h: Header) returns (f: seq<byte>)
    ensures f == [0xEB, 0xA0, 0xF9, Low(seqNo), High(seqNo), 10, 0, h.phyChannel, Low(h.lcStartSlot),
                  High(h.lcStartSlot), 0, 0, h.linkId, Low(Bits16(h.freqOffset)), High(Bits16(h.freqOffset)),
                  Low(h.attenuation), High(h.attenuation)]
    ensures f == Unchecked(seqNo, h, [])
  {
    f := Unchecked(seqNo, h, []);
  }

  lemma HeadListed(f: seq<byte>, seqNo: u16, h: Header)
    requires f == [0xEB, 0xA0, 0xF9, Low(seqNo), High(seqNo), 10, 0, h.phyChannel, Low(h.lcStartSlot),
                   High(h.lcStartSlot), 0, 0, h.linkId, Low(Bits16(h.freqOffset)), High(Bits16(h.freqOffset)),
                   Low(h.attenuation), High(h.attenuation)]
    ensures HeadReads(f, seqNo, h, 10)
  {
    ValueOf(seqNo);
    ValueOf(h.lcStartSlot);
    ValueOf(Bits16(h.freqOffset));
    ValueOf(h.attenuation);
  }

  lemma SameHead(f: seq<byte>, g: seq<byte>, seqNo: int, h: Header, length: int, length': int)
    requires HeadReads(f, seqNo, h, length) && |g| >= 17
    requires forall i :: 0 <= i < 17 && i != 5 && i != 6 ==> g[i] == f[i]
    requires Value16(g[5], g[6]) == length'
    ensures HeadReads(g, seqNo, h, length')
  {}

  lemma {:induction false} SumIsTotal(f: seq<byte>, i: nat)
    requires i <= |f|
    ensures Sum(f[i..]) == TotalFrom(f, i)
    decreases |f| - i
  {
    if i < |f| {
      SumIsTotal(f, i + 1);
      SumFromFront(f[i..]);
      assert f[i..][1..] == f[i + 1..];
    }
  }

  lemma {:induction false} SumFromFront(b: seq<byte>)
    requires b != []
    ensures Sum(b) == b[0] + Sum(b[1..])
  {
    if |b| > 1 {
      SumFromFront(b[..|b| - 1]);
      assert b[..|b| - 1][1..] == b[1..][..|b| - 2];
    }
  }

  /** A frame: its head, the payload, and the sum of all bytes from the fourth on. */
  lemma FrameLayout(seqNo: u16, h: Header, payload: seq<byte>)
    ensures var f := Frame(seqNo, h, payload);
            && |f| == 18 + |payload| && f[17..17 + |payload|] == payload
            && f[17 + |payload|] == TotalFrom(f[..17 + |payload|], 3) % 256
    ensures HeadReads(Frame(seqNo, h, payload), seqNo, h, (10 + |payload|) % 65536)
  {
    var u, empty, f := Unchecked(seqNo, h, payload), Unchecked(seqNo, h, []), Frame(seqNo, h, payload);
    assert f[..17 + |payload|] == u && u[17..] == payload;
    SumIsTotal(u, 3);
    HeadFields(seqNo, h);
    assert f[5] == u[5..7][0] && f[6] == u[5..7][1];
    SameHead(empty, f, seqNo, h, 10, (10 + |payload|) % 65536);
  }

  /** What the parser takes: the three marks, a length above ten, enough bytes, and the checksum
      in the place the length field points to. */
  lemma ParsedIff(d: seq<byte>)
    requires |d| >= 18
    ensures var n := Value16(d[5], d[6]) - 10;
            && (Parse(d).Some? <==> d[0] == 0xEB && d[1] == 0xA0 && d[2] == 0xF9 && n > 0 && |d| >= 18 + n
                                    && d[17 + n] == TotalFrom(d[..17 + n], 3) % 256)
            && (Parse(d).Some? ==> Parse(d).value == d[17..17 + n])
  {
    var n := Value16(d[5], d[6]) - 10;
    if n > 0 && |d| >= 18 + n {
      SumIsTotal(d[..17 + n], 3);
    }
  }

  // ---------- Round trip ----------

  lemma AnnouncedOfFrame(seqNo: u16, h: Header, payload: seq<byte>)
    ensures var f := Frame(seqNo, h, payload);
            |f| == HEADER + |payload| + 1 && Announced(f) == (10 + |payload|) % 0x1_0000 - 10
  {
    var n: u16 := (10 + |payload|) % 0x1_0000;
    var f, u := Frame(seqNo, h, payload), Unchecked(seqNo, h, payload);
    assert f[5] == u[5..7][0] && f[6] == u[5..7][1];
    PairOf(n);
  }

  /** A frame as the parser wants it, with `n` payload bytes and nothing behind. */
  predicate Framed(g: seq<byte>, n: nat) {
    && |g| == HEADER + n + 1 && n > 0 && g[..3] == [0xEB, 0xA0, 0xF9]
    && Announced(g) == n && Checksum(g[..HEADER + n]) == g[HEADER + n]
  }

  lemma FrameFramed(seqNo: u16, h: Header, payload: seq<byte>)
    requires 1 <= |payload| <= MAX_PAYLOAD
    ensures var g := Frame(seqNo, h, payload);
            Framed(g, |payload|) && g[HEADER..HEADER + |payload|] == payload
  {
    var g, u := Frame(seqNo, h, payload), Unchecked(seqNo, h, payload);
    AnnouncedOfFrame(seqNo, h, payload);
    assert g[..HEADER + |payload|] == u && g[..3] == u[..3];
    assert g[HEADER..HEADER + |payload|] == u[HEADER..];
  }

  /** The parser recovers the payload exactly when its length is from 1 to 65525. */
  lemma RoundTripIff(seqNo: u16, h: Header, payload: seq<byte>)
    ensures Parse(Frame(seqNo, h, payload)) == Some(payload) <==> 1 <= |payload| <= MAX_PAYLOAD
  {
    if 1 <= |payload| <= MAX_PAYLOAD {
      FrameFramed(seqNo, h, payload);
    } else {
      AnnouncedOfFrame(seqNo, h, payload);
    }
  }

  // ---------- One changed byte ----------

  lemma {:induction false} SumOfUpdate(b: seq<byte>, k: nat, v: byte)
    requires k < |b|
    ensures Sum(b[k := v]) == Sum(b) - b[k] + v
  {
    var n := |b| - 1;
    if k == n {
      assert b[k := v][..n] == b[..n];
    } else {
      SumOfUpdate(b[..n], k, v);
      assert b[k := v][..n] == b[..n][k := v];
    }
  }

  lemma ChecksumOfUpdate(f: seq<byte>, k: nat, v: byte)
    requires 3 <= k < |f| && v != f[k]
    ensures Checksum(f[k := v]) != Checksum(f)
  {
    SumOfUpdate(f[3..], k - 3, v);
    assert f[k := v][3..] == f[3..][k - 3 := v];
    var s := Sum(f[3..]);
    SmallShift(s, v - f[k]);
  }

  lemma SmallShift(s: nat, d: int)
    requires -256 < d < 256 && d != 0 && s + d >= 0
    ensures (s + d) % 256 != s % 256
  {
    var q, r := s / 256, s % 256;
    assert s == 256 * q + r;
    if 0 <= r + d < 256 {
      assert (s + d) % 256 == r + d;
    } else if r + d >= 256 {
      assert s + d == 256 * (q + 1) + (r + d - 256);
    } else {
      assert s + d == 256 * (q - 1) + (r + d + 256);
    }
  }

  /** A frame with one byte changed is accepted only if that byte belongs to the length field
      and now announces a shorter payload which happens to be followed by its checksum. */
  lemma OneByteChange(seqNo: u16, h: Header, payload: seq<byte>, k: nat, v: byte)
    requires 1 <= |payload| <= MAX_PAYLOAD
    requires var f := Frame(seqNo, h, payload); k < |f| && v != f[k]
    ensures var f := Frame(seqNo, h, payload)[k := v];
            var n := Announced(f);
            Parse(f) != None <==>
            && k in {5, 6} && 1 <= n < |payload| && Checksum(f[..HEADER + n]) == f[HEADER + n]
  {
    FrameFramed(seqNo, h, payload);
    OneByteOf(Frame(seqNo, h, payload), |payload|, k, v);
  }

  lemma OneByteOf(g: seq<byte>, n: nat, k: nat, v: byte)
    requires Framed(g, n) && k < |g| && v != g[k]
    ensures var f := g[k := v];
            var m := Announced(f);
            Parse(f) != None <==> k in {5, 6} && 1 <= m < n && Checksum(f[..HEADER + m]) == f[HEADER + m]
  {
    var f := g[k := v];
    if k < 3 {
      assert f[..3][k] == v && g[..3][k] != v;
    } else {
      assert f[..3] == g[..3];
      if k in {5, 6} {
        LengthChanged(g, k, v);
      } else {
        BodyChanged(g, n, k, v);
      }
    }
  }

  lemma LengthChanged(g: seq<byte>, k: nat, v: byte)
    requires |g| > HEADER && k in {5, 6} && v != g[k]
    ensures Announced(g[k := v]) != Announced(g)
  {}

  lemma BodyChanged(g: seq<byte>, n: nat, k: nat, v: byte)
    requires Framed(g, n) && 3 <= k < |g| && k !in {5, 6} && v != g[k]
    ensures !Intact(g[k := v])
  {
    var f := g[k := v];
    assert Announced(f) == n;
    if k == HEADER + n {
      assert f[..HEADER + n] == g[..HEADER + n];
    } else {
      assert f[..HEADER + n] == g[..HEADER + n][k := v];
      ChecksumOfUpdate(g[..HEADER + n], k, v);
    }
  }

  /** So outside the two length bytes every single changed byte is noticed ... */
  lemma OneByteOutsideLengthRejected(seqNo: u16, h: Header, payload: seq<byte>, k: nat, v: byte)
    requires 1 <= |payload| <= MAX_PAYLOAD
    requires var f := Frame(seqNo, h, payload); k < |f| && v != f[k] && k !in {5, 6}
    ensures Parse(Frame(seqNo, h, payload)[k := v]) == None
  {
    OneByteChange(seqNo, h, payload, k, v);
  }

  /** Bytes behind a frame do not matter to the parser. */
  lemma TrailingIgnored(seqNo: u16, h: Header, payload: seq<byte>, extra: seq<byte>)
    requires 1 <= |payload| <= MAX_PAYLOAD
    ensures Parse(Frame(seqNo, h, payload) + extra) == Some(payload)
  {
    FrameFramed(seqNo, h, payload);
    ExtraIgnored(Frame(seqNo, h, payload), |payload|, extra);
  }

  lemma ExtraIgnored(g: seq<byte>, n: nat, extra: seq<byte>)
    requires Framed(g, n)
    ensures Parse(g + extra) == Some(g[HEADER..HEADER + n])
  {
    var f := g + extra;
    assert f[5] == g[5] && f[6] == g[6] && f[..3] == g[..3];
    assert f[..HEADER + n] == g[..HEADER + n] && f[HEADER + n] == g[HEADER + n];
    assert f[HEADER..HEADER + n] == g[HEADER..HEADER + n];
  }

  /** With length byte `k` changed to `v`, the frame of the longer payload is accepted as one
      of the shorter. */
  predicate PassesAs(seqNo: u16, h: Header, longer: seq<byte>, payload: seq<byte>, k: nat, v: byte) {
    && |payload| < |longer| <= MAX_PAYLOAD && k in {5, 6}
    && var f := Frame(seqNo, h, longer); v != f[k] && Parse(f[k := v]) == Some(payload)
  }

  lemma LengthBytes(seqNo: u16, h: Header, payload: seq<byte>)
    requires |payload| <= MAX_PAYLOAD
    ensures var u := Unchecked(seqNo, h, payload); u[5] == Low(10 + |payload|) && u[6] == High(10 + |payload|)
  {
    var u := Unchecked(seqNo, h, payload);
    assert u[5] == u[5..7][0] && u[6] == u[5..7][1];
  }

  lemma OneLengthByte(seqNo: u16, h: Header, payload: seq<byte>, longer: seq<byte>, k: nat, v: byte)
    requires |payload| < |longer| <= MAX_PAYLOAD && longer[..|payload|] == payload && k in {5, 6}
    requires if k == 5 then High(10 + |longer|) == High(10 + |payload|) && v == Low(10 + |payload|)
             else Low(10 + |longer|) == Low(10 + |payload|) && v == High(10 + |payload|)
    ensures Unchecked(seqNo, h, longer)[k := v] == Unchecked(seqNo, h, payload) + longer[|payload|..]
  {
    LengthBytes(seqNo, h, payload);
    LengthBytes(seqNo, h, longer);
    assert longer == payload + longer[|payload|..];
  }

  lemma OneByteCutsOff(seqNo: u16, h: Header, payload: seq<byte>, more: seq<byte>, k: nat, v: byte)
    requires 1 <= |payload| && |payload| + 1 + |more| <= MAX_PAYLOAD && k in {5, 6}
    requires var n := 10 + |payload| + 1 + |more|;
             if k == 5 then High(n) == High(10 + |payload|) && Low(n) != v == Low(10 + |payload|)
             else Low(n) == Low(10 + |payload|) && High(n) != v == High(10 + |payload|)
    ensures var longer := payload + ([Checksum(Unchecked(seqNo, h, payload))] + more);
            PassesAs(seqNo, h, longer, payload, k, v)
  {
    var rest := [Checksum(Unchecked(seqNo, h, payload))] + more;
    var longer := payload + rest;
    assert longer[..|payload|] == payload && longer[|payload|..] == rest;
    OneLengthByte(seqNo, h, payload, longer, k, v);
    LengthBytes(seqNo, h, longer);
    var f, u := Frame(seqNo, h, longer), Unchecked(seqNo, h, longer);
    assert f[k := v] == u[k := v] + [Checksum(u)];
    assert f[k := v] == Frame(seqNo, h, payload) + (more + [Checksum(u)]);
    TrailingIgnored(seqNo, h, payload, more + [Checksum(u)]);
  }

  lemma LengthBytesApart(n: nat)
    requires n < 0xFFFF
    ensures if Low(n) < 255 then High(n + 1) == High(n) && Low(n + 1) != Low(n)
            else n + 256 <= 0xFFFF && Low(n + 256) == Low(n) && High(n + 256) != High(n)
  {}

  /** ... and inside them not: every payload but one of the greatest length has a longer one
      whose frame one changed length byte turns into its own. */
  lemma LongerPassesIff(seqNo: u16, h: Header, payload: seq<byte>)
    requires 1 <= |payload| <= MAX_PAYLOAD
    ensures (exists longer, k, v :: PassesAs(seqNo, h, longer, payload, k, v)) <==> |payload| < MAX_PAYLOAD
  {
    if |payload| < MAX_PAYLOAD {
      var n := 10 + |payload|;
      LengthBytesApart(n);
      if Low(n) < 255 {
        OneByteCutsOff(seqNo, h, payload, [], 5, Low(n));
      } else {
        OneByteCutsOff(seqNo, h, payload, Zeros(255), 6, High(n));
      }
    }
  }

  // ---------- What the checksum can not see ----------

  /** With the length intact a changed frame is accepted exactly when the two sums still
      agree modulo 256. */
  lemma BodyAcceptedIff(seqNo: u16, h: Header, payload: seq<byte>, f: seq<byte>)
    requires 1 <= |payload| <= MAX_PAYLOAD
    requires var g := Frame(seqNo, h, payload); |f| == |g| && f[..3] == g[..3] && f[5..7] == g[5..7]
    ensures var n := HEADER + |payload|;
            var g := Frame(seqNo, h, payload);
            Parse(f) != None <==> (Sum(f[3..n]) - f[n]) % 256 == (Sum(g[3..n]) - g[n]) % 256
  {
    FrameFramed(seqNo, h, payload);
    BodyIff(Frame(seqNo, h, payload), |payload|, f);
  }

  lemma BodyIff(g: seq<byte>, n: nat, f: seq<byte>)
    requires Framed(g, n) && |f| == |g| && f[..3] == g[..3] && f[5..7] == g[5..7]
    ensures var m := HEADER + n;
            && (Parse(f) != None <==> (Sum(f[3..m]) - f[m]) % 256 == (Sum(g[3..m]) - g[m]) % 256)
            && (Parse(f) != None ==> Parse(f) == Some(f[HEADER..m]))
  {
    var m := HEADER + n;
    assert f[5] == f[5..7][0] == g[5..7][0] == g[5] && f[6] == f[5..7][1] == g[5..7][1] == g[6];
    assert f[..m][3..] == f[3..m] && g[..m][3..] == g[3..m];
    SameResidue(Sum(f[3..m]), f[m]);
    SameResidue(Sum(g[3..m]), g[m]);
  }

  lemma SameResidue(s: nat, b: byte)
    ensures (s - b) % 256 == 0 <==> s % 256 == b
  {
    var q, r := s / 256, s % 256;
    assert s - b == 256 * q + (r - b);
    if r < b {
      assert s - b == 256 * (q - 1) + (r - b + 256);
    }
  }

  lemma SumOfExchange(b: seq<byte>, i: nat, j: nat)
    requires i < |b| && j < |b|
    ensures Sum(b[i := b[j]][j := b[i]]) == Sum(b)
  {
    SumOfUpdate(b, i, b[j]);
    SumOfUpdate(b[i := b[j]], j, b[i]);
  }

  /** Exchanging two payload bytes is never noticed. */
  lemma ExchangePasses(seqNo: u16, h: Header, payload: seq<byte>, i: nat, j: nat)
    requires i < |payload| <= MAX_PAYLOAD && j < |payload|
    ensures var f := Frame(seqNo, h, payload)[HEADER + i := payload[j]][HEADER + j := payload[i]];
            Parse(f) == Some(payload[i := payload[j]][j := payload[i]])
  {
    FrameFramed(seqNo, h, payload);
    ExchangeOf(Frame(seqNo, h, payload), |payload|, i, j);
  }

  lemma ExchangeOf(g: seq<byte>, n: nat, i: nat, j: nat)
    requires Framed(g, n) && i < n && j < n
    ensures var p := g[HEADER..HEADER + n];
            Parse(g[HEADER + i := p[j]][HEADER + j := p[i]]) == Some(p[i := p[j]][j := p[i]])
  {
    var p, m := g[HEADER..HEADER + n], HEADER + n;
    var f := g[HEADER + i := p[j]][HEADER + j := p[i]];
    var b := g[3..m];
    assert b[14 + i] == p[i] && b[14 + j] == p[j];
    SumOfExchange(b, 14 + i, 14 + j);
    assert f[3..m] == b[14 + i := b[14 + j]][14 + j := b[14 + i]];
    assert f[m] == g[m] && f[..3] == g[..3] && f[5..7] == g[5..7];
    BodyIff(g, n, f);
    assert f[HEADER..m] == p[i := p[j]][j := p[i]];
  }
}
