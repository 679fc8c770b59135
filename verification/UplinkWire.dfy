/** Packets of the uplink addressed protocol: resource request (20), resource allocation
    (12), message fragments (30, 31, 32) and the acknowledgement (13). */
module UplinkWire {
  import opened Bytes

  const CHUNK: nat := 100
  const MY_MMSI: u32 := 200000002
  const SAT_ID: byte := 99

  // ---------- The message and its fragments ----------

  function FragmentCount(message: seq<byte>): nat {
    (|message| + CHUNK - 1) / CHUNK
  }

  function ChunkSize(message: seq<byte>, i: nat): (n: nat)
    requires i < FragmentCount(message)
    ensures n <= CHUNK && CHUNK * i + n <= |message|
  {
    Min(CHUNK, |message| - CHUNK * i)
  }

  function Chunk(message: seq<byte>, i: nat): seq<byte>
    requires i < FragmentCount(message)
  {
    message[CHUNK * i..CHUNK * i + ChunkSize(message, i)]
  }

  /** Behind a header of fifteen bytes, the message from `start` on. */
  predicate PayloadFrom(p: seq<byte>, message: seq<byte>, start: nat) {
    |p| >= 15 && |p| - 15 <= |message| - start && forall k :: 15 <= k < |p| ==> p[k] == message[start + k - 15]
  }

  lemma PayloadBehind(h: seq<byte>, message: seq<byte>, start: nat, stop: nat)
    requires |h| == 15 && start <= stop <= |message|
    ensures var p := h + message[start..stop]; |p| == 15 + stop - start && h <= p && PayloadFrom(p, message, start)
  {}

  /** The first `n` fragments' worth of the message. */
  function Prefix(message: seq<byte>, n: nat): seq<byte> {
    message[..Min(CHUNK * n, |message|)]
  }

  lemma PrefixGrows(message: seq<byte>, i: nat)
    requires i < FragmentCount(message)
    ensures Prefix(message, i + 1) == Prefix(message, i) + Chunk(message, i)
    ensures i + 1 == FragmentCount(message) ==> Prefix(message, i + 1) == message
  {}

  /** Start, middle or end. */
  function FragmentType(count: nat, i: nat): byte {
    if i + 1 == count then 32 else if i == 0 then 30 else 31
  }

  /** The two-byte number field: the start fragment carries how many follow, the others
      their own number, either one cut to sixteen bits. */
  function NumberField(count: nat, i: nat): u16
    requires i < count
  {
    if FragmentType(count, i) == 30 then (count - 1) % 0x1_0000 else i % 0x1_0000
  }

  function FragmentPacket(message: seq<byte>, i: nat, mmsi: u32, session: byte, dest: u32): seq<byte>
    requires i < FragmentCount(message)
  {
    var count := FragmentCount(message);
    [FragmentType(count, i)] + BigEndian16(ChunkSize(message, i)) + BigEndian32(mmsi)
    + [SAT_ID, session] + BigEndian32(dest) + BigEndian16(NumberField(count, i)) + Chunk(message, i)
  }

  // ---------- What the satellite reads ----------

  datatype Uplink =
    | Request(ship: u32)
    | Fragment(kind: byte, ship: u32, session: byte, num: u16, data: seq<byte>)
    | Other

  function DecodeUplink(raw: seq<byte>): Uplink {
    if raw == [] then Other
    else if raw[0] == 20 then Request(if |raw| >= 5 then Quad(raw[1..5]) else 200000002)
    else if raw[0] in {30, 31, 32} && |raw| >= 15 then
      Fragment(raw[0], Quad(raw[3..7]), raw[8], Pair(raw[13], raw[14]), raw[15..])
    else Other
  }

  function FragmentOf(message: seq<byte>, i: nat, mmsi: u32, session: byte): Uplink
    requires i < FragmentCount(message)
  {
    var count := FragmentCount(message);
    Fragment(FragmentType(count, i), mmsi, session, NumberField(count, i), Chunk(message, i))
  }

  /** One of the fragments of the message, as this ship sends it under the session id. */
  ghost predicate IsFragmentOf(u: Uplink, message: seq<byte>, session: byte) {
    exists i :: 0 <= i < FragmentCount(message) && u == FragmentOf(message, i, MY_MMSI, session)
  }

  /** The satellite reads back exactly the fields the ship packed. */
  lemma FragmentRoundTrip(message: seq<byte>, i: nat, mmsi: u32, session: byte, dest: u32)
    requires i < FragmentCount(message)
    ensures DecodeUplink(FragmentPacket(message, i, mmsi, session, dest)) == FragmentOf(message, i, mmsi, session)
  {
    var p := FragmentPacket(message, i, mmsi, session, dest);
    var number := NumberField(FragmentCount(message), i);
    QuadOf(mmsi);
    PairOf(number);
    assert p[3..7] == BigEndian32(mmsi);
    assert p[13] == High(number) && p[14] == Low(number);
    assert p[15..] == Chunk(message, i);
  }

  // ---------- What the gateway's listener reads of a fragment ----------

  datatype BaseFragment = BaseFragment(
    kind: byte, fieldSize: u16, src: u32, sat: byte, session: byte, dest: u32, num: u16, payload: seq<byte>)

  function ReadBaseFragment(raw: seq<byte>): BaseFragment
    requires |raw| >= 15
  {
    BaseFragment(raw[0], Pair(raw[1], raw[2]), Quad(raw[3..7]), raw[7], raw[8], Quad(raw[9..13]),
                 Pair(raw[13], raw[14]), raw[15..])
  }

  /** Every field of an uplink fragment is where the listener looks for it. */
  lemma ListenerReadsUplink(message: seq<byte>, i: nat, mmsi: u32, session: byte, dest: u32)
    requires i < FragmentCount(message)
    ensures ReadBaseFragment(FragmentPacket(message, i, mmsi, session, dest))
         == BaseFragment(FragmentType(FragmentCount(message), i), ChunkSize(message, i), mmsi, SAT_ID, session, dest,
                         NumberField(FragmentCount(message), i), Chunk(message, i))
  {
    var count := FragmentCount(message);
    HeaderFields(FragmentType(count, i), ChunkSize(message, i), mmsi, session, dest, NumberField(count, i),
                 Chunk(message, i));
  }

  lemma HeaderFields(kind: byte, size: u16, mmsi: u32, session: byte, dest: u32, num: u16, payload: seq<byte>)
    ensures ReadBaseFragment([kind] + BigEndian16(size) + BigEndian32(mmsi) + [SAT_ID, session]
                             + BigEndian32(dest) + BigEndian16(num) + payload)
         == BaseFragment(kind, size, mmsi, SAT_ID, session, dest, num, payload)
  {
    var p := [kind] + BigEndian16(size) + BigEndian32(mmsi) + [SAT_ID, session]
      + BigEndian32(dest) + BigEndian16(num) + payload;
    PairOf(size);
    PairOf(num);
    QuadOf(mmsi);
    QuadOf(dest);
    assert p[3..7] == BigEndian32(mmsi) && p[9..13] == BigEndian32(dest) && p[15..] == payload;
  }

  function RequestPacket(mmsi: u32): seq<byte> {
    [20] + BigEndian32(mmsi) + [SAT_ID, 180, 16, 214, 0]
  }

  lemma RequestRoundTrip(mmsi: u32)
    ensures DecodeUplink(RequestPacket(mmsi)) == Request(mmsi)
  {
    QuadOf(mmsi);
    assert RequestPacket(mmsi)[1..5] == BigEndian32(mmsi);
  }

  // ---------- What the ship reads ----------

  datatype Grant = Grant(channel: byte, linkId: byte, session: byte)

  /** What entry `i` of an allocation packet, eight bytes long, grants to this ship. */
  function EntryGrant(raw: seq<byte>, i: nat): (g: seq<Grant>)
    requires |raw| >= 11 + 8 * i
    ensures |g| <= 1
  {
    var idx := 3 + i * 8;
    if Quad(raw[idx..idx + 4]) == MY_MMSI then [Grant(raw[idx + 4], raw[idx + 5], raw[idx + 6])] else []
  }

  function FirstGrants(raw: seq<byte>, n: nat): seq<Grant>
    requires |raw| >= 3 + 8 * n
  {
    if n == 0 then [] else FirstGrants(raw, n - 1) + EntryGrant(raw, n - 1)
  }

  /** At most four entries are read. */
  function DecodeAllocation(raw: seq<byte>): seq<Grant> {
    if |raw| < 3 || raw[0] != 12 then [] else FirstGrants(raw, Min((|raw| - 3) / 8, 4))
  }

  function AllocationPacket(ship: u32, channel: byte, session: byte): seq<byte> {
    [12, 0, 8] + BigEndian32(ship) + [channel, (20 + session) % 256, session, 100]
  }

  lemma AllocationRoundTrip(ship: u32, channel: byte, session: byte)
    ensures DecodeAllocation(AllocationPacket(ship, channel, session))
         == if ship == MY_MMSI then [Grant(channel, (20 + session) % 256, session)] else []
  {
    var p := AllocationPacket(ship, channel, session);
    QuadOf(ship);
    assert p[3..7] == BigEndian32(ship);
    assert FirstGrants(p, 1) == EntryGrant(p, 0);
  }

  datatype Ack = Ack(ship: u32, session: byte, realloc: byte, mask: seq<byte>)

  function DecodeAck(raw: seq<byte>): (a: Option<Ack>)
    ensures a.Some? ==> |a.value.mask| >= 25
  {
    if |raw| < 35 || raw[0] != 13 then None
    else Some(Ack(Quad(raw[2..6]), raw[6], raw[7], raw[10..]))
  }

  function ZeroMask(): (m: seq<byte>)
    ensures |m| == 25
  {
    Zeros(25)
  }

  /** The only acknowledgement the satellite sends: no reallocation, empty mask. */
  function AckPacket(ship: u32, session: byte): seq<byte> {
    [13, SAT_ID] + BigEndian32(ship) + [session, 0, 100, 0] + ZeroMask()
  }

  lemma AckRoundTrip(ship: u32, session: byte)
    ensures DecodeAck(AckPacket(ship, session)) == Some(Ack(ship, session, 0, ZeroMask()))
  {
    var p := AckPacket(ship, session);
    QuadOf(ship);
    assert p[2..6] == BigEndian32(ship);
    assert p[10..] == ZeroMask();
  }

  /** Bit `k` of the mask, most significant bit of each byte first. */
  predicate MaskBit(mask: seq<byte>, k: nat)
    requires k < 8 * |mask|
  {
    (mask[k / 8] / Power2(7 - k % 8)) % 2 == 1
  }

  /** The first `n` bits of the mask. */
  function MaskBits(mask: seq<byte>, n: nat): (bits: seq<bool>)
    requires n <= 8 * |mask|
    ensures |bits| == n && forall k :: 0 <= k < n ==> bits[k] == MaskBit(mask, k)
  {
    seq(n, k requires 0 <= k < n => MaskBit(mask, k))
  }
}
