/** Where the two meet: fragments whose data starts with FF FE go to the file receiver
    (SatelliteSim/simulator.cpp, SatelliteSim/filetransferhandler.cpp).  The file receiver waits
    for a chunk with number 0, and places chunks 64 KiB apart. */
module UplinkFiles {
  import opened Bytes
  import opened UplinkWire
  import Sat = UplinkSatellite
  import Files = FileReassembly
  import BoardFrame
  import Clock = SlotClock

  type Receiver = map<Files.Key, Files.Recv>

  /** What the satellite does with a diverted fragment; others do not concern the receiver. */
  function Divert(r: Receiver, u: Uplink): Files.Result {
    if u.Fragment? && Sat.IsFileChunk(u.data) then
      Files.ReceiveChunk(r, Files.Key(u.ship, u.session), u.num, u.data[2..], u.kind == 32)
    else Files.Result(r, true, false, None)
  }

  /** The fragments that are diverted here are the ones the satellite keeps no data of. */
  lemma DivertedIsNotKept(s: Sat.Satellite, u: Uplink, slot: Clock.Slot)
    requires u.Fragment?
    ensures Sat.Accept(s, u, slot).diverted <==> Sat.IsFileChunk(u.data)
    ensures Sat.IsFileChunk(u.data) ==> Sat.Accept(s, u, slot).s == s
  {}

  datatype Transfer = Transfer(r: Receiver, files: seq<seq<byte>>)

  /** Fragments of one message in any order, with losses and repetitions. */
  function DivertAll(r: Receiver, message: seq<byte>, order: seq<nat>, ship: u32, id: byte): Transfer
    requires Sat.Order(message, order)
  {
    if order == [] then Transfer(r, [])
    else
      var n := |order| - 1;
      var before := DivertAll(r, message, order[..n], ship, id);
      var o := Divert(before.r, FragmentOf(message, order[n], ship, id));
      Transfer(o.sessions, before.files + if o.finished.Some? then [o.finished.value] else [])
  }

  /** No fragment bears number 0, because the first bears how many follow. */
  lemma NumberNeverZero(count: nat, i: nat)
    requires i < count && 2 <= count <= Sat.MAX_FRAGMENTS
    ensures NumberField(count, i) != 0
  {}

  /** A message of several fragments never starts a file, whatever they hold. */
  lemma {:induction false} NoFileOfSeveral(r: Receiver, message: seq<byte>, order: seq<nat>, ship: u32, id: byte)
    requires Sat.Order(message, order) && 2 <= FragmentCount(message) <= Sat.MAX_FRAGMENTS
    requires Files.Key(ship, id) !in r
    ensures DivertAll(r, message, order, ship, id) == Transfer(r, [])
  {
    if order != [] {
      var n := |order| - 1;
      NoFileOfSeveral(r, message, order[..n], ship, id);
      NumberNeverZero(FragmentCount(message), order[n]);
    }
  }

  lemma OneFragmentFile(r: Receiver, message: seq<byte>, ship: u32, id: byte)
    requires FragmentCount(message) == 1 && Files.Key(ship, id) !in r
    ensures var o := Divert(r, FragmentOf(message, 0, ship, id));
            && o.sessions == r
            && o.finished == if Sat.IsFileChunk(message) then Some(message[2..]) else None
  {
    assert Chunk(message, 0) == message;
    assert r - {Files.Key(ship, id)} == r;
    if Sat.IsFileChunk(message) {
      assert Files.WriteAt([], 0, message[2..]) == message[2..];
    }
  }

  lemma {:induction false} FilesOfOne(r: Receiver, message: seq<byte>, order: seq<nat>, ship: u32, id: byte)
    requires Sat.Order(message, order) && FragmentCount(message) == 1 && Files.Key(ship, id) !in r
    ensures var t := DivertAll(r, message, order, ship, id);
            && t.r == r && |t.files| == (if Sat.IsFileChunk(message) then |order| else 0)
            && forall k :: 0 <= k < |t.files| ==> Sat.IsFileChunk(message) && t.files[k] == message[2..]
  {
    if order != [] {
      FilesOfOne(r, message, order[..|order| - 1], ship, id);
      OneFragmentFile(r, message, ship, id);
    }
  }

  ghost predicate CanArrive(r: Receiver, message: seq<byte>, ship: u32, id: byte) {
    exists order :: Sat.Order(message, order) && DivertAll(r, message, order, ship, id).files != []
  }

  /** So a file can only be uploaded in one fragment, that is up to 98 bytes; every message of
      more fragments is refused piece by piece, because no file session ever starts. */
  lemma FileArrivesIff(r: Receiver, message: seq<byte>, ship: u32, id: byte)
    requires 1 <= FragmentCount(message) <= Sat.MAX_FRAGMENTS && Files.Key(ship, id) !in r
    ensures CanArrive(r, message, ship, id) <==> 2 <= |message| <= 100 && message[0] == 0xFF && message[1] == 0xFE
    ensures forall order :: Sat.Order(message, order) ==>
              var t := DivertAll(r, message, order, ship, id);
              t.r == r && forall k :: 0 <= k < |t.files| ==> |message| >= 2 && t.files[k] == message[2..]
  {
    forall order | Sat.Order(message, order)
      ensures var t := DivertAll(r, message, order, ship, id);
              && t.r == r && (forall k :: 0 <= k < |t.files| ==> |message| >= 2 && t.files[k] == message[2..])
              && (t.files != [] ==> |message| <= 100 && Sat.IsFileChunk(message))
    {
      if FragmentCount(message) == 1 {
        FilesOfOne(r, message, order, ship, id);
      } else {
        NoFileOfSeveral(r, message, order, ship, id);
      }
    }
    if |message| <= 100 && Sat.IsFileChunk(message) {
      FilesOfOne(r, message, [0], ship, id);
      assert Sat.Order(message, [0]);
    }
  }

  /** And no frame the satellite accepts carries a full chunk of the receiver's size: only a last
      chunk can arrive as the receiver expects it. */
  lemma NoFullChunk(d: seq<byte>, source: seq<byte>, n: nat)
    requires BoardFrame.Parse(d).Some? && DecodeUplink(BoardFrame.Parse(d).value).Fragment?
    requires var data := DecodeUplink(BoardFrame.Parse(d).value).data;
             Sat.IsFileChunk(data) && data[2..] == Files.Chunk(source, n)
    ensures n + 1 >= Files.Count(|source|)
  {
    assert |Files.Chunk(source, n)| <= 65508;
    Files.CountBounds(|source|, n + 1);
  }
}
