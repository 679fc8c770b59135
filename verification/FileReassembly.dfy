/** Files cut into 64 KiB chunks and put together again (SatelliteSim/filetransferhandler.cpp). */
module FileReassembly {
  import opened Bytes

  const CHUNK: nat := 0x1_0000

  function Count(size: nat): nat {
    (size + CHUNK - 1) / CHUNK
  }

  /** Up to 64 KiB from the given offset, as reading a file there yields. */
  function ReadAt(source: seq<byte>, pos: nat): (data: seq<byte>)
    ensures |data| <= CHUNK
  {
    if pos >= |source| then [] else source[pos..Min(pos + CHUNK, |source|)]
  }

  function Chunk(source: seq<byte>, n: nat): seq<byte> {
    ReadAt(source, CHUNK * n)
  }

  // ---------- Sending ----------

  /** The offset is a product of two 32-bit numbers, computed in 32 bits. */
  function Offset(sent: nat): nat {
    (CHUNK * sent) % 0x1_0000_0000
  }

  /** The number of chunks is kept in 32 bits, too. */
  function ChunksToSend(size: nat): nat {
    Count(size) % 0x1_0000_0000
  }

  datatype Sent = Sent(data: seq<byte>, num: nat, isLast: bool)

  /** One call of the timer-driven sender; no further chunk means the file is done. */
  class SendSession {
    const source: seq<byte>
    const totalChunks: nat
    var sentChunks: nat

    constructor (source: seq<byte>)
      ensures this.source == source && totalChunks == ChunksToSend(|source|) && sentChunks == 0
    {
      this.source := source;
      totalChunks := (|source| + CHUNK - 1) / CHUNK % 0x1_0000_0000;
      sentChunks := 0;
    }

    method SendNextChunk() returns (sent: Option<Sent>)
      requires sentChunks <= totalChunks
      modifies this`sentChunks
      ensures if old(sentChunks) == totalChunks then sent == None && sentChunks == old(sentChunks)
              else
                && sentChunks == old(sentChunks) + 1
                && sent == Some(Sent(ReadAt(source, Offset(old(sentChunks))), old(sentChunks),
                                     sentChunks == totalChunks))
    {
      if sentChunks >= totalChunks {
        return None;
      }
      var pos := CHUNK * sentChunks % 0x1_0000_0000;
      var data := ReadAt(source, pos);
      sent := Some(Sent(data, sentChunks, sentChunks + 1 >= totalChunks));
      sentChunks := sentChunks + 1;
    }
  }

  /** Every chunk is sent, and each carries its own part of the file. */
  ghost predicate SentFaithfully(source: seq<byte>) {
    && ChunksToSend(|source|) == Count(|source|)
    && forall n :: 0 <= n < Count(|source|) ==> ReadAt(source, Offset(n)) == Chunk(source, n)
  }

  lemma OffsetExact(n: nat)
    requires n < 0x1_0000
    ensures Offset(n) == CHUNK * n
  {}

  /** Files up to 4 GiB are sent faithfully whatever they hold, and longer ones are not. */
  lemma FaithfulIffBelow4GiB(size: nat)
    ensures (forall source: seq<byte> :: |source| == size ==> SentFaithfully(source)) <==> size <= 0x1_0000_0000
  {
    if size <= 0x1_0000_0000 {
      forall source: seq<byte> | |source| == size ensures SentFaithfully(source) {
        forall n | 0 <= n < Count(size) ensures ReadAt(source, Offset(n)) == Chunk(source, n) {
          OffsetExact(n);
        }
      }
    } else {
      var source := OneMark(size, 0x1_0000_0000);
      Offset65536();
      assert Chunk(source, 0x1_0000)[0] == 1 && ReadAt(source, 0)[0] == 0;
      assert !SentFaithfully(source);
    }
  }

  lemma Offset65536()
    ensures Offset(0x1_0000) == 0 && CHUNK * 0x1_0000 == 0x1_0000_0000
  {}

  function OneMark(size: nat, at: nat): (s: seq<byte>)
    ensures |s| == size && forall k :: 0 <= k < size ==> s[k] == if k == at then 1 else 0
  {
    seq(size, k => if k == at then 1 else 0)
  }

  // ---------- Receiving ----------

  datatype Key = Key(ship: u32, session: byte)

  datatype Recv = Recv(content: seq<byte>, chunks: set<nat>, received: nat)

  datatype Result = Result(sessions: map<Key, Recv>, ok: bool, isComplete: bool, finished: Option<seq<byte>>)

  /** Writing behind the end leaves a gap of zeros; writing nothing leaves the file alone. */
  function WriteAt(content: seq<byte>, offset: nat, data: seq<byte>): (c: seq<byte>)
    ensures data != [] ==> |c| == if offset + |data| > |content| then offset + |data| else |content|
    ensures forall p :: offset <= p < offset + |data| ==> p < |c| && c[p] == data[p - offset]
    ensures forall p :: 0 <= p < |c| && !(offset <= p < offset + |data|) ==>
              c[p] == if p < |content| then content[p] else 0
  {
    if data == [] then content
    else
      var padded := if offset > |content| then content + Zeros(offset - |content|) else content;
      padded[..offset] + data + (if offset + |data| < |padded| then padded[offset + |data|..] else [])
  }

  function ReceiveChunk(sessions: map<Key, Recv>, key: Key, num: nat, data: seq<byte>, isLast: bool): Result {
    if key !in sessions && num != 0 then Result(sessions, false, false, None)
    else
      var r := if key in sessions then sessions[key] else Recv([], {}, 0);
      if num in r.chunks then Result(sessions[key := r], true, isLast, None)
      else
        var r' := Recv(WriteAt(r.content, CHUNK * num, data), r.chunks + {num}, r.received + 1);
        if isLast then Result(sessions - {key}, true, true, Some(r'.content))
        else Result(sessions[key := r'], true, false, None)
  }

  class FileReceiver {
    var recvSessions: map<Key, Recv>

    constructor ()
      ensures recvSessions == map[]
    {
      recvSessions := map[];
    }

    method Receive(key: Key, fragmentNum: nat, data: seq<byte>, isLast: bool)
      returns (ok: bool, isComplete: bool, finished: Option<seq<byte>>)
      modifies this
      ensures Result(recvSessions, ok, isComplete, finished)
           == ReceiveChunk(old(recvSessions), key, fragmentNum, data, isLast)
    {
      isComplete, finished := false, None;
      if key !in recvSessions {
        if fragmentNum != 0 {
          return false, false, None;
        }
        recvSessions := recvSessions[key := Recv([], {}, 0)];
      }
      var session := recvSessions[key];
      if fragmentNum in session.chunks {
        if isLast {
          isComplete := true;
        }
        return true, isComplete, None;
      }
      var offset := CHUNK * fragmentNum;
      var content := WriteAt(session.content, offset, data);
      session := Recv(content, session.chunks + {fragmentNum}, session.received + 1);
      recvSessions := recvSessions[key := session];
      if isLast {
        finished := Some(content);
        recvSessions := recvSessions - {key};
        isComplete := true;
      }
      ok := true;
    }
  }

  /** A chunk is taken when its session runs or it is the first; completion is announced with the
      last one, even when that comes a second time, but a file is finished only by its first
      arrival; and sessions of other ships or other numbers are left alone. */
  lemma ReceivedIff(sessions: map<Key, Recv>, key: Key, num: nat, data: seq<byte>, isLast: bool)
    ensures var o, known := ReceiveChunk(sessions, key, num, data, isLast), key in sessions;
            var repeated := known && num in sessions[key].chunks;
            && (o.ok <==> known || num == 0) && (o.isComplete <==> o.ok && isLast)
            && (o.finished.Some? <==> o.ok && isLast && !repeated)
            && (key in o.sessions <==> o.ok && (repeated || !isLast))
            && forall other :: other != key ==>
                 (other in o.sessions <==> other in sessions)
                 && (other in sessions ==> o.sessions[other] == sessions[other])
  {}

  // ---------- Chunks of one file, in any order ----------

  /** Chunk `n` is the n-th 64 KiB of the file, and the last one ends it. */
  lemma ChunkIs(source: seq<byte>, n: nat)
    requires 65536 * n < |source|
    ensures Chunk(source, n) == source[65536 * n..if 65536 * n + 65536 < |source| then 65536 * n + 65536 else |source|]
    ensures n < Count(|source|) && (n + 1 == Count(|source|) <==> |source| <= 65536 * n + 65536)
  {}

  /** The file with every missing chunk blanked, cut off at `len`. */
  function Patched(source: seq<byte>, chunks: set<nat>, len: nat): (c: seq<byte>)
    requires len <= |source|
    ensures |c| == len
    ensures forall p :: 0 <= p < len ==> c[p] == if ChunkOf(p) in chunks then source[p] else 0
  {
    seq(len, p requires 0 <= p < len => if ChunkOf(p) in chunks then source[p] else 0)
  }

  function ChunkOf(p: nat): nat {
    p / CHUNK
  }

  function EndOf(source: seq<byte>, n: nat): (e: nat)
    ensures e <= |source|
  {
    Min(CHUNK * (n + 1), |source|)
  }

  lemma ChunkBounds(p: nat, n: nat)
    ensures ChunkOf(p) == n <==> CHUNK * n <= p < CHUNK * n + CHUNK
  {}

  lemma CountBounds(size: nat, n: nat)
    ensures n < Count(size) <==> CHUNK * n < size
  {}

  /** What a running session holds: the chunks received, up to the end of the highest one. */
  ghost predicate Holds(r: Recv, source: seq<byte>, high: nat) {
    && high in r.chunks && high < Count(|source|)
    && (forall c :: c in r.chunks ==> c <= high)
    && r.content == Patched(source, r.chunks, EndOf(source, high))
    && r.received == |r.chunks|
  }

  ghost predicate Running(sessions: map<Key, Recv>, key: Key, source: seq<byte>) {
    key in sessions ==> exists high :: Holds(sessions[key], source, high)
  }

  function Arrive(sessions: map<Key, Recv>, key: Key, source: seq<byte>, n: nat): Result {
    ReceiveChunk(sessions, key, n, Chunk(source, n), n + 1 == Count(|source|))
  }

  lemma WritePatched(source: seq<byte>, chunks: set<nat>, high: nat, n: nat)
    requires n < Count(|source|) && high < Count(|source|) && high in chunks && n !in chunks
    requires forall c :: c in chunks ==> c <= high
    ensures WriteAt(Patched(source, chunks, EndOf(source, high)), CHUNK * n, Chunk(source, n))
         == Patched(source, chunks + {n}, EndOf(source, if n > high then n else high))
  {
    var top := if n > high then n else high;
    var before, data := Patched(source, chunks, EndOf(source, high)), Chunk(source, n);
    var after := WriteAt(before, CHUNK * n, data);
    CountBounds(|source|, n);
    CountBounds(|source|, high);
    assert |after| == EndOf(source, top);
    forall p | 0 <= p < |after| ensures after[p] == if ChunkOf(p) in chunks + {n} then source[p] else 0 {
      ChunkBounds(p, n);
      ChunkBounds(p, ChunkOf(p));
    }
  }

  lemma FirstPatched(source: seq<byte>)
    requires Count(|source|) > 0
    ensures WriteAt([], 0, Chunk(source, 0)) == Patched(source, {0}, EndOf(source, 0))
  {
    var c := WriteAt([], 0, Chunk(source, 0));
    forall p | 0 <= p < |c| ensures ChunkOf(p) == 0 {
      ChunkBounds(p, 0);
    }
  }

  /** Before a chunk arrives: what the session holds, nothing if there is none. */
  function Received(sessions: map<Key, Recv>, key: Key): set<nat> {
    if key in sessions then sessions[key].chunks else {}
  }

  /** Any chunk of the file, in any state: a running session holds the chunks received, and a
      file that is finished is the source with the chunks this session missed blanked. */
  lemma ArriveStep(sessions: map<Key, Recv>, key: Key, source: seq<byte>, n: nat)
    requires Running(sessions, key, source) && n < Count(|source|)
    ensures var o := Arrive(sessions, key, source, n);
            && Running(o.sessions, key, source)
            && (o.finished.Some? ==>
                  o.finished.value == Patched(source, Received(sessions, key) + {n}, |source|))
            && (o.ok && o.finished.None? ==> Received(o.sessions, key) == Received(sessions, key) + {n})
  {
    var o := Arrive(sessions, key, source, n);
    if key in sessions && n !in sessions[key].chunks {
      var r := sessions[key];
      var high :| Holds(r, source, high);
      var top := if n > high then n else high;
      WritePatched(source, r.chunks, high, n);
      LastEnds(source, n, top);
      var r' := Recv(WriteAt(r.content, CHUNK * n, Chunk(source, n)), r.chunks + {n}, r.received + 1);
      assert Holds(r', source, top);
    } else if key in sessions {
      assert sessions[key := sessions[key]] == sessions;
      assert Received(sessions, key) + {n} == Received(sessions, key);
    } else if n == 0 {
      FirstPatched(source);
      LastEnds(source, 0, 0);
      var r' := Recv(WriteAt([], CHUNK * 0, Chunk(source, 0)), {} + {0}, 1);
      assert {} + {0} == {0} && Holds(r', source, 0);
    }
  }

  lemma LastEnds(source: seq<byte>, n: nat, top: nat)
    requires n <= top < Count(|source|)
    ensures n + 1 == Count(|source|) ==> EndOf(source, top) == |source|
  {
    CountBounds(|source|, n + 1);
  }

  // ---------- Runs ----------

  datatype Transfer = Transfer(sessions: map<Key, Recv>, files: seq<seq<byte>>)

  function ArriveAll(key: Key, source: seq<byte>, order: seq<nat>): Transfer {
    if order == [] then Transfer(map[], [])
    else
      var before := ArriveAll(key, source, order[..|order| - 1]);
      var o := Arrive(before.sessions, key, source, order[|order| - 1]);
      Transfer(o.sessions, before.files + if o.finished.Some? then [o.finished.value] else [])
  }

  predicate InFile(source: seq<byte>, order: seq<nat>) {
    forall i :: 0 <= i < |order| ==> order[i] < Count(|source|)
  }

  lemma {:induction false} AlwaysRunning(key: Key, source: seq<byte>, order: seq<nat>)
    requires InFile(source, order)
    ensures Running(ArriveAll(key, source, order).sessions, key, source)
  {
    if order != [] {
      AlwaysRunning(key, source, order[..|order| - 1]);
      ArriveStep(ArriveAll(key, source, order[..|order| - 1]).sessions, key, source, order[|order| - 1]);
    }
  }

  /** Whatever arrived before, every chunk counted as received is already in place, the rest
      is blank, and the counter is the number of chunks. */
  lemma PartlyReceived(key: Key, source: seq<byte>, order: seq<nat>, p: nat)
    requires InFile(source, order) && key in ArriveAll(key, source, order).sessions
    ensures var r := ArriveAll(key, source, order).sessions[key];
            && r.received == |r.chunks| && |r.content| <= |source|
            && (p < |r.content| ==> r.content[p] == if ChunkOf(p) in r.chunks then source[p] else 0)
            && (p < |source| && ChunkOf(p) in r.chunks ==> p < |r.content|)
  {
    AlwaysRunning(key, source, order);
    var r := ArriveAll(key, source, order).sessions[key];
    var high :| Holds(r, source, high);
    ChunkBounds(p, ChunkOf(p));
  }

  predicate Blank(data: seq<byte>) {
    forall k :: 0 <= k < |data| ==> data[k] == 0
  }

  /** Every chunk of the source that is not in the set is all zeros. */
  predicate RestBlank(source: seq<byte>, chunks: set<nat>) {
    forall c :: 0 <= c < Count(|source|) && c !in chunks ==> Blank(Chunk(source, c))
  }

  lemma PatchedIsSourceIff(source: seq<byte>, chunks: set<nat>)
    ensures Patched(source, chunks, |source|) == source <==> RestBlank(source, chunks)
  {
    var patched := Patched(source, chunks, |source|);
    if patched == source {
      forall c | 0 <= c < Count(|source|) && c !in chunks ensures Blank(Chunk(source, c)) {
        forall k | 0 <= k < |Chunk(source, c)| ensures Chunk(source, c)[k] == 0 {
          ChunkBounds(CHUNK * c + k, c);
          assert patched[CHUNK * c + k] == 0;
        }
      }
    }
    if RestBlank(source, chunks) {
      forall p | 0 <= p < |source| ensures patched[p] == source[p] {
        if ChunkOf(p) !in chunks {
          BlankAt(source, chunks, p);
        }
      }
    }
  }

  lemma BlankAt(source: seq<byte>, chunks: set<nat>, p: nat)
    requires RestBlank(source, chunks) && p < |source| && ChunkOf(p) !in chunks
    ensures source[p] == 0
  {
    var c := ChunkOf(p);
    ChunkBounds(p, c);
    CountBounds(|source|, c);
    assert Chunk(source, c)[p - CHUNK * c] == source[p];
  }

  /** Whatever arrived before: the last chunk finishes the file at once unless it is refused,
      which happens to one that comes first and is not the only chunk; and the finished file is
      right exactly when every chunk still missing is all zeros in the source. */
  lemma FinishedRightIff(key: Key, source: seq<byte>, order: seq<nat>, last: nat)
    requires InFile(source, order) && last + 1 == Count(|source|)
    ensures var before := ArriveAll(key, source, order).sessions;
            var o := Arrive(before, key, source, last);
            && (o.finished.Some? <==> key in before || last == 0)
            && (o.finished.Some? ==> key !in o.sessions)
            && (o.finished.Some? ==>
                  (o.finished.value == source <==> RestBlank(source, Received(before, key) + {last})))
  {
    AlwaysRunning(key, source, order);
    LastNotHeld(key, source, order, last);
    FinishStep(ArriveAll(key, source, order).sessions, key, source, last);
  }

  lemma FinishStep(sessions: map<Key, Recv>, key: Key, source: seq<byte>, last: nat)
    requires last + 1 == Count(|source|) && Running(sessions, key, source)
    requires last !in Received(sessions, key)
    ensures var o := Arrive(sessions, key, source, last);
            && (o.finished.Some? <==> key in sessions || last == 0)
            && (o.finished.Some? ==> key !in o.sessions)
            && (o.finished.Some? ==>
                  (o.finished.value == source <==> RestBlank(source, Received(sessions, key) + {last})))
  {
    ArriveStep(sessions, key, source, last);
    PatchedIsSourceIff(source, Received(sessions, key) + {last});
  }

  /** A session that holds the last chunk is over. */
  lemma {:induction false} LastNotHeld(key: Key, source: seq<byte>, order: seq<nat>, last: nat)
    requires InFile(source, order) && last + 1 == Count(|source|)
    ensures last !in Received(ArriveAll(key, source, order).sessions, key)
  {
    if order != [] {
      LastNotHeld(key, source, order[..|order| - 1], last);
    }
  }

  /** Chunk 0 first and every other chunk before the last, in any order and any number of
      times; of a file of one chunk, nothing. */
  predicate LastStillMissing(source: seq<byte>, order: seq<nat>, last: nat) {
    && last + 1 == Count(|source|)
    && (if last == 0 then order == [] else |order| > 0 && order[0] == 0)
    && (forall i :: 0 <= i < |order| ==> order[i] < last)
    && (forall c :: 0 <= c < last ==> c in order)
  }

  /** Then the last chunk finishes the file, and the file is the source. */
  lemma AnyOrderWithLastAtEnd(key: Key, source: seq<byte>, order: seq<nat>, last: nat)
    requires LastStillMissing(source, order, last)
    ensures var before := ArriveAll(key, source, order);
            && before.files == [] && (last > 0 ==> key in before.sessions)
            && Arrive(before.sessions, key, source, last).finished == Some(source)
  {
    if last > 0 {
      HoldsAll(key, source, order, last);
    }
    FinishedRightIff(key, source, order, last);
    NothingMissing(source, Received(ArriveAll(key, source, order).sessions, key), last);
  }

  lemma NothingMissing(source: seq<byte>, chunks: set<nat>, last: nat)
    requires last + 1 == Count(|source|) && forall c :: 0 <= c < last ==> c in chunks
    ensures RestBlank(source, chunks + {last})
  {}

  lemma {:induction false} HoldsAll(key: Key, source: seq<byte>, order: seq<nat>, last: nat)
    requires |order| > 0 && order[0] == 0 && last + 1 == Count(|source|)
    requires forall i :: 0 <= i < |order| ==> order[i] < last
    ensures var t := ArriveAll(key, source, order);
            key in t.sessions && t.files == [] && forall c :: c in order ==> c in t.sessions[key].chunks
  {
    var n := |order| - 1;
    if n == 0 {
      var none: seq<nat> := [];
      assert order[..0] == none && ArriveAll(key, source, none) == Transfer(map[], []);
    } else {
      HoldsAll(key, source, order[..n], last);
      assert order == order[..n] + [order[n]];
    }
  }

  /** Late repetitions can spoil a file that was received: after the last chunk, the first and
      the last arriving once more make a second version, which replaces the first, and which is
      right exactly when all the chunks in between are blank. */
  lemma LateRepetitionSpoils(key: Key, source: seq<byte>, order: seq<nat>, last: nat)
    requires LastStillMissing(source, order, last) && last > 0
    ensures var files := ArriveAll(key, source, order + [last] + [0] + [last]).files;
            |files| == 2 && files[0] == source && (files[1] == source <==> RestBlank(source, {0, last}))
  {
    AnyOrderWithLastAtEnd(key, source, order, last);
    FinishedOnce(key, source, order, last);
    FinishedTwice(key, source, order + [last] + [0], last);
  }

  lemma FinishedTwice(key: Key, source: seq<byte>, order: seq<nat>, last: nat)
    requires InFile(source, order) && last + 1 == Count(|source|)
    requires var t := ArriveAll(key, source, order);
             t.files == [source] && key in t.sessions && t.sessions[key].chunks == {0}
    ensures var files := ArriveAll(key, source, order + [last]).files;
            |files| == 2 && files[0] == source && (files[1] == source <==> RestBlank(source, {0, last}))
  {
    FinishedRightIff(key, source, order, last);
    assert {0} + {last} == {0, last};
    ArriveNext(key, source, order, last);
  }

  lemma FinishedOnce(key: Key, source: seq<byte>, order: seq<nat>, last: nat)
    requires InFile(source, order) && last + 1 == Count(|source|) && last > 0
    requires var t := ArriveAll(key, source, order);
             t.files == [] && key in t.sessions && Arrive(t.sessions, key, source, last).finished == Some(source)
    ensures var t := ArriveAll(key, source, order + [last] + [0]);
            t.files == [source] && key in t.sessions && t.sessions[key].chunks == {0}
    ensures InFile(source, order + [last] + [0])
  {
    ArriveNext(key, source, order, last);
    ArriveNext(key, source, order + [last], 0);
    FinishedRightIff(key, source, order, last);
  }

  lemma ArriveNext(key: Key, source: seq<byte>, order: seq<nat>, n: nat)
    ensures var t := ArriveAll(key, source, order);
            var o := Arrive(t.sessions, key, source, n);
            var more := if o.finished.Some? then [o.finished.value] else [];
            ArriveAll(key, source, order + [n]) == Transfer(o.sessions, t.files + more)
  {
    assert (order + [n])[..|order|] == order;
  }
}
