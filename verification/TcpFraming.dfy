/** Length-prefixed messages on a TCP stream: written by sendRequest and sendPush
    (VdesClient/tcp_client.cpp, VdesService/client_session.cpp), cut out of whatever pieces
    arrive by onReadyRead (VdesClient/tcp_client.cpp).  What the bytes of a message mean is
    left open: `parses` says which byte strings the message library accepts. */
module TcpFraming {
  import opened Bytes

  const MAX_LENGTH: nat := 65535

  /** The header keeps sixteen bits of the length. */
  function Frame(message: seq<byte>): (f: seq<byte>)
    ensures |f| == 2 + |message|
  {
    BigEndian16(|message| % 0x1_0000) + message
  }

  function Stream(messages: seq<seq<byte>>): seq<byte> {
    if messages == [] then [] else Frame(messages[0]) + Stream(messages[1..])
  }

  function HeaderLength(buffer: seq<byte>): u16
    requires |buffer| >= 2
  {
    Pair(buffer[0], buffer[1])
  }

  datatype Reader = Reader(delivered: seq<seq<byte>>, buffer: seq<byte>)

  /** The buffer starts with a complete frame. */
  predicate HasFrame(buffer: seq<byte>) {
    |buffer| >= 2 && HeaderLength(buffer) > 0 && |buffer| >= 2 + HeaderLength(buffer)
  }

  function Body(buffer: seq<byte>): seq<byte>
    requires HasFrame(buffer)
  {
    buffer[2..2 + HeaderLength(buffer)]
  }

  function After(buffer: seq<byte>): (rest: seq<byte>)
    requires HasFrame(buffer)
    ensures |rest| < |buffer|
  {
    buffer[2 + HeaderLength(buffer)..]
  }

  /** What one pass over a buffer delivers and keeps.  A zero length and a message that does
      not parse throw the whole buffer away. */
  function Drain(parses: seq<byte> -> bool, buffer: seq<byte>): Reader
    decreases |buffer|
  {
    if |buffer| < 2 then Reader([], buffer)
    else if HeaderLength(buffer) == 0 then Reader([], [])
    else if |buffer| < 2 + HeaderLength(buffer) then Reader([], buffer)
    else if !parses(Body(buffer)) then Reader([], [])
    else
      var rest := Drain(parses, After(buffer));
      Reader([Body(buffer)] + rest.delivered, rest.buffer)
  }

  lemma DrainNext(parses: seq<byte> -> bool, buffer: seq<byte>)
    requires HasFrame(buffer) && parses(Body(buffer))
    ensures var rest := Drain(parses, After(buffer));
            Drain(parses, buffer) == Reader([Body(buffer)] + rest.delivered, rest.buffer)
  {}

  lemma Regroup<T>(a: seq<T>, b: T, c: seq<T>)
    ensures a + ([b] + c) == (a + [b]) + c
  {}

  lemma HeadAndTail<T>(a: seq<T>, b: seq<T>)
    requires a != []
    ensures a + b == [a[0]] + (a[1..] + b)
  {}

  class TcpClient {
    const parses: seq<byte> -> bool
    var buffer: seq<byte>

    constructor (parses: seq<byte> -> bool)
      ensures this.parses == parses && buffer == []
    {
      this.parses := parses;
      buffer := [];
    }

    method SendRequest(data: seq<byte>) returns (written: seq<byte>)
      ensures written == Frame(data)
    {
      var len := |data| % 0x1_0000;
      written := [High(len), Low(len)];
      written := written + data;
    }

    method OnReadyRead(arrived: seq<byte>) returns (delivered: seq<seq<byte>>)
      modifies this`buffer
      ensures Reader(delivered, buffer) == Drain(parses, old(buffer) + arrived)
    {
      buffer := buffer + arrived;
      delivered := [];
      ghost var all := Drain(parses, buffer);
      while |buffer| >= 2
        invariant delivered + Drain(parses, buffer).delivered == all.delivered
        invariant Drain(parses, buffer).buffer == all.buffer
        decreases |buffer|
      {
        var msgLen: int := Pair(buffer[0], buffer[1]);
        if msgLen == 0 {
          buffer := [];
          break;
        }
        if |buffer| < 2 + msgLen {
          break;
        }
        var body := buffer[2..2 + msgLen];
        if parses(body) {
          DrainNext(parses, buffer);
          Regroup(delivered, body, Drain(parses, After(buffer)).delivered);
          delivered := delivered + [body];
          buffer := buffer[2 + msgLen..];
        } else {
          buffer := [];
          break;
        }
      }
      assert Drain(parses, buffer) == Reader([], buffer);
      assert delivered + [] == delivered;
    }
  }

  // ---------- Reads in a row ----------

  function Concat(pieces: seq<seq<byte>>): seq<byte> {
    if pieces == [] then [] else Concat(pieces[..|pieces| - 1]) + pieces[|pieces| - 1]
  }

  /** The client's buffer and everything delivered, after the given pieces. */
  function ReadAll(parses: seq<byte> -> bool, pieces: seq<seq<byte>>): Reader {
    if pieces == [] then Reader([], [])
    else
      var before := ReadAll(parses, pieces[..|pieces| - 1]);
      var now := Drain(parses, before.buffer + pieces[|pieces| - 1]);
      Reader(before.delivered + now.delivered, now.buffer)
  }

  predicate Good(parses: seq<byte> -> bool, message: seq<byte>) {
    1 <= |message| <= MAX_LENGTH && parses(message)
  }

  predicate AllGood(parses: seq<byte> -> bool, messages: seq<seq<byte>>) {
    forall i :: 0 <= i < |messages| ==> Good(parses, messages[i])
  }

  // ---------- A stream of good messages ----------

  lemma FrameIsFrame(message: seq<byte>, more: seq<byte>)
    requires 1 <= |message| <= MAX_LENGTH
    ensures var b := Frame(message) + more; HasFrame(b) && Body(b) == message && After(b) == more
  {
    var b := Frame(message) + more;
    HeaderKept(message, b);
    assert b[2..2 + |message|] == message;
  }

  lemma HeaderKept(message: seq<byte>, b: seq<byte>)
    requires 1 <= |message| <= MAX_LENGTH && |b| >= 2 && b[..2] == Frame(message)[..2]
    ensures HeaderLength(b) == |message|
  {
    var n: u16 := |message|;
    assert Frame(message)[..2] == BigEndian16(n);
    assert b[0] == b[..2][0] == High(n) && b[1] == b[..2][1] == Low(n);
    PairOf(n);
  }

  lemma DrainFrame(parses: seq<byte> -> bool, message: seq<byte>, more: seq<byte>)
    requires Good(parses, message)
    ensures Drain(parses, Frame(message) + more)
         == Reader([message] + Drain(parses, more).delivered, Drain(parses, more).buffer)
  {
    FrameIsFrame(message, more);
    DrainNext(parses, Frame(message) + more);
  }

  lemma DrainPart(parses: seq<byte> -> bool, message: seq<byte>, part: seq<byte>)
    requires Good(parses, message) && part <= Frame(message) && |part| < |Frame(message)|
    ensures Drain(parses, part) == Reader([], part)
  {
    if |part| >= 2 {
      assert part[..2] == Frame(message)[..2];
      HeaderKept(message, part);
    }
  }

  /** `p` ends inside the frame of message `k`, with `tail` of it present. */
  ghost predicate CutAt(messages: seq<seq<byte>>, p: seq<byte>, k: nat, tail: seq<byte>) {
    && k <= |messages| && p == Stream(messages[..k]) + tail
    && if k == |messages| then tail == [] else tail <= Frame(messages[k]) && |tail| < |Frame(messages[k])|
  }

  lemma {:induction false} FindCut(messages: seq<seq<byte>>, p: seq<byte>) returns (k: nat, tail: seq<byte>)
    requires p <= Stream(messages)
    ensures CutAt(messages, p, k, tail)
  {
    if messages == [] {
      k, tail := 0, [];
    } else {
      var first, later := Frame(messages[0]), Stream(messages[1..]);
      assert Stream(messages) == first + later;
      if |p| < |first| {
        assert p == (first + later)[..|p|] == first[..|p|];
        k, tail := 0, p;
      } else {
        var q := p[|first|..];
        SplitPrefix(first, later, p);
        k, tail := FindCut(messages[1..], q);
        NextCut(messages, q, k, tail);
        k := k + 1;
      }
    }
  }

  lemma SplitPrefix(first: seq<byte>, later: seq<byte>, p: seq<byte>)
    requires p <= first + later && |p| >= |first|
    ensures p == first + p[|first|..] && p[|first|..] <= later
  {
    assert p == (first + later)[..|p|];
  }

  lemma NextCut(messages: seq<seq<byte>>, q: seq<byte>, k: nat, tail: seq<byte>)
    requires messages != [] && CutAt(messages[1..], q, k, tail)
    ensures CutAt(messages, Frame(messages[0]) + q, k + 1, tail)
  {
    var taken := messages[..k + 1];
    assert taken[1..] == messages[1..][..k];
    StreamSplit(taken, tail);
  }

  /** Cutting a stream of good messages anywhere: the whole frames before the cut are
      delivered, and what is kept is the beginning of the next frame. */
  lemma DrainPrefix(parses: seq<byte> -> bool, messages: seq<seq<byte>>, p: seq<byte>)
    returns (k: nat, tail: seq<byte>)
    requires AllGood(parses, messages) && p <= Stream(messages)
    ensures CutAt(messages, p, k, tail) && Drain(parses, p) == Reader(messages[..k], tail)
  {
    k, tail := FindCut(messages, p);
    DrainLater(parses, messages[..k], tail);
    if k < |messages| {
      DrainPart(parses, messages[k], tail);
    }
    assert messages[..k] + [] == messages[..k];
  }

  /** After draining whole frames, what comes later can be drained on its own. */
  lemma {:induction false} DrainLater(parses: seq<byte> -> bool, messages: seq<seq<byte>>, later: seq<byte>)
    requires AllGood(parses, messages)
    ensures var rest := Drain(parses, later);
            Drain(parses, Stream(messages) + later) == Reader(messages + rest.delivered, rest.buffer)
  {
    var rest := Drain(parses, later);
    if messages == [] {
      assert Stream(messages) + later == later;
      assert messages + rest.delivered == rest.delivered;
    } else {
      DrainLater(parses, messages[1..], later);
      DrainFirst(parses, messages, later);
      HeadAndTail(messages, rest.delivered);
    }
  }

  lemma DrainFirst(parses: seq<byte> -> bool, messages: seq<seq<byte>>, later: seq<byte>)
    requires messages != [] && Good(parses, messages[0])
    ensures var rest := Drain(parses, Stream(messages[1..]) + later);
            Drain(parses, Stream(messages) + later) == Reader([messages[0]] + rest.delivered, rest.buffer)
  {
    StreamSplit(messages, later);
    DrainFrame(parses, messages[0], Stream(messages[1..]) + later);
  }

  lemma StreamSplit(messages: seq<seq<byte>>, later: seq<byte>)
    requires messages != []
    ensures Stream(messages) + later == Frame(messages[0]) + (Stream(messages[1..]) + later)
  {
    var first, others := Frame(messages[0]), Stream(messages[1..]);
    assert Stream(messages) == first + others;
    assert (first + others) + later == first + (others + later);
  }

  /** Draining a beginning of the stream, and then what was kept of it with more behind it,
      is draining both at once. */
  lemma DrainAgain(parses: seq<byte> -> bool, messages: seq<seq<byte>>, p: seq<byte>, last: seq<byte>)
    requires AllGood(parses, messages) && p <= Stream(messages)
    ensures var before := Drain(parses, p);
            var now := Drain(parses, before.buffer + last);
            Drain(parses, p + last) == Reader(before.delivered + now.delivered, now.buffer)
  {
    var k, tail := DrainPrefix(parses, messages, p);
    KeptTail(parses, messages[..k], p, tail, last);
  }

  lemma KeptTail(parses: seq<byte> -> bool, done: seq<seq<byte>>, p: seq<byte>, tail: seq<byte>, last: seq<byte>)
    requires AllGood(parses, done) && p == Stream(done) + tail
    ensures var now := Drain(parses, tail + last);
            Drain(parses, p + last) == Reader(done + now.delivered, now.buffer)
  {
    Associative(Stream(done), tail, last);
    DrainLater(parses, done, tail + last);
  }

  /** Reading in pieces delivers and keeps what reading in one piece does. */
  lemma {:induction false} ReadsAreOneRead(parses: seq<byte> -> bool, messages: seq<seq<byte>>, pieces: seq<seq<byte>>)
    requires AllGood(parses, messages) && Concat(pieces) <= Stream(messages)
    ensures ReadAll(parses, pieces) == Drain(parses, Concat(pieces))
  {
    if pieces != [] {
      var front, last := pieces[..|pieces| - 1], pieces[|pieces| - 1];
      var p := Concat(front);
      PrefixOfPrefix(p, last, Stream(messages));
      ReadsAreOneRead(parses, messages, front);
      DrainAgain(parses, messages, p, last);
    }
  }

  lemma PrefixOfPrefix(p: seq<byte>, last: seq<byte>, s: seq<byte>)
    requires p + last <= s
    ensures p <= s
  {
    assert p == (p + last)[..|p|] == s[..|p + last|][..|p|];
  }

  /** After every read the buffer holds the part of the unfinished frame that has arrived. */
  lemma KeepsUnfinishedFrame(parses: seq<byte> -> bool, messages: seq<seq<byte>>, pieces: seq<seq<byte>>)
    returns (k: nat, tail: seq<byte>)
    requires AllGood(parses, messages) && Concat(pieces) <= Stream(messages)
    ensures CutAt(messages, Concat(pieces), k, tail) && ReadAll(parses, pieces) == Reader(messages[..k], tail)
  {
    ReadsAreOneRead(parses, messages, pieces);
    k, tail := DrainPrefix(parses, messages, Concat(pieces));
  }

  // ---------- Nothing else is ever delivered ----------

  lemma {:induction false} DrainDeliversGood(parses: seq<byte> -> bool, buffer: seq<byte>)
    ensures AllGood(parses, Drain(parses, buffer).delivered)
    decreases |buffer|
  {
    if HasFrame(buffer) && parses(Body(buffer)) {
      DrainDeliversGood(parses, After(buffer));
    }
  }

  lemma {:induction false} ReadsDeliverGood(parses: seq<byte> -> bool, pieces: seq<seq<byte>>)
    ensures AllGood(parses, ReadAll(parses, pieces).delivered)
  {
    if pieces != [] {
      var before := ReadAll(parses, pieces[..|pieces| - 1]);
      ReadsDeliverGood(parses, pieces[..|pieces| - 1]);
      DrainDeliversGood(parses, before.buffer + pieces[|pieces| - 1]);
    }
  }

  /** However the network cuts the stream into pieces, the messages come out exactly as they
      were sent if and only if each parses and has 1 to 65535 bytes; nothing is then left. */
  lemma DeliveredExactlyIff(parses: seq<byte> -> bool, messages: seq<seq<byte>>, pieces: seq<seq<byte>>)
    requires Concat(pieces) == Stream(messages)
    ensures ReadAll(parses, pieces).delivered == messages <==> AllGood(parses, messages)
    ensures AllGood(parses, messages) ==> ReadAll(parses, pieces).buffer == []
  {
    ReadsDeliverGood(parses, pieces);
    if AllGood(parses, messages) {
      ReadsAreOneRead(parses, messages, pieces);
      DrainAll(parses, messages);
    }
  }

  lemma DrainAll(parses: seq<byte> -> bool, messages: seq<seq<byte>>)
    requires AllGood(parses, messages)
    ensures Drain(parses, Stream(messages)) == Reader(messages, [])
  {
    DrainLater(parses, messages, []);
    assert Stream(messages) + [] == Stream(messages);
    assert messages + [] == messages;
  }

  /** On the stream the length comes high byte first, in sixteen bits. */
  lemma FrameBytes(message: seq<byte>, buffer: seq<byte>)
    ensures var f := Frame(message); Value16(f[1], f[0]) == |message| % 65536 && f[2..] == message
    ensures |buffer| >= 2 ==> HeaderLength(buffer) == Value16(buffer[1], buffer[0])
  {}

  // ---------- Messages that do not parse ----------

  /** Behind any good messages, a frame whose header says zero, or one that does not parse, takes
      with it everything that has arrived behind it. */
  lemma RestIsLost(parses: seq<byte> -> bool, messages: seq<seq<byte>>, next: seq<byte>, later: seq<byte>)
    requires AllGood(parses, messages)
    requires |next| % 0x1_0000 == 0 || (|next| <= MAX_LENGTH && !parses(next))
    ensures Drain(parses, Stream(messages) + (Frame(next) + later)) == Reader(messages, [])
  {
    NextTakesRest(parses, next, later);
    NothingMore(parses, messages, Frame(next) + later);
  }

  lemma NothingMore(parses: seq<byte> -> bool, messages: seq<seq<byte>>, rest: seq<byte>)
    requires AllGood(parses, messages) && Drain(parses, rest) == Reader([], [])
    ensures Drain(parses, Stream(messages) + rest) == Reader(messages, [])
  {
    DrainLater(parses, messages, rest);
    assert messages + [] == messages;
  }

  lemma NextTakesRest(parses: seq<byte> -> bool, next: seq<byte>, later: seq<byte>)
    requires |next| % 0x1_0000 == 0 || (|next| <= MAX_LENGTH && !parses(next))
    ensures Drain(parses, Frame(next) + later) == Reader([], [])
  {
    var b := Frame(next) + later;
    if |next| % 0x1_0000 == 0 {
      assert b[0] == 0 && b[1] == 0;
    } else {
      FrameIsFrame(next, later);
    }
  }

  predicate AllSized(messages: seq<seq<byte>>) {
    forall i :: 0 <= i < |messages| ==> 1 <= |messages[i]| <= MAX_LENGTH
  }

  function GoodOnes(parses: seq<byte> -> bool, messages: seq<seq<byte>>): seq<seq<byte>> {
    if messages == [] then []
    else (if parses(messages[0]) then [messages[0]] else []) + GoodOnes(parses, messages[1..])
  }

  function UpToBad(parses: seq<byte> -> bool, messages: seq<seq<byte>>): seq<seq<byte>> {
    if messages == [] || !parses(messages[0]) then [] else [messages[0]] + UpToBad(parses, messages[1..])
  }

  predicate NoneAfterBad(parses: seq<byte> -> bool, messages: seq<seq<byte>>) {
    forall i, j :: 0 <= i < j < |messages| && !parses(messages[i]) ==> !parses(messages[j])
  }

  lemma {:induction false} NoGoodOnes(parses: seq<byte> -> bool, messages: seq<seq<byte>>)
    ensures GoodOnes(parses, messages) == [] <==> forall i :: 0 <= i < |messages| ==> !parses(messages[i])
  {
    if messages != [] {
      NoGoodOnes(parses, messages[1..]);
      assert forall i :: 0 < i < |messages| ==> messages[i] == messages[1..][i - 1];
    }
  }

  lemma {:induction false} UpToBadIff(parses: seq<byte> -> bool, messages: seq<seq<byte>>)
    ensures UpToBad(parses, messages) == GoodOnes(parses, messages) <==> NoneAfterBad(parses, messages)
  {
    if messages != [] {
      UpToBadIff(parses, messages[1..]);
      NoGoodOnes(parses, messages[1..]);
      NoneAfterFirst(parses, messages);
      SameHeads(messages[0], UpToBad(parses, messages[1..]), GoodOnes(parses, messages[1..]));
    }
  }

  lemma NoneAfterFirst(parses: seq<byte> -> bool, messages: seq<seq<byte>>)
    requires messages != []
    ensures NoneAfterBad(parses, messages) <==>
              && NoneAfterBad(parses, messages[1..])
              && (!parses(messages[0]) ==> forall i :: 0 <= i < |messages[1..]| ==> !parses(messages[1..][i]))
  {
    var later := messages[1..];
    assert forall i :: 0 < i < |messages| ==> messages[i] == later[i - 1];
    if NoneAfterBad(parses, messages) {
      forall i, j | 0 <= i < j < |later| && !parses(later[i]) ensures !parses(later[j]) {
        assert later[i] == messages[i + 1] && later[j] == messages[j + 1];
      }
      forall i | 0 <= i < |later| && !parses(messages[0]) ensures !parses(later[i]) {
        assert later[i] == messages[i + 1];
      }
    }
  }

  lemma SameHeads<T>(x: T, a: seq<T>, b: seq<T>)
    ensures [x] + a == [x] + b <==> a == b
  {
    assert ([x] + a)[1..] == a && ([x] + b)[1..] == b;
  }

  lemma {:induction false} GoodOnesConcat(parses: seq<byte> -> bool, a: seq<seq<byte>>, b: seq<seq<byte>>)
    ensures GoodOnes(parses, a + b) == GoodOnes(parses, a) + GoodOnes(parses, b)
  {
    if a == [] {
      assert a + b == b;
    } else {
      GoodOnesConcat(parses, a[1..], b);
      assert (a + b)[1..] == a[1..] + b;
      var first := if parses(a[0]) then [a[0]] else [];
      Associative(first, GoodOnes(parses, a[1..]), GoodOnes(parses, b));
    }
  }

  /** One read of whole frames delivers them up to the first that does not parse. */
  lemma {:induction false} DrainUpToBad(parses: seq<byte> -> bool, messages: seq<seq<byte>>)
    requires AllSized(messages)
    ensures Drain(parses, Stream(messages)) == Reader(UpToBad(parses, messages), [])
  {
    if messages != [] {
      var m, later := messages[0], Stream(messages[1..]);
      if parses(m) {
        DrainUpToBad(parses, messages[1..]);
        DrainFrame(parses, m, later);
      } else {
        FrameIsFrame(m, later);
      }
    }
  }

  /** Whole frames, any number of them in one read. */
  function Flat(groups: seq<seq<seq<byte>>>): seq<seq<byte>> {
    if groups == [] then [] else Flat(groups[..|groups| - 1]) + groups[|groups| - 1]
  }

  function Streams(groups: seq<seq<seq<byte>>>): (pieces: seq<seq<byte>>)
    ensures |pieces| == |groups|
  {
    if groups == [] then [] else Streams(groups[..|groups| - 1]) + [Stream(groups[|groups| - 1])]
  }

  lemma ReadNext(parses: seq<byte> -> bool, groups: seq<seq<seq<byte>>>, g: seq<seq<byte>>)
    requires ReadAll(parses, Streams(groups)).buffer == [] && AllSized(g)
    ensures ReadAll(parses, Streams(groups + [g]))
         == Reader(ReadAll(parses, Streams(groups)).delivered + UpToBad(parses, g), [])
  {
    var pieces := Streams(groups + [g]);
    assert (groups + [g])[..|groups|] == groups;
    assert pieces[..|groups|] == Streams(groups) && pieces[|groups|] == Stream(g);
    assert [] + Stream(g) == Stream(g);
    DrainUpToBad(parses, g);
  }

  /** When no good message follows a bad one, reading whole frames in any groups delivers
      every good message. */
  lemma {:induction false} GroupsDeliverGood(parses: seq<byte> -> bool, groups: seq<seq<seq<byte>>>)
    requires AllSized(Flat(groups)) && NoneAfterBad(parses, Flat(groups))
    ensures ReadAll(parses, Streams(groups)) == Reader(GoodOnes(parses, Flat(groups)), [])
  {
    if groups != [] {
      var n := |groups| - 1;
      var front, g := groups[..n], groups[n];
      FlatParts(parses, Flat(front), g);
      GroupsDeliverGood(parses, front);
      ReadNext(parses, front, g);
      assert front + [g] == groups;
      UpToBadIff(parses, g);
      GoodOnesConcat(parses, Flat(front), g);
    }
  }

  lemma FlatParts(parses: seq<byte> -> bool, a: seq<seq<byte>>, b: seq<seq<byte>>)
    requires AllSized(a + b) && NoneAfterBad(parses, a + b)
    ensures AllSized(a) && AllSized(b) && NoneAfterBad(parses, a) && NoneAfterBad(parses, b)
  {
    assert forall i :: 0 <= i < |a| ==> a[i] == (a + b)[i];
    assert forall i :: 0 <= i < |b| ==> b[i] == (a + b)[|a| + i];
  }

  function Singly(messages: seq<seq<byte>>): seq<seq<seq<byte>>> {
    if messages == [] then [] else Singly(messages[..|messages| - 1]) + [[messages[|messages| - 1]]]
  }

  /** Frame by frame, every good message is delivered, whatever comes before it. */
  lemma {:induction false} FrameByFrame(parses: seq<byte> -> bool, messages: seq<seq<byte>>)
    requires AllSized(messages)
    ensures ReadAll(parses, Streams(Singly(messages))) == Reader(GoodOnes(parses, messages), [])
  {
    if messages != [] {
      var n := |messages| - 1;
      FrameByFrame(parses, messages[..n]);
      ReadNext(parses, Singly(messages[..n]), [messages[n]]);
      OneMoreGood(parses, messages[..n], messages[n]);
      LastApart(messages);
    }
  }

  lemma OneMoreGood(parses: seq<byte> -> bool, front: seq<seq<byte>>, m: seq<byte>)
    ensures GoodOnes(parses, front + [m]) == GoodOnes(parses, front) + UpToBad(parses, [m])
  {
    OneMessage(parses, m);
    GoodOnesConcat(parses, front, [m]);
  }

  lemma {:induction false} SinglyFlat(messages: seq<seq<byte>>)
    ensures Flat(Singly(messages)) == messages
  {
    if messages != [] {
      var n := |messages| - 1;
      SinglyFlat(messages[..n]);
      FlatNext(Singly(messages[..n]), [messages[n]]);
      LastApart(messages);
    }
  }

  lemma FlatNext(groups: seq<seq<seq<byte>>>, g: seq<seq<byte>>)
    ensures Flat(groups + [g]) == Flat(groups) + g
  {
    assert (groups + [g])[..|groups|] == groups;
  }

  lemma OneMessage(parses: seq<byte> -> bool, m: seq<byte>)
    ensures UpToBad(parses, [m]) == GoodOnes(parses, [m])
  {
    assert [m][1..] == [];
  }

  /** However the frames are grouped into reads, the same is delivered as in one read. */
  ghost predicate GroupingIrrelevant(parses: seq<byte> -> bool, messages: seq<seq<byte>>) {
    forall groups :: Flat(groups) == messages ==>
      ReadAll(parses, Streams(groups)).delivered == Drain(parses, Stream(messages)).delivered
  }

  /** Whether messages of one read or several makes no difference exactly when no message that
      parses comes behind one that does not: what is behind a failure is lost when it arrives
      in the same read and delivered when it does not. */
  lemma GroupingIrrelevantIff(parses: seq<byte> -> bool, messages: seq<seq<byte>>)
    requires AllSized(messages)
    ensures GroupingIrrelevant(parses, messages) <==> NoneAfterBad(parses, messages)
  {
    DrainUpToBad(parses, messages);
    UpToBadIff(parses, messages);
    FrameByFrame(parses, messages);
    SinglyFlat(messages);
    if NoneAfterBad(parses, messages) {
      forall groups | Flat(groups) == messages
        ensures ReadAll(parses, Streams(groups)).delivered == Drain(parses, Stream(messages)).delivered
      {
        GroupsDeliverGood(parses, groups);
      }
    }
  }
}
