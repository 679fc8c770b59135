/** How the gateway's listener collects the six fragments of a bulletin board
    (VdesService/globallistener.cpp).  Only the first fragment carries a version; the others
    are filed under the version being collected. */
module SbbListener {
  import opened Bytes
  import opened SbbFormat

  datatype Fragment = Fragment(version: u16, data: seq<byte>)

  datatype Collector = Collector(fragments: map<int, Fragment>, version: u16, hasFirst: bool)

  datatype Out = Out(c: Collector, published: seq<Board>)

  function Initial(): Collector {
    Collector(map[], 0, false)
  }

  function Data(fragments: map<int, Fragment>): map<int, seq<byte>> {
    map k | k in fragments :: fragments[k].data
  }

  predicate Filed(c: Collector, k: int)
    requires k in c.fragments
  {
    && 1 <= k <= 6 && c.fragments[k].version == c.version
    && LongEnough(k, c.fragments[k].data) && c.fragments[k].data[0] == k
  }

  /** What every packet keeps. */
  predicate Collecting(c: Collector) {
    && (c.hasFirst <==> 1 in c.fragments)
    && (c.fragments != map[] ==> 1 in c.fragments)
    && (forall k :: k in c.fragments ==> Filed(c, k))
    && (1 in c.fragments ==> ReadHead(c.fragments[1].data).version == c.version)
  }

  lemma SameWhenAsMany(a: set<int>, b: set<int>)
    requires a <= b && |a| == |b|
    ensures a == b
  {
    forall x | x in b ensures x in a {
      if x !in a {
        AtMostAsMany(a, b - {x});
      }
    }
  }

  lemma AtMostAsMany(a: set<int>, b: set<int>)
    requires a <= b
    ensures |a| <= |b|
  {
    assert b == a + (b - a) && a !! (b - a);
  }

  lemma SixAreAll(c: Collector)
    requires Collecting(c) && |c.fragments| == 6
    ensures AllSix(Data(c.fragments))
  {
    assert c.fragments.Keys <= {1, 2, 3, 4, 5, 6} by {
      forall k | k in c.fragments.Keys ensures k in {1, 2, 3, 4, 5, 6} {
        assert Filed(c, k);
      }
    }
    SameWhenAsMany(c.fragments.Keys, {1, 2, 3, 4, 5, 6});
    forall k | 1 <= k <= 6 ensures k in c.fragments && Filed(c, k) {
      assert k in c.fragments.Keys;
    }
  }

  // ---------- One function per packet ----------

  function First(c: Collector, data: seq<byte>): Collector
    requires |data| >= 20
  {
    var version := Pair(data[4], data[5]);
    if version > c.version then Collector(map[1 := Fragment(version, data)], version, true)
    else if version == c.version && 1 !in c.fragments then
      c.(fragments := c.fragments[1 := Fragment(version, data)], hasFirst := true)
    else c
  }

  function Stored(c: Collector, k: int, data: seq<byte>): Collector {
    c.(fragments := c.fragments[k := Fragment(c.version, data)])
  }

  /** The last two fragments are the only ones that can complete a board. */
  function Signature(c: Collector, k: int, data: seq<byte>): Out
    requires Collecting(c) && k in {5, 6} && |data| >= 2 && data[0] == k && c.hasFirst
  {
    var c' := Stored(c, k, data);
    if |c'.fragments| == 6 then
      assert Collecting(c');
      SixAreAll(c');
      Out(Collector(map[], c.version, false), [ReadBoard(Data(c'.fragments))])
    else Out(c', [])
  }

  function Handle(c: Collector, packet: seq<byte>): Out
    requires Collecting(c)
  {
    if packet == [] then Out(c, [])
    else if packet[0] == 1 then if |packet| < 20 then Out(c, []) else Out(First(c, packet), [])
    else if 2 <= packet[0] <= 4 then
      if |packet| < 35 || !c.hasFirst then Out(c, []) else Out(Stored(c, packet[0], packet), [])
    else if 5 <= packet[0] <= 6 then
      if |packet| < 2 || !c.hasFirst then Out(c, []) else Signature(c, packet[0], packet)
    else Out(c, [])
  }

  // ---------- In place ----------

  class GlobalListener {
    var sbbFragments: map<int, Fragment>
    var currentCollectingVersion: u16
    var hasFragment1: bool

    ghost function Abs(): Collector
      reads this
    {
      Collector(sbbFragments, currentCollectingVersion, hasFragment1)
    }

    ghost predicate Valid()
      reads this
    {
      Collecting(Abs())
    }

    constructor ()
      ensures Valid() && Abs() == Initial()
    {
      sbbFragments, currentCollectingVersion, hasFragment1 := map[], 0, false;
    }

    method ParseSbbFragment1(data: seq<byte>)
      requires data != [] && data[0] == 1
      modifies this
      ensures Abs() == if |data| < 20 then old(Abs()) else First(old(Abs()), data)
    {
      if |data| < 20 {
        return;
      }
      var version := Pair(data[4], data[5]);
      if version > currentCollectingVersion {
        sbbFragments := map[];
        currentCollectingVersion := version;
        hasFragment1 := true;
        sbbFragments := sbbFragments[1 := Fragment(version, data)];
      } else if version == currentCollectingVersion && 1 !in sbbFragments {
        sbbFragments := sbbFragments[1 := Fragment(version, data)];
        hasFragment1 := true;
      }
    }

    /** Fragments 2, 3 and 4 are parsed alike. */
    method ParseSbbChannels(data: seq<byte>)
      requires data != [] && 2 <= data[0] <= 4
      modifies this
      ensures Abs() == if |data| < 35 || !old(hasFragment1) then old(Abs()) else Stored(old(Abs()), data[0], data)
    {
      if |data| < 35 {
        return;
      }
      if hasFragment1 {
        sbbFragments := sbbFragments[data[0] := Fragment(currentCollectingVersion, data)];
      }
    }

    /** Fragments 5 and 6 are parsed alike. */
    method ParseSbbSignature(data: seq<byte>) returns (published: seq<Board>)
      requires Valid() && data != [] && 5 <= data[0] <= 6
      modifies this
      ensures Out(Abs(), published) == if |data| < 2 || !old(hasFragment1) then Out(old(Abs()), [])
                                       else Signature(old(Abs()), data[0], data)
    {
      published := [];
      if |data| < 2 || !hasFragment1 {
        return;
      }
      sbbFragments := sbbFragments[data[0] := Fragment(currentCollectingVersion, data)];
      if |sbbFragments| == 6 {
        assert Valid();
        SixAreAll(Abs());
        var newSbb := AssembleSbb();
        published := [newSbb];
      }
    }

    /** Six fragments are present here, so the source's tests for each are absent. */
    method AssembleSbb() returns (newSbb: Board)
      requires AllSix(Data(sbbFragments))
      modifies this
      ensures newSbb == ReadBoard(Data(old(sbbFragments)))
      ensures sbbFragments == map[] && !hasFragment1 && currentCollectingVersion == old(currentCollectingVersion)
    {
      ghost var f := Data(sbbFragments);
      var f1 := sbbFragments[1].data;
      assert f1 == f[1];
      var head := ReadHead(f1);
      var a, b := ReadTwoChannels(sbbFragments[2].data);
      var c, d := ReadTwoChannels(sbbFragments[3].data);
      var e, g := ReadTwoChannels(sbbFragments[4].data);
      assert [a, b, c, d, e, g] == ReadChannels(f[2], f[3], f[4]);
      newSbb := Board(head, [a, b, c, d, e, g], sbbFragments[5].data[1..], sbbFragments[6].data[1..]);
      sbbFragments := map[];
      hasFragment1 := false;
    }

    static method ReadTwoChannels(data: seq<byte>) returns (a: Channel, b: Channel)
      requires |data| >= 35
      ensures a == ReadChannel(data, 1) && b == ReadChannel(data, 18)
    {
      var idx := 1;
      a, idx := ReadChannelAt(data, idx);
      b, idx := ReadChannelAt(data, idx);
    }

    method HandlePacket(packet: seq<byte>) returns (published: seq<Board>)
      requires Valid()
      modifies this
      ensures Valid() && Out(Abs(), published) == Handle(old(Abs()), packet)
    {
      HandleKeeps(Abs(), packet);
      published := [];
      if packet == [] {
        return;
      }
      match packet[0]
      case 1 => ParseSbbFragment1(packet);
      case 2 => ParseSbbChannels(packet);
      case 3 => ParseSbbChannels(packet);
      case 4 => ParseSbbChannels(packet);
      case 5 => published := ParseSbbSignature(packet);
      case 6 => published := ParseSbbSignature(packet);
      case _ =>
    }
  }

  // ---------- Every packet keeps the collector in order ----------

  lemma StoredKeeps(c: Collector, k: int, data: seq<byte>)
    requires Collecting(c) && c.hasFirst && 2 <= k <= 6 && LongEnough(k, data) && data[0] == k
    ensures Collecting(Stored(c, k, data))
  {
    var c' := Stored(c, k, data);
    forall x | x in c'.fragments ensures Filed(c', x) {
      if x != k {
        assert Filed(c, x);
      }
    }
  }

  lemma FirstKeeps(c: Collector, data: seq<byte>)
    requires Collecting(c) && |data| >= 20 && data[0] == 1
    ensures Collecting(First(c, data)) && First(c, data).version >= c.version
  {
    var c' := First(c, data);
    if c' != c {
      forall x | x in c'.fragments ensures Filed(c', x) {}
    }
  }

  /** The version being collected never goes back, and a published board bears it. */
  lemma HandleKeeps(c: Collector, packet: seq<byte>)
    requires Collecting(c)
    ensures var o := Handle(c, packet);
            && Collecting(o.c) && o.c.version >= c.version && |o.published| <= 1
            && (forall b :: b in o.published ==> b.head.version == o.c.version && o.c.fragments == map[])
  {
    if packet != [] && packet[0] == 1 && |packet| >= 20 {
      FirstKeeps(c, packet);
    } else if packet != [] && 2 <= packet[0] <= 4 && |packet| >= 35 && c.hasFirst {
      StoredKeeps(c, packet[0], packet);
    } else if packet != [] && 5 <= packet[0] <= 6 && |packet| >= 2 && c.hasFirst {
      StoredKeeps(c, packet[0], packet);
      assert Data(Stored(c, packet[0], packet).fragments)[1] == c.fragments[1].data;
    }
  }

  /** A board comes out exactly when a signature fragment arrives and, with it, all six are there. */
  lemma PublishesIff(c: Collector, packet: seq<byte>)
    requires Collecting(c)
    ensures Handle(c, packet).published != [] <==>
            && |packet| >= 2 && 5 <= packet[0] <= 6
            && forall k :: 1 <= k <= 6 && k != packet[0] ==> k in c.fragments
  {
    if |packet| >= 2 && 5 <= packet[0] <= 6 && c.hasFirst {
      SixIff(c, packet[0], packet);
    }
  }

  lemma SixIff(c: Collector, n: int, data: seq<byte>)
    requires Collecting(c) && c.hasFirst && 5 <= n <= 6 && |data| >= 2 && data[0] == n
    ensures |Stored(c, n, data).fragments| == 6 <==> forall k :: 1 <= k <= 6 && k != n ==> k in c.fragments
  {
    var c' := Stored(c, n, data);
    var keys, all := c'.fragments.Keys, {1, 2, 3, 4, 5, 6};
    StoredKeeps(c, n, data);
    forall k | k in keys ensures k in all {
      assert Filed(c', k);
    }
    assert |keys| == 6 ==> keys == all by {
      if |keys| == 6 {
        SameWhenAsMany(keys, all);
      }
    }
    forall k ensures k in keys <==> k == n || k in c.fragments {}
    assert (forall k :: 1 <= k <= 6 && k != n ==> k in c.fragments) ==> keys == all;
  }

  /** Long enough for the kind of fragment it says it is. */
  predicate Whole(packet: seq<byte>) {
    && packet != []
    && if packet[0] == 1 then |packet| >= 20
       else if 2 <= packet[0] <= 4 then |packet| >= 35
       else 5 <= packet[0] <= 6 && |packet| >= 2
  }

  /** What a packet changes: a first fragment starts a newer version afresh, or its own version
      when nothing is collected; later fragments count only behind a first one, the last of the
      six completes the board, and nothing else has any effect. */
  lemma HandleTakes(c: Collector, packet: seq<byte>)
    requires Collecting(c)
    ensures var o := Handle(c, packet);
            if !Whole(packet) || (packet[0] != 1 && 1 !in c.fragments) then o == Out(c, [])
            else if packet[0] == 1 then
              var version := Value16(packet[5], packet[4]);
              if version > c.version || (version == c.version && c.fragments == map[]) then
                o.published == [] && o.c.version == version && Data(o.c.fragments) == map[1 := packet]
              else o == Out(c, [])
            else
              && o.c.version == c.version
              && if packet[0] >= 5 && forall k :: 1 <= k <= 6 && k != packet[0] ==> k in c.fragments then
                   o.c.fragments == map[] && |o.published| == 1
                 else o.published == [] && Data(o.c.fragments) == Data(c.fragments)[packet[0] := packet]
  {
    PublishesIff(c, packet);
    HandleKeeps(c, packet);
  }

  // ---------- Runs ----------

  function Listen(c: Collector, packets: seq<seq<byte>>): (o: Out)
    requires Collecting(c)
    ensures Collecting(o.c)
  {
    if packets == [] then Out(c, [])
    else
      var before := Listen(c, packets[..|packets| - 1]);
      var now := Handle(before.c, packets[|packets| - 1]);
      HandleKeeps(before.c, packets[|packets| - 1]);
      Out(now.c, before.published + now.published)
  }

  /** Over any packets whatever: the versions of the published boards never go back. */
  lemma {:induction false} VersionsNeverGoBack(c: Collector, packets: seq<seq<byte>>)
    requires Collecting(c)
    ensures var o := Listen(c, packets);
            && o.c.version >= c.version
            && (forall i :: 0 <= i < |o.published| ==> c.version <= o.published[i].head.version <= o.c.version)
            && forall i, j :: 0 <= i < j < |o.published| ==>
                 o.published[i].head.version <= o.published[j].head.version
  {
    if packets != [] {
      var before := Listen(c, packets[..|packets| - 1]);
      VersionsNeverGoBack(c, packets[..|packets| - 1]);
      HandleKeeps(before.c, packets[|packets| - 1]);
      var now := Handle(before.c, packets[|packets| - 1]);
      forall i | 0 <= i < |now.published| ensures now.published[i].head.version == now.c.version {
        assert now.published[i] in now.published;
      }
    }
  }

  lemma ListenNext(c: Collector, packets: seq<seq<byte>>, packet: seq<byte>)
    requires Collecting(c)
    ensures var before := Listen(c, packets);
            var now := Handle(before.c, packet);
            Listen(c, packets + [packet]) == Out(now.c, before.published + now.published)
  {
    assert (packets + [packet])[..|packets|] == packets;
  }

  lemma ListenTwo(c: Collector, packets: seq<seq<byte>>, p: seq<byte>, q: seq<byte>)
    requires Collecting(c) && Listen(c, packets).published == []
    ensures var o := Handle(Listen(c, packets).c, p);
            && Collecting(o.c)
            && Listen(c, packets + [p] + [q]).published == o.published + Handle(o.c, q).published
  {
    ListenQuietly(c, packets, p);
    ListenNext(c, packets + [p], q);
  }

  lemma ListenQuietly(c: Collector, packets: seq<seq<byte>>, p: seq<byte>)
    requires Collecting(c) && Listen(c, packets).published == []
    ensures Listen(c, packets + [p]) == Handle(Listen(c, packets).c, p)
  {
    ListenNext(c, packets, p);
    NothingBefore(Handle(Listen(c, packets).c, p).published);
  }

  lemma {:induction false} ListenOn(c: Collector, first: seq<seq<byte>>, later: seq<seq<byte>>)
    requires Collecting(c)
    ensures var before := Listen(c, first);
            var now := Listen(before.c, later);
            Listen(c, first + later) == Out(now.c, before.published + now.published)
  {
    var before := Listen(c, first);
    if later == [] {
      assert first + later == first && before.published + [] == before.published;
    } else {
      var n := |later| - 1;
      ListenOn(c, first, later[..n]);
      ListenNext(c, first + later[..n], later[n]);
      LastApart(later);
      Associative(first, later[..n], [later[n]]);
      var mid := Listen(before.c, later[..n]);
      Associative(before.published, mid.published, Handle(mid.c, later[n]).published);
    }
  }

  lemma ListenOnQuietly(c: Collector, c': Collector, first: seq<seq<byte>>, later: seq<seq<byte>>)
    requires Collecting(c) && Listen(c, first) == Out(c', [])
    ensures Listen(c, first + later).published == Listen(c', later).published
  {
    ListenOn(c, first, later);
    NothingBefore(Listen(c', later).published);
  }

  // ---------- A whole broadcast ----------

  /** Packets numbered 1 to 6 (entry 0 is not used), the first four of full length. */
  predicate Sequence(f: seq<seq<byte>>) {
    && |f| == 7
    && forall k :: 1 <= k <= 6 ==> f[k] != [] && f[k][0] == k && (k <= 4 ==> LongEnough(k, f[k]))
  }

  /** The head the next complete board will bear. */
  function HeldHead(c: Collector): Head
    requires Collecting(c) && c.hasFirst
  {
    ReadHead(c.fragments[1].data)
  }

  /** The signature part that was filed as fragment `k`; empty if there is none. */
  function Held(c: Collector, k: int): (part: seq<byte>)
    requires Collecting(c) && 5 <= k <= 6
    ensures part == [] <==> k !in c.fragments
  {
    if k in c.fragments then assert Filed(c, k); c.fragments[k].data[1..] else []
  }

  /** The same first fragment and the same signature parts. */
  predicate SameEnds(c: Collector, c': Collector) {
    && (forall k :: k in {1, 5, 6} ==> (k in c.fragments <==> k in c'.fragments))
    && (forall k :: k in {1, 5, 6} && k in c.fragments && k in c'.fragments ==> c.fragments[k] == c'.fragments[k])
  }

  /** Fragments 2 to n of a broadcast have been filed under some head. */
  predicate HasMiddle(c: Collector, f: seq<seq<byte>>, n: nat)
    requires Sequence(f) && n <= 4
  {
    && Collecting(c) && c.hasFirst
    && forall k :: 2 <= k <= n ==> k in c.fragments && c.fragments[k].data == f[k]
  }

  lemma ReadHeld(c: Collector, f: seq<seq<byte>>)
    requires Sequence(f) && HasMiddle(c, f, 4) && 5 in c.fragments && 6 in c.fragments
    ensures AllSix(Data(c.fragments))
    ensures ReadBoard(Data(c.fragments)) == Board(HeldHead(c), ReadChannels(f[2], f[3], f[4]), Held(c, 5), Held(c, 6))
  {
    forall k | 1 <= k <= 6 ensures k in c.fragments && Filed(c, k) {}
  }

  predicate MiddleOnto(c: Collector, c': Collector, f: seq<seq<byte>>, n: nat)
    requires Sequence(f) && n <= 4
  {
    HasMiddle(c', f, n) && SameEnds(c, c')
  }

  lemma MiddleFiled(c: Collector, c': Collector, f: seq<seq<byte>>, k: nat)
    requires Sequence(f) && 2 <= k <= 4 && MiddleOnto(c, c', f, k - 1)
    ensures var o := Handle(c', f[k]); o.published == [] && MiddleOnto(c, o.c, f, k)
  {
    assert f[k][0] == k && LongEnough(k, f[k]);
    StoredKeeps(c', k, f[k]);
  }

  /** Packets 2 to 4 replace what was filed under their numbers and touch nothing else. */
  lemma MiddleHeard(c: Collector, f: seq<seq<byte>>) returns (c': Collector)
    requires Collecting(c) && c.hasFirst && Sequence(f)
    ensures MiddleOnto(c, c', f, 4) && Listen(c, [f[2]] + [f[3]] + [f[4]]) == Out(c', [])
  {
    MiddleFiled(c, c, f, 2);
    ListenOne(c, f[2]);
    var c2 := Handle(c, f[2]).c;
    MiddleFiled(c, c2, f, 3);
    c' := ThirdAndFourth(c, c2, f);
  }

  lemma ThirdAndFourth(c: Collector, c2: Collector, f: seq<seq<byte>>) returns (c': Collector)
    requires Collecting(c) && Sequence(f) && MiddleOnto(c, c2, f, 2) && Listen(c, [f[2]]) == Out(c2, [])
    ensures MiddleOnto(c, c', f, 4) && Listen(c, [f[2]] + [f[3]] + [f[4]]) == Out(c', [])
  {
    MiddleFiled(c, c2, f, 3);
    ListenNext(c, [f[2]], f[3]);
    var c3 := Handle(c2, f[3]).c;
    MiddleFiled(c, c3, f, 4);
    ListenNext(c, [f[2]] + [f[3]], f[4]);
    c' := Handle(c3, f[4]).c;
  }

  lemma ListenOne(c: Collector, packet: seq<byte>)
    requires Collecting(c)
    ensures Listen(c, [packet]) == Handle(c, packet)
  {
    var none: seq<seq<byte>> := [];
    assert [packet][..0] == none && Listen(c, none) == Out(c, []);
  }

  /** A signature packet is filed when the other part is not held ... */
  lemma SignatureFiled(c: Collector, f: seq<seq<byte>>, k: int)
    requires Sequence(f) && HasMiddle(c, f, 4) && 5 <= k <= 6 && |f[k]| >= 2 && Held(c, 11 - k) == []
    ensures var o := Handle(c, f[k]);
            && o.published == [] && HasMiddle(o.c, f, 4) && HeldHead(o.c) == HeldHead(c)
            && Held(o.c, k) == f[k][1..] && Held(o.c, 11 - k) == []
  {
    assert f[k][0] == k;
    SixIff(c, k, f[k]);
    StoredKeeps(c, k, f[k]);
  }

  /** ... and completes a board when it is. */
  lemma SignatureCompletes(c: Collector, f: seq<seq<byte>>, k: int)
    requires Sequence(f) && HasMiddle(c, f, 4) && 5 <= k <= 6 && |f[k]| >= 2 && Held(c, 11 - k) != []
    ensures var o := Handle(c, f[k]);
            && !o.c.hasFirst && Collecting(o.c)
            && o.published == [Board(HeldHead(c), ReadChannels(f[2], f[3], f[4]),
                                     if k == 5 then f[5][1..] else Held(c, 5),
                                     if k == 6 then f[6][1..] else Held(c, 6))]
  {
    assert f[k][0] == k;
    SixIff(c, k, f[k]);
    StoredKeeps(c, k, f[k]);
    ReadHeld(Stored(c, k, f[k]), f);
  }

  lemma ShortIgnored(c: Collector, p: seq<byte>)
    requires Collecting(c) && |p| == 1 && 5 <= p[0] <= 6
    ensures Handle(c, p) == Out(c, [])
  {}

  /** What comes of packets 2 to 6, under whatever head, with whatever signature parts are
      held: one board at most. */
  function Completed(c: Collector, f: seq<seq<byte>>): seq<Board>
    requires Sequence(f) && Collecting(c)
  {
    if !c.hasFirst then []
    else
      var fifth, sixth := f[5][1..], f[6][1..];
      if fifth != [] && Held(c, 6) != [] then
        [Board(HeldHead(c), ReadChannels(f[2], f[3], f[4]), fifth, Held(c, 6))]
      else
        var part := if fifth != [] then fifth else Held(c, 5);
        if part != [] && sixth != [] then [Board(HeldHead(c), ReadChannels(f[2], f[3], f[4]), part, sixth)] else []
  }

  lemma CompletedFresh(c: Collector, f: seq<seq<byte>>)
    requires Sequence(f) && Collecting(c) && c.hasFirst && Held(c, 5) == Held(c, 6) == []
    ensures Completed(c, f) == if f[5][1..] != [] && f[6][1..] != [] then
                                 [Board(HeldHead(c), ReadChannels(f[2], f[3], f[4]), f[5][1..], f[6][1..])]
                               else []
  {}

  /** The last packet alone. */
  lemma SixthHeard(c: Collector, f: seq<seq<byte>>)
    requires Sequence(f) && HasMiddle(c, f, 4)
    ensures Handle(c, f[6]).published ==
            if f[6][1..] != [] && Held(c, 5) != [] then
              [Board(HeldHead(c), ReadChannels(f[2], f[3], f[4]), Held(c, 5), f[6][1..])]
            else []
  {
    if |f[6]| == 1 {
      ShortIgnored(c, f[6]);
    } else if Held(c, 5) == [] {
      SignatureFiled(c, f, 6);
    } else {
      SignatureCompletes(c, f, 6);
    }
  }

  lemma LastTwoHeard(c: Collector, f: seq<seq<byte>>)
    requires Sequence(f) && HasMiddle(c, f, 4)
    ensures var o := Handle(c, f[5]);
            Collecting(o.c) && o.published + Handle(o.c, f[6]).published == Completed(c, f)
  {
    HandleKeeps(c, f[5]);
    if |f[5]| == 1 {
      ShortIgnored(c, f[5]);
      SixthHeard(c, f);
    } else if Held(c, 6) == [] {
      SignatureFiled(c, f, 5);
      SixthHeard(Handle(c, f[5]).c, f);
    } else {
      SignatureCompletes(c, f, 5);
      Deaf(Handle(c, f[5]).c, f[6]);
    }
  }

  lemma Deaf(c: Collector, packet: seq<byte>)
    requires Collecting(c) && !c.hasFirst && packet != [] && packet[0] != 1
    ensures Handle(c, packet) == Out(c, [])
  {}

  lemma DeafWithoutHead(c: Collector, packets: seq<seq<byte>>)
    requires Collecting(c) && !c.hasFirst && forall i :: 0 <= i < |packets| ==> packets[i] != [] && packets[i][0] != 1
    ensures Listen(c, packets) == Out(c, [])
  {
    if packets != [] {
      var n := |packets| - 1;
      DeafWithoutHead(c, packets[..n]);
      Deaf(c, packets[n]);
    }
  }

  lemma SameEndsComplete(c: Collector, c': Collector, f: seq<seq<byte>>)
    requires Collecting(c) && Collecting(c') && Sequence(f) && SameEnds(c, c')
    ensures Completed(c', f) == Completed(c, f)
  {}

  /** Packets 2 to 6, after whatever was heard before. */
  lemma RestHeard(c: Collector, f: seq<seq<byte>>)
    requires Collecting(c) && Sequence(f)
    ensures Listen(c, f[2..]).published == Completed(c, f)
  {
    FiveInARow(f);
    if c.hasFirst {
      var c' := MiddleHeard(c, f);
      SameEndsComplete(c, c', f);
      TwoMore(c, c', [f[2]] + [f[3]] + [f[4]], f);
    } else {
      DeafWithoutHead(c, f[2..]);
    }
  }

  lemma FiveInARow(f: seq<seq<byte>>)
    requires Sequence(f)
    ensures f[2..] == [f[2]] + [f[3]] + [f[4]] + [f[5]] + [f[6]]
    ensures forall i :: 0 <= i < |f[2..]| ==> f[2..][i] != [] && f[2..][i][0] != 1
  {
    forall i | 0 <= i < |f[2..]| ensures f[2..][i] != [] && f[2..][i][0] != 1 {
      assert f[2..][i] == f[i + 2] && f[i + 2][0] == i + 2;
    }
  }

  lemma TwoMore(c: Collector, c': Collector, middle: seq<seq<byte>>, f: seq<seq<byte>>)
    requires Collecting(c) && Sequence(f) && Listen(c, middle) == Out(c', []) && HasMiddle(c', f, 4)
    ensures Listen(c, middle + [f[5]] + [f[6]]).published == Completed(c', f)
  {
    LastTwoHeard(c', f);
    ListenTwo(c, middle, f[5], f[6]);
  }

  /** All six packets in order, after whatever was heard before. */
  lemma SixHeard(c: Collector, f: seq<seq<byte>>)
    requires Collecting(c) && Sequence(f)
    ensures var o := Handle(c, f[1]); Collecting(o.c) && Listen(c, f[1..]).published == Completed(o.c, f)
  {
    var o := Handle(c, f[1]);
    HandleKeeps(c, f[1]);
    PublishesIff(c, f[1]);
    assert f[1][0] == 1;
    RestHeard(o.c, f);
    ListenOne(c, f[1]);
    ListenOn(c, [f[1]], f[2..]);
    assert f[1..] == [f[1]] + f[2..];
  }

  // ---------- The broadcast of a board ----------

  /** The six packets the satellite sends for a board. */
  function Packets(b: Board): (f: seq<seq<byte>>)
    requires b.Shaped()
    ensures |f| == 7 && forall k :: 1 <= k <= 6 ==> f[k] == FragmentBytes(b, k)
  {
    seq(7, k requires 0 <= k < 7 => if k == 0 then [] else FragmentBytes(b, k))
  }

  /** Both signature parts must be there, or their packets are too short to be kept. */
  predicate Signed(b: Board) {
    b.signature1 != [] && b.signature2 != []
  }

  lemma FragmentParts(b: Board, k: nat)
    requires b.Shaped() && 1 <= k <= 6
    ensures k <= 4 ==> LongEnough(k, FragmentBytes(b, k))
    ensures k == 5 ==> FragmentBytes(b, k)[1..] == b.signature1
    ensures k == 6 ==> FragmentBytes(b, k)[1..] == b.signature2
  {}

  lemma PacketsInSequence(b: Board)
    requires b.Shaped()
    ensures Sequence(Packets(b))
    ensures Packets(b)[5][1..] == b.signature1 && Packets(b)[6][1..] == b.signature2
    ensures ReadHead(Packets(b)[1]) == b.head
    ensures ReadChannels(Packets(b)[2], Packets(b)[3], Packets(b)[4]) == AsRead(b)
  {
    forall k | 1 <= k <= 6
      ensures k <= 4 ==> LongEnough(k, Packets(b)[k])
      ensures k == 5 ==> Packets(b)[k][1..] == b.signature1
      ensures k == 6 ==> Packets(b)[k][1..] == b.signature2
    {
      FragmentParts(b, k);
    }
    HeadRoundTrip(b.head);
    ChannelsRead(b);
  }

  /** The collector starts a new board with a first packet of this version. */
  predicate Opens(c: Collector, version: u16) {
    c.version < version || (c.version == version && 1 !in c.fragments)
  }

  lemma FirstHeard(c: Collector, p: seq<byte>)
    requires Collecting(c) && |p| >= 20 && p[0] == 1
    ensures var c' := Handle(c, p).c;
            && Handle(c, p).published == [] && Collecting(c')
            && if Opens(c, ReadHead(p).version) then
                 && c'.hasFirst && c'.version == ReadHead(p).version && c'.fragments.Keys == {1}
                 && HeldHead(c') == ReadHead(p)
               else c' == c
  {
    HandleKeeps(c, p);
    FirstKeeps(c, p);
  }

  /** What becomes of the board when its packets 2 to 6 complete one. */
  lemma CompletedIff(c: Collector, b: Board)
    requires Collecting(c) && b.Shaped() && c.hasFirst && Sequence(Packets(b))
    ensures Completed(c, Packets(b)) == [b] <==>
            && BoardFits(b) && Signed(b) && HeldHead(c) == b.head && (Held(c, 6) == [] || Held(c, 6) == b.signature2)
  {
    PacketsInSequence(b);
    AsReadIff(b);
  }

  /** End to end, after whatever was heard before: the satellite's broadcast of a board is
      published as that board exactly when its slot sizes and functions fit four bits, neither
      signature part is empty, and its head is taken, or one just like it is held already, with
      no second signature part but the same. */
  lemma BroadcastPublishesIff(c: Collector, b: Board)
    requires Collecting(c) && b.Shaped()
    ensures Listen(c, Packets(b)[1..]).published == [b] <==>
            && BoardFits(b) && Signed(b)
            && (|| Opens(c, b.head.version)
                || (c.hasFirst && HeldHead(c) == b.head && (Held(c, 6) == [] || Held(c, 6) == b.signature2)))
  {
    PacketsInSequence(b);
    var c' := AfterFirst(c, Packets(b));
    if c'.hasFirst {
      CompletedIff(c', b);
    }
  }

  /** The state in which packets 2 to 6 find the collector. */
  lemma AfterFirst(c: Collector, f: seq<seq<byte>>) returns (c': Collector)
    requires Collecting(c) && Sequence(f)
    ensures Collecting(c') && Listen(c, f[1..]).published == Completed(c', f)
    ensures if Opens(c, ReadHead(f[1]).version) then
              c'.hasFirst && HeldHead(c') == ReadHead(f[1]) && Held(c', 5) == Held(c', 6) == []
            else c' == c
  {
    SixHeard(c, f);
    assert f[1][0] == 1 && LongEnough(1, f[1]);
    FirstHeard(c, f[1]);
    c' := Handle(c, f[1]).c;
  }

  /** Packets 2 to 6 bear no version: when a newer first packet gets in between, the rest of
      the earlier broadcast completes a board under the new head, exactly when it would have
      completed the earlier one; and that board is the newer broadcast only if all but the heads
      of the two agree. */
  lemma EarlierRestUnderNewHead(c: Collector, earlier: Board, later: Board)
    requires Collecting(c) && earlier.Shaped() && Opens(c, earlier.head.version)
    requires later.Shaped() && earlier.head.version < later.head.version
    ensures var mixed := earlier.(head := later.head);
            var packets := [Packets(earlier)[1]] + [Packets(later)[1]] + Packets(earlier)[2..];
            && (Listen(c, packets).published == [mixed] <==> BoardFits(earlier) && Signed(earlier))
            && (BoardFits(earlier) && Signed(earlier) ==>
                  (Listen(c, packets).published == [later] <==> mixed == later))
  {
    PacketsInSequence(earlier);
    PacketsInSequence(later);
    AsReadIff(earlier);
    UnderNewHead(c, Packets(earlier), Packets(later)[1]);
  }

  lemma UnderNewHead(c: Collector, e: seq<seq<byte>>, l1: seq<byte>)
    requires Collecting(c) && Sequence(e) && |l1| >= 20 && l1[0] == 1
    requires Opens(c, ReadHead(e[1]).version) && ReadHead(e[1]).version < ReadHead(l1).version
    ensures Listen(c, [e[1]] + [l1] + e[2..]).published
         == if e[5][1..] != [] && e[6][1..] != [] then
              [Board(ReadHead(l1), ReadChannels(e[2], e[3], e[4]), e[5][1..], e[6][1..])]
            else []
  {
    assert LongEnough(1, e[1]) && e[1][0] == 1;
    var c' := NewHeadFiled(c, e[1], l1);
    RestHeard(c', e);
    CompletedFresh(c', e);
    ListenOnQuietly(c, c', [e[1]] + [l1], e[2..]);
  }

  lemma NewHeadFiled(c: Collector, e1: seq<byte>, l1: seq<byte>) returns (c': Collector)
    requires Collecting(c) && |e1| >= 20 && |l1| >= 20 && e1[0] == l1[0] == 1
    requires Opens(c, ReadHead(e1).version) && ReadHead(e1).version < ReadHead(l1).version
    ensures Listen(c, [e1] + [l1]) == Out(c', []) && Collecting(c') && c'.hasFirst
    ensures HeldHead(c') == ReadHead(l1) && Held(c', 5) == Held(c', 6) == []
  {
    FirstHeard(c, e1);
    ListenOne(c, e1);
    FirstHeard(Handle(c, e1).c, l1);
    ListenNext(c, [e1], l1);
    c' := Handle(Handle(c, e1).c, l1).c;
  }

  // ---------- One packet lost ----------

  /** The first `n` packets of a broadcast, without packet `k`. */
  function Without(f: seq<seq<byte>>, k: nat, n: nat): seq<seq<byte>>
    requires n < |f|
  {
    if n == 0 then [] else if n == k then Without(f, k, n - 1) else Without(f, k, n - 1) + [f[n]]
  }

  /** Packets 1 to n have been heard, all but packet `k`. */
  predicate Lacks(c: Collector, f: seq<seq<byte>>, k: nat, n: nat)
    requires Sequence(f)
  {
    && Collecting(c) && c.hasFirst && k !in c.fragments && c.fragments[1].data == f[1]
    && Held(c, 6) == if n == 6 != k then f[6][1..] else []
  }

  lemma LacksNext(c: Collector, f: seq<seq<byte>>, k: nat, n: nat)
    requires Sequence(f) && |f[5]| >= 2 && |f[6]| >= 2 && 2 <= k <= 6 && 2 <= n <= 6 && n != k && Lacks(c, f, k, n - 1)
    ensures var o := Handle(c, f[n]); o.published == [] && Lacks(o.c, f, k, n)
  {
    var p := f[n];
    assert p[0] == n && LongEnough(n, p);
    StoredKeeps(c, n, p);
    if n >= 5 {
      SixIff(c, n, p);
    }
  }

  lemma {:induction false} HeardWithout(c: Collector, c1: Collector, heard: seq<seq<byte>>,
                                        f: seq<seq<byte>>, k: nat, n: nat) returns (c': Collector)
    requires Collecting(c) && Sequence(f) && |f[5]| >= 2 && |f[6]| >= 2 && 2 <= k <= 6 && 1 <= n <= 6
    requires Listen(c, [f[1]]) == Out(c1, []) && Lacks(c1, f, k, 1) && heard == Without(f, k, n)
    ensures Listen(c, heard) == Out(c', []) && Lacks(c', f, k, n)
    decreases n
  {
    if n == 1 {
      WithoutFirst(f, k, n);
      c' := c1;
    } else {
      var front := Without(f, k, n - 1);
      var before := HeardWithout(c, c1, front, f, k, n - 1);
      if n == k {
        c' := before;
      } else {
        c' := OneMoreHeard(c, before, front, heard, f, k, n);
      }
    }
  }

  lemma WithoutFirst(f: seq<seq<byte>>, k: nat, n: nat)
    requires |f| > 1 && k != 1 && n == 1
    ensures Without(f, k, n) == [f[1]]
  {
    assert Without(f, k, 0) == [] && Without(f, k, n) == Without(f, k, 0) + [f[n]];
    NothingBefore([f[n]]);
  }

  lemma FirstOnly(c: Collector, f: seq<seq<byte>>, k: nat) returns (c': Collector)
    requires Collecting(c) && Sequence(f) && Opens(c, ReadHead(f[1]).version) && 2 <= k <= 6
    ensures Listen(c, [f[1]]) == Out(c', []) && Lacks(c', f, k, 1)
  {
    assert f[1][0] == 1 && LongEnough(1, f[1]);
    FirstHeard(c, f[1]);
    ListenOne(c, f[1]);
    c' := Handle(c, f[1]).c;
  }

  lemma OneMoreHeard(c: Collector, before: Collector, heard: seq<seq<byte>>, more: seq<seq<byte>>,
                     f: seq<seq<byte>>, k: nat, n: nat) returns (c': Collector)
    requires Collecting(c) && Sequence(f) && |f[5]| >= 2 && |f[6]| >= 2 && 2 <= k <= 6 && 2 <= n <= 6 && n != k
    requires more == heard + [f[n]] && Listen(c, heard) == Out(before, []) && Lacks(before, f, k, n - 1)
    ensures Listen(c, more) == Out(c', []) && Lacks(c', f, k, n)
  {
    LacksNext(before, f, k, n);
    ListenQuietly(c, heard, f[n]);
    c' := Handle(before, f[n]).c;
  }

  /** The satellite sends every board under the same version.  When any one packet but the
      first is lost, the next broadcast is therefore published under the head of the one before,
      and, unless the lost packet was the last, with its second signature part too. */
  lemma OneLost(c: Collector, earlier: Board, later: Board, k: nat)
    requires Collecting(c) && earlier.Shaped() && Signed(earlier) && Opens(c, earlier.head.version)
    requires later.Shaped() && Signed(later) && BoardFits(later) && later.head.version == earlier.head.version
    requires 2 <= k <= 6
    ensures var heard := Without(Packets(earlier), k, 6) + Packets(later)[1..];
            Listen(c, heard).published
            == [later.(head := earlier.head, signature2 := if k == 6 then later.signature2 else earlier.signature2)]
  {
    PacketsInSequence(earlier);
    PacketsInSequence(later);
    AsReadIff(later);
    NextUnderOldHead(c, Packets(earlier), Packets(later), k);
  }

  lemma NextUnderOldHead(c: Collector, e: seq<seq<byte>>, l: seq<seq<byte>>, k: nat)
    requires Collecting(c) && Sequence(e) && |e[5]| >= 2 && |e[6]| >= 2 && Opens(c, ReadHead(e[1]).version)
    requires Sequence(l) && |l[5]| >= 2 && |l[6]| >= 2 && 2 <= k <= 6
    requires ReadHead(l[1]).version == ReadHead(e[1]).version
    ensures Listen(c, Without(e, k, 6) + l[1..]).published
         == [Board(ReadHead(e[1]), ReadChannels(l[2], l[3], l[4]), l[5][1..], if k == 6 then l[6][1..] else e[6][1..])]
  {
    var first := FirstOnly(c, e, k);
    var before := HeardWithout(c, first, Without(e, k, 6), e, k, 6);
    OldHeadStays(before, e, l, k);
    ListenOnQuietly(c, before, Without(e, k, 6), l[1..]);
  }

  lemma OldHeadStays(c: Collector, e: seq<seq<byte>>, l: seq<seq<byte>>, k: nat)
    requires Sequence(e) && Sequence(l) && 2 <= k <= 6 && Lacks(c, e, k, 6)
    requires |e[6]| >= 2 && |l[5]| >= 2 && |l[6]| >= 2 && ReadHead(l[1]).version == ReadHead(e[1]).version
    ensures Listen(c, l[1..]).published
         == [Board(ReadHead(e[1]), ReadChannels(l[2], l[3], l[4]), l[5][1..], if k == 6 then l[6][1..] else e[6][1..])]
  {
    assert c.version == ReadHead(e[1]).version;
    var still := AfterFirst(c, l);
  }
}
