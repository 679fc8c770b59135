/** One session of the satellite on its own: what a sequence of fragments under its id makes of
    it, and which fragments can be mixed into something else than the message. */
module UplinkMixture {
  import opened Bytes
  import opened UplinkWire
  import Sat = UplinkSatellite
  import Clock = SlotClock

  /** A session waits for a fragment, was closed, or has handed its data on. */
  datatype Progress = Waiting(expected: nat, data: seq<byte>) | Shut | Delivered(data: seq<byte>)

  function Fresh(): Progress {
    Waiting(0, [])
  }

  predicate Under(u: Uplink, id: byte) {
    u.Fragment? && u.ship == MY_MMSI && u.session == id
  }

  function Feed(p: Progress, u: Uplink): Progress
    requires u.Fragment?
  {
    if !p.Waiting? || Sat.IsFileChunk(u.data) then p
    else if u.kind == 30 then Waiting(1, u.data)
    else if u.num != p.expected then Shut
    else if u.kind == 32 then Delivered(p.data + u.data)
    else Waiting(p.expected + 1, p.data + u.data)
  }

  predicate AllFragments(us: seq<Uplink>) {
    forall k :: 0 <= k < |us| ==> us[k].Fragment?
  }

  function FeedAll(p: Progress, us: seq<Uplink>): Progress
    requires AllFragments(us)
  {
    if us == [] then p else Feed(FeedAll(p, us[..|us| - 1]), us[|us| - 1])
  }

  lemma FeedNext(p: Progress, us: seq<Uplink>, u: Uplink)
    requires AllFragments(us) && u.Fragment?
    ensures AllFragments(us + [u]) && FeedAll(p, us + [u]) == Feed(FeedAll(p, us), u)
  {
    assert (us + [u])[..|us|] == us;
  }

  // ---------- The session inside the satellite ----------

  /** The satellite's session of the ship is this far. */
  predicate Tracks(s: Sat.Satellite, id: byte, p: Progress) {
    && p.Waiting? && MY_MMSI in s.sessions && s.sessions[MY_MMSI].id == id
    && s.sessions[MY_MMSI].expected == p.expected && s.sessions[MY_MMSI].data == p.data
  }

  /** What an event shows of a session that has come to `p`. */
  predicate Shows(o: Sat.Out, id: byte, p: Progress) {
    match p
    case Waiting(_, _) => Tracks(o.s, id, p) && o.delivered == [] && o.packets == []
    case Shut => MY_MMSI !in o.s.sessions && o.delivered == [] && o.packets == []
    case Delivered(data) =>
      && MY_MMSI !in o.s.sessions
      && o.delivered == [Sat.Delivery(MY_MMSI, id, data)] && o.packets == [AckPacket(MY_MMSI, id)]
  }

  lemma FeedIsAccept(s: Sat.Satellite, id: byte, p: Progress, u: Uplink, slot: Clock.Slot)
    requires Tracks(s, id, p) && Under(u, id)
    ensures Shows(Sat.Accept(s, u, slot), id, Feed(p, u))
  {}

  /** Fragments under an id the satellite does not have for the ship do nothing. */
  lemma NoSessionNoEffect(s: Sat.Satellite, u: Uplink, slot: Clock.Slot)
    requires u.Fragment? && u.ship == MY_MMSI
    requires MY_MMSI in s.sessions ==> s.sessions[MY_MMSI].id != u.session
    ensures var o := Sat.Accept(s, u, slot); o.s == s && o.delivered == [] && o.packets == []
  {}

  // ---------- Mixtures ----------

  /** What can reach a session while the message is sent under its id: its own fragments, and
      those that were in flight before. */
  ghost predicate Available(u: Uplink, stale: set<Uplink>, message: seq<byte>, id: byte) {
    Under(u, id) && (u in stale || IsFragmentOf(u, message, id))
  }

  ghost predicate AllAvailable(us: seq<Uplink>, stale: set<Uplink>, message: seq<byte>, id: byte) {
    forall k :: 0 <= k < |us| ==> Available(us[k], stale, message, id)
  }

  /** Some order of them, with losses and repetitions, brings the session to `p`, from where it
      was or from the start. */
  ghost predicate Reached(p: Progress, held: Progress, stale: set<Uplink>, message: seq<byte>, id: byte) {
    exists us :: AllAvailable(us, stale, message, id) && AllFragments(us)
                 && (p == FeedAll(held, us) || p == FeedAll(Fresh(), us))
  }

  /** Something else than the message can be handed on. */
  ghost predicate Mixable(held: Progress, stale: set<Uplink>, message: seq<byte>, id: byte) {
    exists data :: data != message && Reached(Delivered(data), held, stale, message, id)
  }

  lemma ReachedStart(held: Progress, stale: set<Uplink>, message: seq<byte>, id: byte)
    ensures Reached(held, held, stale, message, id) && Reached(Fresh(), held, stale, message, id)
  {
    var none: seq<Uplink> := [];
    assert AllAvailable(none, stale, message, id) && FeedAll(held, none) == held && FeedAll(Fresh(), none) == Fresh();
  }

  lemma ReachedNext(p: Progress, u: Uplink, held: Progress, stale: set<Uplink>, message: seq<byte>, id: byte)
    requires Reached(p, held, stale, message, id) && Available(u, stale, message, id)
    ensures Reached(Feed(p, u), held, stale, message, id)
  {
    var us :| AllAvailable(us, stale, message, id) && AllFragments(us)
              && (p == FeedAll(held, us) || p == FeedAll(Fresh(), us));
    FeedNext(held, us, u);
    FeedNext(Fresh(), us, u);
    assert AllAvailable(us + [u], stale, message, id);
  }

  // ---------- Messages as chunks ----------

  function Join(cs: seq<seq<byte>>): seq<byte> {
    if cs == [] then [] else Join(cs[..|cs| - 1]) + cs[|cs| - 1]
  }

  predicate AllFull(cs: seq<seq<byte>>) {
    forall j :: 0 <= j < |cs| ==> |cs[j]| == CHUNK
  }

  lemma JoinNext(cs: seq<seq<byte>>, c: seq<byte>)
    ensures Join(cs + [c]) == Join(cs) + c
  {
    assert (cs + [c])[..|cs|] == cs;
  }

  lemma SliceOfFront(a: seq<byte>, c: seq<byte>, k: nat, l: nat)
    requires k <= l <= |a|
    ensures (a + c)[k..l] == a[k..l]
  {}

  lemma {:induction false} JoinSlices(cs: seq<seq<byte>>)
    requires AllFull(cs)
    ensures |Join(cs)| == CHUNK * |cs|
    ensures forall j :: 0 <= j < |cs| ==> Join(cs)[CHUNK * j..CHUNK * (j + 1)] == cs[j]
  {
    if cs != [] {
      var n := |cs| - 1;
      JoinSlices(cs[..n]);
      forall j | 0 <= j < |cs| ensures Join(cs)[CHUNK * j..CHUNK * (j + 1)] == cs[j] {
        if j < n {
          SliceOfFront(Join(cs[..n]), cs[n], CHUNK * j, CHUNK * (j + 1));
          assert cs[..n][j] == cs[j];
        }
      }
    }
  }

  /** The first `n` chunks of a message, none of them the last. */
  function Chunks(message: seq<byte>, n: nat): (cs: seq<seq<byte>>)
    requires n == 0 || n < FragmentCount(message)
    ensures |cs| == n && AllFull(cs)
  {
    seq(n, j requires 0 <= j < n => Chunk(message, j))
  }

  lemma {:induction false} JoinChunks(message: seq<byte>, n: nat)
    requires n == 0 || n < FragmentCount(message)
    ensures Join(Chunks(message, n)) == Prefix(message, n)
  {
    if n > 0 {
      JoinChunks(message, n - 1);
      PrefixGrows(message, n - 1);
      assert Chunks(message, n)[..n - 1] == Chunks(message, n - 1);
    } else {
      assert Prefix(message, 0) == [];
    }
  }

  lemma CountOf(message: seq<byte>, e: nat, rest: nat)
    requires |message| == CHUNK * e + rest && 1 <= rest <= CHUNK
    ensures FragmentCount(message) == e + 1 && Chunk(message, e) == message[CHUNK * e..]
  {}

  lemma PartsOfMessage(cs: seq<seq<byte>>, c: seq<byte>, message: seq<byte>)
    requires AllFull(cs) && 1 <= |c| <= CHUNK && Join(cs) + c == message
    ensures |cs| + 1 == FragmentCount(message) && c == Chunk(message, |cs|)
    ensures forall j :: 0 <= j < |cs| ==> cs[j] == Chunk(message, j)
  {
    JoinSlices(cs);
    CountOf(message, |cs|, |c|);
    assert (Join(cs) + c)[CHUNK * |cs|..] == c;
    forall j | 0 <= j < |cs| ensures cs[j] == Chunk(message, j) {
      SliceOfFront(Join(cs), c, CHUNK * j, CHUNK * (j + 1));
      assert Chunk(message, j) == message[CHUNK * j..CHUNK * (j + 1)];
    }
  }

  /** Full chunks and a last one make up the message exactly when they are its chunks. */
  lemma JoinIsMessageIff(cs: seq<seq<byte>>, c: seq<byte>, message: seq<byte>)
    requires AllFull(cs) && 1 <= |c| <= CHUNK
    ensures Join(cs) + c == message <==>
              && |cs| + 1 == FragmentCount(message)
              && (forall j :: 0 <= j < |cs| ==> cs[j] == Chunk(message, j)) && c == Chunk(message, |cs|)
  {
    var e := |cs|;
    if Join(cs) + c == message {
      PartsOfMessage(cs, c, message);
    } else if e + 1 == FragmentCount(message) && c == Chunk(message, e)
              && forall j :: 0 <= j < e ==> cs[j] == Chunk(message, j) {
      assert cs == Chunks(message, e);
      JoinChunks(message, e);
      PrefixGrows(message, e);
    }
  }

  // ---------- What old fragments and old data can do ----------

  /** An old message, and which of its fragments are still in flight. */
  datatype Old = Old(message: seq<byte>, sent: set<nat>) {
    predicate Valid() {
      FragmentCount(message) <= Sat.MAX_FRAGMENTS && forall i :: i in sent ==> i < FragmentCount(message)
    }

    function Fragments(id: byte): set<Uplink>
      requires Valid()
    {
      set i | i in sent :: FragmentOf(message, i, MY_MMSI, id)
    }
  }

  /** A fragment that is not diverted, and after which others follow. */
  predicate Inner(message: seq<byte>, j: nat) {
    j + 1 < FragmentCount(message) && !Sat.IsFileChunk(Chunk(message, j))
  }

  /** The last one, not diverted. */
  predicate Final(message: seq<byte>, j: nat) {
    j + 1 == FragmentCount(message) && !Sat.IsFileChunk(Chunk(message, j))
  }

  predicate OldInner(o: Old, j: nat) {
    j in o.sent && Inner(o.message, j)
  }

  predicate OldFinal(o: Old, j: nat) {
    j in o.sent && Final(o.message, j)
  }

  /** Place `j` can be filled, by the new message or the old. */
  predicate Fills(o: Old, message: seq<byte>, j: nat) {
    Inner(message, j) || OldInner(o, j)
  }

  /** Place `j` can be filled differently from the new message. */
  predicate Differs(o: Old, message: seq<byte>, j: nat) {
    OldInner(o, j) && j < FragmentCount(message) && Chunk(o.message, j) != Chunk(message, j)
  }

  ghost predicate SomeDiffers(o: Old, message: seq<byte>, from: nat, e: nat) {
    exists j :: from <= j < e && Differs(o, message, j)
  }

  /** The last fragment, new or old, ends at place `e` something that is not the new message. */
  ghost predicate EndsWrong(o: Old, message: seq<byte>, from: nat, apart: bool, e: nat) {
    || (Final(message, e) && (apart || SomeDiffers(o, message, from, e)))
    || (OldFinal(o, e)
        && (|| e + 1 != FragmentCount(message) || apart || SomeDiffers(o, message, from, e)
            || Chunk(o.message, e) != Chunk(message, e)))
  }

  /** From place `from` on, all places can be filled up to an end that is wrong.  `apart` says
      that what stands before `from` already differs. */
  ghost predicate MixesFrom(o: Old, message: seq<byte>, from: nat, apart: bool) {
    exists e :: from <= e && (forall j :: from <= j < e ==> Fills(o, message, j))
                && EndsWrong(o, message, from, apart, e)
  }

  /** Chunks that fill the places one after the other. */
  predicate Mixture(o: Old, message: seq<byte>, from: nat, cs: seq<seq<byte>>) {
    && from <= |cs| && (from == 0 || from < FragmentCount(o.message))
    && (forall j :: 0 <= j < from ==> cs[j] == Chunk(o.message, j))
    && forall j :: from <= j < |cs| ==>
         || (Inner(message, j) && cs[j] == Chunk(message, j))
         || (OldInner(o, j) && cs[j] == Chunk(o.message, j))
  }

  lemma MixtureFull(o: Old, message: seq<byte>, from: nat, cs: seq<seq<byte>>)
    requires Mixture(o, message, from, cs)
    ensures AllFull(cs) && forall j :: from <= j < |cs| ==> Fills(o, message, j)
  {}

  /** The last chunk of a mixture. */
  predicate Ending(o: Old, message: seq<byte>, e: nat, c: seq<byte>) {
    (Final(message, e) && c == Chunk(message, e)) || (OldFinal(o, e) && c == Chunk(o.message, e))
  }

  /** What was held before place `from` is not the beginning of the new message. */
  predicate Apart(o: Old, message: seq<byte>, from: nat) {
    from > 0 && Prefix(o.message, from) != Prefix(message, from)
  }

  lemma DifferentPlace(o: Old, message: seq<byte>, from: nat, cs: seq<seq<byte>>, j: nat)
    requires Mixture(o, message, from, cs) && |cs| + 1 == FragmentCount(message)
    requires j < |cs| && cs[j] != Chunk(message, j)
    ensures Apart(o, message, from) || SomeDiffers(o, message, from, |cs|)
  {
    if from <= j {
      assert Differs(o, message, j);
    } else if !Apart(o, message, from) {
      ChunksOfPrefix(o.message, message, from, j);
    }
  }

  /** A mixture that is something else than the message has a wrong end. */
  lemma WrongMixture(o: Old, message: seq<byte>, from: nat, cs: seq<seq<byte>>, c: seq<byte>)
    requires Mixture(o, message, from, cs) && Ending(o, message, |cs|, c) && Join(cs) + c != message
    ensures MixesFrom(o, message, from, Apart(o, message, from))
  {
    var e := |cs|;
    MixtureFull(o, message, from, cs);
    JoinIsMessageIff(cs, c, message);
    if e + 1 == FragmentCount(message) {
      if j: nat :| j < e && cs[j] != Chunk(message, j) {
        DifferentPlace(o, message, from, cs, j);
      }
    }
    assert EndsWrong(o, message, from, Apart(o, message, from), e);
  }

  lemma ChunksOfPrefix(a: seq<byte>, b: seq<byte>, n: nat, j: nat)
    requires j < n < FragmentCount(a) && n < FragmentCount(b) && Prefix(a, n) == Prefix(b, n)
    ensures Chunk(a, j) == Chunk(b, j)
  {
    assert Chunk(a, j) == Prefix(a, n)[CHUNK * j..CHUNK * (j + 1)];
    assert Chunk(b, j) == Prefix(b, n)[CHUNK * j..CHUNK * (j + 1)];
  }

  // ---------- From fragments to mixtures ----------

  lemma FeedOf(p: Progress, x: seq<byte>, i: nat, id: byte)
    requires i < FragmentCount(x) <= Sat.MAX_FRAGMENTS
    ensures Feed(p, FragmentOf(x, i, MY_MMSI, id)) ==
            if !p.Waiting? || Sat.IsFileChunk(Chunk(x, i)) then p
            else if i == 0 && FragmentCount(x) > 1 then Waiting(1, Chunk(x, 0))
            else if i != p.expected then Shut
            else if i + 1 == FragmentCount(x) then Delivered(p.data + Chunk(x, i))
            else Waiting(i + 1, p.data + Chunk(x, i))
  {
    Sat.NumberFits(FragmentCount(x), i);
  }

  /** What has been received is a mixture. */
  ghost predicate Built(o: Old, message: seq<byte>, h: nat, p: Progress) {
    match p
    case Waiting(expected, data) =>
      exists from, cs :: from in {0, h} && Mixture(o, message, from, cs) && expected == |cs| && data == Join(cs)
    case Shut => true
    case Delivered(data) =>
      exists from, cs, c ::
        from in {0, h} && Mixture(o, message, from, cs) && Ending(o, message, |cs|, c) && data == Join(cs) + c
  }

  lemma BuiltWaiting(o: Old, message: seq<byte>, h: nat, from: nat, cs: seq<seq<byte>>)
    requires from in {0, h} && Mixture(o, message, from, cs)
    ensures Built(o, message, h, Waiting(|cs|, Join(cs)))
  {}

  lemma MixtureNext(o: Old, message: seq<byte>, from: nat, cs: seq<seq<byte>>, c: seq<byte>)
    requires Mixture(o, message, from, cs) && Filler(o, message, |cs|, c)
    ensures Mixture(o, message, from, cs + [c])
  {
    var more := cs + [c];
    forall j | from <= j < |more|
      ensures (Inner(message, j) && more[j] == Chunk(message, j)) || (OldInner(o, j) && more[j] == Chunk(o.message, j))
    {
      assert more[j] == if j < |cs| then cs[j] else c;
    }
  }

  /** A chunk for place `j`. */
  predicate Filler(o: Old, message: seq<byte>, j: nat, c: seq<byte>) {
    (Inner(message, j) && c == Chunk(message, j)) || (OldInner(o, j) && c == Chunk(o.message, j))
  }

  /** One more chunk, of the new message or the old, in the place that is waited for. */
  lemma BuiltNext(o: Old, message: seq<byte>, h: nat, from: nat, cs: seq<seq<byte>>, c: seq<byte>)
    requires from in {0, h} && Mixture(o, message, from, cs)
    requires Filler(o, message, |cs|, c)
    ensures Built(o, message, h, Waiting(|cs| + 1, Join(cs) + c))
  {
    JoinNext(cs, c);
    MixtureNext(o, message, from, cs, c);
    BuiltWaiting(o, message, h, from, cs + [c]);
  }

  lemma BuiltFirst(o: Old, message: seq<byte>, h: nat, c: seq<byte>)
    requires Filler(o, message, 0, c)
    ensures Built(o, message, h, Waiting(1, c))
  {
    BuiltNext(o, message, h, 0, [], c);
    assert Join([]) + c == c;
  }

  lemma BuiltLast(o: Old, message: seq<byte>, h: nat, from: nat, cs: seq<seq<byte>>, c: seq<byte>)
    requires from in {0, h} && Mixture(o, message, from, cs) && Ending(o, message, |cs|, c)
    ensures Built(o, message, h, Delivered(Join(cs) + c))
  {}

  lemma FeedBuilt(o: Old, message: seq<byte>, h: nat, p: Progress, x: seq<byte>, i: nat, id: byte)
    requires Built(o, message, h, p) && i < FragmentCount(x) <= Sat.MAX_FRAGMENTS
    requires x == message || (x == o.message && i in o.sent)
    ensures Built(o, message, h, Feed(p, FragmentOf(x, i, MY_MMSI, id)))
  {
    FeedOf(p, x, i, id);
    if p.Waiting? && !Sat.IsFileChunk(Chunk(x, i)) {
      if i == 0 && FragmentCount(x) > 1 {
        BuiltFirst(o, message, h, Chunk(x, 0));
      } else if i == p.expected {
        var from, cs :| from in {0, h} && Mixture(o, message, from, cs) && p.expected == |cs| && p.data == Join(cs);
        if i + 1 == FragmentCount(x) {
          BuiltLast(o, message, h, from, cs, Chunk(x, i));
        } else {
          BuiltNext(o, message, h, from, cs, Chunk(x, i));
        }
      }
    }
  }

  lemma WhichFragment(o: Old, message: seq<byte>, u: Uplink, id: byte) returns (x: seq<byte>, i: nat)
    requires o.Valid() && Available(u, o.Fragments(id), message, id)
    ensures i < FragmentCount(x) && u == FragmentOf(x, i, MY_MMSI, id)
    ensures x == message || (x == o.message && i in o.sent)
  {
    if u in o.Fragments(id) {
      x := o.message;
      i :| i in o.sent && u == FragmentOf(o.message, i, MY_MMSI, id);
    } else {
      x := message;
      i :| 0 <= i < FragmentCount(message) && u == FragmentOf(message, i, MY_MMSI, id);
    }
  }

  lemma {:induction false} AllBuilt(o: Old, message: seq<byte>, h: nat, start: Progress, us: seq<Uplink>, id: byte)
    requires o.Valid() && FragmentCount(message) <= Sat.MAX_FRAGMENTS && Built(o, message, h, start)
    requires AllFragments(us) && AllAvailable(us, o.Fragments(id), message, id)
    ensures Built(o, message, h, FeedAll(start, us))
  {
    if us != [] {
      var n := |us| - 1;
      AllBuilt(o, message, h, start, us[..n], id);
      var x, i := WhichFragment(o, message, us[n], id);
      FeedBuilt(o, message, h, FeedAll(start, us[..n]), x, i, id);
    }
  }

  /** Where the satellite stands with the first `h` fragments of the old message. */
  function HeldOf(o: Old, h: nat): Progress {
    Waiting(h, Prefix(o.message, h))
  }

  lemma StartsBuilt(o: Old, message: seq<byte>, h: nat)
    requires h == 0 || h < FragmentCount(o.message)
    ensures Built(o, message, h, HeldOf(o, h)) && Built(o, message, h, Fresh())
  {
    var none: seq<seq<byte>> := [];
    BuiltWaiting(o, message, h, 0, none);
    JoinChunks(o.message, h);
    BuiltWaiting(o, message, h, h, Chunks(o.message, h));
  }

  lemma MixableMixes(o: Old, message: seq<byte>, h: nat, id: byte)
    requires o.Valid() && FragmentCount(message) <= Sat.MAX_FRAGMENTS && (h == 0 || h < FragmentCount(o.message))
    requires Mixable(HeldOf(o, h), o.Fragments(id), message, id)
    ensures MixesFrom(o, message, 0, false) || (h > 0 && MixesFrom(o, message, h, Apart(o, message, h)))
  {
    var data :| data != message && Reached(Delivered(data), HeldOf(o, h), o.Fragments(id), message, id);
    var us :| AllAvailable(us, o.Fragments(id), message, id) && AllFragments(us)
              && (Delivered(data) == FeedAll(HeldOf(o, h), us) || Delivered(data) == FeedAll(Fresh(), us));
    StartsBuilt(o, message, h);
    AllBuilt(o, message, h, HeldOf(o, h), us, id);
    AllBuilt(o, message, h, Fresh(), us, id);
    var from, cs, c :|
      from in {0, h} && Mixture(o, message, from, cs) && Ending(o, message, |cs|, c) && data == Join(cs) + c;
    WrongMixture(o, message, from, cs, c);
  }

  // ---------- From mixtures to fragments ----------

  /** Fill the places up to `e`, place `d` from the old message if it has it. */
  lemma {:induction false} Fill(o: Old, message: seq<byte>, from: nat, e: nat, d: nat, id: byte)
    returns (cs: seq<seq<byte>>, us: seq<Uplink>)
    requires o.Valid() && FragmentCount(message) <= Sat.MAX_FRAGMENTS && (from == 0 || from < FragmentCount(o.message))
    requires from <= e && forall j :: from <= j < e ==> Fills(o, message, j)
    ensures Mixture(o, message, from, cs) && |cs| == e
    ensures from <= d < e && OldInner(o, d) ==> cs[d] == Chunk(o.message, d)
    ensures AllFragments(us) && AllAvailable(us, o.Fragments(id), message, id)
    ensures FeedAll(HeldOf(o, from), us) == Waiting(e, Join(cs))
    decreases e
  {
    if e == from {
      cs, us := Chunks(o.message, from), [];
      JoinChunks(o.message, from);
    } else {
      var j := e - 1;
      assert Fills(o, message, j);
      cs, us := Fill(o, message, from, j, d, id);
      var x := if OldInner(o, j) && (j == d || !Inner(message, j)) then o.message else message;
      MixtureNext(o, message, from, cs, Chunk(x, j));
      FillNext(HeldOf(o, from), cs, us, x, j, id);
      MoreAvailable(o, message, us, x, j, id);
      cs, us := cs + [Chunk(x, j)], us + [FragmentOf(x, j, MY_MMSI, id)];
    }
  }

  lemma FillNext(start: Progress, cs: seq<seq<byte>>, us: seq<Uplink>, x: seq<byte>, j: nat, id: byte)
    requires AllFragments(us) && FeedAll(start, us) == Waiting(j, Join(cs)) && |cs| == j
    requires Inner(x, j) && FragmentCount(x) <= Sat.MAX_FRAGMENTS
    ensures var u := FragmentOf(x, j, MY_MMSI, id);
            FeedAll(start, us + [u]) == Waiting(j + 1, Join(cs + [Chunk(x, j)]))
  {
    JoinNext(cs, Chunk(x, j));
    FeedNext(start, us, FragmentOf(x, j, MY_MMSI, id));
    FeedOf(Waiting(j, Join(cs)), x, j, id);
    NothingBefore(Chunk(x, j));
  }

  lemma MoreAvailable(o: Old, message: seq<byte>, us: seq<Uplink>, x: seq<byte>, i: nat, id: byte)
    requires o.Valid() && AllFragments(us) && AllAvailable(us, o.Fragments(id), message, id)
    requires i < FragmentCount(x) && (x == message || (x == o.message && i in o.sent))
    ensures AllFragments(us + [FragmentOf(x, i, MY_MMSI, id)])
    ensures AllAvailable(us + [FragmentOf(x, i, MY_MMSI, id)], o.Fragments(id), message, id)
  {
    var u := FragmentOf(x, i, MY_MMSI, id);
    assert Available(u, o.Fragments(id), message, id);
  }

  lemma SamePrefix(a: seq<byte>, b: seq<byte>, n: nat)
    requires 0 < n < FragmentCount(a) && n < FragmentCount(b) && forall j :: 0 <= j < n ==> Chunk(a, j) == Chunk(b, j)
    ensures Prefix(a, n) == Prefix(b, n)
  {
    assert Chunks(a, n) == Chunks(b, n);
    JoinChunks(a, n);
    JoinChunks(b, n);
  }

  /** A mixture with a wrong end is something else than the message. */
  lemma WrongEnd(o: Old, message: seq<byte>, from: nat, cs: seq<seq<byte>>, c: seq<byte>, d: nat)
    requires Mixture(o, message, from, cs) && Ending(o, message, |cs|, c)
    requires from <= d < |cs| && OldInner(o, d) ==> cs[d] == Chunk(o.message, d)
    requires || |cs| + 1 != FragmentCount(message) || c != Chunk(message, |cs|) || Apart(o, message, from)
             || (from <= d < |cs| && Differs(o, message, d))
    ensures Join(cs) + c != message
  {
    MixtureFull(o, message, from, cs);
    JoinIsMessageIff(cs, c, message);
    if Join(cs) + c == message && Apart(o, message, from) {
      SamePrefix(o.message, message, from);
    }
  }

  lemma MixesMixable(o: Old, message: seq<byte>, from: nat, h: nat, id: byte)
    requires o.Valid() && FragmentCount(message) <= Sat.MAX_FRAGMENTS && (h == 0 || h < FragmentCount(o.message))
    requires from in {0, h} && MixesFrom(o, message, from, Apart(o, message, from))
    ensures Mixable(HeldOf(o, h), o.Fragments(id), message, id)
  {
    var apart := Apart(o, message, from);
    var e :| from <= e && (forall j :: from <= j < e ==> Fills(o, message, j)) && EndsWrong(o, message, from, apart, e);
    var d: nat := e;
    if SomeDiffers(o, message, from, e) {
      d :| from <= d < e && Differs(o, message, d);
    }
    var cs, us := Fill(o, message, from, e, d, id);
    var x := if Final(message, e) && (apart || SomeDiffers(o, message, from, e)) then message else o.message;
    var u, c := FragmentOf(x, e, MY_MMSI, id), Chunk(x, e);
    WrongEnd(o, message, from, cs, c, d);
    MoreAvailable(o, message, us, x, e, id);
    FeedNext(HeldOf(o, from), us, u);
    FeedOf(Waiting(e, Join(cs)), x, e, id);
    FromEither(o, message, from, h, us + [u], Join(cs) + c, id);
  }

  lemma FromEither(o: Old, message: seq<byte>, from: nat, h: nat, us: seq<Uplink>, data: seq<byte>, id: byte)
    requires o.Valid() && from in {0, h} && AllFragments(us) && AllAvailable(us, o.Fragments(id), message, id)
    requires FeedAll(HeldOf(o, from), us) == Delivered(data) && data != message
    ensures Mixable(HeldOf(o, h), o.Fragments(id), message, id)
  {
    assert HeldOf(o, 0) == Fresh();
    assert Reached(Delivered(data), HeldOf(o, h), o.Fragments(id), message, id);
  }

  /** When what is in flight under the id are fragments of one old message, and what is held is
      its beginning: something else than the new message can be handed on exactly when, from the
      first place or from the first that is not held, every place up to a wrong end can be
      filled. */
  lemma MixableIff(o: Old, message: seq<byte>, h: nat, id: byte)
    requires o.Valid() && FragmentCount(message) <= Sat.MAX_FRAGMENTS && (h == 0 || h < FragmentCount(o.message))
    ensures Mixable(HeldOf(o, h), o.Fragments(id), message, id) <==>
              || MixesFrom(o, message, 0, false)
              || (h > 0 && MixesFrom(o, message, h, Apart(o, message, h)))
  {
    if Mixable(HeldOf(o, h), o.Fragments(id), message, id) {
      MixableMixes(o, message, h, id);
    }
    if MixesFrom(o, message, 0, false) {
      MixesMixable(o, message, 0, h, id);
    }
    if h > 0 && MixesFrom(o, message, h, Apart(o, message, h)) {
      MixesMixable(o, message, h, h, id);
    }
  }

  // ---------- The message alone ----------

  /** A satellite with a fresh session of the ship. */
  function OneSession(id: byte): Sat.Satellite {
    Sat.Initial().(sessions := map[MY_MMSI := Sat.Session(id, 0, [], -1)])
  }

  function InThisOrder(message: seq<byte>, order: seq<nat>, id: byte): (us: seq<Uplink>)
    requires Sat.Order(message, order)
    ensures |us| == |order| && AllFragments(us) && AllAvailable(us, {}, message, id)
  {
    seq(|order|, k requires 0 <= k < |order| => FragmentOf(message, order[k], MY_MMSI, id))
  }

  /** What the satellite has shown of a session that has come to `p`. */
  predicate HasShown(o: Sat.Out, id: byte, p: Progress) {
    && (if p.Waiting? then Tracks(o.s, id, p) else MY_MMSI !in o.s.sessions)
    && o.delivered == if p.Delivered? then [Sat.Delivery(MY_MMSI, id, p.data)] else []
  }

  lemma {:induction false} ReceivesInOrder(message: seq<byte>, order: seq<nat>, id: byte)
    requires Sat.Order(message, order)
    ensures HasShown(Sat.ReceiveAll(OneSession(id), message, order, MY_MMSI, id), id,
                     FeedAll(Fresh(), InThisOrder(message, order, id)))
  {
    if order != [] {
      var n := |order| - 1;
      ReceivesInOrder(message, order[..n], id);
      assert InThisOrder(message, order, id)[..n] == InThisOrder(message, order[..n], id);
      ReceivesNext(Sat.ReceiveAll(OneSession(id), message, order[..n], MY_MMSI, id),
                   FeedAll(Fresh(), InThisOrder(message, order[..n], id)), message, order[n], id);
    }
  }

  lemma ReceivesNext(before: Sat.Out, p: Progress, message: seq<byte>, i: nat, id: byte)
    requires HasShown(before, id, p) && i < FragmentCount(message)
    ensures var last := Sat.HandleFragmentOf(before.s, message, i, MY_MMSI, id);
            HasShown(Sat.Out(last.s, before.packets + last.packets, before.delivered + last.delivered,
                             before.diverted || last.diverted), id, Feed(p, FragmentOf(message, i, MY_MMSI, id)))
  {
    var u := FragmentOf(message, i, MY_MMSI, id);
    var last := Sat.HandleFragmentOf(before.s, message, i, MY_MMSI, id);
    assert Sat.Accept(before.s, u, 0) == last;
    if p.Waiting? {
      FeedIsAccept(before.s, id, p, u, 0);
    } else {
      NoSessionNoEffect(before.s, u, 0);
    }
    assert before.delivered + [] == before.delivered && [] + last.delivered == last.delivered;
  }

  lemma {:induction false} SomeOrder(message: seq<byte>, us: seq<Uplink>, id: byte) returns (order: seq<nat>)
    requires AllAvailable(us, {}, message, id)
    ensures Sat.Order(message, order) && InThisOrder(message, order, id) == us
  {
    if us == [] {
      order := [];
    } else {
      var n := |us| - 1;
      order := SomeOrder(message, us[..n], id);
      assert Available(us[n], {}, message, id);
      var i :| 0 <= i < FragmentCount(message) && us[n] == FragmentOf(message, i, MY_MMSI, id);
      order := order + [i];
      assert us == us[..n] + [us[n]];
    }
  }

  /** With nothing held and nothing else in flight, only a message whose numbers wrap around can
      be handed on as something else. */
  lemma AloneMixableIff(message: seq<byte>, id: byte)
    ensures Mixable(Fresh(), {}, message, id) <==> Sat.CanWrap(message)
  {
    var s := OneSession(id);
    Sat.ExactIffNumbersFit(s, message, MY_MMSI, id);
    if Mixable(Fresh(), {}, message, id) {
      var data :| data != message && Reached(Delivered(data), Fresh(), {}, message, id);
      var us :| AllAvailable(us, {}, message, id) && AllFragments(us) && Delivered(data) == FeedAll(Fresh(), us);
      var order := SomeOrder(message, us, id);
      ReceivesInOrder(message, order, id);
      assert Sat.Delivery(MY_MMSI, id, data) in Sat.ReceiveAll(s, message, order, MY_MMSI, id).delivered;
      assert !Sat.AlwaysExact(s, message, MY_MMSI, id);
    }
    if Sat.CanWrap(message) {
      var order := Sat.WrappedDelivery(s, message, MY_MMSI, id);
      ReceivesInOrder(message, order, id);
      var us := InThisOrder(message, order, id);
      assert FeedAll(Fresh(), us).Delivered?;
      assert Reached(Delivered(FeedAll(Fresh(), us).data), Fresh(), {}, message, id);
    }
  }
}
