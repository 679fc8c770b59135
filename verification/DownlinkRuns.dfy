/** What a run's log says about each downlink session: how often it transmitted, how it ended,
    and which messages can be completed at all. */
module DownlinkRuns {
  import opened Bytes
  import opened DcChannels
  import opened UplinkWire
  import opened Downlink

  /** The fragments transmitted to a ship since its session started. */
  function Since(log: seq<Event>, ship: u32): seq<nat> {
    if log == [] then []
    else
      var front, e := log[..|log| - 1], log[|log| - 1];
      if e == Started(ship) then []
      else if e.Transmit? && e.ship == ship then Since(front, ship) + [e.num]
      else Since(front, ship)
  }

  function Starts(log: seq<Event>, ship: u32): nat {
    if log == [] then 0
    else Starts(log[..|log| - 1], ship) + if log[|log| - 1] == Started(ship) then 1 else 0
  }

  predicate IsEnd(e: Event, ship: u32) {
    (e.Completed? || e.Failed?) && e.ship == ship
  }

  function Ends(log: seq<Event>, ship: u32): nat {
    if log == [] then 0
    else Ends(log[..|log| - 1], ship) + if IsEnd(log[|log| - 1], ship) then 1 else 0
  }

  lemma LogNext(log: seq<Event>, e: Event, ship: u32)
    ensures Since(log + [e], ship) == if e == Started(ship) then []
                                      else if e.Transmit? && e.ship == ship then Since(log, ship) + [e.num]
                                      else Since(log, ship)
    ensures Starts(log + [e], ship) == Starts(log, ship) + if e == Started(ship) then 1 else 0
    ensures Ends(log + [e], ship) == Ends(log, ship) + if IsEnd(e, ship) then 1 else 0
  {
    assert (log + [e])[..|log|] == log;
  }

  /** The first fragment first, the current one last, and one transmission more than retries. */
  predicate Attempts(s: Session, sent: seq<nat>) {
    && |sent| == 1 + s.retry && s.retry <= MAX_RETRY
    && sent[0] == 0 && sent[|sent| - 1] == s.current
    && forall i :: 0 <= i < |sent| ==> sent[i] < s.Total()
  }

  /** The log tells the state: a session is live exactly when it started and did not end. */
  ghost predicate Told(sessions: map<u32, Session>, log: seq<Event>) {
    && (forall ship :: ship in sessions ==> Attempts(sessions[ship], Since(log, ship)))
    && (forall ship :: Starts(log, ship) == Ends(log, ship) + One(ship in sessions))
  }

  lemma ToldQuietly(sessions: map<u32, Session>, log: seq<Event>, e: Event)
    requires Told(sessions, log) && (e.NoChannel? || e.Refused?)
    ensures Told(sessions, log + [e])
  {
    forall x ensures Since(log + [e], x) == Since(log, x)
                     && Starts(log + [e], x) == Starts(log, x) && Ends(log + [e], x) == Ends(log, x) {
      LogNext(log, e, x);
    }
  }

  lemma ToldTransmit(sessions: map<u32, Session>, ship: u32, n: nat, log: seq<Event>, e: Event)
    requires Told(sessions, log) && ship in sessions && n < sessions[ship].Total()
    requires sessions[ship].retry < MAX_RETRY && e.Transmit? && e.ship == ship && e.num == n
    ensures var s := sessions[ship];
            Told(sessions[ship := s.(retry := s.retry + 1, current := n)], log + [e])
  {
    forall x ensures Starts(log + [e], x) == Starts(log, x) && Ends(log + [e], x) == Ends(log, x)
                     && Since(log + [e], x) == if x == ship then Since(log, x) + [n] else Since(log, x) {
      LogNext(log, e, x);
    }
  }

  lemma ToldStart(sessions: map<u32, Session>, ship: u32, s: Session, log: seq<Event>, e: Event)
    requires Told(sessions, log) && ship !in sessions && s.retry == 0 && s.current == 0 && s.data != []
    requires e.Transmit? && e.ship == ship && e.num == 0
    ensures Told(sessions[ship := s], log + [Started(ship)] + [e])
  {
    var log' := log + [Started(ship)] + [e];
    forall x ensures Starts(log', x) == Starts(log, x) + One(x == ship) && Ends(log', x) == Ends(log, x)
                     && Since(log', x) == if x == ship then [0] else Since(log, x) {
      LogStart(log, ship, e, x);
    }
  }

  lemma LogStart(log: seq<Event>, ship: u32, e: Event, x: u32)
    requires e.Transmit? && e.ship == ship && e.num == 0
    ensures var log' := log + [Started(ship)] + [e];
            && Starts(log', x) == Starts(log, x) + One(x == ship) && Ends(log', x) == Ends(log, x)
            && Since(log', x) == if x == ship then [0] else Since(log, x)
  {
    LogNext(log, Started(ship), x);
    LogNext(log + [Started(ship)], e, x);
  }

  lemma ToldEnd(sessions: map<u32, Session>, ship: u32, e: Event, log: seq<Event>)
    requires Told(sessions, log) && ship in sessions && IsEnd(e, ship)
    ensures Told(sessions - {ship}, log + [e])
  {
    forall x ensures Starts(log + [e], x) == Starts(log, x) && Ends(log + [e], x) == Ends(log, x) + One(x == ship)
                     && Since(log + [e], x) == Since(log, x) {
      LogNext(log, e, x);
    }
  }

  lemma SendEffect(m: Manager, ship: u32, data: seq<byte>, id: byte, slot: int)
    ensures var o, c := Send(m, ship, data, id, slot), LeastFree(m.occupied);
            if c == -1 || ship in m.sessions || data == [] then
              && o.m.sessions == m.sessions && |o.events| == 1
              && o.events == [o.events[0]] && (o.events[0].NoChannel? || o.events[0].Refused?)
            else
              && o.m.sessions == m.sessions[ship := Session(id, c, data, 0, 0)]
              && |o.events| == 2 && o.events == [Started(ship), o.events[1]]
              && o.events[1].Transmit? && o.events[1].ship == ship && o.events[1].num == 0
  {}

  lemma ToldSend(m: Manager, ship: u32, data: seq<byte>, id: byte, slot: int, log: seq<Event>)
    requires Told(m.sessions, log)
    ensures var o := Send(m, ship, data, id, slot); Told(o.m.sessions, log + o.events)
  {
    var o, c := Send(m, ship, data, id, slot), LeastFree(m.occupied);
    SendEffect(m, ship, data, id, slot);
    if c == -1 || ship in m.sessions || data == [] {
      ToldQuietly(m.sessions, log, o.events[0]);
    } else {
      ToldStart(m.sessions, ship, Session(id, c, data, 0, 0), log, o.events[1]);
      assert log + o.events == log + [Started(ship)] + [o.events[1]];
    }
  }

  lemma RetryEffect(m: Manager, ship: u32, n: nat, slot: int)
    requires ship in m.sessions && n < m.sessions[ship].Total()
    ensures var o, s := Retry(m, ship, n, slot), m.sessions[ship];
            && |o.events| == 1 && o.events == [o.events[0]]
            && if s.retry < MAX_RETRY then
                 && o.m.sessions == m.sessions[ship := s.(retry := s.retry + 1, current := n)]
                 && o.events[0].Transmit? && o.events[0].ship == ship && o.events[0].num == n
               else o.m == Cleanup(m, ship) && o.events[0] == Failed(ship, s.id)
  {}

  lemma ToldRetry(m: Manager, ship: u32, n: nat, slot: int, log: seq<Event>)
    requires Told(m.sessions, log) && ship in m.sessions && n < m.sessions[ship].Total()
    ensures var o := Retry(m, ship, n, slot); Told(o.m.sessions, log + o.events)
  {
    var o := Retry(m, ship, n, slot);
    RetryEffect(m, ship, n, slot);
    if m.sessions[ship].retry < MAX_RETRY {
      ToldTransmit(m.sessions, ship, n, log, o.events[0]);
    } else {
      ToldEnd(m.sessions, ship, o.events[0], log);
    }
  }

  lemma ToldMask(m: Manager, a: AckMask, undefined: bool, slot: int, log: seq<Event>)
    requires Told(m.sessions, log) && a.ship in m.sessions
    ensures var o := HandleMask(m, a, undefined, slot); Told(o.m.sessions, log + o.events)
  {
    var s := m.sessions[a.ship];
    var n := MissingFrom(a.bits, s.Total(), 0);
    if AllConfirmed(a.bits, s.Total(), undefined) {
      ToldEnd(m.sessions, a.ship, Completed(a.ship, s.id), log);
    } else if n < s.Total() {
      ToldRetry(m, a.ship, n, slot, log);
    } else {
      assert log + [] == log;
    }
  }

  lemma ToldStep(m: Manager, input: Input, log: seq<Event>)
    requires SessionsValid(m) && Told(m.sessions, log)
    ensures var o := React(m, input); Told(o.m.sessions, log + o.events)
  {
    var nothing: seq<Event> := [];
    assert log + nothing == log;
    match input
    case SendTo(ship, data, id, slot) => ToldSend(m, ship, data, id, slot, log);
    case Mask(raw, undefined, slot) =>
      var a := DecodeMask(raw);
      if a.Some? && a.value.ship in m.sessions {
        ToldMask(m, a.value, undefined, slot, log);
      }
    case Expire(ship, slot) =>
      if ship in m.sessions {
        ToldRetry(m, ship, m.sessions[ship].current, slot, log);
      }
  }

  /** Over every run: each live session transmitted once more than it retried, four times at
      most, and each started session ended once or is still live. */
  lemma {:induction false} LogTellsState(inputs: seq<Input>)
    ensures Told(Run(inputs).m.sessions, Run(inputs).log)
  {
    if inputs != [] {
      var w := Run(inputs[..|inputs| - 1]);
      LogTellsState(inputs[..|inputs| - 1]);
      ToldStep(w.m, inputs[|inputs| - 1], w.log);
    }
  }

  // ---------- What completion means ----------

  /** The receiver confirms only fragments transmitted in the current session. */
  ghost predicate Honest(w: World, a: AckMask) {
    forall i :: Confirmed(a.bits, i) ==> i in Since(w.log, a.ship)
  }

  lemma Pigeonhole(sent: seq<nat>, n: nat)
    requires forall i :: 0 <= i < n ==> i in sent
    ensures n <= |sent|
  {
    ElementsAtMost(sent);
    Smaller(Below(n), Elements(sent));
  }

  function Below(n: nat): (s: set<int>)
    ensures |s| == n && forall i :: i in s <==> 0 <= i < n
  {
    if n == 0 then {} else Below(n - 1) + {n - 1}
  }

  function Elements(s: seq<nat>): set<int> {
    set x | x in s
  }

  lemma {:induction false} ElementsAtMost(s: seq<nat>)
    ensures |Elements(s)| <= |s|
  {
    if s == [] {
      assert Elements(s) == {};
    } else {
      var n := |s| - 1;
      ElementsAtMost(s[..n]);
      assert Elements(s) == Elements(s[..n]) + {s[n]};
    }
  }

  lemma Smaller(a: set<int>, b: set<int>)
    requires a <= b
    ensures |a| <= |b|
  {
    assert b == a + (b - a);
  }

  /** With an honest receiver a completed message had all its fragments transmitted; four
      transmissions per session then mean four fragments at most. */
  lemma CompletionNeedsAll(inputs: seq<Input>, raw: seq<byte>, undefined: bool, slot: int)
    requires var w, a := Run(inputs), DecodeMask(raw);
             a.Some? && Honest(w, a.value) && a.value.ship in w.m.sessions
             && w.m.sessions[a.value.ship].Total() <= SHIFT_LIMIT
    ensures var w, a := Run(inputs), DecodeMask(raw).value;
            var s := w.m.sessions[a.ship];
            React(w.m, Mask(raw, undefined, slot)).events == [Completed(a.ship, s.id)] ==>
              && (forall i :: 0 <= i < s.Total() ==> i in Since(w.log, a.ship))
              && s.Total() <= 1 + MAX_RETRY
  {
    var w, a := Run(inputs), DecodeMask(raw).value;
    var s := w.m.sessions[a.ship];
    LogTellsState(inputs);
    if AllConfirmed(a.bits, s.Total(), undefined) {
      forall i | 0 <= i < s.Total() ensures i in Since(w.log, a.ship) {
        assert Confirmed(a.bits, i);
      }
      Pigeonhole(Since(w.log, a.ship), s.Total());
    }
  }

  /** A resend goes to the lowest fragment the mask leaves open. */
  lemma ResendIsLowestMissing(m: Manager, a: AckMask, undefined: bool, slot: int)
    requires a.ship in m.sessions
    ensures var o := HandleMask(m, a, undefined, slot);
            forall e :: e in o.events && e.Transmit? ==>
              && e.ship == a.ship && !Confirmed(a.bits, e.num) && e.num < m.sessions[a.ship].Total()
              && (forall j :: 0 <= j < e.num ==> Confirmed(a.bits, j))
              && e.packet == DownlinkPacket(m.sessions[a.ship].data, e.num, m.sessions[a.ship].id, a.ship)
  {}

  // ---------- Which messages can be completed ----------

  function MaskByte(k: nat): byte
    requires k <= 4
  {
    if k == 0 then 0 else if k == 1 then 1 else if k == 2 then 3 else if k == 3 then 7 else 15
  }

  /** An acknowledgement that confirms the first `k` fragments. */
  function FirstConfirmed(ship: u32, k: nat): seq<byte>
    requires k <= 4
  {
    [29, SAT_ID] + LittleEndian32(ship) + [0, 0, 0, MaskByte(k)]
  }

  lemma MaskByteBits(k: nat)
    requires k <= 4
    ensures ByteBits(0) == seq(8, _ => false)
    ensures forall i :: 0 <= i < 8 ==> (ByteBits(MaskByte(k))[i] <==> i < k)
  {}

  lemma FirstConfirmedDecodes(ship: u32, k: nat)
    requires k <= 4
    ensures var a := DecodeMask(FirstConfirmed(ship, k));
            a.Some? && a.value.ship == ship && forall i: nat :: Confirmed(a.value.bits, i) <==> i < k
  {
    var raw := FirstConfirmed(ship, k);
    LittleQuadOf(ship);
    assert raw[2..6] == LittleEndian32(ship);
    MaskByteBits(k);
    var bits := DecodeMask(raw).value.bits;
    assert bits == ByteBits(MaskByte(k)) + ByteBits(0) + ByteBits(0);
    forall i: nat ensures Confirmed(bits, i) <==> i < k {
      if i < 8 {
        assert bits[i] == ByteBits(MaskByte(k))[i];
      } else if i < 24 {
        assert !bits[i];
      }
    }
  }

  function After(w: World, input: Input): World
    requires SessionsValid(w.m)
  {
    World(React(w.m, input).m, w.log + React(w.m, input).events)
  }

  lemma RunNext(inputs: seq<Input>, input: Input)
    ensures Run(inputs + [input]) == After(Run(inputs), input)
  {
    assert (inputs + [input])[..|inputs|] == inputs;
  }

  /** Fragments 0 to k have been sent, each after an acknowledgement of those before it. */
  ghost predicate Climbing(w: World, ship: u32, data: seq<byte>, id: byte, k: nat) {
    && ship in w.m.sessions && w.m.sessions[ship].data == data && w.m.sessions[ship].id == id
    && w.m.sessions[ship].retry == k
    && forall i :: 0 <= i <= k ==> i in Since(w.log, ship)
  }

  lemma ClimbStart(ship: u32, data: seq<byte>, id: byte) returns (inputs: seq<Input>)
    requires data != []
    ensures Climbing(Run(inputs), ship, data, id, 0)
  {
    inputs := [] + [SendTo(ship, data, id, 0)];
    RunNext([], SendTo(ship, data, id, 0));
    ClimbFrom(World(Initial(), []), ship, data, id, 0);
  }

  /** Sending from a state without a session for the ship and with a free channel. */
  lemma ClimbFrom(w: World, ship: u32, data: seq<byte>, id: byte, slot: int)
    requires data != [] && ship !in w.m.sessions && LeastFree(w.m.occupied) != -1
    ensures var o := Send(w.m, ship, data, id, slot);
            Climbing(World(o.m, w.log + o.events), ship, data, id, 0) && Since(w.log + o.events, ship) == [0]
  {
    var o := Send(w.m, ship, data, id, slot);
    assert w.log + o.events == w.log + [o.events[0]] + [o.events[1]];
    LogNext(w.log, o.events[0], ship);
    LogNext(w.log + [o.events[0]], o.events[1], ship);
  }

  /** An acknowledgement of the first `k` fragments asks for the next one. */
  lemma AskForNext(m: Manager, ship: u32, k: nat) returns (input: Input)
    requires SessionsValid(m) && ship in m.sessions && k < m.sessions[ship].Total() && k <= 4
    requires m.sessions[ship].Total() <= SHIFT_LIMIT
    ensures input == Mask(FirstConfirmed(ship, k), false, 0) && React(m, input) == Retry(m, ship, k, 0)
  {
    FirstConfirmedDecodes(ship, k);
    var a := DecodeMask(FirstConfirmed(ship, k)).value;
    var r := MissingFrom(a.bits, m.sessions[ship].Total(), 0);
    assert !Confirmed(a.bits, k);
    assert Confirmed(a.bits, r) <==> r < k;
    input := Mask(FirstConfirmed(ship, k), false, 0);
  }

  lemma ClimbWorld(w: World, ship: u32, data: seq<byte>, id: byte, k: nat)
    requires SessionsValid(w.m) && Climbing(w, ship, data, id, k) && k + 1 < FragmentCount(data) <= 4
    ensures var o := Retry(w.m, ship, k + 1, 0); Climbing(World(o.m, w.log + o.events), ship, data, id, k + 1)
  {
    var o := Retry(w.m, ship, k + 1, 0);
    RetryEffect(w.m, ship, k + 1, 0);
    LogNext(w.log, o.events[0], ship);
    assert Since(w.log + o.events, ship) == Since(w.log, ship) + [k + 1];
  }

  lemma ClimbStep(inputs: seq<Input>, ship: u32, data: seq<byte>, id: byte, k: nat) returns (next: seq<Input>)
    requires Climbing(Run(inputs), ship, data, id, k) && k + 1 < FragmentCount(data) <= 4
    ensures Climbing(Run(next), ship, data, id, k + 1)
  {
    var input := AskForNext(Run(inputs).m, ship, k + 1);
    ClimbWorld(Run(inputs), ship, data, id, k);
    RunNext(inputs, input);
    next := inputs + [input];
  }

  lemma {:induction false} ClimbAll(ship: u32, data: seq<byte>, id: byte, k: nat) returns (inputs: seq<Input>)
    requires k < FragmentCount(data) <= 4
    ensures Climbing(Run(inputs), ship, data, id, k)
  {
    if k == 0 {
      inputs := ClimbStart(ship, data, id);
    } else {
      inputs := ClimbAll(ship, data, id, k - 1);
      inputs := ClimbStep(inputs, ship, data, id, k - 1);
    }
  }

  lemma ConfirmedCompletes(m: Manager, ship: u32, k: nat)
    requires SessionsValid(m) && ship in m.sessions && m.sessions[ship].Total() <= k <= 4
    ensures React(m, Mask(FirstConfirmed(ship, k), false, 0))
         == Out(Cleanup(m, ship), [Completed(ship, m.sessions[ship].id)])
  {
    FirstConfirmedDecodes(ship, k);
    var a := DecodeMask(FirstConfirmed(ship, k)).value;
    assert MissingFrom(a.bits, m.sessions[ship].Total(), 0) == m.sessions[ship].Total();
  }

  /** Some run with an honest last acknowledgement completes the message. */
  ghost predicate CanComplete(ship: u32, data: seq<byte>, id: byte) {
    exists inputs, raw ::
      && DecodeMask(raw).Some? && DecodeMask(raw).value.ship == ship
      && CompletesNow(Run(inputs), DecodeMask(raw).value, data, id)
  }

  ghost predicate CompletesNow(w: World, a: AckMask, data: seq<byte>, id: byte) {
    && Honest(w, a) && a.ship in w.m.sessions && w.m.sessions[a.ship].data == data && w.m.sessions[a.ship].id == id
    && HandleMask(w.m, a, false, 0).events == [Completed(a.ship, id)]
  }

  /** Each acknowledgement brings one more fragment at the price of one retry, so a message
      can be completed exactly when it has at most four fragments, that is 400 bytes. */
  lemma CanCompleteIff(ship: u32, data: seq<byte>, id: byte)
    requires data != [] && FragmentCount(data) <= SHIFT_LIMIT
    ensures CanComplete(ship, data, id) <==> |data| <= 400
  {
    var count := FragmentCount(data);
    if |data| <= 400 {
      var inputs := ClimbAll(ship, data, id, count - 1);
      var raw := FirstConfirmed(ship, count);
      FirstConfirmedDecodes(ship, count);
      ConfirmedCompletes(Run(inputs).m, ship, count);
      assert CompletesNow(Run(inputs), DecodeMask(raw).value, data, id);
    }
    if CanComplete(ship, data, id) {
      var inputs, raw :|
        && DecodeMask(raw).Some? && DecodeMask(raw).value.ship == ship
        && CompletesNow(Run(inputs), DecodeMask(raw).value, data, id);
      CompletionNeedsAll(inputs, raw, false, 0);
    }
  }

  /** An acknowledgement from an honest receiver that completes the ship's message. */
  ghost predicate TrulyCompletes(before: seq<Input>, ack: Input, ship: u32, data: seq<byte>, id: byte) {
    && ack.Mask? && DecodeMask(ack.raw).Some? && DecodeMask(ack.raw).value.ship == ship
    && CompletesNow(Run(before), DecodeMask(ack.raw).value, data, id)
  }

  /** It confirms the fragments of that message and no others. */
  lemma ConfirmsExactly(before: seq<Input>, ack: Input, ship: u32, data: seq<byte>, id: byte)
    requires TrulyCompletes(before, ack, ship, data, id) && FragmentCount(data) <= SHIFT_LIMIT
    ensures forall i: nat :: Confirmed(DecodeMask(ack.raw).value.bits, i) <==> i < FragmentCount(data)
  {
    var w, a := Run(before), DecodeMask(ack.raw).value;
    LogTellsState(before);
    CompletingConfirms(w.m, a);
    forall i: nat | Confirmed(a.bits, i) ensures i < FragmentCount(data) {
      assert i in Since(w.log, ship) && Attempts(w.m.sessions[ship], Since(w.log, ship));
    }
  }

  lemma CompletingConfirms(m: Manager, a: AckMask)
    requires a.ship in m.sessions && m.sessions[a.ship].Total() <= SHIFT_LIMIT
    requires HandleMask(m, a, false, 0).events == [Completed(a.ship, m.sessions[a.ship].id)]
    ensures forall i :: 0 <= i < m.sessions[a.ship].Total() ==> Confirmed(a.bits, i)
  {
    var total := m.sessions[a.ship].Total();
    var n := MissingFrom(a.bits, total, 0);
    if n < total {
      RetryEffect(m, a.ship, n, 0);
    }
  }

  /** What such a mask does to any session of the ship. */
  lemma PrefixMaskIff(m: Manager, ack: Input, ship: u32, k: nat)
    requires SessionsValid(m) && ship in m.sessions && m.sessions[ship].Total() <= SHIFT_LIMIT
    requires ack.Mask? && DecodeMask(ack.raw).Some? && DecodeMask(ack.raw).value.ship == ship
    requires forall i: nat :: Confirmed(DecodeMask(ack.raw).value.bits, i) <==> i < k
    ensures React(m, ack).events == [Completed(ship, m.sessions[ship].id)] <==> m.sessions[ship].Total() <= k
    ensures m.sessions[ship].Total() <= k ==> React(m, ack).m == Cleanup(m, ship)
  {
    var a, total := DecodeMask(ack.raw).value, m.sessions[ship].Total();
    var n := MissingFrom(a.bits, total, 0);
    if total > k {
      assert !Confirmed(a.bits, k) && n <= k;
      RetryEffect(m, ship, n, ack.slot);
    }
  }

  /** Honesty has to be meant per session: acknowledgements carry no session id.  Any
      acknowledgement that truly completed a message completes, in any run whatever, any other
      message to the ship, however much of it was sent, exactly when that has no more fragments. */
  lemma OldAckCompletesIff(before: seq<Input>, ack: Input, ship: u32, first: seq<byte>, id: byte, later: seq<Input>)
    requires TrulyCompletes(before, ack, ship, first, id) && FragmentCount(first) <= SHIFT_LIMIT
    requires ship in Run(later).m.sessions && Run(later).m.sessions[ship].Total() <= SHIFT_LIMIT
    ensures var s := Run(later).m.sessions[ship];
            React(Run(later).m, ack).events == [Completed(ship, s.id)] <==> s.Total() <= FragmentCount(first)
  {
    ConfirmsExactly(before, ack, ship, first, id);
    PrefixMaskIff(Run(later).m, ack, ship, FragmentCount(first));
  }

  /** In particular the next message to the ship, of which only the first fragment was
      transmitted when the acknowledgement comes a second time. */
  lemma OldAckCompletesNextIff(before: seq<Input>, ack: Input, ship: u32, first: seq<byte>, id: byte,
                               second: seq<byte>, id': byte, slot: int)
    requires TrulyCompletes(before, ack, ship, first, id) && FragmentCount(first) <= SHIFT_LIMIT
    requires 1 <= FragmentCount(second) <= SHIFT_LIMIT
    ensures var w := Run(before + [ack] + [SendTo(ship, second, id', slot)]);
            && ship in w.m.sessions && w.m.sessions[ship].data == second && Since(w.log, ship) == [0]
            && (React(w.m, ack).events == [Completed(ship, id')] <==> FragmentCount(second) <= FragmentCount(first))
  {
    ConfirmsExactly(before, ack, ship, first, id);
    PrefixMaskIff(Run(before).m, ack, ship, FragmentCount(first));
    RunNext(before, ack);
    FreeAfterCleanup(before, ship);
    var next := SendTo(ship, second, id', slot);
    RunNext(before + [ack], next);
    ClimbFrom(Run(before + [ack]), ship, second, id', slot);
    OldAckCompletesIff(before, ack, ship, first, id, before + [ack] + [next]);
  }

  /** Every message that can be completed at all is completed by such an acknowledgement. */
  lemma CompleteFirst(ship: u32, first: seq<byte>, id: byte) returns (before: seq<Input>, ack: Input)
    requires 1 <= FragmentCount(first) <= 4
    ensures TrulyCompletes(before, ack, ship, first, id)
  {
    var k := FragmentCount(first);
    ack := Mask(FirstConfirmed(ship, k), false, 0);
    FirstConfirmedDecodes(ship, k);
    before := ClimbAll(ship, first, id, k - 1);
    ConfirmedCompletes(Run(before).m, ship, k);
  }

  lemma FreeAfterCleanup(inputs: seq<Input>, ship: u32)
    requires ship in Run(inputs).m.sessions
    ensures var m := Cleanup(Run(inputs).m, ship); ship !in m.sessions && LeastFree(m.occupied) != -1
  {
    var m := Run(inputs).m;
    var c := m.sessions[ship].channel;
    ChannelsAlwaysSafe(inputs);
    assert Holds(m)[ship] == c && c in Holds(m).Values;
    assert c !in Cleanup(m, ship).occupied && 0 <= c < CHANNELS;
  }

  // ---------- A file, chunk by chunk ----------

  /** The file sender hands over a chunk every 100 ms without waiting for the one before. */
  predicate ChunksFor(ship: u32, sends: seq<Input>) {
    |sends| > 0 && forall i :: 0 <= i < |sends| ==> sends[i].SendTo? && sends[i].ship == ship && sends[i].data != []
  }

  lemma LeastFreeAbove(n: nat)
    requires n <= CHANNELS
    ensures LeastFree(Below(n)) == if n < CHANNELS then n else -1
  {
    assert n !in Below(n);
  }

  lemma SendOntoLive(m: Manager, ship: u32, data: seq<byte>, id: byte, slot: int, n: nat)
    requires ship in m.sessions && n <= CHANNELS && m.occupied == Below(n)
    ensures var o := Send(m, ship, data, id, slot);
            o == if n < CHANNELS then Out(m.(occupied := Below(n + 1)), [Refused(ship)]) else Out(m, [NoChannel])
  {
    LeastFreeAbove(n);
  }

  /** After `k` chunks: one session, for the first of them, and a channel lost for each of the
      others, as long as there were any. */
  ghost predicate InARow(w: World, ship: u32, first: seq<byte>, k: nat) {
    && w.m.sessions.Keys == {ship} && w.m.sessions[ship].data == first
    && w.m.occupied == Below(Min(k, CHANNELS)) && Refusals(w.log) == Min(k, CHANNELS) - 1
  }

  lemma FirstChunk(ship: u32, data: seq<byte>, id: byte, slot: int)
    requires data != []
    ensures InARow(After(World(Initial(), []), SendTo(ship, data, id, slot)), ship, data, 1)
  {
    FirstSend(ship, data, id, slot);
    RefusalsOfReact([], Initial(), SendTo(ship, data, id, slot));
    assert Refusals([]) == 0;
  }

  lemma FirstSend(ship: u32, data: seq<byte>, id: byte, slot: int)
    requires data != []
    ensures var o := Send(Initial(), ship, data, id, slot);
            && o.m.sessions.Keys == {ship} && o.m.sessions[ship].data == data && o.m.occupied == Below(1)
            && forall e :: e in o.events ==> !e.Refused?
  {
    LeastFreeAbove(0);
    SendEffect(Initial(), ship, data, id, slot);
    assert {} + {0} == Below(1);
  }

  lemma NextChunk(w: World, ship: u32, first: seq<byte>, k: nat, data: seq<byte>, id: byte, slot: int)
    requires SessionsValid(w.m) && k > 0 && InARow(w, ship, first, k)
    ensures InARow(After(w, SendTo(ship, data, id, slot)), ship, first, k + 1)
  {
    var o := Send(w.m, ship, data, id, slot);
    assert ship in w.m.sessions;
    SendOntoLive(w.m, ship, data, id, slot, Min(k, CHANNELS));
    RefusalsNext(w.log, o.events[0]);
    assert o.events == [o.events[0]];
  }

  lemma LastApartBehind<T>(a: seq<T>, b: seq<T>)
    requires |b| > 0
    ensures a + b == a + b[..|b| - 1] + [b[|b| - 1]]
  {}

  lemma {:induction false} ChunksInARow(ship: u32, sends: seq<Input>)
    requires ChunksFor(ship, sends)
    ensures InARow(Run(sends), ship, sends[0].data, |sends|)
  {
    var n := |sends| - 1;
    var last := sends[n];
    if n == 0 {
      RunNext([], last);
      LastApart(sends);
      FirstChunk(ship, last.data, last.id, last.slot);
    } else {
      ChunksInARow(ship, sends[..n]);
      RunNext(sends[..n], last);
      LastApart(sends);
      NextChunk(Run(sends[..n]), ship, sends[0].data, n, last.data, last.id, last.slot);
    }
  }

  /** Whatever happens afterwards, refused messages have had their channels. */
  lemma {:induction false} RefusalsStay(inputs: seq<Input>, more: seq<Input>)
    ensures Refusals(Run(inputs).log) <= Refusals(Run(inputs + more).log)
  {
    if more == [] {
      assert inputs + more == inputs;
    } else {
      var n := |more| - 1;
      RefusalsStay(inputs, more[..n]);
      RunNext(inputs + more[..n], more[n]);
      RefusalsOfReact(Run(inputs + more[..n]).log, Run(inputs + more[..n]).m, more[n]);
      LastApartBehind(inputs, more);
    }
  }

  /** So a file of six chunks or more, handed over without a pause, uses up the downlink: until
      the first chunk's session ends nothing can be sent to any ship, and from then on, whatever
      happens, there is never more than one session at a time again. */
  lemma FileUsesUpChannels(ship: u32, sends: seq<Input>, more: seq<Input>)
    requires ChunksFor(ship, sends) && |sends| >= CHANNELS
    ensures var m := Run(sends).m;
            forall other, data, id, slot :: Send(m, other, data, id, slot) == Out(m, [NoChannel])
    ensures |Run(sends + more).m.sessions| <= 1
  {
    ChunksInARow(ship, sends);
    LeastFreeAbove(CHANNELS);
    RefusalsStay(sends, more);
    SixInAll(sends + more);
  }
}
