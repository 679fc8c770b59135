/** The two checks of VdesService/vdes_crc.h, the frames they seal, and exactly which
    corruptions of a sealed frame they reject. */
module CrcFrames {
  import opened Bits
  import opened Crc

  /** x^16 + x^15 + x^2 + 1, that is 0x8005; bytes enter at the top. */
  function Register16(): (r: Register)
    ensures r.Valid() && r.Width() == 16 && r.at == 0
  {
    Register(Polynomial(16, {15, 2, 0}), 0)
  }

  /** The polynomial 0x04C11DB7; bytes enter at the bottom. */
  function Register32(): (r: Register)
    ensures r.Valid() && r.Width() == 32 && r.at == 24
  {
    Register(Polynomial(32, {26, 23, 22, 16, 12, 11, 10, 8, 7, 5, 4, 2, 1, 0}), 24)
  }

  function Ones(): (w: Word)
    ensures |w| == 32
  {
    seq(32, _ => true)
  }

  function Crc16(data: seq<Octet>): (w: Word)
    ensures |w| == 16
  {
    Register16().Feed(Zeros(16), data)
  }

  function Crc32(data: seq<Octet>): (w: Word)
    ensures |w| == 32
  {
    Xor(Register32().Feed(Ones(), data), Ones())
  }

  /** A frame passes when its last two (link 20) or four bytes are the check of the rest. */
  predicate Accepts(frame: seq<Octet>, linkId: int) {
    if linkId == 20 then
      |frame| >= 2 && Flatten(frame[|frame| - 2..]) == Crc16(frame[..|frame| - 2])
    else
      |frame| >= 4 && Flatten(frame[|frame| - 4..]) == Crc32(frame[..|frame| - 4])
  }

  // ---------- The loops of the source ----------

  method ComputeCrc16(data: seq<Octet>) returns (crc: Word)
    ensures crc == Crc16(data)
    ensures IsRemainder(Flatten(data) + Zeros(16), DIVISOR16, crc)
  {
    Crc16IsTheRemainder(data, Crc16(data));
    crc := Zeros(16);
    for i := 0 to |data|
      invariant |crc| == 16 && crc == Register16().Feed(Zeros(16), data[..i])
    {
      crc := Xor(crc, data[i] + Zeros(8));
      ghost var mixed := crc;
      assert mixed == Xor(Register16().Feed(Zeros(16), data[..i]), Register16().Place(data[i])) by {
        assert data[i] + Zeros(8) == Register16().Place(data[i]);
      }
      for j := 0 to 8
        invariant |crc| == 16 && crc == Register16().Clock(mixed, j)
      {
        if crc[0] {
          crc := Xor(crc[1..] + [false], Register16().poly);
        } else {
          crc := crc[1..] + [false];
        }
      }
      assert data[..i + 1][..i] == data[..i];
    }
    assert data[..|data|] == data;
  }

  method ComputeCrc32(data: seq<Octet>) returns (crc: Word)
    ensures crc == Crc32(data)
    ensures IsRemainder(Dividend32(data), DIVISOR32, Complement(crc))
  {
    Crc32IsTheRemainder(data, Crc32(data));
    crc := Ones();
    for i := 0 to |data|
      invariant |crc| == 32 && crc == Register32().Feed(Ones(), data[..i])
    {
      crc := Xor(crc, Zeros(24) + data[i]);
      ghost var mixed := crc;
      assert mixed == Xor(Register32().Feed(Ones(), data[..i]), Register32().Place(data[i])) by {
        assert Zeros(24) + data[i] == Register32().Place(data[i]);
      }
      for j := 0 to 8
        invariant |crc| == 32 && crc == Register32().Clock(mixed, j)
      {
        if crc[0] {
          crc := Xor(crc[1..] + [false], Register32().poly);
        } else {
          crc := crc[1..] + [false];
        }
      }
      assert data[..i + 1][..i] == data[..i];
    }
    assert data[..|data|] == data;
    crc := Xor(crc, Ones());
  }

  method Verify(frame: seq<Octet>, linkId: int) returns (ok: bool)
    ensures ok == Accepts(frame, linkId)
  {
    var len := |frame|;
    if len < 2 {
      return false;
    }
    if linkId == 20 {
      var received: Word := Join(frame[len - 2], frame[len - 1]);
      var computed := ComputeCrc16(frame[..len - 2]);
      FlattenLastPair(frame);
      return received == computed;
    } else {
      if len < 4 {
        return false;
      }
      var received: Word := Join(Join(frame[len - 4], frame[len - 3]), Join(frame[len - 2], frame[len - 1]));
      var computed := ComputeCrc32(frame[..len - 4]);
      FlattenLastQuad(frame);
      return received == computed;
    }
  }

  /** Appends the check, most significant byte first; the result is accepted. */
  method AppendCrc(data: seq<Octet>, linkId: int) returns (frame: seq<Octet>)
    ensures |frame| == |data| + (if linkId == 20 then 2 else 4)
    ensures data <= frame && Accepts(frame, linkId)
  {
    frame := data;
    if linkId == 20 {
      var crc := ComputeCrc16(data);
      frame := frame + [crc[..8]];
      frame := frame + [crc[8..]];
      Cut16(crc);
      assert frame == data + [crc[..8], crc[8..]];
    } else {
      var crc := ComputeCrc32(data);
      frame := frame + [crc[..8]];
      frame := frame + [crc[8..16]];
      frame := frame + [crc[16..24]];
      frame := frame + [crc[24..]];
      Cut32(crc);
      assert frame == data + [crc[..8], crc[8..16], crc[16..24], crc[24..]];
    }
    assert frame[..|data|] == data;
  }

  lemma Cut16(w: Word)
    requires |w| == 16
    ensures Flatten([w[..8], w[8..]]) == w
  {
    FlattenPair(w[..8], w[8..]);
  }

  lemma Cut32(w: Word)
    requires |w| == 32
    ensures Flatten([w[..8], w[8..16], w[16..24], w[24..]]) == w
  {
    FlattenQuad(w[..8], w[8..16], w[16..24], w[24..]);
  }

  lemma FlattenPair(a: Octet, b: Octet)
    ensures Flatten([a, b]) == Join(a, b)
  {
    assert [a, b][..1] == [a] && [a][..0] == [];
  }

  lemma FlattenQuad(a: Octet, b: Octet, c: Octet, d: Octet)
    ensures Flatten([a, b, c, d]) == Join(Join(a, b), Join(c, d))
  {
    FlattenPair(a, b);
    FlattenPair(c, d);
    FlattenConcat([a, b], [c, d]);
    assert [a, b] + [c, d] == [a, b, c, d];
  }

  lemma FlattenLastPair(frame: seq<Octet>)
    requires |frame| >= 2
    ensures var n := |frame|; Flatten(frame[n - 2..]) == Join(frame[n - 2], frame[n - 1])
  {
    var n := |frame|;
    FlattenPair(frame[n - 2], frame[n - 1]);
    assert frame[n - 2..] == [frame[n - 2], frame[n - 1]];
  }

  lemma FlattenLastQuad(frame: seq<Octet>)
    requires |frame| >= 4
    ensures var n := |frame|;
            Flatten(frame[n - 4..]) == Join(Join(frame[n - 4], frame[n - 3]), Join(frame[n - 2], frame[n - 1]))
  {
    var n := |frame|;
    FlattenQuad(frame[n - 4], frame[n - 3], frame[n - 2], frame[n - 1]);
    assert frame[n - 4..] == [frame[n - 4], frame[n - 3], frame[n - 2], frame[n - 1]];
  }

  // ---------- What the checks compute ----------

  /** CRC-16 is the remainder of the message times x^16, as the standard asks. */
  lemma Crc16IsDivision(data: seq<Octet>)
    ensures Crc16(data) == Register16().Remainder(Flatten(data) + Zeros(16))
  {
    Register16().FeedFromZero(data);
  }

  /** CRC-32 as written is the complemented remainder of the message times x^8 only,
      plus the all-ones start clocked along. */
  lemma Crc32IsDivision(data: seq<Octet>)
    ensures Crc32(data)
         == Xor(Xor(Register32().Clock(Ones(), 8 * |data|), Register32().Remainder(Flatten(data) + Zeros(8))), Ones())
  {
    Register32().FeedIsDivision(Ones(), data);
  }

  // ---------- ... with the polynomials written out ----------

  /** 0x18005: x^16 + x^15 + x^2 + 1. */
  const DIVISOR16: Word := [true] + [true, false, false, false] + [false, false, false, false]
                           + [false, false, false, false] + [false, true, false, true]

  /** 0x104C11DB7. */
  const DIVISOR32: Word := [true] + [false, false, false, false] + [false, true, false, false]
                           + [true, true, false, false] + [false, false, false, true]
                           + [false, false, false, true] + [true, true, false, true]
                           + [true, false, true, true] + [false, true, true, true]

  lemma Divisors()
    ensures DIVISOR16 == [true] + Register16().poly
    ensures DIVISOR32 == [true] + Register32().poly
  {}

  /** CRC-16 of a message is the one word of sixteen bits that the message times x^16 leaves over
      a multiple of x^16 + x^15 + x^2 + 1. */
  lemma Crc16IsTheRemainder(data: seq<Octet>, r: Word)
    ensures IsRemainder(Flatten(data) + Zeros(16), DIVISOR16, r) <==> r == Crc16(data)
  {
    Divisors();
    Crc16IsDivision(data);
    Register16().RemainderIff(Flatten(data) + Zeros(16), r);
  }

  /** What CRC-32 divides: the message before one zero byte and behind three, the first 32 bits
      of it turned over. */
  function Dividend32(data: seq<Octet>): (w: Word)
    ensures |w| == 32 + 8 * |data|
  {
    var message := Zeros(24) + Flatten(data) + Zeros(8);
    Complement(message[..32]) + message[32..]
  }

  /** The complement of CRC-32 is the one word of 32 bits that this leaves over a multiple of
      0x104C11DB7. */
  lemma Crc32IsTheRemainder(data: seq<Octet>, r: Word)
    ensures IsRemainder(Dividend32(data), DIVISOR32, Complement(r)) <==> r == Crc32(data)
  {
    Divisors();
    var ones, message := Ones() + Zeros(8 * |data|), Flatten(data) + Zeros(8);
    Crc32IsDivision(data);
    Register32().RemainderTrailingZeros(Ones(), 8 * |data|);
    Register32().RemainderShort(Ones());
    assert Zeros(0) + Ones() == Ones();
    Register32().RemainderLeadingZeros(24, message);
    Register32().RemainderLinear(ones, Zeros(24) + message);
    StartTurnsOver(data);
    Register32().RemainderIff(Dividend32(data), Complement(r));
    ComplementTwice(r, Register32().Remainder(Dividend32(data)));
  }

  lemma StartTurnsOver(data: seq<Octet>)
    ensures Dividend32(data) == Xor(Ones() + Zeros(8 * |data|), Zeros(24) + (Flatten(data) + Zeros(8)))
  {
    var message := Zeros(24) + Flatten(data) + Zeros(8);
    assert message == Zeros(24) + (Flatten(data) + Zeros(8));
    FirstTurnOver(message, 8 * |data|);
  }

  lemma FirstTurnOver(w: Word, n: nat)
    requires |w| == 32 + n
    ensures Complement(w[..32]) + w[32..] == Xor(Ones() + Zeros(n), w)
  {}

  lemma ComplementTwice(r: Word, s: Word)
    requires |s| == 32
    ensures Complement(r) == s <==> r == Xor(s, Ones())
  {
    if Complement(r) == s {
      assert |r| == |s|;
      forall i | 0 <= i < 32 ensures r[i] == Xor(s, Ones())[i] {
        assert Complement(r)[i] == s[i];
      }
    }
  }

  /** What a frame on link 20 must end in, most significant byte first. */
  lemma Accepted16Iff(frame: seq<Octet>)
    ensures var n := |frame| - 2;
            Accepts(frame, 20)
            <==> n >= 0 && IsRemainder(Flatten(frame[..n]) + Zeros(16), DIVISOR16, Flatten(frame[n..]))
  {
    var n := |frame| - 2;
    if n >= 0 {
      Crc16IsTheRemainder(frame[..n], Flatten(frame[n..]));
    }
  }

  /** What a frame on every other link must end in, most significant byte first. */
  lemma Accepted32Iff(frame: seq<Octet>, linkId: int)
    requires linkId != 20
    ensures var n := |frame| - 4;
            Accepts(frame, linkId)
            <==> n >= 0 && IsRemainder(Dividend32(frame[..n]), DIVISOR32, Complement(Flatten(frame[n..])))
  {
    var n := |frame| - 4;
    if n >= 0 {
      Crc32IsTheRemainder(frame[..n], Flatten(frame[n..]));
    }
  }

  /** So it is not the textbook CRC-32, whose bytes enter at the top of the register:
      the two already disagree on every one-byte message except the zero byte. */
  lemma Crc32IsNotTextbook(b: Octet)
    requires b != Zeros(8)
    ensures Crc32([b]) != Xor(Register32().(at := 0).Feed(Ones(), [b]), Ones())
  {
    var asWritten, textbook := Register32(), Register32().(at := 0);
    var low, high := Xor(Ones(), asWritten.Place(b)), Xor(Ones(), textbook.Place(b));
    FeedOne(asWritten, Ones(), b);
    FeedOne(textbook, Ones(), b);
    var k :| 0 <= k < 8 && b[k];
    assert low[24 + k] != high[24 + k];
    asWritten.ClockInjective(low, high, 8);
    SameClock(high, 8);
    Register.XorCancel(asWritten.Clock(low, 8), textbook.Clock(high, 8), Ones());
  }

  lemma FeedOne(r: Register, s: Word, b: Octet)
    requires r.Valid() && |s| == r.Width()
    ensures r.Feed(s, [b]) == r.Clock(Xor(s, r.Place(b)), 8)
  {
    assert [b][..0] == [];
  }

  lemma {:induction false} SameClock(s: Word, n: nat)
    requires |s| == 32
    ensures Register32().(at := 0).Clock(s, n) == Register32().Clock(s, n)
  {
    if n > 0 {
      SameClock(s, n - 1);
    }
  }

  // ---------- CRC-16: parity, residue, and the errors it catches ----------

  lemma Polynomial16Odd()
    ensures Parity(Register16().poly)
  {
    var p := Register16().poly;
    assert p == [true] + Zeros(12) + [true, false, true];
    ParityConcat([true] + Zeros(12), [true, false, true]);
    ParityConcat([true], Zeros(12));
    ParityZeros(12);
    assert [true][..0] == [];
    assert [true, false, true][..2] == [true, false];
    assert [true, false][..1] == [true];
  }

  lemma Shift16KeepsParity(s: Word)
    requires |s| == 16
    ensures Parity(Register16().Shift(s)) == Parity(s)
  {
    ParityConcat([s[0]], s[1..]);
    assert [s[0]] + s[1..] == s;
    ParityConcat(s[1..], [false]);
    Polynomial16Odd();
    ParityXor(s[1..] + [false], Register16().poly);
  }

  lemma {:induction false} Clock16KeepsParity(s: Word, n: nat)
    requires |s| == 16
    ensures Parity(Register16().Clock(s, n)) == Parity(s)
  {
    if n > 0 {
      Clock16KeepsParity(s, n - 1);
      Shift16KeepsParity(Register16().Clock(s, n - 1));
    }
  }

  lemma Place16KeepsParity(b: Octet)
    ensures Parity(Register16().Place(b)) == Parity(b)
  {
    assert Zeros(0) + b == b;
    ParityConcat(b, Zeros(8));
    ParityZeros(8);
  }

  /** The check has an odd number of set bits exactly when the message has. */
  lemma {:induction false} Crc16KeepsParity(data: seq<Octet>)
    ensures Parity(Crc16(data)) == Parity(Flatten(data))
  {
    if data == [] {
      ParityZeros(16);
    } else {
      var n := |data| - 1;
      var s, p := Crc16(data[..n]), Register16().Place(data[n]);
      Crc16KeepsParity(data[..n]);
      Place16KeepsParity(data[n]);
      ParityXor(s, p);
      Clock16KeepsParity(Xor(s, p), 8);
      ParityConcat(Flatten(data[..n]), data[n]);
    }
  }

  /** A frame is accepted exactly when the check of the whole frame, its own check bytes
      included, is zero. */
  lemma AcceptedIffResidueZero(frame: seq<Octet>)
    requires |frame| >= 2
    ensures Accepts(frame, 20) <==> Crc16(frame) == Zeros(16)
  {
    var n := |frame| - 2;
    var body, tail := frame[..n], frame[n..];
    var c, t := Crc16(body), Flatten(tail);
    assert body + tail == frame;
    Register16().FeedConcat(Zeros(16), body, tail);
    Register16().FeedIsDivision(c, tail);
    Register16().RemainderTrailingZeros(t, 16);
    Register16().RemainderShort(t);
    assert Zeros(0) + t == t;
    Register16().ClockLinear(c, t, 16);
    XorZero(c);
    Register16().ClockZeros(16);
    if c != t {
      Register.XorCancel(c, t, t);
      XorZero(t);
      Register16().ClockInjective(Xor(c, t), Zeros(16), 16);
    }
  }

  /** Any burst of up to sixteen bits, anywhere in an accepted frame, check bytes
      included, is rejected. */
  lemma BurstRejected16(frame: seq<Octet>, corrupt: seq<Octet>, start: nat)
    requires Accepts(frame, 20) && |corrupt| == |frame| && corrupt != frame
    requires forall i :: 0 <= i < 8 * |frame| && Flatten(frame)[i] != Flatten(corrupt)[i] ==> start <= i < start + 16
    ensures !Accepts(corrupt, 20)
  {
    Register16().BurstDetected(Zeros(16), frame, corrupt, start);
    AcceptedIffResidueZero(frame);
    AcceptedIffResidueZero(corrupt);
  }

  /** Any odd number of flipped bits in an accepted frame is rejected. */
  lemma OddFlipsRejected16(frame: seq<Octet>, corrupt: seq<Octet>)
    requires Accepts(frame, 20) && |corrupt| == |frame|
    requires Parity(Xor(Flatten(frame), Flatten(corrupt)))
    ensures !Accepts(corrupt, 20)
  {
    ParityXor(Flatten(frame), Flatten(corrupt));
    Crc16KeepsParity(frame);
    Crc16KeepsParity(corrupt);
    AcceptedIffResidueZero(frame);
    AcceptedIffResidueZero(corrupt);
    ParityZeros(16);
  }

  // ---------- CRC-32 as written: what it catches and the one thing it misses ----------

  /** Given one accepted frame, another of its length is accepted exactly when the
      differences alone satisfy the check with an empty start. */
  lemma AcceptedIffDifferenceFits(frame: seq<Octet>, corrupt: seq<Octet>, linkId: int)
    requires linkId != 20 && Accepts(frame, linkId) && |corrupt| == |frame|
    ensures var n, d := |frame| - 4, Difference(frame, corrupt);
            Accepts(corrupt, linkId) <==> Flatten(d[n..]) == Register32().Feed(Zeros(32), d[..n])
  {
    var n, d := |frame| - 4, Difference(frame, corrupt);
    var s, t := Register32().Feed(Ones(), frame[..n]), Register32().Feed(Ones(), corrupt[..n]);
    assert d[..n] == Difference(frame[..n], corrupt[..n]);
    assert d[n..] == Difference(frame[n..], corrupt[n..]);
    Register32().FeedDifference(Ones(), frame[..n], corrupt[..n]);
    FlattenDifference(frame[n..], corrupt[n..]);
    var x := Flatten(corrupt[n..]);
    assert Xor(Xor(s, Ones()), Xor(t, Ones())) == Xor(s, t);
    if x != Xor(t, Ones()) {
      Register.XorCancel(x, Xor(t, Ones()), Xor(s, Ones()));
      assert Xor(Xor(s, Ones()), x) == Xor(x, Xor(s, Ones()));
      assert Xor(Xor(s, Ones()), Xor(t, Ones())) == Xor(Xor(t, Ones()), Xor(s, Ones()));
    }
  }

  /** Three bytes or fewer pass through an empty register untouched. */
  lemma ShortFeed32(d: seq<Octet>)
    requires |d| <= 3
    ensures Register32().Feed(Zeros(32), d) == Flatten(ZeroOctets(3 - |d|) + d + ZeroOctets(1))
  {
    Register32().ShortFeed(d);
    FlattenPadded(3 - |d|, d, 1);
  }

  /** The same nonzero change to a payload byte and to the byte three places later, which
      is a check byte, and no other change. */
  predicate TwinFlip(d: seq<Octet>, i: nat)
  {
    && i < |d| - 4 <= i + 3
    && d[i] != Zeros(8)
    && d[i + 3] == d[i]
    && forall k :: 0 <= k < |d| && k != i && k != i + 3 ==> d[k] == Zeros(8)
  }

  /** Among all corruptions of an accepted frame inside four consecutive bytes, the check
      accepts the twin flips and nothing else. */
  lemma FourByteCorruption32(frame: seq<Octet>, corrupt: seq<Octet>, linkId: int, start: nat)
    requires linkId != 20 && Accepts(frame, linkId) && |corrupt| == |frame| && corrupt != frame
    requires forall i :: 0 <= i < |frame| && frame[i] != corrupt[i] ==> start <= i < start + 4
    ensures Accepts(corrupt, linkId) <==> TwinFlip(Difference(frame, corrupt), start)
  {
    var n, d := |frame| - 4, Difference(frame, corrupt);
    DifferenceZeroWhereEqual(frame, corrupt);
    AcceptedIffDifferenceFits(frame, corrupt, linkId);
    if start + 4 <= n {
      PayloadCorruption32(d, n, start);
    } else if n <= start {
      CheckFieldCorruption32(d, n);
    } else {
      StraddlingCorruption32(d, n, start);
    }
  }

  /** In particular every corruption inside four bytes of the payload is rejected. */
  lemma PayloadBurstRejected32(frame: seq<Octet>, corrupt: seq<Octet>, linkId: int, start: nat)
    requires linkId != 20 && Accepts(frame, linkId) && |corrupt| == |frame| && corrupt != frame
    requires forall i :: 0 <= i < |frame| && frame[i] != corrupt[i] ==> start <= i < start + 4 && i < |frame| - 4
    ensures !Accepts(corrupt, linkId)
  {
    FourByteCorruption32(frame, corrupt, linkId, start);
    DifferenceZeroWhereEqual(frame, corrupt);
  }

  /** Differences in the check bytes only never fit. */
  lemma CheckFieldCorruption32(d: seq<Octet>, n: nat)
    requires |d| == n + 4
    requires forall i :: 0 <= i < n ==> d[i] == Zeros(8)
    requires exists i :: 0 <= i < |d| && d[i] != Zeros(8)
    ensures Flatten(d[n..]) != Register32().Feed(Zeros(32), d[..n])
  {
    ZeroPrefixFeed(d[..n], n);
    var k :| 0 <= k < |d| && d[k] != Zeros(8);
    assert d[n..][k - n] != Zeros(8);
    FlattenZeros(4);
    FlattenDistinct(d[n..], ZeroOctets(4));
  }

  /** Differences inside the payload only never fit. */
  lemma PayloadCorruption32(d: seq<Octet>, n: nat, start: nat)
    requires |d| == n + 4 && start + 4 <= n
    requires forall i :: 0 <= i < |d| && !(start <= i < start + 4) ==> d[i] == Zeros(8)
    requires exists i :: 0 <= i < n && d[i] != Zeros(8)
    ensures Flatten(d[n..]) != Register32().Feed(Zeros(32), d[..n])
  {
    var window := d[start..start + 4];
    assert d[..n] == ZeroOctets(start) + window + ZeroOctets(n - start - 4);
    assert d[n..] == ZeroOctets(4);
    var k :| 0 <= k < n && d[k] != Zeros(8);
    assert window[k - start] != Zeros(8);
    FlattenZeros(4);
    FlattenDistinct(window, ZeroOctets(4));
    FlattenPadded(start, window, n - start - 4);
    Register32().BurstRemainder(8 * start, Flatten(window), 8 * (n - start - 4));
    Register32().FeedFromZero(d[..n]);
    Register32().ClockInjective(Register32().Remainder(Flatten(d[..n])), Zeros(32), 8);
    Register32().ClockZeros(8);
  }

  /** Differences across the boundary fit exactly when they are twins. */
  lemma StraddlingCorruption32(d: seq<Octet>, n: nat, start: nat)
    requires |d| == n + 4 && start < n < start + 4
    requires forall i :: 0 <= i < |d| && !(start <= i < start + 4) ==> d[i] == Zeros(8)
    requires exists i :: 0 <= i < |d| && d[i] != Zeros(8)
    ensures Flatten(d[n..]) == Register32().Feed(Zeros(32), d[..n]) <==> TwinFlip(d, start)
  {
    var k, tail := n - start, d[start..n];
    var image := ZeroOctets(3 - k) + tail + ZeroOctets(1);
    ZeroPrefixFeed(d[..n], start);
    ShortFeed32(tail);
    if d[n..] != image {
      FlattenDistinct(d[n..], image);
    }
    TwinsMatch(d, n, start, image);
  }

  lemma ZeroPrefixFeed(d: seq<Octet>, start: nat)
    requires start <= |d|
    requires forall i :: 0 <= i < start ==> d[i] == Zeros(8)
    ensures Register32().Feed(Zeros(32), d) == Register32().Feed(Zeros(32), d[start..])
  {
    assert d == ZeroOctets(start) + d[start..];
    Register32().FeedConcat(Zeros(32), ZeroOctets(start), d[start..]);
    Register32().FeedZeros(Zeros(32), start);
    Register32().ClockZeros(8 * start);
  }

  lemma TwinsMatch(d: seq<Octet>, n: nat, start: nat, image: seq<Octet>)
    requires |d| == n + 4 && start < n < start + 4
    requires forall i :: 0 <= i < |d| && !(start <= i < start + 4) ==> d[i] == Zeros(8)
    requires exists i :: 0 <= i < |d| && d[i] != Zeros(8)
    requires image == ZeroOctets(3 - (n - start)) + d[start..n] + ZeroOctets(1)
    ensures d[n..] == image <==> TwinFlip(d, start)
  {
    assert d[n..] == [d[n], d[n + 1], d[n + 2], d[n + 3]];
    assert ZeroOctets(1) == [Zeros(8)];
    if n == start + 1 {
      assert ZeroOctets(2) == [Zeros(8), Zeros(8)] && d[start..n] == [d[start]];
      assert image == [Zeros(8), Zeros(8), d[start], Zeros(8)];
    } else if n == start + 2 {
      assert d[start..n] == [d[start], d[start + 1]];
      assert image == [Zeros(8), d[start], d[start + 1], Zeros(8)];
    } else {
      assert ZeroOctets(0) == [] && d[start..n] == [d[start], d[start + 1], d[start + 2]];
      assert image == [d[start], d[start + 1], d[start + 2], Zeros(8)];
    }
  }

  lemma {:induction false} FlattenZeros(n: nat)
    ensures Flatten(ZeroOctets(n)) == Zeros(8 * n)
  {
    if n > 0 {
      FlattenZeros(n - 1);
      assert ZeroOctets(n)[..n - 1] == ZeroOctets(n - 1);
    }
  }

  lemma FlattenPadded(before: nat, d: seq<Octet>, after: nat)
    ensures Flatten(ZeroOctets(before) + d + ZeroOctets(after)) == Zeros(8 * before) + Flatten(d) + Zeros(8 * after)
  {
    FlattenConcat(ZeroOctets(before) + d, ZeroOctets(after));
    FlattenConcat(ZeroOctets(before), d);
    FlattenZeros(before);
    FlattenZeros(after);
  }

  lemma FlattenDistinct(a: seq<Octet>, b: seq<Octet>)
    requires |a| == |b| && a != b
    ensures Flatten(a) != Flatten(b)
  {
    FlattenInjective(a, b);
  }

  lemma DifferenceZeroWhereEqual(a: seq<Octet>, b: seq<Octet>)
    requires |a| == |b|
    ensures forall i :: 0 <= i < |a| ==> (Difference(a, b)[i] == Zeros(8) <==> a[i] == b[i])
  {
    forall i | 0 <= i < |a| ensures Difference(a, b)[i] == Zeros(8) <==> a[i] == b[i] {
      XorZero(b[i]);
      if a[i] != b[i] {
        Register.XorCancel(a[i], b[i], b[i]);
      }
    }
  }
}
