/** The cyclic redundancy checks of VdesService/vdes_crc.h.

    Both checks run one kind of shift register: every byte is added to the register,
    which is then clocked eight times.  CRC-16 adds the byte at the top of the register.
    CRC-32 adds it at the bottom, which is not where a textbook CRC-32 adds it, so its
    guarantees are worked out here from the register itself. */
module Crc {
  import opened Bits

  /** A register: its feedback polynomial (without the leading term) and the position,
      counted from the most significant bit, at which a byte is added. */
  datatype Register = Register(poly: Word, at: nat) {
    predicate Valid() {
      |poly| >= at + 8 && poly[|poly| - 1]
    }

    function Width(): nat {
      |poly|
    }

    function Shift(s: Word): (t: Word)
      requires Valid() && |s| == Width()
      ensures |t| == Width()
    {
      if s[0] then Xor(s[1..] + [false], poly) else s[1..] + [false]
    }

    function Clock(s: Word, n: nat): (t: Word)
      requires Valid() && |s| == Width()
      ensures |t| == Width()
    {
      if n == 0 then s else Shift(Clock(s, n - 1))
    }

    function Place(b: Octet): (w: Word)
      requires Valid()
      ensures |w| == Width()
    {
      Zeros(at) + b + Zeros(Width() - at - 8)
    }

    function Absorb(s: Word, b: Octet): (t: Word)
      requires Valid() && |s| == Width()
      ensures |t| == Width()
    {
      Clock(Xor(s, Place(b)), 8)
    }

    function Feed(s: Word, data: seq<Octet>): (t: Word)
      requires Valid() && |s| == Width()
      ensures |t| == Width()
    {
      if data == [] then s else Absorb(Feed(s, data[..|data| - 1]), data[|data| - 1])
    }

    // ---------- Algebra of the register ----------

    lemma ShiftLinear(a: Word, b: Word)
      requires Valid() && |a| == |b| == Width()
      ensures Shift(Xor(a, b)) == Xor(Shift(a), Shift(b))
    {}

    lemma ShiftInjective(a: Word, b: Word)
      requires Valid() && |a| == |b| == Width() && a != b
      ensures Shift(a) != Shift(b)
    {
      var n := Width() - 1;
      assert Shift(a)[n] == a[0] && Shift(b)[n] == b[0];
      if a[0] == b[0] {
        var k :| 0 < k <= n && a[k] != b[k];
        assert Shift(a)[k - 1] != Shift(b)[k - 1];
      }
    }

    lemma {:induction false} ClockLinear(a: Word, b: Word, n: nat)
      requires Valid() && |a| == |b| == Width()
      ensures Clock(Xor(a, b), n) == Xor(Clock(a, n), Clock(b, n))
    {
      if n > 0 {
        ClockLinear(a, b, n - 1);
        ShiftLinear(Clock(a, n - 1), Clock(b, n - 1));
      }
    }

    lemma {:induction false} ClockInjective(a: Word, b: Word, n: nat)
      requires Valid() && |a| == |b| == Width() && a != b
      ensures Clock(a, n) != Clock(b, n)
    {
      if n > 0 {
        ClockInjective(a, b, n - 1);
        ShiftInjective(Clock(a, n - 1), Clock(b, n - 1));
      }
    }

    /** Leading zeros leave the register without feedback. */
    lemma {:induction false} ClockLeadingZeros(s: Word, n: nat)
      requires Valid() && |s| == Width() && n <= Width()
      requires forall i :: 0 <= i < n ==> !s[i]
      ensures Clock(s, n) == s[n..] + Zeros(n)
    {
      if n > 0 {
        ClockLeadingZeros(s, n - 1);
        assert !Clock(s, n - 1)[0];
      }
    }

    lemma {:induction false} FeedConcat(s: Word, a: seq<Octet>, b: seq<Octet>)
      requires Valid() && |s| == Width()
      ensures Feed(s, a + b) == Feed(Feed(s, a), b)
    {
      if b == [] {
        assert a + b == a;
      } else {
        var n := |b| - 1;
        FeedConcat(s, a, b[..n]);
        assert (a + b)[..|a + b| - 1] == a + b[..n];
      }
    }

    lemma {:induction false} FeedInjective(s: Word, t: Word, data: seq<Octet>)
      requires Valid() && |s| == |t| == Width() && s != t
      ensures Feed(s, data) != Feed(t, data)
    {
      if data != [] {
        var n := |data| - 1;
        FeedInjective(s, t, data[..n]);
        var s', t', p := Feed(s, data[..n]), Feed(t, data[..n]), Place(data[n]);
        XorCancel(s', t', p);
        ClockInjective(Xor(s', p), Xor(t', p), 8);
      }
    }

    lemma {:induction false} FeedLinear(s: Word, t: Word, a: seq<Octet>, b: seq<Octet>)
      requires Valid() && |s| == |t| == Width() && |a| == |b|
      ensures Feed(Xor(s, t), Difference(a, b)) == Xor(Feed(s, a), Feed(t, b))
    {
      if a != [] {
        var n := |a| - 1;
        FeedLinear(s, t, a[..n], b[..n]);
        assert Difference(a, b)[..n] == Difference(a[..n], b[..n]);
        var s', t' := Feed(s, a[..n]), Feed(t, b[..n]);
        assert Xor(Xor(s', t'), Place(Xor(a[n], b[n]))) == Xor(Xor(s', Place(a[n])), Xor(t', Place(b[n])));
        ClockLinear(Xor(s', Place(a[n])), Xor(t', Place(b[n])), 8);
      }
    }

    static lemma XorCancel(a: Word, b: Word, p: Word)
      requires |a| == |b| == |p| && a != b
      ensures Xor(a, p) != Xor(b, p)
    {
      var k :| 0 <= k < |a| && a[k] != b[k];
      assert Xor(a, p)[k] != Xor(b, p)[k];
    }

    // ---------- What the register computes: division of polynomials over two elements ----------

    /** One step of long division: bring down the next bit and, when the running remainder
        reaches the degree of the divisor, subtract the divisor. */
    function BringDown(r: Word, bit: bool): (t: Word)
      requires Valid() && |r| == Width()
      ensures |t| == Width()
    {
      var shifted := r[1..] + [bit];
      if r[0] then Xor(shifted, poly) else shifted
    }

    /** The remainder of `dividend`, read as a polynomial, after division by the generator. */
    function Remainder(dividend: Word): (t: Word)
      requires Valid()
      ensures |t| == Width()
    {
      if dividend == [] then Zeros(Width())
      else BringDown(Remainder(dividend[..|dividend| - 1]), dividend[|dividend| - 1])
    }

    /** The long division is one: the dividend is a multiple of the divisor, which is the feedback
        polynomial with its leading term, plus this remainder. */
    lemma {:induction false} RemainderDivides(dividend: Word) returns (q: Word)
      requires Valid()
      ensures Leaves(dividend, [true] + poly, q, Remainder(dividend))
    {
      if dividend == [] {
        q := [];
        NothingDivided();
      } else {
        var n := |dividend| - 1;
        q := RemainderDivides(dividend[..n]);
        DividesOneMore(dividend[..n], dividend[n], q, Remainder(dividend[..n]));
        q := q + [Remainder(dividend[..n])[0]];
        assert dividend == dividend[..n] + [dividend[n]];
      }
    }

    lemma NothingDivided()
      requires Valid()
      ensures Leaves([], [true] + poly, [], Zeros(Width()))
    {
      var divisor := [true] + poly;
      assert Times([], divisor) == Zeros(|divisor|);
      XorZero(Zeros(|divisor|));
      assert Zeros(|divisor|) + [] == Zeros(|divisor|);
      assert Zeros(1) + Zeros(Width()) == Zeros(|divisor|);
    }

    /** One step of long division adds one bit to the quotient. */
    lemma DividesOneMore(front: Word, bit: bool, q: Word, r: Word)
      requires Valid() && Leaves(front, [true] + poly, q, r)
      ensures Leaves(front + [bit], [true] + poly, q + [r[0]], BringDown(r, bit))
    {
      var divisor, t := [true] + poly, BringDown(r, bit);
      calc {
        Zeros(|divisor|) + (front + [bit]);
      == { Appended(Zeros(|divisor|), front, bit); }
        Zeros(|divisor|) + front + [bit];
      ==
        Xor(Times(q, divisor), Zeros(|q| + 1) + r) + [bit];
      == { DivideStep(Times(q, divisor), r, |q|, bit); }
        Xor(Xor(Times(q, divisor) + [false], Scaled(r[0], |q| + 1, divisor)), Zeros(|q| + 2) + t);
      == { TimesOneMore(q, r[0], divisor); }
        Xor(Times(q + [r[0]], divisor), Zeros(|q| + 2) + t);
      }
    }

    static lemma Appended(a: Word, b: Word, bit: bool)
      ensures a + (b + [bit]) == a + b + [bit]
    {}

    static lemma TimesOneMore(q: Word, bit: bool, g: Word)
      ensures Times(q + [bit], g) == Xor(Times(q, g) + [false], Scaled(bit, |q| + 1, g))
    {
      assert (q + [bit])[..|q|] == q;
    }

    lemma SubtractStep(r: Word, bit: bool)
      requires Valid() && |r| == Width()
      ensures var divisor := [true] + poly;
              r + [bit] == Xor(if r[0] then divisor else Zeros(|divisor|), [false] + BringDown(r, bit))
    {}

    lemma DivideStep(p: Word, r: Word, n: nat, bit: bool)
      requires Valid() && |r| == Width() && |p| == n + 1 + Width()
      ensures Xor(p, Zeros(n + 1) + r) + [bit]
           == Xor(Xor(p + [false], Scaled(r[0], n + 1, [true] + poly)),
                  Zeros(n + 2) + BringDown(r, bit))
    {
      var divisor, b := [true] + poly, [false] + BringDown(r, bit);
      var multiple := if r[0] then divisor else Zeros(|divisor|);
      SubtractStep(r, bit);
      XorPadded(n + 1, multiple, b);
      XorAssociative(p + [false], Zeros(n + 1) + multiple, Zeros(n + 1) + b);
      XorAppend(p, Zeros(n + 1) + r, [false], [bit]);
      Regrouped(r, n, bit, multiple, b, BringDown(r, bit));
    }

    static lemma Regrouped(r: Word, n: nat, bit: bool, multiple: Word, b: Word, t: Word)
      requires b == [false] + t
      ensures Zeros(n + 1) + (r + [bit]) == (Zeros(n + 1) + r) + [bit]
      ensures Zeros(n + 1) + b == Zeros(n + 2) + t
      ensures Zeros(n + 1) + Zeros(|multiple|) == Zeros(n + 1 + |multiple|)
      ensures Xor([false], [bit]) == [bit]
    {}

    /** The unique remainder by the divisor with its leading term, however it is found. */
    lemma RemainderIff(dividend: Word, r: Word)
      requires Valid()
      ensures IsRemainder(dividend, [true] + poly, r) <==> r == Remainder(dividend)
    {
      var q := RemainderDivides(dividend);
      if IsRemainder(dividend, [true] + poly, r) {
        RemainderUnique(dividend, [true] + poly, r, Remainder(dividend));
      }
    }

    lemma {:induction false} RemainderLinear(a: Word, b: Word)
      requires Valid() && |a| == |b|
      ensures Remainder(Xor(a, b)) == Xor(Remainder(a), Remainder(b))
    {
      if a == [] {
        XorZero(Zeros(Width()));
      } else {
        var n := |a| - 1;
        RemainderLinear(a[..n], b[..n]);
        assert Xor(a, b)[..n] == Xor(a[..n], b[..n]);
        BringDownLinear(Remainder(a[..n]), Remainder(b[..n]), a[n], b[n]);
      }
    }

    lemma BringDownLinear(r: Word, s: Word, x: bool, y: bool)
      requires Valid() && |r| == |s| == Width()
      ensures BringDown(Xor(r, s), x != y) == Xor(BringDown(r, x), BringDown(s, y))
    {}

    lemma {:induction false} ClockSum(s: Word, m: nat, n: nat)
      requires Valid() && |s| == Width()
      ensures Clock(Clock(s, m), n) == Clock(s, m + n)
    {
      if n > 0 {
        ClockSum(s, m, n - 1);
      }
    }

    lemma ClockZeros(n: nat)
      requires Valid()
      ensures Clock(Zeros(Width()), n) == Zeros(Width())
    {
      if n > 0 {
        ClockZeros(n - 1);
      }
    }

    lemma BringDownXor(r: Word, low: Word, bit: bool)
      requires Valid() && |r| == |low| == Width() && !low[0]
      ensures BringDown(Xor(r, low), bit) == Xor(Shift(r), low[1..] + [bit])
    {
      assert Xor(r, low)[0] == r[0];
    }

    lemma RemainderNext(x: Word, y: Word)
      requires Valid() && y != []
      ensures Remainder(x + y) == BringDown(Remainder(x + y[..|y| - 1]), y[|y| - 1])
    {
      assert (x + y)[..|x + y| - 1] == x + y[..|y| - 1];
    }

    /** Up to a register's width of bits can be brought down in one go. */
    lemma {:induction false} RemainderConcat(x: Word, y: Word)
      requires Valid() && |y| <= Width()
      ensures Remainder(x + y) == Xor(Clock(Remainder(x), |y|), Zeros(Width() - |y|) + y)
    {
      if y == [] {
        assert x + y == x;
        assert Zeros(Width()) + y == Zeros(Width());
        XorZero(Remainder(x));
      } else {
        var n := |y| - 1;
        var r, low, next := Clock(Remainder(x), n), Zeros(Width() - n) + y[..n], Zeros(Width() - |y|) + y;
        RemainderNext(x, y);
        RemainderConcat(x, y[..n]);
        ShiftIn(y);
        BringDownXor(r, low, y[n]);
      }
    }

    lemma ShiftIn(y: Word)
      requires 0 < |y| <= Width()
      ensures var n := |y| - 1;
              (Zeros(Width() - n) + y[..n])[1..] + [y[n]] == Zeros(Width() - |y|) + y
    {}

    lemma {:induction false} RemainderTrailingZeros(x: Word, n: nat)
      requires Valid()
      ensures Remainder(x + Zeros(n)) == Clock(Remainder(x), n)
    {
      if n == 0 {
        assert x + Zeros(n) == x;
      } else {
        RemainderTrailingZeros(x, n - 1);
        assert (x + Zeros(n))[..|x + Zeros(n)| - 1] == x + Zeros(n - 1);
      }
    }

    lemma RemainderShort(y: Word)
      requires Valid() && |y| <= Width()
      ensures Remainder(y) == Zeros(Width() - |y|) + y
    {
      RemainderConcat([], y);
      ClockZeros(|y|);
      assert [] + y == y;
    }

    lemma {:induction false} RemainderLeadingZeros(n: nat, y: Word)
      requires Valid()
      ensures Remainder(Zeros(n) + y) == Remainder(y)
    {
      if y != [] {
        var k := |y| - 1;
        RemainderLeadingZeros(n, y[..k]);
        assert (Zeros(n) + y)[..|Zeros(n) + y| - 1] == Zeros(n) + y[..k];
      } else {
        RemainderTrailingZeros([], n);
        ClockZeros(n);
        assert [] + Zeros(n) == Zeros(n) + y;
      }
    }

    /** A byte brought down at the bottom and scaled up meets a byte placed higher. */
    lemma ScaledByte(b: Octet)
      requires Valid()
      ensures Clock(Zeros(Width() - 8) + b, Width() - at) == Clock(Place(b), 8)
    {
      var low := Zeros(Width() - 8) + b;
      ClockLeadingZeros(low, Width() - at - 8);
      assert Clock(low, Width() - at - 8) == Place(b);
      ClockSum(low, Width() - at - 8, 8);
    }

    lemma ScaledStep(r: Word, b: Octet)
      requires Valid() && |r| == Width()
      ensures Clock(Xor(Clock(r, 8), Zeros(Width() - 8) + b), Width() - at)
           == Absorb(Clock(r, Width() - at), b)
    {
      var k, low, high := Width() - at, Zeros(Width() - 8) + b, Place(b);
      ClockLinear(Clock(r, 8), low, k);
      ClockSum(r, 8, k);
      ClockSum(r, k, 8);
      ScaledByte(b);
      ClockLinear(Clock(r, k), high, 8);
    }

    /** Starting from an empty register, feeding bytes is polynomial division of the
        message scaled by as many positions as lie below the point where bytes enter. */
    lemma {:induction false} FeedFromZero(data: seq<Octet>)
      requires Valid()
      ensures Feed(Zeros(Width()), data) == Clock(Remainder(Flatten(data)), Width() - at)
      ensures Feed(Zeros(Width()), data) == Remainder(Flatten(data) + Zeros(Width() - at))
    {
      RemainderTrailingZeros(Flatten(data), Width() - at);
      if data == [] {
        ClockZeros(Width() - at);
      } else {
        var n := |data| - 1;
        FeedFromZero(data[..n]);
        RemainderConcat(Flatten(data[..n]), data[n]);
        ScaledStep(Remainder(Flatten(data[..n])), data[n]);
      }
    }

    lemma {:induction false} FeedZeros(s: Word, n: nat)
      requires Valid() && |s| == Width()
      ensures Feed(s, ZeroOctets(n)) == Clock(s, 8 * n)
    {
      if n > 0 {
        FeedZeros(s, n - 1);
        assert ZeroOctets(n)[..n - 1] == ZeroOctets(n - 1);
        ZeroPlaced(Clock(s, 8 * (n - 1)));
        ClockSum(s, 8 * (n - 1), 8);
      }
    }

    lemma ZeroPlaced(r: Word)
      requires Valid() && |r| == Width()
      ensures Xor(r, Place(Zeros(8))) == r
    {}

    /** From any starting value: the start is clocked along and the division is added. */
    lemma FeedIsDivision(s: Word, data: seq<Octet>)
      requires Valid() && |s| == Width()
      ensures Feed(s, data)
           == Xor(Clock(s, 8 * |data|), Remainder(Flatten(data) + Zeros(Width() - at)))
    {
      FeedLinear(s, Zeros(Width()), ZeroOctets(|data|), data);
      XorZero(s);
      DifferenceFromZero(data);
      FeedZeros(s, |data|);
      FeedFromZero(data);
    }

    /** With the same start, two strings leave registers whose difference depends on the
        difference of the strings alone. */
    lemma FeedDifference(s: Word, a: seq<Octet>, b: seq<Octet>)
      requires Valid() && |s| == Width() && |a| == |b|
      ensures Xor(Feed(s, a), Feed(s, b)) == Feed(Zeros(Width()), Difference(a, b))
    {
      FeedLinear(s, s, a, b);
      XorZero(s);
    }

    /** Bytes that stay below the feedback pass through an empty register unchanged. */
    lemma ShortFeed(d: seq<Octet>)
      requires Valid() && 8 * |d| <= at
      ensures Feed(Zeros(Width()), d) == Zeros(at - 8 * |d|) + Flatten(d) + Zeros(Width() - at)
    {
      var tail := Flatten(d) + Zeros(Width() - at);
      FeedFromZero(d);
      RemainderShort(tail);
      assert Zeros(Width() - |tail|) + tail == Zeros(at - 8 * |d|) + Flatten(d) + Zeros(Width() - at);
    }

    // ---------- Bursts ----------

    /** A polynomial with all its set bits inside one register's width has a remainder. */
    lemma BurstRemainder(before: nat, window: Word, after: nat)
      requires Valid() && |window| <= Width() && window != Zeros(|window|)
      ensures Remainder(Zeros(before) + window + Zeros(after)) != Zeros(Width())
    {
      RemainderTrailingZeros(Zeros(before) + window, after);
      RemainderLeadingZeros(before, window);
      RemainderShort(window);
      assert Remainder(window)[Width() - |window|..] == window;
      assert Zeros(Width())[Width() - |window|..] == Zeros(|window|);
      ClockInjective(Remainder(window), Zeros(Width()), after);
      ClockZeros(after);
    }

    /** Two equally long strings that differ, but only inside as many consecutive bits as
        the register is wide, always leave different registers behind. */
    lemma BurstDetected(s: Word, a: seq<Octet>, b: seq<Octet>, start: nat)
      requires Valid() && |s| == Width() && |a| == |b| && a != b
      requires forall i :: 0 <= i < 8 * |a| && Flatten(a)[i] != Flatten(b)[i] ==> start <= i < start + Width()
      ensures Feed(s, a) != Feed(s, b)
    {
      var bits := Flatten(Difference(a, b));
      FlattenDifference(a, b);
      FlattenInjective(a, b);
      var window, after := CutWindow(bits, start, Width());
      BurstRemainder(start, window, after);
      FeedFromZero(Difference(a, b));
      ClockInjective(Remainder(bits), Zeros(Width()), Width() - at);
      ClockZeros(Width() - at);
      FeedDifference(s, a, b);
      XorZero(Feed(s, a));
    }
  }
}
