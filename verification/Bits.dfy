/** Fixed-width words as sequences of bits, most significant bit first. */
module Bits {
  type Word = seq<bool>
  type Octet = w: Word | |w| == 8 witness [false, false, false, false, false, false, false, false]

  function Zeros(n: nat): (z: Word)
    ensures |z| == n
  {
    seq(n, _ => false)
  }

  function ZeroOctet(): Octet {
    Zeros(8)
  }

  function XorOctet(a: Octet, b: Octet): Octet {
    Xor(a, b)
  }

  function ZeroOctets(n: nat): (z: seq<Octet>)
    ensures |z| == n
  {
    seq(n, _ => ZeroOctet())
  }

  function Xor(a: Word, b: Word): (c: Word)
    requires |a| == |b|
    ensures |c| == |a|
  {
    seq(|a|, i requires 0 <= i < |a| && |a| == |b| => a[i] != b[i])
  }

  function Join(high: Word, low: Word): Word {
    high + low
  }

  /** The coefficients below x^n of the polynomial with the given exponents. */
  function Polynomial(n: nat, exponents: set<nat>): (w: Word)
    ensures |w| == n
  {
    seq(n, i requires 0 <= i < n => n - 1 - i in exponents)
  }

  /** The parity bit of a word: true when the number of set bits is odd. */
  function Parity(w: Word): bool {
    if w == [] then false else Parity(w[..|w| - 1]) != w[|w| - 1]
  }

  function Flatten(data: seq<Octet>): (w: Word)
    ensures |w| == 8 * |data|
  {
    if data == [] then [] else Flatten(data[..|data| - 1]) + data[|data| - 1]
  }

  /** The bytewise difference of two equally long strings. */
  function Difference(a: seq<Octet>, b: seq<Octet>): (d: seq<Octet>)
    requires |a| == |b|
    ensures |d| == |a|
  {
    seq(|a|, i requires 0 <= i < |a| && |a| == |b| => XorOctet(a[i], b[i]))
  }

  /** Every bit turned over. */
  function Complement(w: Word): (c: Word)
    ensures |c| == |w|
  {
    seq(|w|, i requires 0 <= i < |w| => !w[i])
  }

  /** Byte i of a string lies in places 8 i to 8 i + 7 of the word, most significant bit first. */
  lemma {:induction false} FlattenAt(data: seq<Octet>, i: nat, j: nat)
    requires i < |data| && j < 8
    ensures Flatten(data)[8 * i + j] == data[i][j]
  {
    var n := |data| - 1;
    if i < n {
      FlattenAt(data[..n], i, j);
    }
  }

  lemma XorZero(a: Word)
    ensures Xor(a, Zeros(|a|)) == a == Xor(Zeros(|a|), a)
    ensures Xor(a, a) == Zeros(|a|)
  {}

  lemma DifferenceFromZero(a: seq<Octet>)
    ensures Difference(ZeroOctets(|a|), a) == a
  {
    forall i | 0 <= i < |a| ensures Difference(ZeroOctets(|a|), a)[i] == a[i] {
      XorZero(a[i]);
    }
  }

  lemma {:induction false} ParityConcat(a: Word, b: Word)
    ensures Parity(a + b) == (Parity(a) != Parity(b))
  {
    if b == [] {
      assert a + b == a;
    } else {
      var n := |b| - 1;
      ParityConcat(a, b[..n]);
      assert (a + b)[..|a + b| - 1] == a + b[..n];
    }
  }

  lemma {:induction false} ParityXor(a: Word, b: Word)
    requires |a| == |b|
    ensures Parity(Xor(a, b)) == (Parity(a) != Parity(b))
  {
    if a != [] {
      var n := |a| - 1;
      ParityXor(a[..n], b[..n]);
      assert Xor(a, b)[..n] == Xor(a[..n], b[..n]);
    }
  }

  lemma {:induction false} ParityZeros(n: nat)
    ensures !Parity(Zeros(n))
  {
    if n > 0 {
      ParityZeros(n - 1);
      assert Zeros(n)[..n - 1] == Zeros(n - 1);
    }
  }

  lemma {:induction false} FlattenDifference(a: seq<Octet>, b: seq<Octet>)
    requires |a| == |b|
    ensures Flatten(Difference(a, b)) == Xor(Flatten(a), Flatten(b))
  {
    if a != [] {
      var n := |a| - 1;
      FlattenDifference(a[..n], b[..n]);
      assert Difference(a, b)[..n] == Difference(a[..n], b[..n]);
    }
  }

  lemma {:induction false} FlattenInjective(a: seq<Octet>, b: seq<Octet>)
    requires |a| == |b| && a != b
    ensures exists k :: 0 <= k < 8 * |a| && Xor(Flatten(a), Flatten(b))[k]
  {
    var n := |a| - 1;
    if a[n] != b[n] {
      var k :| 0 <= k < 8 && a[n][k] != b[n][k];
      assert Xor(Flatten(a), Flatten(b))[8 * n + k];
    } else {
      FlattenInjective(a[..n], b[..n]);
      var k :| 0 <= k < 8 * n && Xor(Flatten(a[..n]), Flatten(b[..n]))[k];
      assert Xor(Flatten(a), Flatten(b))[k];
    }
  }

  lemma {:induction false} FlattenConcat(a: seq<Octet>, b: seq<Octet>)
    ensures Flatten(a + b) == Flatten(a) + Flatten(b)
  {
    if b == [] {
      assert a + b == a;
    } else {
      var n := |b| - 1;
      FlattenConcat(a, b[..n]);
      assert (a + b)[..|a + b| - 1] == a + b[..n];
    }
  }

  /** A word whose set bits all lie in `width` consecutive places, cut at those places. */
  lemma CutWindow(bits: Word, start: nat, width: nat) returns (window: Word, after: nat)
    requires exists k :: 0 <= k < |bits| && bits[k]
    requires forall i :: 0 <= i < |bits| && bits[i] ==> start <= i < start + width
    ensures |window| <= width && window != Zeros(|window|)
    ensures bits == Zeros(start) + window + Zeros(after)
  {
    var k :| 0 <= k < |bits| && bits[k];
    var stop := if start + width <= |bits| then start + width else |bits|;
    window, after := bits[start..stop], |bits| - stop;
    assert window[k - start];
  }

  // ---------- Polynomials over two elements ----------

  function Scaled(bit: bool, n: nat, g: Word): (p: Word)
    ensures |p| == n + |g|
  {
    if bit then Zeros(n) + g else Zeros(n + |g|)
  }

  /** The product of two words read as polynomials, one place longer than it need be. */
  function Times(q: Word, g: Word): (p: Word)
    ensures |p| == |q| + |g|
  {
    if q == [] then Zeros(|g|)
    else
      var n := |q| - 1;
      Xor(Times(q[..n], g) + [false], Scaled(q[n], n + 1, g))
  }

  /** What is left of the dividend when a multiple of the divisor is taken away, and too short
      for another. */
  ghost predicate IsRemainder(dividend: Word, divisor: Word, r: Word) {
    exists q :: Leaves(dividend, divisor, q, r)
  }

  predicate Leaves(dividend: Word, divisor: Word, q: Word, r: Word) {
    && |r| + 1 == |divisor|
    && |q| == |dividend|
    && Zeros(|divisor|) + dividend == Xor(Times(q, divisor), Zeros(|q| + 1) + r)
  }

  lemma XorAssociative(a: Word, b: Word, c: Word)
    requires |a| == |b| == |c|
    ensures Xor(Xor(a, b), c) == Xor(a, Xor(b, c))
  {}

  lemma XorAppend(a: Word, b: Word, c: Word, d: Word)
    requires |a| == |b| && |c| == |d|
    ensures Xor(a + c, b + d) == Xor(a, b) + Xor(c, d)
  {}

  lemma XorPadded(n: nat, a: Word, b: Word)
    requires |a| == |b|
    ensures Xor(Zeros(n) + a, Zeros(n) + b) == Zeros(n) + Xor(a, b)
  {}

  lemma {:induction false} TimesSum(q: Word, q': Word, g: Word)
    requires |q| == |q'|
    ensures Times(Xor(q, q'), g) == Xor(Times(q, g), Times(q', g))
  {
    if q == [] {
      XorZero(Zeros(|g|));
    } else {
      var n := |q| - 1;
      TimesSum(q[..n], q'[..n], g);
      assert Xor(q, q')[..n] == Xor(q[..n], q'[..n]);
      TimesSumLast(Times(q[..n], g), Times(q'[..n], g), q[n], q'[n], g);
    }
  }

  lemma TimesSumLast(a: Word, b: Word, x: bool, y: bool, g: Word)
    requires |a| == |b| >= |g|
    ensures Xor(Xor(a, b) + [false], Scaled(x != y, |a| - |g| + 1, g))
         == Xor(Xor(a + [false], Scaled(x, |a| - |g| + 1, g)), Xor(b + [false], Scaled(y, |a| - |g| + 1, g)))
  {}

  /** The leading bit of a product. */
  lemma {:induction false} TimesLeads(q: Word, g: Word, k: nat)
    requires k < |q| && q[k] && g != [] && g[0] && forall i :: 0 <= i < k ==> !q[i]
    ensures Times(q, g)[k + 1]
    ensures forall i :: 0 <= i <= k ==> !Times(q, g)[i]
  {
    var n := |q| - 1;
    if k < n {
      TimesLeads(q[..n], g, k);
    } else {
      TimesZeros(q[..n], g);
    }
  }

  lemma {:induction false} TimesZeros(q: Word, g: Word)
    requires forall i :: 0 <= i < |q| ==> !q[i]
    ensures Times(q, g) == Zeros(|q| + |g|)
  {
    if q != [] {
      var n := |q| - 1;
      TimesZeros(q[..n], g);
      XorZero(Zeros(|q| + |g|));
      assert Zeros(n + |g|) + [false] == Zeros(|q| + |g|);
    }
  }

  /** A divisor with leading term leaves one remainder only. */
  lemma RemainderUnique(dividend: Word, divisor: Word, r: Word, r': Word)
    requires divisor != [] && divisor[0]
    requires IsRemainder(dividend, divisor, r) && IsRemainder(dividend, divisor, r')
    ensures r == r'
  {
    var q :| Leaves(dividend, divisor, q, r);
    var q' :| Leaves(dividend, divisor, q', r');
    QuotientsApart(dividend, divisor, q, q', r, r');
    ShortMultiple(Xor(q, q'), divisor, Xor(r, r'));
    EqualWhereNoDifference(r, r');
  }

  lemma QuotientsApart(dividend: Word, divisor: Word, q: Word, q': Word, r: Word, r': Word)
    requires Leaves(dividend, divisor, q, r) && Leaves(dividend, divisor, q', r')
    ensures Times(Xor(q, q'), divisor) == Zeros(|q| + 1) + Xor(r, r')
  {
    TimesSum(q, q', divisor);
    SameSum(Times(q, divisor), Times(q', divisor), Zeros(|q| + 1) + r, Zeros(|q| + 1) + r');
    XorPadded(|q| + 1, r, r');
  }

  /** A multiple shorter than the divisor is zero. */
  lemma ShortMultiple(d: Word, divisor: Word, t: Word)
    requires divisor != [] && divisor[0] && |t| + 1 == |divisor|
    requires Times(d, divisor) == Zeros(|d| + 1) + t
    ensures t == Zeros(|t|)
  {
    if k :| 0 <= k < |d| && d[k] {
      var first := FirstSet(d, k);
      LeadingZeros(|d|, t, first);
      TimesLeads(d, divisor, first);
    } else {
      TimesZeros(d, divisor);
      SameTails(|d| + 1, t);
    }
  }

  lemma LeadingZeros(n: nat, t: Word, i: nat)
    requires i < n
    ensures !(Zeros(n + 1) + t)[i + 1]
  {}

  lemma SameTails(n: nat, t: Word)
    requires Zeros(n) + t == Zeros(n + |t|)
    ensures t == Zeros(|t|)
  {
    assert t == (Zeros(n) + t)[n..];
  }

  lemma SameSum(a: Word, b: Word, c: Word, d: Word)
    requires |a| == |b| == |c| == |d| && Xor(a, c) == Xor(b, d)
    ensures Xor(a, b) == Xor(c, d)
  {
    forall i | 0 <= i < |a| ensures Xor(a, b)[i] == Xor(c, d)[i] {
      assert Xor(a, c)[i] == Xor(b, d)[i];
    }
  }

  lemma EqualWhereNoDifference(r: Word, r': Word)
    requires |r| == |r'| && Xor(r, r') == Zeros(|r|)
    ensures r == r'
  {
    forall i | 0 <= i < |r| ensures r[i] == r'[i] {
      assert !Xor(r, r')[i];
    }
  }

  lemma {:induction false} FirstSet(w: Word, k: nat) returns (first: nat)
    requires k < |w| && w[k]
    ensures first <= k && w[first] && forall i :: 0 <= i < first ==> !w[i]
  {
    if j :| 0 <= j < k && w[j] {
      first := FirstSet(w, j);
    } else {
      first := k;
    }
  }
}
