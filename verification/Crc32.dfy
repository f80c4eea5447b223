/**
 CRC-32 as misc/ngx_c_crc32.cpp computes it: a table built with left shifts from the
 unreflected polynomial and mirrored with `Reflect`, then used one byte at a time.
 The reference is the bit-at-a-time register of section 8 of RFC 1952.

 An `unsigned int` is its 32 bits, least significant first; a byte is its 8 bits.
 */
module Crc32 {

  type Bits = seq<bool>
  type Word = w: seq<bool> | |w| == 32 witness Zeros(32)
  type Octet = b: seq<bool> | |b| == 8 witness Zeros(8)

  function Zeros(n: nat): (r: Bits)
    ensures |r| == n
  {
    seq(n, _ => false)
  }

  function Ones(): Word { seq(32, _ => true) }

  function Xor(a: Bits, b: Bits): (r: Bits)
    requires |a| == |b|
    ensures |r| == |a|
  {
    seq(|a|, k requires 0 <= k < |a| => a[k] != b[k])
  }

  function ShiftRight(w: Word, n: nat): Word
    requires n <= 32
  {
    w[n..] + Zeros(n)
  }

  function ShiftLeft(w: Word, n: nat): Word
    requires n <= 32
  {
    Zeros(n) + w[..32 - n]
  }

  /** The low n bits of a number, and the number a row of bits denotes. */
  function FromNat(v: nat, n: nat): (r: Bits)
    ensures |r| == n
  {
    if n == 0 then [] else [v % 2 == 1] + FromNat(v / 2, n - 1)
  }

  function Pow2(n: nat): nat { if n == 0 then 1 else 2 * Pow2(n - 1) }

  function ToNat(b: Bits): (v: nat)
    ensures v < Pow2(|b|)
  {
    if b == [] then 0 else (if b[0] then 1 else 0) + 2 * ToNat(b[1..])
  }

  lemma {:induction false} FromToNat(b: Bits)
    ensures FromNat(ToNat(b), |b|) == b
  {
    if b != [] {
      FromToNat(b[1..]);
      assert ToNat(b) / 2 == ToNat(b[1..]);
    }
  }

  // ----- Reference: bits enter least significant first, the register shifts right -----

  /** 0x04c11db7, the polynomial the table is built from. */
  const LEFT_POLYNOMIAL: Word := [
    true, true, true, false, true, true, false, true,
    true, false, true, true, true, false, false, false,
    true, false, false, false, false, false, true, true,
    false, false, true, false, false, false, false, false]

  /** 0xedb88320, the polynomial of the RFC. */
  const RIGHT_POLYNOMIAL: Word := [
    false, false, false, false, false, true, false, false,
    true, true, false, false, false, false, false, true,
    false, false, false, true, true, true, false, true,
    true, false, true, true, false, true, true, true]

  function RightStep(p: Word, c: Word): Word {
    if c[0] then Xor(p, ShiftRight(c, 1)) else ShiftRight(c, 1)
  }

  function RightSteps(p: Word, c: Word, n: nat): Word
    decreases n
  {
    if n == 0 then c else RightSteps(p, RightStep(p, c), n - 1)
  }

  function Widen(b: Octet): Word { b + Zeros(24) }

  /** The register after a buffer: each byte is folded in, then shifted out bit by bit. */
  function Register(p: Word, c: Word, s: seq<Octet>): Word
    decreases |s|
  {
    if s == [] then c else Register(p, RightSteps(p, Xor(c, Widen(s[0])), 8), s[1..])
  }

  function Checksum(s: seq<Octet>): Word { Xor(Register(RIGHT_POLYNOMIAL, Ones(), s), Ones()) }

  // ----- Algebra of one step -----

  lemma {:induction false} StepsInjective(p: Word, a: Word, b: Word, n: nat)
    requires p[31] && RightSteps(p, a, n) == RightSteps(p, b, n)
    ensures a == b
    decreases n
  {
    if n > 0 {
      StepsInjective(p, RightStep(p, a), RightStep(p, b), n - 1);
      StepInjective(p, a, b);
    }
  }

  /** The bit shifted out reappears at the top, where the polynomial has a 1: no information is lost. */
  lemma StepInjective(p: Word, a: Word, b: Word)
    requires p[31] && RightStep(p, a) == RightStep(p, b)
    ensures a == b
  {
    assert RightStep(p, a)[31] == a[0] && RightStep(p, b)[31] == b[0];
    forall k | 1 <= k < 32
      ensures a[k] == b[k]
    {
      assert RightStep(p, a)[k - 1] == (a[k] != (a[0] && p[k - 1]));
      assert RightStep(p, b)[k - 1] == (b[k] != (b[0] && p[k - 1]));
    }
  }

  lemma StepLinear(p: Word, a: Word, b: Word)
    ensures RightStep(p, Xor(a, b)) == Xor(RightStep(p, a), RightStep(p, b))
  {}

  lemma {:induction false} StepsLinear(p: Word, a: Word, b: Word, n: nat)
    ensures RightSteps(p, Xor(a, b), n) == Xor(RightSteps(p, a, n), RightSteps(p, b, n))
    decreases n
  {
    if n > 0 {
      StepLinear(p, a, b);
      StepsLinear(p, RightStep(p, a), RightStep(p, b), n - 1);
    }
  }

  /** While only zeros leave the register, stepping is plain shifting. */
  lemma {:induction false} StepsShift(p: Word, w: Word, n: nat)
    requires n <= 32 && w[..n] == Zeros(n)
    ensures RightSteps(p, w, n) == ShiftRight(w, n)
    decreases n
  {
    if n > 0 {
      assert w[0] == w[..n][0];
      ShiftOnce(w, n);
      StepsShift(p, ShiftRight(w, 1), n - 1);
    }
  }

  lemma ShiftOnce(w: Word, n: nat)
    requires 1 <= n <= 32 && w[..n] == Zeros(n)
    ensures ShiftRight(w, 1)[..n - 1] == Zeros(n - 1)
    ensures ShiftRight(ShiftRight(w, 1), n - 1) == ShiftRight(w, n)
  {
    var next := ShiftRight(w, 1);
    forall k | 0 <= k < n - 1
      ensures !next[k]
    {
      assert next[k] == w[..n][k + 1];
    }
  }

  // ----- The table's left-shifting step is the mirror image of the reference step -----

  function Mirror(w: Word): Word { seq(32, k requires 0 <= k < 32 => w[31 - k]) }

  function LeftStep(p: Word, c: Word): Word {
    Xor(ShiftLeft(c, 1), if c[31] then p else Zeros(32))
  }

  function LeftSteps(p: Word, c: Word, n: nat): Word {
    if n == 0 then c else LeftStep(p, LeftSteps(p, c, n - 1))
  }

  lemma MirroredPolynomial()
    ensures RIGHT_POLYNOMIAL == Mirror(LEFT_POLYNOMIAL) && RIGHT_POLYNOMIAL[31]
  {}

  lemma MirrorStep(p: Word, x: Word)
    ensures Mirror(LeftStep(p, x)) == RightStep(Mirror(p), Mirror(x))
  {
    var l, r := Mirror(LeftStep(p, x)), RightStep(Mirror(p), Mirror(x));
    forall k | 0 <= k < 32
      ensures l[k] == r[k]
    {
      assert l[k] == (LeftStep(p, x)[31 - k]);
    }
  }

  lemma {:induction false} StepsLast(p: Word, c: Word, n: nat)
    ensures RightSteps(p, c, n + 1) == RightStep(p, RightSteps(p, c, n))
    decreases n
  {
    if n > 0 {
      StepsLast(p, RightStep(p, c), n - 1);
    }
  }

  lemma {:induction false} MirrorSteps(p: Word, x: Word, n: nat)
    ensures Mirror(LeftSteps(p, x, n)) == RightSteps(Mirror(p), Mirror(x), n)
  {
    if n > 0 {
      var l, q := LeftSteps(p, x, n - 1), Mirror(p);
      calc {
        Mirror(LeftSteps(p, x, n));
        Mirror(LeftStep(p, l));
        { MirrorStep(p, l); }
        RightStep(q, Mirror(l));
        { MirrorSteps(p, x, n - 1); }
        RightStep(q, RightSteps(q, Mirror(x), n - 1));
        { StepsLast(q, Mirror(x), n - 1); }
        RightSteps(q, Mirror(x), n);
      }
    }
  }

  // ----- One table look-up is eight reference steps -----

  /** Entry b of a correct table: the register after the byte b is shifted out of it. */
  function Entry(p: Word, b: Octet): Word { RightSteps(p, Widen(b), 8) }

  lemma ByteStep(p: Word, c: Word, b: Octet)
    ensures RightSteps(p, Xor(c, Widen(b)), 8) == Xor(ShiftRight(c, 8), Entry(p, Xor(c[..8], b)))
  {
    var high: Word, low := Zeros(8) + c[8..], Widen(Xor(c[..8], b));
    assert Xor(c, Widen(b)) == Xor(high, low);
    StepsLinear(p, high, low, 8);
    assert high[..8] == Zeros(8);
    StepsShift(p, high, 8);
    assert ShiftRight(high, 8) == ShiftRight(c, 8);
  }

  // ----- The class of the source -----

  /** The lowest ch bits in reverse order, the rest 0. */
  function Reflected(ref: Word, ch: nat): Word
    requires ch <= 32
  {
    seq(ch, k requires 0 <= k < ch => ref[ch - 1 - k]) + Zeros(32 - ch)
  }

  method Reflect(ref: Word, ch: nat) returns (value: Word)
    requires ch <= 32
    ensures value == Reflected(ref, ch)
  {
    value := Zeros(32);
    var r := ref;
    for i := 1 to ch + 1
      invariant r == ShiftRight(ref, i - 1)
      invariant forall k :: 0 <= k < 32 ==> value[k] == (ch - (i - 1) <= k < ch && ref[ch - 1 - k])
    {
      if r[0] {
        value := value[ch - i := true];
      }
      assert r[0] == ref[i - 1];
      r := ShiftRight(r, 1);
    }
  }

  class Crc {
    const table: array<Word>

    ghost predicate Valid()
      reads table
    {
      table.Length == 256 && Filled(RIGHT_POLYNOMIAL, 256)
    }

    ghost predicate Filled(p: Word, n: nat)
      requires n <= table.Length
      reads table
    {
      forall k :: 0 <= k < n ==> table[k] == Entry(p, FromNat(k, 8))
    }

    constructor ()
      ensures Valid() && fresh(table)
    {
      table := new Word[256];
      new;
      FillTable(LEFT_POLYNOMIAL);
      MirroredPolynomial();
    }

    method FillTable(polynomial: Word)
      requires table.Length == 256
      modifies table
      ensures Filled(Mirror(polynomial), 256)
    {
      for i := 0 to 256
        invariant Filled(Mirror(polynomial), i)
      {
        FillEntry(polynomial, i);
      }
    }

    /** The body of the outer loop: entry i is computed in place. */
    method FillEntry(polynomial: Word, i: nat)
      requires i < table.Length
      modifies table
      ensures table[i] == Entry(Mirror(polynomial), FromNat(i, 8))
      ensures forall k :: 0 <= k < table.Length && k != i ==> table[k] == old(table[k])
    {
      var low := Reflect(Widen(FromNat(i, 8)), 8);
      var start := ShiftLeft(low, 24);
      assert Mirror(start) == Widen(FromNat(i, 8));
      table[i] := start;
      for j := 0 to 8
        invariant table[i] == LeftSteps(polynomial, start, j)
        invariant forall k :: 0 <= k < table.Length && k != i ==> table[k] == old(table[k])
      {
        table[i] := LeftStep(polynomial, table[i]);
      }
      MirrorSteps(polynomial, start, 8);
      var whole := Reflect(table[i], 32);
      assert whole == Mirror(table[i]);
      table[i] := whole;
    }

    method GetCrc(buffer: array<Octet>, size: nat) returns (r: Word)
      requires Valid() && size <= buffer.Length
      ensures r == Checksum(buffer[..size])
    {
      var crc := Ones();
      for next := 0 to size
        invariant Register(RIGHT_POLYNOMIAL, crc, buffer[next..size])
               == Register(RIGHT_POLYNOMIAL, Ones(), buffer[..size])
      {
        var index: Octet := Xor(crc[..8], buffer[next]);
        ByteStep(RIGHT_POLYNOMIAL, crc, buffer[next]);
        FromToNat(index);
        assert Pow2(8) == 256;
        assert buffer[next..size][1..] == buffer[next + 1..size];
        crc := Xor(ShiftRight(crc, 8), table[ToNat(index)]);
      }
      r := Xor(crc, Ones());
    }
  }

  // ----- Burst detection -----

  /** The message as the row of bits the register consumes. */
  ghost function Stream(s: seq<Octet>): (r: Bits)
    ensures |r| == 8 * |s|
  {
    if s == [] then [] else s[0] + Stream(s[1..])
  }

  lemma {:induction false} StreamInjective(a: seq<Octet>, b: seq<Octet>)
    requires Stream(a) == Stream(b)
    ensures a == b
  {
    assert |a| == |b|;
    if a != [] {
      assert Stream(a)[..8] == a[0] && Stream(b)[..8] == b[0];
      assert Stream(a)[8..] == Stream(a[1..]) && Stream(b)[8..] == Stream(b[1..]);
      StreamInjective(a[1..], b[1..]);
    }
  }

  function First(b: bool): Word { [b] + Zeros(31) }

  /** The register fed one bit at a time. */
  ghost function Feed(p: Word, c: Word, bits: Bits): Word
    decreases |bits|
  {
    if bits == [] then c else Feed(p, RightStep(p, Xor(c, First(bits[0]))), bits[1..])
  }

  lemma {:induction false} FeedConcat(p: Word, c: Word, s: Bits, t: Bits)
    ensures Feed(p, c, s + t) == Feed(p, Feed(p, c, s), t)
    decreases |s|
  {
    if s == [] {
      assert s + t == t;
    } else {
      assert (s + t)[1..] == s[1..] + t;
      FeedConcat(p, RightStep(p, Xor(c, First(s[0]))), s[1..], t);
    }
  }

  function Pack(bits: Bits): Word
    requires |bits| <= 32
  {
    bits + Zeros(32 - |bits|)
  }

  /** Up to 32 bits fed one at a time are the same bits folded in at once and then stepped over. */
  lemma {:induction false} FeedPacked(p: Word, c: Word, bits: Bits)
    requires |bits| <= 32
    ensures Feed(p, c, bits) == RightSteps(p, Xor(c, Pack(bits)), |bits|)
    decreases |bits|
  {
    if bits == [] {
      assert Xor(c, Pack(bits)) == c;
    } else {
      var head, rest := Xor(c, First(bits[0])), Pack(bits[1..]);
      var later: Word := [false] + rest[..31];
      assert Xor(c, Pack(bits)) == Xor(head, later);
      StepLinear(p, head, later);
      assert RightStep(p, later) == rest;
      FeedPacked(p, RightStep(p, head), bits[1..]);
    }
  }

  lemma {:induction false} RegisterFeeds(p: Word, c: Word, s: seq<Octet>)
    ensures Register(p, c, s) == Feed(p, c, Stream(s))
    decreases |s|
  {
    if s != [] {
      FeedConcat(p, c, s[0], Stream(s[1..]));
      FeedPacked(p, c, s[0]);
      RegisterFeeds(p, RightSteps(p, Xor(c, Widen(s[0])), 8), s[1..]);
    }
  }

  lemma {:induction false} FeedInjective(p: Word, a: Word, b: Word, bits: Bits)
    requires p[31] && Feed(p, a, bits) == Feed(p, b, bits)
    ensures a == b
    decreases |bits|
  {
    if bits != [] {
      var f := First(bits[0]);
      FeedInjective(p, RightStep(p, Xor(a, f)), RightStep(p, Xor(b, f)), bits[1..]);
      StepInjective(p, Xor(a, f), Xor(b, f));
      XorInjective(a, b, f);
    }
  }

  lemma XorInjective(a: Bits, b: Bits, f: Bits)
    requires |a| == |b| == |f| && Xor(a, f) == Xor(b, f)
    ensures a == b
  {
    assert forall k :: 0 <= k < |a| ==> Xor(a, f)[k] == Xor(b, f)[k] ==> a[k] == b[k];
  }

  lemma WindowInjective(p: Word, c: Word, v: Bits, w: Bits)
    requires p[31] && |v| == |w| <= 32 && Feed(p, c, v) == Feed(p, c, w)
    ensures v == w
  {
    FeedPacked(p, c, v);
    FeedPacked(p, c, w);
    StepsInjective(p, Xor(c, Pack(v)), Xor(c, Pack(w)), |v|);
    assert Xor(c, Pack(v)) == Xor(Pack(v), c) && Xor(c, Pack(w)) == Xor(Pack(w), c);
    XorInjective(Pack(v), Pack(w), c);
    assert v == Pack(v)[..|v|] && w == Pack(w)[..|v|];
  }

  /** The messages differ in no bit outside the window of the given width at bit k. */
  ghost predicate DifferWithin(a: seq<Octet>, b: seq<Octet>, k: nat, width: nat)
  {
    |a| == |b| &&
    forall i :: 0 <= i < |Stream(a)| && !(k <= i < k + width) ==> Stream(a)[i] == Stream(b)[i]
  }

  /** Every error burst of at most 32 bits changes the checksum, at any bit offset in any message. */
  lemma BurstDetected(a: seq<Octet>, b: seq<Octet>, k: nat)
    requires DifferWithin(a, b, k, 32) && a != b
    ensures Checksum(a) != Checksum(b)
  {
    if Checksum(a) == Checksum(b) {
      var p := RIGHT_POLYNOMIAL;
      MirroredPolynomial();
      XorInjective(Register(p, Ones(), a), Register(p, Ones(), b), Ones());
      RegisterFeeds(p, Ones(), a);
      RegisterFeeds(p, Ones(), b);
      BurstCollapses(p, Ones(), Stream(a), Stream(b), k);
      StreamInjective(a, b);
    }
  }

  lemma BurstCollapses(p: Word, c: Word, s: Bits, t: Bits, k: nat)
    requires p[31] && |s| == |t| && Feed(p, c, s) == Feed(p, c, t)
    requires forall i :: 0 <= i < |s| && !(k <= i < k + 32) ==> s[i] == t[i]
    ensures s == t
  {
    var lo := if k <= |s| then k else |s|;
    var hi := if lo + 32 <= |s| then lo + 32 else |s|;
    var v, w := s[lo..hi], t[lo..hi];
    assert s[..lo] == t[..lo] && s[hi..] == t[hi..];
    Reassemble(s, lo, hi);
    Reassemble(t, lo, hi);
    FramedWindow(p, c, s[..lo], v, w, s[hi..]);
  }

  lemma Reassemble(s: Bits, lo: nat, hi: nat)
    requires lo <= hi <= |s|
    ensures s == s[..lo] + (s[lo..hi] + s[hi..])
  {}

  lemma FramedWindow(p: Word, c: Word, before: Bits, v: Bits, w: Bits, after: Bits)
    requires p[31] && |v| == |w| <= 32
    requires Feed(p, c, before + (v + after)) == Feed(p, c, before + (w + after))
    ensures v == w
  {
    FeedConcat(p, c, before, v + after);
    FeedConcat(p, c, before, w + after);
    var d := Feed(p, c, before);
    FeedConcat(p, d, v, after);
    FeedConcat(p, d, w, after);
    FeedInjective(p, Feed(p, d, v), Feed(p, d, w), after);
    WindowInjective(p, d, v, w);
  }

  lemma FirstStep(p: Word, c: Word)
    ensures RightStep(p, Xor(c, First(true))) == Xor(RightStep(p, c), p)
  {
    StepLinear(p, c, First(true));
    assert RightStep(p, First(true)) == p;
  }

  lemma FeedCancels(p: Word, r: Word, z: Word)
    requires z == Zeros(|p|)
    ensures Feed(p, Xor(r, p), p) == Feed(p, r, z)
  {
    FeedPacked(p, Xor(r, p), p);
    FeedPacked(p, r, z);
    assert Pack(p) == p && Pack(z) == z;
    XorCancels(r, p, z);
  }

  lemma XorCancels(r: Word, p: Word, z: Word)
    requires z == Zeros(32)
    ensures Xor(Xor(r, p), p) == r == Xor(r, z)
  {}

  /** One bit followed by the polynomial itself leaves the register as 33 zeros would. */
  lemma PolynomialInvisible(p: Word, c: Word)
    ensures Feed(p, c, [true] + p) == Feed(p, c, [false] + Zeros(32))
  {
    assert ([true] + p)[1..] == p && ([false] + Zeros(32))[1..] == Zeros(32);
    FirstStep(p, c);
    assert Xor(c, First(false)) == c;
    FeedCancels(p, RightStep(p, c), Zeros(32));
  }

  ghost function Bytes(x: Bits): (s: seq<Octet>)
    requires |x| % 8 == 0
    ensures 8 * |s| == |x| && Stream(s) == x
  {
    if x == [] then [] else [x[..8]] + Bytes(x[8..])
  }

  lemma SameRegister(p: Word, c: Word, z: Bits, a: seq<Octet>, b: seq<Octet>)
    requires Stream(a) == [true] + p + z && Stream(b) == [false] + Zeros(32) + z
    ensures Register(p, c, a) == Register(p, c, b)
  {
    RegisterFeeds(p, c, a);
    RegisterFeeds(p, c, b);
    FeedConcat(p, c, [true] + p, z);
    FeedConcat(p, c, [false] + Zeros(32), z);
    PolynomialInvisible(p, c);
  }

  /** The bound of 32 is exact: some burst of 33 bits passes unnoticed. */
  lemma BurstBoundTight()
    ensures exists a, b :: DifferWithin(a, b, 0, 33) && a != b && Checksum(a) == Checksum(b)
  {
    var z := Zeros(7);
    var a, b := Bytes([true] + RIGHT_POLYNOMIAL + z), Bytes([false] + Zeros(32) + z);
    SameRegister(RIGHT_POLYNOMIAL, Ones(), z, a, b);
    assert Stream(a)[0] && !Stream(b)[0];
    assert DifferWithin(a, b, 0, 33);
  }

  // ----- The complement before and after -----

  lemma XorTwice(c: Word, f: Word)
    ensures Xor(c, Xor(c, f)) == f
  {}

  lemma {:induction false} StreamConcat(s: seq<Octet>, t: seq<Octet>)
    ensures Stream(s + t) == Stream(s) + Stream(t)
  {
    if s == [] {
      assert s + t == t;
    } else {
      assert (s + t)[1..] == s[1..] + t;
      StreamConcat(s[1..], t);
    }
  }

  /** The register that has taken in its own complement holds what four zero bytes leave in a new one. */
  lemma OwnComplement(p: Word, c: Word, own: seq<Octet>, blank: seq<Octet>)
    requires Stream(own) == Xor(c, Ones()) && Stream(blank) == Zeros(32)
    ensures Register(p, c, own) == Register(p, Ones(), blank)
  {
    calc {
      Register(p, c, own);
      { RegisterFeeds(p, c, own); }
      Feed(p, c, Xor(c, Ones()));
      { FeedWord(p, c, Xor(c, Ones())); XorTwice(c, Ones()); }
      RightSteps(p, Ones(), 32);
      { FeedWord(p, Ones(), Zeros(32)); assert Xor(Ones(), Zeros(32)) == Ones(); }
      Feed(p, Ones(), Zeros(32));
      { RegisterFeeds(p, Ones(), blank); }
      Register(p, Ones(), blank);
    }
  }

  lemma FeedWord(p: Word, c: Word, w: Word)
    ensures Feed(p, c, w) == RightSteps(p, Xor(c, w), 32)
  {
    FeedPacked(p, c, w);
    assert Pack(w) == w;
  }

  /** The residue law: a message followed by its own checksum, least significant byte first, has the checksum of four
      zero bytes, whatever the message. */
  lemma Residue(s: seq<Octet>, own: seq<Octet>, blank: seq<Octet>)
    requires Stream(own) == Checksum(s) && Stream(blank) == Zeros(32)
    ensures Checksum(s + own) == Checksum(blank)
  {
    var p := RIGHT_POLYNOMIAL;
    var c := Register(p, Ones(), s);
    OwnComplement(p, c, own, blank);
    RegisterFeeds(p, Ones(), s + own);
    RegisterFeeds(p, Ones(), s);
    RegisterFeeds(p, c, own);
    StreamConcat(s, own);
    FeedConcat(p, Ones(), Stream(s), Stream(own));
  }

  /** The register starts with every bit set, and the checksum is its complement. */
  lemma ComplementedBothEnds(s: seq<Octet>, start: Word, k: nat)
    requires (forall i :: 0 <= i < 32 ==> start[i]) && k < 32
    ensures Checksum(s)[k] == !Register(RIGHT_POLYNOMIAL, start, s)[k]
  {
    assert start == Ones();
  }

  /** One step, bit by bit. */
  lemma NextBit(c: Word, d: Word, k: nat)
    requires d == RightStep(RIGHT_POLYNOMIAL, c) && k < 31
    ensures d[k] == (c[k + 1] != (c[0] && RIGHT_POLYNOMIAL[k])) && d[31] == c[0]
  {}

  /** The first n bits of a word. */
  predicate Begins(w: Word, bits: Bits) { |bits| <= 32 && forall k :: 0 <= k < |bits| ==> w[k] == bits[k] }

  lemma NextBits(c: Word, bits: Bits, d: Word, next: Bits)
    requires Begins(c, bits) && 1 <= |bits| <= 8 && |next| == |bits| - 1 && d == RightStep(RIGHT_POLYNOMIAL, c)
    requires forall k :: 0 <= k < |next| ==> next[k] == (bits[k + 1] != (bits[0] && k == 5))
    ensures Begins(d, next) && d[31] == bits[0]
  {
    NextBit(c, d, 0);
    forall k | 0 <= k < |next|
      ensures d[k] == next[k]
    {
      NextBit(c, d, k);
      assert RIGHT_POLYNOMIAL[k] == (k == 5);
    }
  }

  /** A zero byte shifted through the new register leaves its top bit clear. */
  lemma ZeroByteShows(w: Word)
    requires w == RightSteps(RIGHT_POLYNOMIAL, Ones(), 8)
    ensures !w[31]
  {
    var half := FirstFour();
    LastFour(half, w);
  }

  lemma FirstFour() returns (w4: Word)
    ensures Begins(w4, [true, true, false, false])
    ensures RightSteps(RIGHT_POLYNOMIAL, Ones(), 8) == RightSteps(RIGHT_POLYNOMIAL, w4, 4)
  {
    var p := RIGHT_POLYNOMIAL;
    var w1 := RightStep(p, Ones());
    NextBits(Ones(), [true, true, true, true, true, true, true, true], w1, [true, true, true, true, true, false, true]);
    var w2 := RightStep(p, w1);
    NextBits(w1, [true, true, true, true, true, false, true], w2, [true, true, true, true, false, false]);
    var w3 := RightStep(p, w2);
    NextBits(w2, [true, true, true, true, false, false], w3, [true, true, true, false, false]);
    w4 := RightStep(p, w3);
    NextBits(w3, [true, true, true, false, false], w4, [true, true, false, false]);
    assert RightSteps(p, Ones(), 8) == RightSteps(p, w1, 7) == RightSteps(p, w2, 6);
    assert RightSteps(p, w2, 6) == RightSteps(p, w3, 5) == RightSteps(p, w4, 4);
  }

  lemma LastFour(w4: Word, w: Word)
    requires Begins(w4, [true, true, false, false]) && w == RightSteps(RIGHT_POLYNOMIAL, w4, 4)
    ensures !w[31]
  {
    var p := RIGHT_POLYNOMIAL;
    var w5 := RightStep(p, w4);
    NextBits(w4, [true, true, false, false], w5, [true, false, false]);
    var w6 := RightStep(p, w5);
    NextBits(w5, [true, false, false], w6, [false, false]);
    var w7 := RightStep(p, w6);
    NextBits(w6, [false, false], w7, [false]);
    var w8 := RightStep(p, w7);
    NextBits(w7, [false], w8, []);
    assert RightSteps(p, w4, 4) == RightSteps(p, w5, 3) == RightSteps(p, w6, 2);
    assert RightSteps(p, w6, 2) == RightSteps(p, w7, 1) == RightSteps(p, w8, 0) == w8;
  }

  /** Leading zeros count: putting a zero byte in front of a message always changes its checksum. */
  lemma LeadingZeroCounts(s: seq<Octet>)
    ensures Checksum([Zeros(8)] + s) != Checksum(s)
  {
    var p, w := RIGHT_POLYNOMIAL, RightSteps(RIGHT_POLYNOMIAL, Ones(), 8);
    var t := [Zeros(8)] + s;
    assert t[0] == Zeros(8) && t[1..] == s && Xor(Ones(), Widen(Zeros(8))) == Ones();
    assert Register(p, Ones(), t) == Register(p, w, s);
    if Checksum(t) == Checksum(s) {
      XorInjective(Register(p, w, s), Register(p, Ones(), s), Ones());
      RegisterFeeds(p, w, s);
      RegisterFeeds(p, Ones(), s);
      MirroredPolynomial();
      FeedInjective(p, w, Ones(), Stream(s));
      ZeroByteShows(w);
    }
  }
}
