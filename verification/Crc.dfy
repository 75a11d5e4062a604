/**
 The checksums of bundle blocks: table-driven registers that take a byte at a time, against
 division by the generator polynomial one bit at a time. Numbers of a fixed width are bit
 sequences, least significant bit first.
 */
module Crc {
  import opened Bundles

  type Bits = seq<bool>

  function Zeros(n: nat): Bits { seq(n, _ => false) }

  function Ones(n: nat): Bits { seq(n, _ => true) }

  function Xor(a: Bits, b: Bits): (r: Bits)
    requires |a| == |b|
    ensures |r| == |a|
  {
    seq(|a|, i requires 0 <= i < |a| => a[i] != b[i])
  }

  /** Reversal of the bit order. */
  function Reflect(x: Bits): (r: Bits)
    ensures |r| == |x|
  {
    seq(|x|, i requires 0 <= i < |x| => x[|x| - 1 - i])
  }

  function ToBits(n: nat, width: nat): (r: Bits)
    ensures |r| == width
  {
    if width == 0 then [] else [n % 2 == 1] + ToBits(n / 2, width - 1)
  }

  function FromBits(x: Bits): nat {
    if x == [] then 0 else (if x[0] then 1 else 0) + 2 * FromBits(x[1..])
  }

  /** A generic checksum: generator polynomial, initial and final values, and reflection of input bytes and result. */
  datatype Model = Model(poly: Bits, init: Bits, final: Bits, reflectInput: bool, reflectResult: bool) {
    predicate Valid() { 8 <= |poly| && |init| == |poly| && |final| == |poly| }
    function Width(): nat { |poly| }
  }

  // initial and final values are all ones (0xffff, 0xffffffff) or all zeros
  const X25 := Model(ToBits(0x1021, 16), Ones(16), Ones(16), true, true)
  const CCITT_FALSE := Model(ToBits(0x1021, 16), Ones(16), Zeros(16), false, false)
  const CASTAGNOLI := Model(ToBits(0x1edc6f41, 32), Ones(32), Ones(32), true, true)

  // ---------------------------------------------------------------- Division, one bit at a time

  /** One step: the register is doubled, and reduced if the bit that falls out is set. */
  function DivideBit(p: Bits, x: Bits): (r: Bits)
    requires |x| == |p| > 0
    ensures |r| == |x|
  {
    var y := [false] + x[..|x| - 1];
    if x[|x| - 1] then Xor(y, p) else y
  }

  function DivideBits(p: Bits, x: Bits, n: nat): (r: Bits)
    requires |x| == |p| > 0
    ensures |r| == |x|
  {
    if n == 0 then x else DivideBit(p, DivideBits(p, x, n - 1))
  }

  /** A byte added at the top of the register, then eight steps. */
  function DivideByte(p: Bits, x: Bits, byte: Bits): (r: Bits)
    requires |x| == |p| >= 8 && |byte| == 8
    ensures |r| == |x|
  {
    DivideBits(p, Xor(x, Zeros(|p| - 8) + byte), |byte|)
  }

  function Enter(m: Model, b: Byte): (r: Bits)
    ensures |r| == 8
  {
    if m.reflectInput then Reflect(ToBits(b, 8)) else ToBits(b, 8)
  }

  function Remainder(m: Model, init: Bits, message: seq<Byte>): (r: Bits)
    requires m.Valid() && |init| == m.Width()
    ensures |r| == m.Width()
  {
    if message == [] then init
    else
      var n := |message| - 1;
      DivideByte(m.poly, Remainder(m, init, message[..n]), Enter(m, message[n]))
  }

  /** The checksum that the model stands for. */
  function Checksum(m: Model, message: seq<Byte>): (r: Bits)
    requires m.Valid()
    ensures |r| == m.Width()
  {
    var r := Remainder(m, m.init, message);
    Xor(if m.reflectResult then Reflect(r) else r, m.final)
  }

  // ---------------------------------------------------------------- Lookup tables

  /** `calculate_crc_table`: the entry for a byte. */
  function Entry(p: Bits, index: Bits): (r: Bits)
    requires |p| >= 8 && |index| == 8
    ensures |r| == |p|
  {
    DivideBits(p, Zeros(|p| - 8) + index, |index|)
  }

  /** `calculate_crc_table_reflected`: the entry for a byte. */
  function ReflectedEntry(p: Bits, index: Bits): (r: Bits)
    requires |p| >= 8 && |index| == 8
    ensures |r| == |p|
  {
    Reflect(Entry(p, Reflect(index)))
  }

  /** `crc16_ccitt_false_feed`, and the loop body of the general path: look the top byte up, shift the rest up. */
  function FeedTop(p: Bits, crc: Bits, byte: Bits): (r: Bits)
    requires |crc| == |p| >= 8 && |byte| == 8
    ensures |r| == |p|
  {
    var w := |p|;
    Xor(Zeros(8) + crc[..w - 8], Entry(p, Xor(crc[w - 8..], byte)))
  }

  /** `crc16_x25_feed` and `crc32_feed`: look the low byte up, shift the rest down. */
  function FeedLow(p: Bits, crc: Bits, byte: Bits): (r: Bits)
    requires |crc| == |p| >= 8 && |byte| == 8
    ensures |r| == |p|
  {
    Xor(crc[8..] + Zeros(8), ReflectedEntry(p, Xor(crc[..8], byte)))
  }

  // ---------------------------------------------------------------- One lookup is eight steps

  lemma {:induction false} DivideBitLinear(p: Bits, x: Bits, y: Bits)
    requires |x| == |y| == |p| > 0
    ensures DivideBit(p, Xor(x, y)) == Xor(DivideBit(p, x), DivideBit(p, y))
  {
    forall i | 0 <= i < |p| ensures DivideBit(p, Xor(x, y))[i] == (DivideBit(p, x)[i] != DivideBit(p, y)[i]) {
      XorAt(x, y, |p| - 1);
      if i > 0 { XorAt(x, y, i - 1); }
      DivideBitSum(p, x, y, Xor(x, y), i);
    }
    IsXor(DivideBit(p, Xor(x, y)), DivideBit(p, x), DivideBit(p, y));
  }

  lemma {:induction false} IsXor(z: Bits, x: Bits, y: Bits)
    requires |z| == |x| == |y| && forall i :: 0 <= i < |z| ==> z[i] == (x[i] != y[i])
    ensures z == Xor(x, y)
  {
  }

  lemma {:induction false} DivideBitAt(p: Bits, x: Bits, i: nat)
    requires i < |x| == |p|
    ensures DivideBit(p, x)[i] == ((i > 0 && x[i - 1]) != (x[|x| - 1] && p[i]))
  {
  }

  lemma {:induction false} DivideBitSum(p: Bits, x: Bits, y: Bits, z: Bits, i: nat)
    requires i < |x| == |y| == |z| == |p|
    requires z[|p| - 1] == (x[|p| - 1] != y[|p| - 1]) && (i > 0 ==> z[i - 1] == (x[i - 1] != y[i - 1]))
    ensures DivideBit(p, z)[i] == (DivideBit(p, x)[i] != DivideBit(p, y)[i])
  {
    DivideBitAt(p, x, i);
    DivideBitAt(p, y, i);
    DivideBitAt(p, z, i);
  }

  lemma {:induction false} XorAt(x: Bits, y: Bits, i: nat)
    requires i < |x| == |y|
    ensures Xor(x, y)[i] == (x[i] != y[i])
  {
  }

  lemma {:induction false} DivideBitsLinear(p: Bits, x: Bits, y: Bits, n: nat)
    requires |x| == |y| == |p| > 0
    ensures DivideBits(p, Xor(x, y), n) == Xor(DivideBits(p, x, n), DivideBits(p, y, n))
  {
    if n > 0 {
      DivideBitsLinear(p, x, y, n - 1);
      DivideBitLinear(p, DivideBits(p, x, n - 1), DivideBits(p, y, n - 1));
    }
  }

  /** Steps that only push zeros out shift the register. */
  lemma {:induction false} DivideZeros(p: Bits, x: Bits, n: nat)
    requires |x| == |p| > 0 && n <= |p| && (forall i :: |p| - n <= i < |p| ==> !x[i])
    ensures DivideBits(p, x, n) == Zeros(n) + x[..|p| - n]
  {
    if n > 0 {
      DivideZeros(p, x, n - 1);
      var y := Zeros(n - 1) + x[..|p| - (n - 1)];
      assert !y[|p| - 1];
      assert [false] + y[..|p| - 1] == Zeros(n) + x[..|p| - n];
    }
  }

  lemma {:induction false} LookupIsDivision(p: Bits, crc: Bits, byte: Bits)
    requires |crc| == |p| >= 8 && |byte| == 8
    ensures FeedTop(p, crc, byte) == DivideByte(p, crc, byte)
  {
    var w := |p|;
    var top, rest := Zeros(w - 8) + Xor(crc[w - 8..], byte), crc[..w - 8] + Zeros(8);
    assert Xor(crc, Zeros(w - 8) + byte) == Xor(top, rest);
    DivideBitsLinear(p, top, rest, 8);
    DivideZeros(p, rest, 8);
    assert rest[..w - 8] == crc[..w - 8];
    XorSwap(DivideBits(p, top, 8), DivideBits(p, rest, 8));
  }

  lemma {:induction false} XorSwap(a: Bits, b: Bits)
    requires |a| == |b|
    ensures Xor(a, b) == Xor(b, a)
  {
  }

  lemma {:induction false} ReflectXor(a: Bits, b: Bits)
    requires |a| == |b|
    ensures Reflect(Xor(a, b)) == Xor(Reflect(a), Reflect(b)) && Reflect(Reflect(a)) == a
  {
  }

  /** The reflected register is the mirror image of the plain one. */
  lemma {:induction false} LowIsMirrored(p: Bits, crc: Bits, byte: Bits)
    requires |crc| == |p| >= 8 && |byte| == 8
    ensures FeedLow(p, Reflect(crc), byte) == Reflect(FeedTop(p, crc, Reflect(byte)))
  {
    var w := |p|;
    var low := Xor(Reflect(crc)[..8], byte);
    ReflectXor(Reflect(crc)[..8], byte);
    assert Reflect(Reflect(crc)[..8]) == crc[w - 8..];
    assert Reflect(low) == Xor(crc[w - 8..], Reflect(byte));
    ReflectXor(Zeros(8) + crc[..w - 8], Entry(p, Reflect(low)));
    assert Reflect(Zeros(8) + crc[..w - 8]) == Reflect(crc)[8..] + Zeros(8);
  }

  // ---------------------------------------------------------------- Whole messages

  /** The reflected register after a message. */
  function Low(p: Bits, crc: Bits, message: seq<Byte>): (r: Bits)
    requires |crc| == |p| >= 8
    ensures |r| == |p|
  {
    if message == [] then crc
    else
      var n := |message| - 1;
      FeedLow(p, Low(p, crc, message[..n]), ToBits(message[n], 8))
  }

  lemma {:induction false} LowFollowsRemainder(m: Model, x: Bits, message: seq<Byte>)
    requires m.Valid() && |x| == m.Width() && m.reflectInput
    ensures Low(m.poly, Reflect(x), message) == Reflect(Remainder(m, x, message))
  {
    if message != [] {
      var n := |message| - 1;
      LowFollowsRemainder(m, x, message[..n]);
      var r, byte := Remainder(m, x, message[..n]), ToBits(message[n], 8);
      LowIsMirrored(m.poly, r, byte);
      LookupIsDivision(m.poly, r, Reflect(byte));
    }
  }

  lemma {:induction false} RemainderAppend(m: Model, x: Bits, a: seq<Byte>, b: seq<Byte>)
    requires m.Valid() && |x| == m.Width()
    ensures Remainder(m, x, a + b) == Remainder(m, Remainder(m, x, a), b)
    decreases |b|
  {
    if b == [] {
      assert a + b == a;
    } else {
      var n := |b| - 1;
      assert (a + b)[..|a + b| - 1] == a + b[..n];
      RemainderAppend(m, x, a, b[..n]);
    }
  }

  // ---------------------------------------------------------------- Every step can be undone

  /** If the low `n` bits come out as zero after `n` steps, no bit has been reduced. */
  lemma {:induction false} NothingReduced(p: Bits, z: Bits, n: nat)
    requires |z| == |p| > 0 && p[0] && n <= |p|
    requires forall i :: 0 <= i < n ==> !DivideBits(p, z, n)[i]
    ensures forall i :: |p| - n <= i < |p| ==> !z[i]
    ensures DivideBits(p, z, n) == Zeros(n) + z[..|p| - n]
  {
    if n > 0 {
      var w, q := |p|, DivideBits(p, z, n - 1);
      assert DivideBits(p, z, n) == DivideBit(p, q);
      assert DivideBit(p, q)[0] == q[w - 1];
      assert DivideBit(p, q) == [false] + q[..w - 1];
      forall i | 0 <= i < n - 1 ensures !q[i] { assert DivideBit(p, q)[i + 1] == q[i]; }
      NothingReduced(p, z, n - 1);
      assert q[w - 1] == z[w - n];
      DivideZeros(p, z, n);
    }
  }

  ghost predicate AgreeLow(x: Bits, y: Bits, d: nat) {
    d <= |x| && d <= |y| && forall i :: 0 <= i < d ==> x[i] == y[i]
  }

  /** Two registers that agree on the low `d` bits after a byte agreed on the low `d - 8` bits, and on the sums of top bits and byte, before. */
  lemma {:induction false} AgreeBefore(p: Bits, x: Bits, y: Bits, b: Bits, c: Bits, d: nat)
    requires |x| == |y| == |p| >= 8 && p[0] && |b| == |c| == 8 && 8 <= d <= |p|
    requires AgreeLow(DivideByte(p, x, b), DivideByte(p, y, c), d)
    ensures AgreeLow(x, y, d - 8)
    ensures Xor(x[|p| - 8..], b) == Xor(y[|p| - 8..], c)
  {
    var w := |p|;
    var x', y' := Xor(x, Zeros(w - 8) + b), Xor(y, Zeros(w - 8) + c);
    var z := Xor(x', y');
    DivideBitsLinear(p, x', y', 8);
    forall i | 0 <= i < d ensures !DivideBits(p, z, 8)[i] {
      assert DivideByte(p, x, b)[i] == DivideByte(p, y, c)[i];
    }
    NothingReduced(p, z, 8);
    forall i | 0 <= i < d - 8 ensures x[i] == y[i] {
      assert DivideBits(p, z, 8)[i + 8] == z[i];
    }
    var s, t := Xor(x[w - 8..], b), Xor(y[w - 8..], c);
    forall i | 0 <= i < 8 ensures s[i] == t[i] {
      assert !z[w - 8 + i];
    }
  }

  lemma {:induction false} BitsInjective(a: nat, b: nat, width: nat)
    requires ToBits(a, width) == ToBits(b, width) && a < Pow2(width) && b < Pow2(width)
    ensures a == b
  {
    if width > 0 {
      var x, y := ToBits(a, width), ToBits(b, width);
      assert x[0] == y[0] && x[1..] == y[1..];
      BitsInjective(a / 2, b / 2, width - 1);
    }
  }

  function Pow2(n: nat): nat { if n == 0 then 1 else 2 * Pow2(n - 1) }

  lemma {:induction false} EnterInjective(m: Model, a: Byte, b: Byte)
    requires Enter(m, a) == Enter(m, b)
    ensures a == b
  {
    ReflectXor(ToBits(a, 8), ToBits(a, 8));
    ReflectXor(ToBits(b, 8), ToBits(b, 8));
    assert ToBits(a, 8) == ToBits(b, 8);
    BitsInjective(a, b, 8);
  }

  lemma {:induction false} XorCancels(a: Bits, b: Bits, c: Bits)
    requires |a| == |b| == |c| && Xor(a, b) == Xor(a, c)
    ensures b == c
  {
    forall i | 0 <= i < |a| ensures b[i] == c[i] { assert Xor(a, b)[i] == Xor(a, c)[i]; }
  }

  /** After equal registers, bytes that leave agreeing registers are equal. */
  lemma {:induction false} LastByteSame(m: Model, x: Bits, b: Byte, c: Byte, d: nat)
    requires m.Valid() && m.poly[0] && |x| == m.Width() && 8 <= d <= m.Width()
    requires AgreeLow(DivideByte(m.poly, x, Enter(m, b)), DivideByte(m.poly, x, Enter(m, c)), d)
    ensures b == c
  {
    AgreeBefore(m.poly, x, x, Enter(m, b), Enter(m, c), d);
    XorCancels(x[|x| - 8..], Enter(m, b), Enter(m, c));
    EnterInjective(m, b, c);
  }

  /** Bytes that together fit into the register and leave it the same, on as many low bits as they have, are the same. */
  lemma {:induction false} SameParts(u: seq<Byte>, v: seq<Byte>, n: nat)
    requires |u| == |v| == n + 1 && u[..n] == v[..n] && u[n] == v[n]
    ensures u == v
  {
    assert u == u[..n] + [u[n]] && v == v[..n] + [v[n]];
  }

  lemma {:induction false} WindowInjective(m: Model, x: Bits, u: seq<Byte>, v: seq<Byte>, d: nat)
    requires m.Valid() && m.poly[0] && |x| == m.Width() && |u| == |v| && 8 * |u| <= d <= m.Width()
    requires AgreeLow(Remainder(m, x, u), Remainder(m, x, v), d)
    ensures u == v
    decreases |u|
  {
    if u != [] {
      var n := |u| - 1;
      var u1, v1 := u[..n], v[..n];
      WindowStep(m, Remainder(m, x, u1), Remainder(m, x, v1), u[n], v[n], d);
      WindowInjective(m, x, u1, v1, d - 8);
      SameParts(u, v, n);
    }
  }

  lemma {:induction false} WindowStep(m: Model, x: Bits, y: Bits, b: Byte, c: Byte, d: nat)
    requires m.Valid() && m.poly[0] && |x| == |y| == m.Width() && 8 <= d <= m.Width()
    requires AgreeLow(DivideByte(m.poly, x, Enter(m, b)), DivideByte(m.poly, y, Enter(m, c)), d)
    ensures AgreeLow(x, y, d - 8) && (x == y ==> b == c)
  {
    AgreeBefore(m.poly, x, y, Enter(m, b), Enter(m, c), d);
    if x == y { LastByteSame(m, x, b, c, d); }
  }

  /** The same bytes lead different registers to different registers. */
  lemma {:induction false} RegisterInjective(m: Model, x: Bits, y: Bits, message: seq<Byte>)
    requires m.Valid() && m.poly[0] && |x| == |y| == m.Width()
    requires Remainder(m, x, message) == Remainder(m, y, message)
    ensures x == y
  {
    if message != [] {
      var n := |message| - 1;
      SameByteInjective(m.poly, Remainder(m, x, message[..n]), Remainder(m, y, message[..n]), Enter(m, message[n]));
      RegisterInjective(m, x, y, message[..n]);
    }
  }

  lemma {:induction false} SameByteInjective(p: Bits, x: Bits, y: Bits, b: Bits)
    requires |x| == |y| == |p| >= 8 && p[0] && |b| == 8 && DivideByte(p, x, b) == DivideByte(p, y, b)
    ensures x == y
  {
    var w := |p|;
    AgreeBefore(p, x, y, b, b, w);
    XorSwap(x[w - 8..], b);
    XorSwap(y[w - 8..], b);
    XorCancels(b, x[w - 8..], y[w - 8..]);
    assert x == x[..w - 8] + x[w - 8..] && y == y[..w - 8] + y[w - 8..];
  }

  /** Messages that differ only within a window no wider than the checksum have different checksums. */
  lemma {:induction false} BurstDetected(m: Model, a: seq<Byte>, u: seq<Byte>, v: seq<Byte>, b: seq<Byte>)
    requires m.Valid() && m.poly[0] && |u| == |v| && 8 * |u| <= m.Width() && u != v
    ensures Checksum(m, a + u + b) != Checksum(m, a + v + b)
  {
    var x := Remainder(m, m.init, a);
    RemainderAppend(m, m.init, a + u, b);
    RemainderAppend(m, m.init, a + v, b);
    RemainderAppend(m, m.init, a, u);
    RemainderAppend(m, m.init, a, v);
    var ru, rv := Remainder(m, m.init, a + u + b), Remainder(m, m.init, a + v + b);
    if Checksum(m, a + u + b) == Checksum(m, a + v + b) {
      var fu, fv := if m.reflectResult then Reflect(ru) else ru, if m.reflectResult then Reflect(rv) else rv;
      XorSwap(fu, m.final);
      XorSwap(fv, m.final);
      XorCancels(m.final, fu, fv);
      ReflectXor(ru, ru);
      ReflectXor(rv, rv);
      RegisterInjective(m, Remainder(m, x, u), Remainder(m, x, v), b);
      WindowInjective(m, x, u, v, m.Width());
    }
  }

  /** Two consecutive bytes for CRC-16/X.25, four for CRC-32C. */
  lemma {:induction false} BurstsOfBlocks(a: seq<Byte>, u: seq<Byte>, v: seq<Byte>, b: seq<Byte>)
    requires |u| == |v| && u != v
    ensures |u| == 2 ==> Checksum(X25, a + u + b) != Checksum(X25, a + v + b)
    ensures |u| == 4 ==> Checksum(CASTAGNOLI, a + u + b) != Checksum(CASTAGNOLI, a + v + b)
  {
    GeneratorFacts();
    if |u| == 2 { BurstDetected(X25, a, u, v, b); }
    if |u| == 4 { BurstDetected(CASTAGNOLI, a, u, v, b); }
  }

  lemma {:induction false} GeneratorFacts()
    ensures X25.Valid() && X25.Width() == 16 && X25.poly[0]
    ensures CASTAGNOLI.Valid() && CASTAGNOLI.Width() == 32 && CASTAGNOLI.poly[0]
  {
    X25Facts();
    CastagnoliFacts();
  }

  lemma {:induction false} X25Facts()
    ensures X25.Valid() && X25.Width() == 16 && X25.poly[0]
  {
    FirstBit(0x1021, 16);
  }

  lemma {:induction false} CastagnoliFacts()
    ensures CASTAGNOLI.Valid() && CASTAGNOLI.Width() == 32 && CASTAGNOLI.poly[0]
  {
    FirstBit(0x1edc6f41, 32);
  }

  lemma {:induction false} FirstBit(n: nat, width: nat)
    requires width > 0
    ensures ToBits(n, width)[0] == (n % 2 == 1)
  {
  }

  // ---------------------------------------------------------------- The reflected fast path

  /** `fast_reflected`: starts from the initial value as it is. */
  function Fast(m: Model, message: seq<Byte>): Bits
    requires m.Valid()
  {
    Xor(Low(m.poly, m.init, message), m.final)
  }

  /**
   The fast path computes the model's checksum exactly if the initial value is its own mirror image;
   for any other initial value it is wrong on every message.
   */
  lemma {:induction false} FastIffPalindrome(m: Model, message: seq<Byte>)
    requires m.Valid() && m.reflectInput && m.reflectResult && m.poly[0]
    ensures Fast(m, message) == Checksum(m, message) <==> Reflect(m.init) == m.init
  {
    var r, f := Remainder(m, m.init, message), Remainder(m, Reflect(m.init), message);
    ReflectXor(m.init, m.init);
    LowFollowsRemainder(m, Reflect(m.init), message);
    if Fast(m, message) == Checksum(m, message) {
      XorSwap(Reflect(f), m.final);
      XorSwap(Reflect(r), m.final);
      XorCancels(m.final, Reflect(f), Reflect(r));
      ReflectXor(f, f);
      ReflectXor(r, r);
      RegisterInjective(m, m.init, Reflect(m.init), message);
    }
  }
}
