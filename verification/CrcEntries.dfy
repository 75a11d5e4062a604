/**
 Each entry of the lookup tables is the one that is calculated by eight steps. A table is linear: the entries for
 indices without a common bit add up, so the entries for single bits settle the others.
 */
module CrcEntries {
  import opened Crc
  import opened CrcTables

  /** Facts about many words stand behind this, so that proofs look at single bits only when they ask for them. */
  predicate Asked(n: nat) { n >= 0 }

  // ---------------------------------------------------------------- Machine words as bits

  function Down(x: bv32): bv32 { x >> 1 }

  function Up(x: bv32): bv32 { x << 1 }

  /** The word with bit `k` alone; zero beyond the width. */
  function Mask(k: nat): bv32 { if k == 0 then 1 else Up(Mask(k - 1)) }

  predicate On(x: bv32, m: bv32) { x & m != 0 }

  /** The `w` lowest bits. */
  function Word(x: bv32, w: nat): (r: Bits)
    ensures |r| == w
  {
    seq(w, k requires 0 <= k < w => On(x, Mask(k)))
  }

  lemma {:induction false} Masks()
    ensures Mask(0) == 0x1 && Mask(1) == 0x2 && Mask(2) == 0x4 && Mask(3) == 0x8 && Mask(4) == 0x10 && Mask(5) == 0x20
    ensures Mask(6) == 0x40 && Mask(7) == 0x80 && Mask(8) == 0x100 && Mask(9) == 0x200 && Mask(10) == 0x400 && Mask(11) == 0x800
    ensures Mask(12) == 0x1000 && Mask(13) == 0x2000 && Mask(14) == 0x4000 && Mask(15) == 0x8000 && Mask(16) == 0x10000 && Mask(17) == 0x20000
    ensures Mask(18) == 0x40000 && Mask(19) == 0x80000 && Mask(20) == 0x100000 && Mask(21) == 0x200000 && Mask(22) == 0x400000 && Mask(23) == 0x800000
    ensures Mask(24) == 0x1000000 && Mask(25) == 0x2000000 && Mask(26) == 0x4000000 && Mask(27) == 0x8000000 && Mask(28) == 0x10000000 && Mask(29) == 0x20000000
    ensures Mask(30) == 0x40000000 && Mask(31) == 0x80000000 && Mask(32) == 0x0
  {
    assert Mask(0) == 0x1 && Mask(1) == 0x2 && Mask(2) == 0x4 && Mask(3) == 0x8 && Mask(4) == 0x10 && Mask(5) == 0x20;
    assert Mask(6) == 0x40 && Mask(7) == 0x80 && Mask(8) == 0x100 && Mask(9) == 0x200 && Mask(10) == 0x400 && Mask(11) == 0x800;
    assert Mask(12) == 0x1000 && Mask(13) == 0x2000 && Mask(14) == 0x4000 && Mask(15) == 0x8000 && Mask(16) == 0x10000 && Mask(17) == 0x20000;
    assert Mask(18) == 0x40000 && Mask(19) == 0x80000 && Mask(20) == 0x100000 && Mask(21) == 0x200000 && Mask(22) == 0x400000 && Mask(23) == 0x800000;
    assert Mask(24) == 0x1000000 && Mask(25) == 0x2000000 && Mask(26) == 0x4000000 && Mask(27) == 0x8000000 && Mask(28) == 0x10000000 && Mask(29) == 0x20000000;
    assert Mask(30) == 0x40000000 && Mask(31) == 0x80000000 && Mask(32) == 0x0;
  }

  lemma {:induction false} ShiftedMask(m: bv32)
    requires m & (m - 1) == 0
    ensures Up(m) & (Up(m) - 1) == 0
  {
  }

  lemma {:induction false} OneBit(k: nat)
    ensures Mask(k) & (Mask(k) - 1) == 0
  {
    if k > 0 {
      OneBit(k - 1);
      ShiftedMask(Mask(k - 1));
    }
  }

  lemma {:induction false} XorOn(x: bv32, y: bv32, m: bv32)
    requires m & (m - 1) == 0
    ensures On(x ^ y, m) == (On(x, m) != On(y, m))
  {
  }

  lemma {:induction false} XorWords(x: bv32, y: bv32, w: nat)
    ensures Word(x ^ y, w) == Xor(Word(x, w), Word(y, w))
  {
    forall k: nat | k < w ensures On(x ^ y, Mask(k)) == (On(x, Mask(k)) != On(y, Mask(k))) {
      OneBit(k);
      XorOn(x, y, Mask(k));
    }
  }

  lemma {:induction false} DownOn(x: bv32, m: bv32)
    ensures On(Down(x), m) == On(x, Up(m))
  {
  }

  lemma {:induction false} UpOn(x: bv32, m: bv32)
    requires m & 0x8000_0000 == 0
    ensures On(Up(x), Up(m)) == On(x, m)
  {
  }

  lemma {:induction false} ShiftDown(x: bv32, w: nat)
    requires 0 < w && !On(x, Mask(w))
    ensures Word(Down(x), w) == Word(x, w)[1..] + [false]
  {
    forall k: nat | k < w ensures On(Down(x), Mask(k)) == On(x, Mask(k + 1)) { DownOn(x, Mask(k)); }
  }

  lemma {:induction false} LowMask(k: nat)
    requires k < 31
    ensures Mask(k) & 0x8000_0000 == 0
  {
    Masks();
  }

  lemma {:induction false} NoLowBit(x: bv32)
    ensures !On(Up(x), 1)
  {
  }

  /** The bits of `y` are those of `x`, one place further up. */
  lemma {:induction false} Upwards(x: bv32, y: bv32, w: nat)
    requires w > 0 && !On(y, Mask(0)) && forall k: nat :: k < w - 1 ==> On(y, Mask(k + 1)) == On(x, Mask(k))
    ensures Word(y, w) == [false] + Word(x, w)[..w - 1]
  {
    forall k: nat | 0 < k < w ensures On(y, Mask(k)) == On(x, Mask(k - 1)) { assert On(y, Mask(k - 1 + 1)) == On(x, Mask(k - 1)); }
  }

  lemma {:induction false} ShiftUp(x: bv32, w: nat)
    requires 0 < w <= 32
    ensures Word(Up(x), w) == [false] + Word(x, w)[..w - 1]
  {
    NoLowBit(x);
    forall k: nat | k < w - 1 ensures On(Up(x), Mask(k + 1)) == On(x, Mask(k)) {
      LowMask(k);
      UpOn(x, Mask(k));
    }
    Upwards(x, Up(x), w);
  }

  lemma {:induction false} WordParts(x: bv32, w: nat)
    requires w > 0
    ensures Word(x, w) == [On(x, 1)] + Word(Down(x), w - 1)
  {
    forall k: nat | k < w - 1 ensures On(Down(x), Mask(k)) == On(x, Mask(k + 1)) { DownOn(x, Mask(k)); }
    Downwards(x, Down(x), w);
  }

  lemma {:induction false} Downwards(x: bv32, y: bv32, w: nat)
    requires w > 0 && forall k: nat :: k < w - 1 ==> On(y, Mask(k)) == On(x, Mask(k + 1))
    ensures Word(x, w) == [On(x, Mask(0))] + Word(y, w - 1)
  {
  }

  /** The word and the number have the same `w` lowest bits. */
  predicate Same(x: bv32, n: nat, w: nat) { w == 0 || (On(x, 1) == (n % 2 == 1) && Same(Down(x), n / 2, w - 1)) }

  lemma {:induction false} SameBits(x: bv32, n: nat, w: nat)
    requires Same(x, n, w)
    ensures Word(x, w) == ToBits(n, w)
  {
    if w > 0 {
      WordParts(x, w);
      SameBits(Down(x), n / 2, w - 1);
    }
  }

  lemma {:induction false} Poly16()
    ensures Word(0x1021, 16) == ToBits(0x1021, 16)
  {
    assert Same(0x0, 0x0, 1) && Same(0x0, 0x0, 2) && Same(0x0, 0x0, 3) && Same(0x1, 0x1, 4);
    assert Same(0x2, 0x2, 5) && Same(0x4, 0x4, 6) && Same(0x8, 0x8, 7) && Same(0x10, 0x10, 8);
    assert Same(0x20, 0x20, 9) && Same(0x40, 0x40, 10) && Same(0x81, 0x81, 11) && Same(0x102, 0x102, 12);
    assert Same(0x204, 0x204, 13) && Same(0x408, 0x408, 14) && Same(0x810, 0x810, 15) && Same(0x1021, 0x1021, 16);
    SameBits(0x1021, 0x1021, 16);
  }

  lemma {:induction false} Poly32()
    ensures Word(0x1edc6f41, 32) == ToBits(0x1edc6f41, 32)
  {
    assert Same(0x0, 0x0, 1) && Same(0x0, 0x0, 2) && Same(0x0, 0x0, 3) && Same(0x1, 0x1, 4);
    assert Same(0x3, 0x3, 5) && Same(0x7, 0x7, 6) && Same(0xf, 0xf, 7) && Same(0x1e, 0x1e, 8);
    assert Same(0x3d, 0x3d, 9) && Same(0x7b, 0x7b, 10) && Same(0xf6, 0xf6, 11) && Same(0x1ed, 0x1ed, 12);
    assert Same(0x3db, 0x3db, 13) && Same(0x7b7, 0x7b7, 14) && Same(0xf6e, 0xf6e, 15) && Same(0x1edc, 0x1edc, 16);
    assert Same(0x3db8, 0x3db8, 17) && Same(0x7b71, 0x7b71, 18) && Same(0xf6e3, 0xf6e3, 19) && Same(0x1edc6, 0x1edc6, 20);
    assert Same(0x3db8d, 0x3db8d, 21) && Same(0x7b71b, 0x7b71b, 22) && Same(0xf6e37, 0xf6e37, 23) && Same(0x1edc6f, 0x1edc6f, 24);
    assert Same(0x3db8de, 0x3db8de, 25) && Same(0x7b71bd, 0x7b71bd, 26) && Same(0xf6e37a, 0xf6e37a, 27) && Same(0x1edc6f4, 0x1edc6f4, 28);
    assert Same(0x3db8de8, 0x3db8de8, 29) && Same(0x7b71bd0, 0x7b71bd0, 30) && Same(0xf6e37a0, 0xf6e37a0, 31) && Same(0x1edc6f41, 0x1edc6f41, 32);
    SameBits(0x1edc6f41, 0x1edc6f41, 32);
  }

  lemma {:induction false} MirroredLow(k: nat)
    requires k < 16
    ensures On(0x82f63b78, Mask(31 - k)) == On(0x1edc6f41, Mask(k))
  {
    Masks();
    Cases(k);
  }

  lemma {:induction false} MirroredHigh(k: nat)
    requires k < 16
    ensures On(0x82f63b78, Mask(15 - k)) == On(0x1edc6f41, Mask(16 + k))
  {
    Masks();
    Cases(k);
  }

  lemma {:induction false} PolyMirrored32()
    ensures Reflect(Word(0x82f63b78, 32)) == Word(0x1edc6f41, 32)
  {
    forall k: nat | k < 32 ensures On(0x82f63b78, Mask(31 - k)) == On(0x1edc6f41, Mask(k)) {
      if k < 16 { MirroredLow(k); } else { MirroredHigh(k - 16); }
    }
  }

  lemma {:induction false} PolyMirrored16()
    ensures Reflect(Word(0x8408, 16)) == Word(0x1021, 16) == Word(0x1_1021, 16)
  {
    Masks();
  }

  // ---------------------------------------------------------------- Eight steps on a word

  /** The register for which the words of a table stand: mirrored, but for `crc16_ccitt_false`. */
  function Form(v: Version, x: Bits): (r: Bits)
    ensures |r| == |x|
  {
    if v.Crc16CcittFalse? then x else Reflect(x)
  }

  function Step(v: Version, x: bv32): bv32 {
    match v
    case Crc16X25 => if On(x, 1) then Down(x) ^ 0x8408 else Down(x)
    case Crc16CcittFalse => if On(x, 0x8000) then Up(x) ^ 0x1_1021 else Up(x)
    case Crc32 => if On(x, 1) then Down(x) ^ 0x82f63b78 else Down(x)
  }

  function StepOf(v: Version): bv32 -> bv32 { x => Step(v, x) }

  function Repeat(f: bv32 -> bv32, x: bv32, n: nat): bv32 { if n == 0 then x else f(Repeat(f, x, n - 1)) }

  function Steps(v: Version, x: bv32, n: nat): bv32 { Repeat(StepOf(v), x, n) }

  lemma {:induction false} MirroredStep(p: Bits, q: Bits, x: Bits)
    requires |x| == |p| > 0 && p == Reflect(q)
    ensures Reflect(DivideBit(p, Reflect(x))) == if x[0] then Xor(x[1..] + [false], q) else x[1..] + [false]
  {
    var y := [false] + Reflect(x)[..|x| - 1];
    assert Reflect(y) == x[1..] + [false];
    ReflectXor(y, p);
    ReflectXor(q, q);
  }

  lemma {:induction false} LowParts(q: bv32, x: bv32, w: nat)
    requires w > 0 && !On(x, Mask(w))
    ensures Word(Down(x), w) == Word(x, w)[1..] + [false]
    ensures Word(Down(x) ^ q, w) == Xor(Word(Down(x), w), Word(q, w))
    ensures Word(x, w)[0] == On(x, 1)
  {
    ShiftDown(x, w);
    XorWords(Down(x), q, w);
    LowBit(x, w);
  }

  lemma {:induction false} LowStepBits(p: Bits, q: Bits, x: Bits, low: bool, down: Bits, sum: Bits)
    requires |x| == |p| == |q| > 0 && p == Reflect(q) && low == x[0] && down == x[1..] + [false] && sum == Xor(down, q)
    ensures Reflect(DivideBit(p, Reflect(x))) == if low then sum else down
  {
    MirroredStep(p, q, x);
  }

  /** A step down with a mirrored generator `q`. */
  lemma {:induction false} LowStep(p: Bits, q: bv32, x: bv32, w: nat)
    requires |p| == w > 0 && p == Reflect(Word(q, w)) && !On(x, Mask(w))
    ensures Reflect(DivideBit(p, Reflect(Word(x, w)))) == if On(x, 1) then Word(Down(x) ^ q, w) else Word(Down(x), w)
  {
    LowParts(q, x, w);
    LowStepBits(p, Word(q, w), Word(x, w), On(x, 1), Word(Down(x), w), Word(Down(x) ^ q, w));
  }

  lemma {:induction false} LowBit(x: bv32, w: nat)
    requires w > 0
    ensures Word(x, w)[0] == On(x, 1)
  {
  }

  lemma {:induction false} TopStep(x: bv32)
    ensures Word(Step(Crc16CcittFalse, x), 16) == DivideBit(CCITT_FALSE.poly, Word(x, 16))
  {
    Poly16();
    PolyMirrored16();
    ShiftUp(x, 16);
    XorWords(Up(x), 0x1_1021, 16);
    TopBit(x);
  }

  lemma {:induction false} TopBit(x: bv32)
    ensures Word(x, 16)[15] == On(x, 0x8000)
  {
    Masks();
  }

  /** Words of 16 bits stay that, where bits are shifted down. */
  predicate Fits(v: Version, x: bv32) { v.Crc16X25? ==> x < 0x1_0000 }

  lemma {:induction false} FitsSteps(v: Version, x: bv32)
    requires Fits(v, x)
    ensures Fits(v, Step(v, x)) && (v.Crc16X25? ==> !On(x, 0x1_0000))
  {
  }

  lemma {:induction false} X25Step(x: bv32)
    requires Fits(Crc16X25, x)
    ensures Word(Step(Crc16X25, x), 16) == Reflect(DivideBit(X25.poly, Reflect(Word(x, 16))))
  {
    FitsSteps(Crc16X25, x);
    MasksAtWidths();
    Poly16();
    PolyMirrored16();
    LowStep(X25.poly, 0x8408, x, 16);
  }

  lemma {:induction false} Crc32Step(x: bv32)
    ensures Word(Step(Crc32, x), 32) == Reflect(DivideBit(CASTAGNOLI.poly, Reflect(Word(x, 32))))
  {
    MasksAtWidths();
    Poly32();
    PolyMirrored32();
    LowStep(CASTAGNOLI.poly, 0x82f63b78, x, 32);
  }

  lemma {:induction false} StepRight(v: Version, x: bv32)
    requires Fits(v, x)
    ensures Word(Step(v, x), v.Of().Width()) == Form(v, DivideBit(v.Of().poly, Form(v, Word(x, v.Of().Width()))))
  {
    match v
    case Crc16X25 => X25Step(x);
    case Crc16CcittFalse => TopStep(x);
    case Crc32 => Crc32Step(x);
  }

  lemma {:induction false} MasksAtWidths()
    ensures Mask(16) == 0x1_0000 && Mask(32) == 0
  {
    Masks();
  }

  lemma {:induction false} FormTwice(v: Version, x: Bits)
    ensures Form(v, Form(v, x)) == x
  {
    ReflectXor(x, x);
  }

  /** The word stands for the register `d`. */
  ghost predicate Stands(v: Version, y: bv32, d: Bits) {
    exists w :: w == |d| == v.Of().Width() && Fits(v, y) && Word(y, w) == Form(v, d)
  }

  lemma {:induction false} NextStep(v: Version, y: bv32, d: Bits)
    requires Stands(v, y, d)
    ensures |d| == v.Of().Width() && Stands(v, Step(v, y), DivideBit(v.Of().poly, d))
  {
    StepRight(v, y);
    FitsSteps(v, y);
    FormTwice(v, d);
  }

  ghost predicate Kept(stands: (bv32, Bits) -> bool, f: bv32 -> bv32, p: Bits, y: bv32, d: Bits) {
    |d| == |p| > 0 && stands(y, d) ==> stands(f(y), DivideBit(p, d))
  }

  /** Repeated steps keep what each of them keeps. */
  lemma {:induction false} RepeatKeeps(stands: (bv32, Bits) -> bool, f: bv32 -> bv32, p: Bits, x: bv32, n: nat, start: Bits)
    requires stands(x, start) && |start| == |p| > 0
    requires forall y, d {:trigger Kept(stands, f, p, y, d)} :: Kept(stands, f, p, y, d)
    ensures stands(Repeat(f, x, n), DivideBits(p, start, n))
  {
    if n > 0 {
      var y, d := Repeat(f, x, n - 1), DivideBits(p, start, n - 1);
      RepeatKeeps(stands, f, p, x, n - 1, start);
      assert Kept(stands, f, p, y, d);
    }
  }

  lemma {:induction false} StepsRight(v: Version, x: bv32, n: nat, start: Bits)
    requires Stands(v, x, start) && |start| == v.Of().Width()
    ensures Stands(v, Steps(v, x, n), DivideBits(v.Of().poly, start, n))
  {
    var stands, f, p := (y: bv32, d: Bits) => Stands(v, y, d), StepOf(v), v.Of().poly;
    forall y, d ensures Kept(stands, f, p, y, d) {
      if |d| == |p| && stands(y, d) { NextStep(v, y, d); }
    }
    RepeatKeeps(stands, f, p, x, n, start);
  }

  // ---------------------------------------------------------------- Entries for single bits

  /** The entry that is calculated for an index. */
  function Calculated(v: Version, index: Bits): Bits
    requires |index| == 8
  {
    if v.Crc16CcittFalse? then Entry(v.Of().poly, index) else ReflectedEntry(v.Of().poly, index)
  }

  ghost predicate RightEntry(v: Version, i: nat, entry: bv32) {
    forall n: nat :: Asked(n) ==> Word(entry, v.Of().Width()) == Calculated(v, ToBits(i, 8))
  }

  lemma {:induction false} RightMeans(v: Version, i: nat, entry: bv32)
    requires RightEntry(v, i, entry)
    ensures Word(entry, v.Of().Width()) == Calculated(v, ToBits(i, 8))
  {
    assert Asked(0);
  }

  lemma {:induction false} MaskOn(j: nat, k: nat)
    requires j < 32
    ensures On(Mask(j), Mask(k)) <==> j == k
    decreases k
  {
    if k == 0 {
      if j > 0 { NoLowBit(Mask(j - 1)); }
    } else {
      DownOn(Mask(j), Mask(k - 1));
      if j > 0 {
        LowMask(j - 1);
        DownUp(Mask(j - 1));
        MaskOn(j - 1, k - 1);
      }
    }
  }

  lemma {:induction false} DownUp(m: bv32)
    requires m & 0x8000_0000 == 0
    ensures Down(Up(m)) == m
  {
  }

  lemma {:induction false} PowerBits(k: nat, w: nat, i: nat)
    requires i < w
    ensures ToBits(Pow2(k), w)[i] <==> i == k
  {
    if k == 0 {
      ZeroBits(w - 1);
      assert ToBits(1, w) == [true] + ToBits(0, w - 1);
    } else if i > 0 {
      PowerBits(k - 1, w - 1, i - 1);
    }
  }

  lemma {:induction false} ZeroBits(w: nat)
    ensures ToBits(0, w) == Zeros(w)
  {
    if w > 0 { ZeroBits(w - 1); }
  }

  /** The register in which the division begins for the index with bit `k` alone. */
  function Start(v: Version, k: nat): bv32 { Mask(if v.Crc16CcittFalse? then k + 8 else k) }

  /** A register with bit `j` alone holds an index with bit `k` alone where the division begins. */
  lemma {:induction false} UnitForm(v: Version, k: nat, word: Bits, index: Bits)
    requires k < 8 && |word| == v.Of().Width() && |index| == 8
    requires var j := if v.Crc16CcittFalse? then k + 8 else k; forall i: nat :: i < |word| ==> (word[i] <==> i == j)
    requires forall i: nat :: i < 8 ==> (index[i] <==> i == k)
    ensures word == Form(v, Zeros(|word| - 8) + if v.Crc16CcittFalse? then index else Reflect(index))
  {
    if !v.Crc16CcittFalse? { UnitMirrored(k, word, index); }
  }

  lemma {:induction false} UnitMirrored(k: nat, word: Bits, index: Bits)
    requires k < 8 == |index| <= |word|
    requires forall i: nat :: i < |word| ==> (word[i] <==> i == k)
    requires forall i: nat :: i < 8 ==> (index[i] <==> i == k)
    ensures word == Reflect(Zeros(|word| - 8) + Reflect(index))
  {
  }

  lemma {:induction false} StartBits(v: Version, k: nat)
    requires k < 8
    ensures var index := ToBits(Pow2(k), 8);
            Word(Start(v, k), v.Of().Width()) == Form(v, Zeros(v.Of().Width() - 8) + if v.Crc16CcittFalse? then index else Reflect(index))
  {
    var w, j := v.Of().Width(), if v.Crc16CcittFalse? then k + 8 else k;
    UnitWord(j, w);
    forall i: nat | i < 8 ensures ToBits(Pow2(k), 8)[i] <==> i == k { PowerBits(k, 8, i); }
    UnitForm(v, k, Word(Mask(j), w), ToBits(Pow2(k), 8));
  }

  lemma {:induction false} UnitWord(j: nat, w: nat)
    requires j < 32
    ensures forall i: nat :: i < w ==> (Word(Mask(j), w)[i] <==> i == j)
  {
    forall i: nat | i < w ensures On(Mask(j), Mask(i)) <==> i == j { MaskOn(j, i); }
  }

  lemma {:induction false} FitsStart(v: Version, k: nat)
    requires k < 8
    ensures Fits(v, Start(v, k))
  {
    Masks();
  }

  /** The register in which the division begins. */
  function Begin(v: Version, w: nat, index: Bits): (r: Bits)
    requires |index| == 8 <= w
    ensures |r| == w
  {
    Zeros(w - 8) + if v.Crc16CcittFalse? then index else Reflect(index)
  }

  lemma {:induction false} StartStands(v: Version, k: nat)
    requires k < 8
    ensures Stands(v, Start(v, k), Begin(v, v.Of().Width(), ToBits(Pow2(k), 8)))
  {
    FitsStart(v, k);
    StartBits(v, k);
  }

  lemma {:induction false} StandsForm(v: Version, y: bv32, d: Bits)
    requires Stands(v, y, d)
    ensures |d| == v.Of().Width() && Word(y, v.Of().Width()) == Form(v, d)
  {
  }

  lemma {:induction false} BeginEntry(v: Version, p: Bits, index: Bits)
    requires |index| == 8 <= |p|
    ensures DivideBits(p, Begin(v, |p|, index), |index|) == Entry(p, if v.Crc16CcittFalse? then index else Reflect(index))
  {
  }

  lemma {:induction false} PowerRight(v: Version, k: nat, entry: bv32)
    requires k < 8 && entry == Steps(v, Start(v, k), 8)
    ensures RightEntry(v, Pow2(k), entry)
  {
    var index := ToBits(Pow2(k), 8);
    StartStands(v, k);
    StepsRight(v, Start(v, k), |index|, Begin(v, v.Of().Width(), index));
    BeginEntry(v, v.Of().poly, index);
    StandsForm(v, entry, Entry(v.Of().poly, if v.Crc16CcittFalse? then index else Reflect(index)));
  }

  // ---------------------------------------------------------------- Sums of entries

  /** The lowest `s` bits of `h` are not set. */
  predicate Multiple(s: nat, h: nat) { s == 0 || (h % 2 == 0 && Multiple(s - 1, h / 2)) }

  lemma {:induction false} IndexSum(s: nat, h: nat, j: nat, w: nat)
    requires Multiple(s, h) && j < Pow2(s)
    ensures ToBits(h + j, w) == Xor(ToBits(h, w), ToBits(j, w))
  {
    if s == 0 {
      ZeroBits(w);
    } else if w > 0 {
      IndexSum(s - 1, h / 2, j / 2, w - 1);
      assert (h + j) / 2 == h / 2 + j / 2 && (h + j) % 2 == j % 2;
    }
  }

  lemma {:induction false} CalculatedSum(v: Version, a: Bits, b: Bits)
    requires |a| == |b| == 8
    ensures Calculated(v, Xor(a, b)) == Xor(Calculated(v, a), Calculated(v, b))
  {
    var p := v.Of().poly;
    EntrySum(p, a, b);
    if !v.Crc16CcittFalse? {
      ReflectXor(a, b);
      EntrySum(p, Reflect(a), Reflect(b));
      ReflectXor(Entry(p, Reflect(a)), Entry(p, Reflect(b)));
    }
  }

  lemma {:induction false} EntrySum(p: Bits, a: Bits, b: Bits)
    requires |p| >= 8 && |a| == |b| == 8
    ensures Entry(p, Xor(a, b)) == Xor(Entry(p, a), Entry(p, b))
  {
    var zeros := Zeros(|p| - 8);
    assert Xor(zeros + a, zeros + b) == zeros + Xor(a, b);
    DivideBitsLinear(p, zeros + a, zeros + b, |a|);
  }

  /** Words for an index whose lowest `s` bits are not set, for one with no others, and their sum. */
  predicate Disjoint(s: nat, h: nat, j: nat, a: bv32, b: bv32, sum: bv32) { Multiple(s, h) && j < Pow2(s) && IsSum(sum, a, b) }

  lemma {:induction false} SumRight(v: Version, s: nat, h: nat, j: nat, a: bv32, b: bv32, sum: bv32)
    requires Disjoint(s, h, j, a, b, sum) && RightEntry(v, h, a) && RightEntry(v, j, b)
    ensures RightEntry(v, h + j, sum)
  {
    RightMeans(v, h, a);
    RightMeans(v, j, b);
    IndexSum(s, h, j, 8);
    CalculatedSum(v, ToBits(h, 8), ToBits(j, 8));
    XorWords(a, b, v.Of().Width());
  }

  predicate IsSum(z: bv32, x: bv32, y: bv32) { z == x ^ y }

  /** A row follows from its first entry and the first row. */
  predicate Shifted(a: seq<bv32>, b: seq<bv32>)
    requires |a| == |b| == 16
  {
    && IsSum(a[0], a[0], b[0]) && IsSum(a[1], a[0], b[1]) && IsSum(a[2], a[0], b[2]) && IsSum(a[3], a[0], b[3])
    && IsSum(a[4], a[0], b[4]) && IsSum(a[5], a[0], b[5]) && IsSum(a[6], a[0], b[6]) && IsSum(a[7], a[0], b[7])
    && IsSum(a[8], a[0], b[8]) && IsSum(a[9], a[0], b[9]) && IsSum(a[10], a[0], b[10]) && IsSum(a[11], a[0], b[11])
    && IsSum(a[12], a[0], b[12]) && IsSum(a[13], a[0], b[13]) && IsSum(a[14], a[0], b[14]) && IsSum(a[15], a[0], b[15])
  }

  /** Entries follow from those at powers of two. */
  ghost predicate Sums(row: seq<bv32>)
    requires |row| == 16
  {
    forall n: nat :: Asked(n) ==>
      && row[0] == 0 && IsSum(row[3], row[2], row[1])
      && IsSum(row[5], row[4], row[1]) && IsSum(row[6], row[4], row[2]) && IsSum(row[7], row[4], row[3])
      && IsSum(row[9], row[8], row[1]) && IsSum(row[10], row[8], row[2]) && IsSum(row[11], row[8], row[3])
      && IsSum(row[12], row[8], row[4]) && IsSum(row[13], row[8], row[5]) && IsSum(row[14], row[8], row[6]) && IsSum(row[15], row[8], row[7])
  }

  lemma {:induction false} X25Shifted1()
    ensures Shifted(X25Row(1), X25Row(0)) && Shifted(X25Row(2), X25Row(0)) && Shifted(X25Row(3), X25Row(0)) && Shifted(X25Row(4), X25Row(0)) && Shifted(X25Row(5), X25Row(0))
  {
  }

  lemma {:induction false} X25Shifted2()
    ensures Shifted(X25Row(6), X25Row(0)) && Shifted(X25Row(7), X25Row(0)) && Shifted(X25Row(8), X25Row(0)) && Shifted(X25Row(9), X25Row(0)) && Shifted(X25Row(10), X25Row(0))
  {
  }

  lemma {:induction false} X25Shifted3()
    ensures Shifted(X25Row(11), X25Row(0)) && Shifted(X25Row(12), X25Row(0)) && Shifted(X25Row(13), X25Row(0)) && Shifted(X25Row(14), X25Row(0)) && Shifted(X25Row(15), X25Row(0))
  {
  }

  lemma {:induction false} X25First()
    ensures Sums(X25Row(0))
  {
  }

  lemma {:induction false} X25Heads()
    ensures Sums([ X25Row(0)[0], X25Row(1)[0], X25Row(2)[0], X25Row(3)[0], X25Row(4)[0], X25Row(5)[0], X25Row(6)[0], X25Row(7)[0],
              X25Row(8)[0], X25Row(9)[0], X25Row(10)[0], X25Row(11)[0], X25Row(12)[0], X25Row(13)[0], X25Row(14)[0], X25Row(15)[0] ])
  {
  }

  lemma {:induction false} CcittShifted1()
    ensures Shifted(CcittRow(1), CcittRow(0)) && Shifted(CcittRow(2), CcittRow(0)) && Shifted(CcittRow(3), CcittRow(0)) && Shifted(CcittRow(4), CcittRow(0)) && Shifted(CcittRow(5), CcittRow(0))
  {
  }

  lemma {:induction false} CcittShifted2()
    ensures Shifted(CcittRow(6), CcittRow(0)) && Shifted(CcittRow(7), CcittRow(0)) && Shifted(CcittRow(8), CcittRow(0)) && Shifted(CcittRow(9), CcittRow(0)) && Shifted(CcittRow(10), CcittRow(0))
  {
  }

  lemma {:induction false} CcittShifted3()
    ensures Shifted(CcittRow(11), CcittRow(0)) && Shifted(CcittRow(12), CcittRow(0)) && Shifted(CcittRow(13), CcittRow(0)) && Shifted(CcittRow(14), CcittRow(0)) && Shifted(CcittRow(15), CcittRow(0))
  {
  }

  lemma {:induction false} CcittFirst()
    ensures Sums(CcittRow(0))
  {
  }

  lemma {:induction false} CcittHeads()
    ensures Sums([ CcittRow(0)[0], CcittRow(1)[0], CcittRow(2)[0], CcittRow(3)[0], CcittRow(4)[0], CcittRow(5)[0], CcittRow(6)[0], CcittRow(7)[0],
              CcittRow(8)[0], CcittRow(9)[0], CcittRow(10)[0], CcittRow(11)[0], CcittRow(12)[0], CcittRow(13)[0], CcittRow(14)[0], CcittRow(15)[0] ])
  {
  }

  lemma {:induction false} Crc32Shifted1()
    ensures Shifted(Crc32Row(1), Crc32Row(0)) && Shifted(Crc32Row(2), Crc32Row(0)) && Shifted(Crc32Row(3), Crc32Row(0)) && Shifted(Crc32Row(4), Crc32Row(0)) && Shifted(Crc32Row(5), Crc32Row(0))
  {
  }

  lemma {:induction false} Crc32Shifted2()
    ensures Shifted(Crc32Row(6), Crc32Row(0)) && Shifted(Crc32Row(7), Crc32Row(0)) && Shifted(Crc32Row(8), Crc32Row(0)) && Shifted(Crc32Row(9), Crc32Row(0)) && Shifted(Crc32Row(10), Crc32Row(0))
  {
  }

  lemma {:induction false} Crc32Shifted3()
    ensures Shifted(Crc32Row(11), Crc32Row(0)) && Shifted(Crc32Row(12), Crc32Row(0)) && Shifted(Crc32Row(13), Crc32Row(0)) && Shifted(Crc32Row(14), Crc32Row(0)) && Shifted(Crc32Row(15), Crc32Row(0))
  {
  }

  lemma {:induction false} Crc32First()
    ensures Sums(Crc32Row(0))
  {
  }

  lemma {:induction false} Crc32Heads()
    ensures Sums([ Crc32Row(0)[0], Crc32Row(1)[0], Crc32Row(2)[0], Crc32Row(3)[0], Crc32Row(4)[0], Crc32Row(5)[0], Crc32Row(6)[0], Crc32Row(7)[0],
              Crc32Row(8)[0], Crc32Row(9)[0], Crc32Row(10)[0], Crc32Row(11)[0], Crc32Row(12)[0], Crc32Row(13)[0], Crc32Row(14)[0], Crc32Row(15)[0] ])
  {
  }


  lemma {:induction false} ZeroRight(v: Version, i: nat, entry: bv32)
    requires RightEntry(v, i, entry)
    ensures RightEntry(v, 0, 0)
  {
    var w, x := v.Of().Width(), ToBits(i, 8);
    RightMeans(v, i, entry);
    ZeroBits(8);
    assert Xor(x, x) == Zeros(8);
    CalculatedSum(v, x, x);
    XorWords(entry, entry, w);
    NoSum(entry);
  }

  lemma {:induction false} NoSum(x: bv32)
    ensures x ^ x == 0
  {
  }

  /** Of the right entries for two indices without a common bit, the sum is right for the sum of the indices. */
  ghost predicate Additive(right: (nat, bv32) -> bool) {
    && right(0, 0)
    && forall s: nat, h: nat, j: nat, a: bv32, b: bv32, sum: bv32 {:trigger Disjoint(s, h, j, a, b, sum)} ::
         Disjoint(s, h, j, a, b, sum) && right(h, a) && right(j, b) ==> right(h + j, sum)
  }

  lemma {:induction false} Add(right: (nat, bv32) -> bool, s: nat, h: nat, j: nat, a: bv32, b: bv32, sum: bv32)
    requires Additive(right) && Multiple(s, h) && j < Pow2(s) && right(h, a) && right(j, b) && IsSum(sum, a, b)
    ensures right(h + j, sum)
  {
    assert Disjoint(s, h, j, a, b, sum);
  }

  ghost function RightOf(v: Version): (nat, bv32) -> bool { (i: nat, e: bv32) => RightEntry(v, i, e) }

  lemma {:induction false} RightOfIs(v: Version, i: nat, e: bv32)
    ensures RightOf(v)(i, e) == RightEntry(v, i, e)
  {
  }

  lemma {:induction false} EntriesAdd(v: Version, right: (nat, bv32) -> bool, entry: bv32)
    requires right == RightOf(v) && RightEntry(v, 1, entry)
    ensures Additive(right)
  {
    ZeroRight(v, 1, entry);
    RightOfIs(v, 0, 0);
    forall s: nat, h: nat, j: nat, a: bv32, b: bv32, sum: bv32 | Disjoint(s, h, j, a, b, sum) && right(h, a) && right(j, b)
      ensures right(h + j, sum)
    {
      SumAdds(v, s, h, j, a, b, sum);
    }
  }

  lemma {:induction false} SumAdds(v: Version, s: nat, h: nat, j: nat, a: bv32, b: bv32, sum: bv32)
    requires Disjoint(s, h, j, a, b, sum) && RightOf(v)(h, a) && RightOf(v)(j, b)
    ensures RightOf(v)(h + j, sum)
  {
    RightOfIs(v, h, a);
    RightOfIs(v, j, b);
    SumRight(v, s, h, j, a, b, sum);
    RightOfIs(v, h + j, sum);
  }

  /** Entries for the multiples of `c` by powers of two. */
  ghost predicate Powers(right: (nat, bv32) -> bool, c: nat, row: seq<bv32>)
    requires |row| == 16
  {
    forall n: nat :: Asked(n) ==> right(c, row[1]) && right(2 * c, row[2]) && right(4 * c, row[4]) && right(8 * c, row[8])
  }

  lemma {:induction false} PowerMultiple(s: nat)
    ensures Multiple(s, Pow2(s))
  {
    if s > 0 { PowerMultiple(s - 1); }
  }

  lemma {:induction false} PowerValues()
    ensures Pow2(0) == 1 && Pow2(1) == 2 && Pow2(2) == 4 && Pow2(3) == 8 && Pow2(4) == 16 && Pow2(5) == 32 && Pow2(6) == 64 && Pow2(7) == 128
  {
  }

  lemma {:induction false} Cases(j: nat)
    requires j < 16
    ensures j == 0 || j == 1 || j == 2 || j == 3 || j == 4 || j == 5 || j == 6 || j == 7
            || j == 8 || j == 9 || j == 10 || j == 11 || j == 12 || j == 13 || j == 14 || j == 15
  {
  }

  ghost predicate LowEntries(right: (nat, bv32) -> bool, c: nat, row: seq<bv32>)
    requires |row| == 16
  {
    && right(0, row[0]) && right(c, row[1]) && right(2 * c, row[2]) && right(3 * c, row[3])
    && right(4 * c, row[4]) && right(5 * c, row[5]) && right(6 * c, row[6]) && right(7 * c, row[7])
  }

  ghost predicate HighEntries(right: (nat, bv32) -> bool, c: nat, row: seq<bv32>)
    requires |row| == 16
  {
    && right(8 * c, row[8]) && right(9 * c, row[9]) && right(10 * c, row[10]) && right(11 * c, row[11])
    && right(12 * c, row[12]) && right(13 * c, row[13]) && right(14 * c, row[14]) && right(15 * c, row[15])
  }

  /** The multiples of powers of two in the first row, and with `c == 16` in the first column. */
  predicate Column(s: nat, c: nat) { (s == 0 && c == 1) || (s == 4 && c == 16) }

  lemma {:induction false} ColumnPowers(s: nat, c: nat)
    requires Column(s, c)
    ensures Multiple(s + 1, 2 * c) && Multiple(s + 2, 4 * c) && Multiple(s + 3, 8 * c)
    ensures Pow2(s + 1) == 2 * c && Pow2(s + 2) == 4 * c && Pow2(s + 3) == 8 * c
  {
    PowerValues();
    PowerMultiple(s + 1);
    PowerMultiple(s + 2);
    PowerMultiple(s + 3);
  }

  lemma {:induction false} LowRight(right: (nat, bv32) -> bool, s: nat, c: nat, row: seq<bv32>)
    requires |row| == 16 && Additive(right) && Sums(row) && Powers(right, c, row) && Column(s, c)
    ensures LowEntries(right, c, row)
  {
    assert Asked(0);
    ColumnPowers(s, c);
    Add(right, s + 1, 2 * c, 1 * c, row[2], row[1], row[3]);
    Add(right, s + 2, 4 * c, 1 * c, row[4], row[1], row[5]);
    Add(right, s + 2, 4 * c, 2 * c, row[4], row[2], row[6]);
    Add(right, s + 2, 4 * c, 3 * c, row[4], row[3], row[7]);
  }

  lemma {:induction false} HighRight(right: (nat, bv32) -> bool, s: nat, c: nat, row: seq<bv32>)
    requires |row| == 16 && Additive(right) && Sums(row) && LowEntries(right, c, row) && right(8 * c, row[8]) && Column(s, c)
    ensures HighEntries(right, c, row)
  {
    assert Asked(0);
    ColumnPowers(s, c);
    Add(right, s + 3, 8 * c, 1 * c, row[8], row[1], row[9]);
    Add(right, s + 3, 8 * c, 2 * c, row[8], row[2], row[10]);
    Add(right, s + 3, 8 * c, 3 * c, row[8], row[3], row[11]);
    Add(right, s + 3, 8 * c, 4 * c, row[8], row[4], row[12]);
    Add(right, s + 3, 8 * c, 5 * c, row[8], row[5], row[13]);
    Add(right, s + 3, 8 * c, 6 * c, row[8], row[6], row[14]);
    Add(right, s + 3, 8 * c, 7 * c, row[8], row[7], row[15]);
  }

  lemma {:induction false} EntryAt(right: (nat, bv32) -> bool, c: nat, row: seq<bv32>, j: nat)
    requires |row| == 16 && LowEntries(right, c, row) && HighEntries(right, c, row) && j < 16
    ensures right(j * c, row[j])
  {
    Cases(j);
  }

  lemma {:induction false} SumsRight(right: (nat, bv32) -> bool, s: nat, c: nat, row: seq<bv32>, j: nat)
    requires |row| == 16 && Additive(right) && Sums(row) && Powers(right, c, row) && Column(s, c) && j < 16
    ensures right(j * c, row[j])
  {
    assert Asked(0);
    LowRight(right, s, c, row);
    HighRight(right, s, c, row);
    EntryAt(right, c, row, j);
  }

  lemma {:induction false} TwoFold(s: nat, h: nat)
    requires Multiple(s, h)
    ensures Multiple(s + 1, 2 * h)
  {
  }

  lemma {:induction false} SixteenFold(r: nat)
    ensures Multiple(4, 16 * r)
  {
    TwoFold(0, r);
    TwoFold(1, 2 * r);
    TwoFold(2, 4 * r);
    TwoFold(3, 8 * r);
  }

  lemma {:induction false} ShiftedAt(a: seq<bv32>, b: seq<bv32>, j: nat)
    requires |a| == |b| == 16 && Shifted(a, b) && j < 16
    ensures IsSum(a[j], a[0], b[j])
  {
    match j {
      case 0 => case 1 => case 2 => case 3 => case 4 => case 5 => case 6 => case 7 =>
      case 8 => case 9 => case 10 => case 11 => case 12 => case 13 => case 14 => case _ =>
    }
  }

  lemma {:induction false} ShiftedRight(right: (nat, bv32) -> bool, r: nat, a: seq<bv32>, b: seq<bv32>, j: nat)
    requires |a| == |b| == 16 && Additive(right) && Shifted(a, b) && right(16 * r, a[0]) && j < 16 && right(j, b[j])
    ensures right(16 * r + j, a[j])
  {
    ShiftedAt(a, b, j);
    PowerValues();
    SixteenFold(r);
    Add(right, 4, 16 * r, j, a[0], b[j], a[j]);
  }

  // ---------------------------------------------------------------- Whole tables

  /** The first entries of all rows. */
  function Heads(rows: seq<seq<bv32>>): (h: seq<bv32>)
    requires IsSquare(rows)
    ensures |h| == 16
  {
    seq(16, r requires 0 <= r < 16 => rows[r][0])
  }

  ghost predicate AllShifted(rows: seq<seq<bv32>>)
    requires IsSquare(rows)
  {
    forall n: nat :: Asked(n) ==>
      && Shifted(rows[1], rows[0]) && Shifted(rows[2], rows[0]) && Shifted(rows[3], rows[0]) && Shifted(rows[4], rows[0])
      && Shifted(rows[5], rows[0]) && Shifted(rows[6], rows[0]) && Shifted(rows[7], rows[0]) && Shifted(rows[8], rows[0])
      && Shifted(rows[9], rows[0]) && Shifted(rows[10], rows[0]) && Shifted(rows[11], rows[0]) && Shifted(rows[12], rows[0])
      && Shifted(rows[13], rows[0]) && Shifted(rows[14], rows[0]) && Shifted(rows[15], rows[0])
  }

  lemma {:induction false} AllShiftedAt(rows: seq<seq<bv32>>, r: nat)
    requires IsSquare(rows) && AllShifted(rows) && 0 < r < 16
    ensures Shifted(rows[r], rows[0])
  {
    assert Asked(0);
    Cases(r);
  }

  /** The first row and the first column are sums, the other rows are shifted. */
  ghost predicate Linear(rows: seq<seq<bv32>>)
    requires IsSquare(rows)
  {
    Sums(rows[0]) && Sums(Heads(rows)) && AllShifted(rows)
  }

  /** A linear table is right if its entries for powers of two are. */
  lemma {:induction false} LinearRight(right: (nat, bv32) -> bool, rows: seq<seq<bv32>>, r: nat, j: nat)
    requires Additive(right) && IsSquare(rows) && Linear(rows) && r < 16 && j < 16
    requires Powers(right, 1, rows[0]) && Powers(right, 16, Heads(rows))
    ensures right(16 * r + j, rows[r][j])
  {
    SumsRight(right, 0, 1, rows[0], j);
    HeadRight(right, rows, r);
    if r > 0 {
      AllShiftedAt(rows, r);
      ShiftedRight(right, r, rows[r], rows[0], j);
    }
  }

  lemma {:induction false} HeadRight(right: (nat, bv32) -> bool, rows: seq<seq<bv32>>, r: nat)
    requires Additive(right) && IsSquare(rows) && Sums(Heads(rows)) && Powers(right, 16, Heads(rows)) && r < 16
    ensures right(16 * r, rows[r][0])
  {
    SumsRight(right, 4, 16, Heads(rows), r);
  }

  /** Right entries can be added, and those for powers of two are right. */
  ghost predicate Ready(right: (nat, bv32) -> bool, rows: seq<seq<bv32>>)
    requires IsSquare(rows)
  {
    Additive(right) && Powers(right, 1, rows[0]) && Powers(right, 16, Heads(rows))
  }

  lemma {:induction false} LinearRightAt(right: (nat, bv32) -> bool, rows: seq<seq<bv32>>, i: nat)
    requires IsSquare(rows) && Ready(right, rows) && Linear(rows) && i < 256
    ensures right(i, rows[i / 16][i % 16])
  {
    LinearRight(right, rows, i / 16, i % 16);
  }

  /** The word with bit `k` alone. */
  function PowerWord(k: nat): bv32
    requires k < 16
  {
    if k == 0 then 1 else if k == 1 then 2 else if k == 2 then 4 else if k == 3 then 8
    else if k == 4 then 0x10 else if k == 5 then 0x20 else if k == 6 then 0x40 else if k == 7 then 0x80
    else if k == 8 then 0x100 else if k == 9 then 0x200 else if k == 10 then 0x400 else if k == 11 then 0x800
    else if k == 12 then 0x1000 else if k == 13 then 0x2000 else if k == 14 then 0x4000 else 0x8000
  }

  lemma {:induction false} PowerWordIsMask(k: nat)
    requires k < 16
    ensures PowerWord(k) == Mask(k)
  {
    Masks();
    Cases(k);
  }

  lemma {:induction false} PowerIs(v: Version, k: nat, i: nat, start: bv32, entry: bv32)
    requires k < 8 && i == Pow2(k) && start == PowerWord(if v.Crc16CcittFalse? then k + 8 else k) && entry == Steps(v, start, 8)
    ensures RightEntry(v, i, entry)
  {
    PowerWordIsMask(if v.Crc16CcittFalse? then k + 8 else k);
    PowerRight(v, k, entry);
  }

  lemma {:induction false} PowersOf(v: Version, right: (nat, bv32) -> bool, c: nat, row: seq<bv32>)
    requires |row| == 16 && right == RightOf(v)
    requires RightEntry(v, c, row[1]) && RightEntry(v, 2 * c, row[2]) && RightEntry(v, 4 * c, row[4]) && RightEntry(v, 8 * c, row[8])
    ensures Powers(right, c, row)
  {
    RightOfIs(v, c, row[1]);
    RightOfIs(v, 2 * c, row[2]);
    RightOfIs(v, 4 * c, row[4]);
    RightOfIs(v, 8 * c, row[8]);
  }

  lemma {:induction false} PowersReady(v: Version, rows: seq<seq<bv32>>)
    requires IsSquare(rows)
    requires RightEntry(v, 1, rows[0][1]) && RightEntry(v, 2, rows[0][2]) && RightEntry(v, 4, rows[0][4]) && RightEntry(v, 8, rows[0][8])
    requires RightEntry(v, 16, rows[1][0]) && RightEntry(v, 32, rows[2][0]) && RightEntry(v, 64, rows[4][0]) && RightEntry(v, 128, rows[8][0])
    ensures Ready(RightOf(v), rows)
  {
    EntriesAdd(v, RightOf(v), rows[0][1]);
    PowersOf(v, RightOf(v), 1, rows[0]);
    PowersOf(v, RightOf(v), 16, Heads(rows));
  }

  lemma {:induction false} X25Basis1()
    ensures X25Row(0)[1] == Steps(Crc16X25, 0x1, 8) && X25Row(0)[2] == Steps(Crc16X25, 0x2, 8)
  {
  }

  lemma {:induction false} X25Basis2()
    ensures X25Row(0)[4] == Steps(Crc16X25, 0x4, 8) && X25Row(0)[8] == Steps(Crc16X25, 0x8, 8)
  {
  }

  lemma {:induction false} X25Basis3()
    ensures X25Row(1)[0] == Steps(Crc16X25, 0x10, 8) && X25Row(2)[0] == Steps(Crc16X25, 0x20, 8)
  {
  }

  lemma {:induction false} X25Basis4()
    ensures X25Row(4)[0] == Steps(Crc16X25, 0x40, 8) && X25Row(8)[0] == Steps(Crc16X25, 0x80, 8)
  {
  }

  lemma {:induction false} X25Powers1()
    ensures RightEntry(Crc16X25, 1, X25Row(0)[1]) && RightEntry(Crc16X25, 2, X25Row(0)[2])
  {
    X25Basis1();
    PowerIs(Crc16X25, 0, 1, 0x1, X25Row(0)[1]);
    PowerIs(Crc16X25, 1, 2, 0x2, X25Row(0)[2]);
  }

  lemma {:induction false} X25Powers2()
    ensures RightEntry(Crc16X25, 4, X25Row(0)[4]) && RightEntry(Crc16X25, 8, X25Row(0)[8])
  {
    X25Basis2();
    PowerIs(Crc16X25, 2, 4, 0x4, X25Row(0)[4]);
    PowerIs(Crc16X25, 3, 8, 0x8, X25Row(0)[8]);
  }

  lemma {:induction false} X25Powers3()
    ensures RightEntry(Crc16X25, 16, X25Row(1)[0]) && RightEntry(Crc16X25, 32, X25Row(2)[0])
  {
    X25Basis3();
    PowerIs(Crc16X25, 4, 16, 0x10, X25Row(1)[0]);
    PowerIs(Crc16X25, 5, 32, 0x20, X25Row(2)[0]);
  }

  lemma {:induction false} X25Powers4()
    ensures RightEntry(Crc16X25, 64, X25Row(4)[0])
  {
    X25Basis4();
    PowerIs(Crc16X25, 6, 64, 0x40, X25Row(4)[0]);
  }

  lemma {:induction false} X25Powers5()
    ensures RightEntry(Crc16X25, 128, X25Row(8)[0])
  {
    X25Basis4();
    PowerIs(Crc16X25, 7, 128, 0x80, X25Row(8)[0]);
  }

  lemma {:induction false} X25Ready()
    ensures Ready(RightOf(Crc16X25), X25Rows())
  {
    X25Powers1();
    X25Powers2();
    X25Powers3();
    X25Powers4();
    X25Powers5();
    PowersReady(Crc16X25, X25Rows());
  }

  lemma {:induction false} X25Linear()
    ensures Linear(X25Rows())
  {
    X25First();
    X25Heads();
    assert Heads(X25Rows()) == [ X25Row(0)[0], X25Row(1)[0], X25Row(2)[0], X25Row(3)[0], X25Row(4)[0], X25Row(5)[0], X25Row(6)[0], X25Row(7)[0],
        X25Row(8)[0], X25Row(9)[0], X25Row(10)[0], X25Row(11)[0], X25Row(12)[0], X25Row(13)[0], X25Row(14)[0], X25Row(15)[0] ];
    X25Shifted1();
    X25Shifted2();
    X25Shifted3();
  }

  lemma {:induction false} X25Right(i: nat)
    requires i < 256
    ensures RightEntry(Crc16X25, i, X25Rows()[i / 16][i % 16])
  {
    X25Ready();
    X25Linear();
    LinearRightAt(RightOf(Crc16X25), X25Rows(), i);
  }

  lemma {:induction false} CcittBasis1()
    ensures CcittRow(0)[1] == Steps(Crc16CcittFalse, 0x100, 8) && CcittRow(0)[2] == Steps(Crc16CcittFalse, 0x200, 8)
  {
  }

  lemma {:induction false} CcittBasis2()
    ensures CcittRow(0)[4] == Steps(Crc16CcittFalse, 0x400, 8) && CcittRow(0)[8] == Steps(Crc16CcittFalse, 0x800, 8)
  {
  }

  lemma {:induction false} CcittBasis3()
    ensures CcittRow(1)[0] == Steps(Crc16CcittFalse, 0x1000, 8) && CcittRow(2)[0] == Steps(Crc16CcittFalse, 0x2000, 8)
  {
  }

  lemma {:induction false} CcittBasis4()
    ensures CcittRow(4)[0] == Steps(Crc16CcittFalse, 0x4000, 8) && CcittRow(8)[0] == Steps(Crc16CcittFalse, 0x8000, 8)
  {
  }

  lemma {:induction false} CcittPowers1()
    ensures RightEntry(Crc16CcittFalse, 1, CcittRow(0)[1]) && RightEntry(Crc16CcittFalse, 2, CcittRow(0)[2])
  {
    CcittBasis1();
    PowerIs(Crc16CcittFalse, 0, 1, 0x100, CcittRow(0)[1]);
    PowerIs(Crc16CcittFalse, 1, 2, 0x200, CcittRow(0)[2]);
  }

  lemma {:induction false} CcittPowers2()
    ensures RightEntry(Crc16CcittFalse, 4, CcittRow(0)[4]) && RightEntry(Crc16CcittFalse, 8, CcittRow(0)[8])
  {
    CcittBasis2();
    PowerIs(Crc16CcittFalse, 2, 4, 0x400, CcittRow(0)[4]);
    PowerIs(Crc16CcittFalse, 3, 8, 0x800, CcittRow(0)[8]);
  }

  lemma {:induction false} CcittPowers3()
    ensures RightEntry(Crc16CcittFalse, 16, CcittRow(1)[0]) && RightEntry(Crc16CcittFalse, 32, CcittRow(2)[0])
  {
    CcittBasis3();
    PowerIs(Crc16CcittFalse, 4, 16, 0x1000, CcittRow(1)[0]);
    PowerIs(Crc16CcittFalse, 5, 32, 0x2000, CcittRow(2)[0]);
  }

  lemma {:induction false} CcittPowers4()
    ensures RightEntry(Crc16CcittFalse, 64, CcittRow(4)[0])
  {
    CcittBasis4();
    PowerIs(Crc16CcittFalse, 6, 64, 0x4000, CcittRow(4)[0]);
  }

  lemma {:induction false} CcittPowers5()
    ensures RightEntry(Crc16CcittFalse, 128, CcittRow(8)[0])
  {
    CcittBasis4();
    PowerIs(Crc16CcittFalse, 7, 128, 0x8000, CcittRow(8)[0]);
  }

  lemma {:induction false} CcittReady()
    ensures Ready(RightOf(Crc16CcittFalse), CcittRows())
  {
    CcittPowers1();
    CcittPowers2();
    CcittPowers3();
    CcittPowers4();
    CcittPowers5();
    PowersReady(Crc16CcittFalse, CcittRows());
  }

  lemma {:induction false} CcittLinear()
    ensures Linear(CcittRows())
  {
    CcittFirst();
    CcittHeads();
    assert Heads(CcittRows()) == [ CcittRow(0)[0], CcittRow(1)[0], CcittRow(2)[0], CcittRow(3)[0], CcittRow(4)[0], CcittRow(5)[0], CcittRow(6)[0], CcittRow(7)[0],
        CcittRow(8)[0], CcittRow(9)[0], CcittRow(10)[0], CcittRow(11)[0], CcittRow(12)[0], CcittRow(13)[0], CcittRow(14)[0], CcittRow(15)[0] ];
    CcittShifted1();
    CcittShifted2();
    CcittShifted3();
  }

  lemma {:induction false} CcittRight(i: nat)
    requires i < 256
    ensures RightEntry(Crc16CcittFalse, i, CcittRows()[i / 16][i % 16])
  {
    CcittReady();
    CcittLinear();
    LinearRightAt(RightOf(Crc16CcittFalse), CcittRows(), i);
  }

  lemma {:induction false} Crc32Basis1()
    ensures Crc32Row(0)[1] == Steps(Crc32, 0x1, 8) && Crc32Row(0)[2] == Steps(Crc32, 0x2, 8)
  {
  }

  lemma {:induction false} Crc32Basis2()
    ensures Crc32Row(0)[4] == Steps(Crc32, 0x4, 8) && Crc32Row(0)[8] == Steps(Crc32, 0x8, 8)
  {
  }

  lemma {:induction false} Crc32Basis3()
    ensures Crc32Row(1)[0] == Steps(Crc32, 0x10, 8) && Crc32Row(2)[0] == Steps(Crc32, 0x20, 8)
  {
  }

  lemma {:induction false} Crc32Basis4()
    ensures Crc32Row(4)[0] == Steps(Crc32, 0x40, 8) && Crc32Row(8)[0] == Steps(Crc32, 0x80, 8)
  {
  }

  lemma {:induction false} Crc32Powers1()
    ensures RightEntry(Crc32, 1, Crc32Row(0)[1]) && RightEntry(Crc32, 2, Crc32Row(0)[2])
  {
    Crc32Basis1();
    PowerIs(Crc32, 0, 1, 0x1, Crc32Row(0)[1]);
    PowerIs(Crc32, 1, 2, 0x2, Crc32Row(0)[2]);
  }

  lemma {:induction false} Crc32Powers2()
    ensures RightEntry(Crc32, 4, Crc32Row(0)[4]) && RightEntry(Crc32, 8, Crc32Row(0)[8])
  {
    Crc32Basis2();
    PowerIs(Crc32, 2, 4, 0x4, Crc32Row(0)[4]);
    PowerIs(Crc32, 3, 8, 0x8, Crc32Row(0)[8]);
  }

  lemma {:induction false} Crc32Powers3()
    ensures RightEntry(Crc32, 16, Crc32Row(1)[0]) && RightEntry(Crc32, 32, Crc32Row(2)[0])
  {
    Crc32Basis3();
    PowerIs(Crc32, 4, 16, 0x10, Crc32Row(1)[0]);
    PowerIs(Crc32, 5, 32, 0x20, Crc32Row(2)[0]);
  }

  lemma {:induction false} Crc32Powers4()
    ensures RightEntry(Crc32, 64, Crc32Row(4)[0])
  {
    Crc32Basis4();
    PowerIs(Crc32, 6, 64, 0x40, Crc32Row(4)[0]);
  }

  lemma {:induction false} Crc32Powers5()
    ensures RightEntry(Crc32, 128, Crc32Row(8)[0])
  {
    Crc32Basis4();
    PowerIs(Crc32, 7, 128, 0x80, Crc32Row(8)[0]);
  }

  lemma {:induction false} Crc32Ready()
    ensures Ready(RightOf(Crc32), Crc32Rows())
  {
    Crc32Powers1();
    Crc32Powers2();
    Crc32Powers3();
    Crc32Powers4();
    Crc32Powers5();
    PowersReady(Crc32, Crc32Rows());
  }

  lemma {:induction false} Crc32Linear()
    ensures Linear(Crc32Rows())
  {
    Crc32First();
    Crc32Heads();
    assert Heads(Crc32Rows()) == [ Crc32Row(0)[0], Crc32Row(1)[0], Crc32Row(2)[0], Crc32Row(3)[0], Crc32Row(4)[0], Crc32Row(5)[0], Crc32Row(6)[0], Crc32Row(7)[0],
        Crc32Row(8)[0], Crc32Row(9)[0], Crc32Row(10)[0], Crc32Row(11)[0], Crc32Row(12)[0], Crc32Row(13)[0], Crc32Row(14)[0], Crc32Row(15)[0] ];
    Crc32Shifted1();
    Crc32Shifted2();
    Crc32Shifted3();
  }

  lemma {:induction false} Crc32Right(i: nat)
    requires i < 256
    ensures RightEntry(Crc32, i, Crc32Rows()[i / 16][i % 16])
  {
    Crc32Ready();
    Crc32Linear();
    LinearRightAt(RightOf(Crc32), Crc32Rows(), i);
  }

  /** Every one of the 768 entries is the one that is calculated. */
  lemma {:induction false} TableRight(v: Version, i: nat)
    requires i < 256
    ensures RightEntry(v, i, Rows(v)[i / 16][i % 16])
  {
    match v
    case Crc16X25 => X25Right(i);
    case Crc16CcittFalse => CcittRight(i);
    case Crc32 => Crc32Right(i);
  }
}
