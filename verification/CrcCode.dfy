/** The checksum code itself: the C one-shot and streaming functions, and the generic Python class. */
module CrcCode {
  import opened Bundles
  import opened Crc
  import opened CrcTables
  import CrcEntries

  /** The reflected register before any byte: the mirror image of all ones is all ones. */
  lemma {:induction false} OnesMirrored(n: nat)
    ensures Reflect(Ones(n)) == Ones(n)
  {
  }

  lemma {:induction false} ReflectedStart(m: Model, message: seq<Byte>)
    requires m.Valid() && m.reflectInput && m.reflectResult && m.init == Ones(m.Width())
    ensures Xor(Low(m.poly, m.init, message), m.final) == Checksum(m, message)
  {
    OnesMirrored(m.Width());
    LowFollowsRemainder(m, m.init, message);
  }

  /** What a table holds for an index, as a register. */
  method Lookup(v: Version, index: Bits) returns (entry: Bits)
    requires |index| == 8
    ensures entry == CrcEntries.Calculated(v, index)
  {
    var i := FromBits(index);
    ByteIndex(index);
    var word := Rows(v)[i / 16][i % 16];
    CrcEntries.TableRight(v, i);
    CrcEntries.RightMeans(v, i, word);
    entry := CrcEntries.Word(word, v.Of().Width());
  }

  /** `crc16_x25` and `crc32`, which differ in width and table only. */
  method ReflectedOneShot(v: Version, data: seq<Byte>) returns (crc: Bits)
    requires !v.Crc16CcittFalse?
    ensures crc == Checksum(v.Of(), data)
  {
    ghost var m := v.Of();
    crc := v.Of().init;
    for i := 0 to |data|
      invariant |crc| == m.Width() && crc == Low(m.poly, m.init, data[..i])
    {
      assert data[..i + 1][..i] == data[..i];
      var entry := Lookup(v, Xor(crc[..8], ToBits(data[i], 8)));
      crc := Xor(crc[8..] + Zeros(8), entry);
    }
    assert data[..|data|] == data;
    ReflectedStart(m, data);
    crc := Xor(crc, v.Of().final);
  }

  /** `crc16_ccitt_false` */
  method CcittFalse(data: seq<Byte>) returns (crc: Bits)
    ensures crc == Checksum(CCITT_FALSE, data)
  {
    crc := Ones(16);
    for i := 0 to |data|
      invariant |crc| == 16 && crc == Remainder(CCITT_FALSE, CCITT_FALSE.init, data[..i])
    {
      assert data[..i + 1][..i] == data[..i];
      LookupIsDivision(CCITT_FALSE.poly, crc, ToBits(data[i], 8));
      var index := Xor(crc[8..], ToBits(data[i], 8));
      var entry := Lookup(Crc16CcittFalse, index);
      crc := Xor(Zeros(8) + crc[..8], entry);
    }
    assert data[..|data|] == data;
    assert Xor(crc, Zeros(16)) == crc;
  }

  lemma {:induction false} OneFurther(fed: seq<Byte>, data: seq<Byte>, i: nat)
    requires i < |data|
    ensures fed + data[..i] + [data[i]] == fed + data[..i + 1]
  {
    assert data[..i + 1] == data[..i] + [data[i]];
  }

  ghost predicate IsModelOf(m: Model, v: Version) {
    forall n: nat :: CrcEntries.Asked(n) ==> m == v.Of() && (v.Crc16CcittFalse? <==> !m.reflectInput)
  }

  lemma {:induction false} EntryOfModel(m: Model, v: Version, index: Bits)
    requires m.Valid() && IsModelOf(m, v) && |index| == 8
    ensures CrcEntries.Calculated(v, index) == if m.reflectInput then ReflectedEntry(m.poly, index) else Entry(m.poly, index)
  {
    assert CrcEntries.Asked(0);
  }

  /** The registers after one more byte. */
  lemma {:induction false} NextFed(m: Model, fed: seq<Byte>, byte: Byte)
    requires m.Valid()
    ensures Low(m.poly, m.init, fed + [byte]) == FeedLow(m.poly, Low(m.poly, m.init, fed), ToBits(byte, 8))
    ensures Remainder(m, m.init, fed + [byte]) == DivideByte(m.poly, Remainder(m, m.init, fed), Enter(m, byte))
  {
    assert (fed + [byte])[..|fed|] == fed;
  }

  /** `struct crc_stream`; `crc_init` selects the functions it calls, and with them the table. */
  class CrcStream {
    const version: Version
    const model: Model
    var checksum: Bits

    ghost predicate Supported() {
      && IsModelOf(model, version)
      && model.Valid()
      && (if model.reflectInput then model.reflectResult && model.init == Ones(model.Width())
          else !model.reflectResult && model.final == Zeros(model.Width()))
    }

    /** The register after the bytes fed so far. */
    ghost predicate Has(fed: seq<Byte>)
      reads this
    {
      Supported()
      && checksum == if model.reflectInput then Low(model.poly, model.init, fed) else Remainder(model, model.init, fed)
    }

    /** `crc_init` */
    constructor (version: Version)
      ensures this.version == version && model == version.Of() && Has([])
    {
      this.version := version;
      model := version.Of();
      checksum := version.Of().init;
    }

    /** `crc->feed` */
    method Feed(byte: Byte, ghost fed: seq<Byte>)
      requires Has(fed)
      modifies this
      ensures Has(fed + [byte])
    {
      NextFed(model, fed, byte);
      if model.reflectInput {
        var index := Xor(checksum[..8], ToBits(byte, 8));
        var entry := Lookup(version, index);
        EntryOfModel(model, version, index);
        checksum := Xor(checksum[8..] + Zeros(8), entry);
      } else {
        LookupIsDivision(model.poly, checksum, ToBits(byte, 8));
        var w := model.Width();
        var index := Xor(checksum[w - 8..], ToBits(byte, 8));
        var entry := Lookup(version, index);
        EntryOfModel(model, version, index);
        checksum := Xor(Zeros(8) + checksum[..w - 8], entry);
      }
    }

    /** `crc_feed_bytes` */
    method FeedBytes(data: seq<Byte>, ghost fed: seq<Byte>)
      requires Has(fed)
      modifies this
      ensures Has(fed + data)
    {
      ghost var all := fed;
      for i := 0 to |data|
        invariant Has(all) && all == fed + data[..i]
      {
        Feed(data[i], all);
        OneFurther(fed, data, i);
        all := all + [data[i]];
      }
      assert data[..|data|] == data;
    }

    /** `crc->feed_eof`: whatever pieces the bytes came in, the checksum is that of all of them in one. */
    method FeedEof(ghost fed: seq<Byte>)
      requires Has(fed)
      modifies this
      ensures checksum == Checksum(model, fed)
    {
      if model.reflectInput {
        ReflectedStart(model, fed);
        checksum := Xor(checksum, model.final);
      } else {
        assert Xor(checksum, model.final) == checksum;
      }
    }
  }

  // ---------------------------------------------------------------- The Python class

  /** The calculated entry for a byte. */
  ghost predicate IsEntry(p: Bits, d: nat, reflected: bool, entry: Bits)
    requires |p| >= 8
  {
    forall n: nat :: CrcEntries.Asked(n) ==> entry == if reflected then ReflectedEntry(p, ToBits(d, 8)) else Entry(p, ToBits(d, 8))
  }

  /** The first entries of a table. */
  ghost predicate IsPart(p: Bits, table: seq<Bits>, reflected: bool)
    requires |p| >= 8
  {
    forall d :: 0 <= d < |table| ==> IsEntry(p, d, reflected, table[d])
  }

  ghost predicate IsTable(p: Bits, table: seq<Bits>, reflected: bool)
    requires |p| >= 8
  {
    |table| == 256 && IsPart(p, table, reflected)
  }

  lemma {:induction false} NextEntry(p: Bits, table: seq<Bits>, reflected: bool, index: Bits, entry: Bits)
    requires |p| >= 8 && IsPart(p, table, reflected) && index == ToBits(|table|, 8)
    requires entry == if reflected then ReflectedEntry(p, index) else Entry(p, index)
    ensures IsPart(p, table + [entry], reflected)
  {
    var longer := table + [entry];
    assert IsEntry(p, |table|, reflected, entry);
    forall d | 0 <= d < |longer| ensures IsEntry(p, d, reflected, longer[d]) {
      if d < |table| { assert longer[d] == table[d]; }
    }
  }

  lemma {:induction false} IndexBits(x: Bits)
    ensures FromBits(x) < Pow2(|x|) && ToBits(FromBits(x), |x|) == x
  {
    if x != [] {
      IndexBits(x[1..]);
      LowestBit(x[0], FromBits(x[1..]));
      assert ToBits(FromBits(x), |x|) == [x[0]] + x[1..];
    }
  }

  lemma {:induction false} LowestBit(low: bool, n: nat)
    ensures var m := (if low then 1 else 0) + 2 * n; m / 2 == n && (m % 2 == 1) == low
  {
  }

  lemma {:induction false} ByteIndex(x: Bits)
    requires |x| == 8
    ensures FromBits(x) < 256 && ToBits(FromBits(x), 8) == x
  {
    IndexBits(x);
    assert Pow2(8) == 256;
  }

  lemma {:induction false} TableEntry(p: Bits, table: seq<Bits>, reflected: bool, index: Bits)
    requires |p| >= 8 && |index| == 8 && IsTable(p, table, reflected)
    ensures FromBits(index) < |table|
    ensures table[FromBits(index)] == if reflected then ReflectedEntry(p, index) else Entry(p, index)
  {
    ByteIndex(index);
    assert IsEntry(p, FromBits(index), reflected, table[FromBits(index)]);
    assert CrcEntries.Asked(0);
  }

  lemma {:induction false} NextBit(p: Bits, start: Bits, bit: nat, cur: Bits)
    requires |start| == |p| == |cur| > 0 && cur == DivideBits(p, start, bit)
    ensures var doubled := [false] + cur[..|p| - 1]; DivideBits(p, start, bit + 1) == if cur[|p| - 1] then Xor(doubled, p) else doubled
  {
  }

  class PythonCrc {
    const model: Model
    var table: seq<Bits>
    var reflectedTable: seq<Bits>

    /** The lazily filled tables are empty or right. */
    ghost predicate Valid()
      reads this
    {
      && model.Valid()
      && (table == [] || IsTable(model.poly, table, false))
      && (reflectedTable == [] || IsTable(model.poly, reflectedTable, true))
    }

    constructor (model: Model)
      requires model.Valid()
      ensures Valid() && this.model == model
    {
      this.model := model;
      table, reflectedTable := [], [];
    }

    /** The inner loop of both, over the bits of a byte. */
    method Divided(start: Bits, bits: nat) returns (cur: Bits)
      requires model.Valid() && |start| == model.Width()
      ensures cur == DivideBits(model.poly, start, bits)
    {
      var p := model.poly;
      cur := start;
      for bit := 0 to bits
        invariant |cur| == |p| && cur == DivideBits(p, start, bit)
      {
        NextBit(p, start, bit, cur);
        var doubled := [false] + cur[..|p| - 1];
        cur := if cur[|p| - 1] then Xor(doubled, p) else doubled;
      }
    }

    /** `calculate_crc_table` and, for `reflected`, `calculate_crc_table_reflected`; register bits beyond the width are not kept. */
    method CalculateTable(reflected: bool) returns (t: seq<Bits>)
      requires model.Valid()
      ensures IsTable(model.poly, t, reflected)
    {
      t := [];
      for dividend := 0 to 256
        invariant |t| == dividend && IsPart(model.poly, t, reflected)
      {
        var index := ToBits(dividend, 8);
        var top := if reflected then Reflect(index) else index;
        var cur := Divided(Zeros(model.Width() - 8) + top, |top|);
        assert cur == Entry(model.poly, top);
        var entry := if reflected then Reflect(cur) else cur;
        NextEntry(model.poly, t, reflected, index, entry);
        t := t + [entry];
      }
    }

    /** `fast_reflected` */
    method FastReflected(value: seq<Byte>) returns (crc: Bits)
      requires Valid() && model.reflectInput && model.reflectResult
      modifies this
      ensures Valid() && crc == Fast(model, value)
    {
      if reflectedTable == [] {
        reflectedTable := CalculateTable(true);
      }
      crc := LoopReflected(model, reflectedTable, value);
      crc := Xor(crc, model.final);
    }

    /** `__call__`: right for every model, except for reflected ones with an initial value that is no palindrome. */
    method Call(value: seq<Byte>) returns (crc: Bits)
      requires Valid()
      modifies this
      ensures Valid() && crc == if model.reflectInput && model.reflectResult then Fast(model, value) else Checksum(model, value)
    {
      if model.reflectInput && model.reflectResult {
        crc := FastReflected(value);
        return;
      }
      if table == [] {
        table := CalculateTable(false);
      }
      crc := LoopGeneral(model, table, value);
      if model.reflectResult {
        crc := Reflect(crc);
      }
      crc := Xor(crc, model.final);
    }
  }

  /** The loop of `fast_reflected`. */
  method LoopReflected(m: Model, lookup: seq<Bits>, value: seq<Byte>) returns (crc: Bits)
    requires m.Valid() && IsTable(m.poly, lookup, true)
    ensures crc == Low(m.poly, m.init, value)
  {
    crc := m.init;
    for i := 0 to |value|
      invariant |crc| == m.Width() && crc == Low(m.poly, m.init, value[..i])
    {
      assert value[..i + 1] == value[..i] + [value[i]];
      NextFed(m, value[..i], value[i]);
      crc := StepReflected(m.poly, lookup, crc, ToBits(value[i], 8));
    }
    assert value[..|value|] == value;
  }

  method StepReflected(p: Bits, lookup: seq<Bits>, crc: Bits, byte: Bits) returns (r: Bits)
    requires |crc| == |p| >= 8 && |byte| == 8 && IsTable(p, lookup, true)
    ensures r == FeedLow(p, crc, byte)
  {
    var index := Xor(crc[..8], byte);
    TableEntry(p, lookup, true, index);
    r := Xor(crc[8..] + Zeros(8), lookup[FromBits(index)]);
  }

  /** One round of the loop of `__call__`: the byte is added at the top, the top is looked up, the rest shifted. */
  method StepGeneral(p: Bits, lookup: seq<Bits>, crc: Bits, byte: Bits) returns (r: Bits)
    requires |crc| == |p| >= 8 && |byte| == 8 && IsTable(p, lookup, false)
    ensures r == DivideByte(p, crc, byte)
  {
    var w := |p|;
    var sum := Xor(crc, Zeros(w - 8) + byte);
    var index := sum[w - 8..];
    LookupIsDivision(p, crc, byte);
    assert index == Xor(crc[w - 8..], byte) && sum[..w - 8] == crc[..w - 8];
    TableEntry(p, lookup, false, index);
    r := Xor(Zeros(8) + sum[..w - 8], lookup[FromBits(index)]);
  }

  method LoopGeneral(m: Model, lookup: seq<Bits>, value: seq<Byte>) returns (crc: Bits)
    requires m.Valid() && IsTable(m.poly, lookup, false)
    ensures crc == Remainder(m, m.init, value)
  {
    crc := m.init;
    for i := 0 to |value|
      invariant |crc| == m.Width() && crc == Remainder(m, m.init, value[..i])
    {
      assert value[..i + 1][..i] == value[..i];
      crc := StepGeneral(m.poly, lookup, crc, Enter(m, value[i]));
    }
    assert value[..|value|] == value;
  }

  /** CRC-16/RIELLO as the module defines it: its initial value 0xb2aa is not its own mirror image. */
  const RIELLO := Model(ToBits(0x1021, 16), ToBits(0xb2aa, 16), Zeros(16), true, true)

  /** So the call for this model returns a wrong checksum on every message. */
  lemma {:induction false} RielloAlwaysWrong(message: seq<Byte>)
    ensures Fast(RIELLO, message) != Checksum(RIELLO, message)
  {
    Powers();
    NotPalindrome(0xb2aa, 16);
    assert RIELLO.poly[0];
    FastIffPalindrome(RIELLO, message);
  }

  lemma {:induction false} FourDoublings(n: nat)
    ensures Pow2(n + 4) == 16 * Pow2(n)
  {
    assert Pow2(n + 4) == 2 * Pow2(n + 3) && Pow2(n + 2) == 2 * Pow2(n + 1);
  }

  lemma {:induction false} Powers()
    ensures Pow2(15) == 0x8000 && Pow2(16) == 0x1_0000
  {
    FourDoublings(0);
    FourDoublings(4);
    FourDoublings(8);
    FourDoublings(12);
    assert Pow2(16) == 2 * Pow2(15);
  }

  lemma {:induction false} NotPalindrome(n: nat, width: nat)
    requires width > 0 && Pow2(width - 1) <= n < Pow2(width) && n % 2 == 0
    ensures Reflect(ToBits(n, width)) != ToBits(n, width)
  {
    HighBit(n, width);
    assert Reflect(ToBits(n, width))[0] == ToBits(n, width)[width - 1];
  }

  lemma {:induction false} HighBit(n: nat, width: nat)
    requires width > 0 && Pow2(width - 1) <= n < Pow2(width)
    ensures ToBits(n, width)[width - 1]
  {
    if width > 1 { HighBit(n / 2, width - 1); }
  }
}
