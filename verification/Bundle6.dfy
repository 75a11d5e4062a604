/** BPv6 bundles (RFC 5050) on the wire: the dictionary of endpoint identifiers, header lengths and the serializer. */
module Bundle6 {
  import opened Wrappers
  import opened Bundles
  import Sdnv

  /** A C string, which may be missing. */
  type Eid = Option<seq<Byte>>

  /** `refs` are the endpoint identifiers that the block refers to. */
  datatype Block6 = Block6(kind: Byte, flags: nat, refs: seq<Eid>, data: seq<Byte>)

  /** `eids` are destination, source, report-to and current custodian. */
  datatype Bundle6 = Bundle6(
    version: Byte, flags: nat, eids: seq<Eid>, creation: nat, sequence: nat, lifetime: nat,
    offset: nat, total: nat, primaryLength: nat, blocks: seq<Block6>)

  const COLON: Byte := 58
  const DTN: seq<Byte> := [100, 116, 110]
  const NONE: seq<Byte> := [110, 111, 110, 101]

  const BLOCK_FLAG_LAST: nat := 0x8
  const BLOCK_FLAG_HAS_EID_REFS: nat := 0x40

  ghost predicate NulFree(s: seq<Byte>) { forall i :: 0 <= i < |s| ==> s[i] != 0 }

  // ---------------------------------------------------------------- Byte strings in parts

  function Concat(parts: seq<seq<Byte>>): seq<Byte> {
    if parts == [] then [] else Concat(parts[..|parts| - 1]) + parts[|parts| - 1]
  }

  lemma {:induction false} ConcatAppend(a: seq<seq<Byte>>, b: seq<seq<Byte>>)
    ensures Concat(a + b) == Concat(a) + Concat(b)
    decreases |b|
  {
    if b == [] {
      assert a + b == a;
    } else {
      var n := |b| - 1;
      assert (a + b)[..|a + b| - 1] == a + b[..n];
      ConcatAppend(a, b[..n]);
    }
  }

  lemma {:induction false} ConcatOne(part: seq<Byte>)
    ensures Concat([part]) == part
  {
    assert [part][..0] == [];
  }

  /** A part within the whole. */
  lemma {:induction false} ConcatAt(parts: seq<seq<Byte>>, i: nat)
    requires i < |parts|
    ensures Concat(parts) == Concat(parts[..i]) + parts[i] + Concat(parts[i + 1..])
  {
    assert parts == parts[..i] + ([parts[i]] + parts[i + 1..]);
    ConcatAppend(parts[..i], [parts[i]] + parts[i + 1..]);
    ConcatAppend([parts[i]], parts[i + 1..]);
    ConcatOne(parts[i]);
  }

  lemma {:induction false} ConcatStep(parts: seq<seq<Byte>>, i: nat)
    requires i < |parts|
    ensures Concat(parts[..i + 1]) == Concat(parts[..i]) + parts[i]
    ensures |Concat(parts[..i])| + |parts[i]| <= |Concat(parts)|
  {
    ConcatAt(parts, i);
    assert parts[..i + 1][..i] == parts[..i];
  }

  lemma {:induction false} AppendPart(start: seq<Byte>, parts: seq<seq<Byte>>, i: nat)
    requires i < |parts|
    ensures start + Concat(parts[..i + 1]) == start + Concat(parts[..i]) + parts[i]
  {
    ConcatStep(parts, i);
  }

  // ---------------------------------------------------------------- Endpoint identifiers

  function IndexOf(s: seq<Byte>, c: Byte): (r: nat)
    ensures r <= |s| && (r < |s| ==> s[r] == c) && forall i :: 0 <= i < r ==> s[i] != c
  {
    if s == [] || s[0] == c then 0 else 1 + IndexOf(s[1..], c)
  }

  predicate HasColon(e: Eid) { e.Some? && IndexOf(e.value, COLON) < |e.value| }

  /** The two strings that stand for an identifier. */
  datatype Name = Name(scheme: seq<Byte>, ssp: seq<Byte>)

  /** An identifier that is missing or has no colon is written as `dtn:none`. */
  function NameOf(e: Eid): Name {
    if HasColon(e) then
      var k := IndexOf(e.value, COLON);
      Name(e.value[..k], e.value[k + 1..])
    else Name(DTN, NONE)
  }

  function Normal(e: Eid): Eid { if HasColon(e) then e else Some(DTN + [COLON] + NONE) }

  lemma {:induction false} NormalParts(e: Eid)
    ensures Normal(e) == Some(NameOf(e).scheme + [COLON] + NameOf(e).ssp)
  {
    if HasColon(e) {
      var k := IndexOf(e.value, COLON);
      assert e.value == e.value[..k] + [COLON] + e.value[k + 1..];
    }
  }

  function Names(eids: seq<Eid>): (r: seq<Name>)
    ensures |r| == |eids|
  {
    seq(|eids|, i requires 0 <= i < |eids| => NameOf(eids[i]))
  }

  /** `write_eid` */
  function Terminated(n: Name): seq<Byte> { n.scheme + [0] + n.ssp + [0] }

  function Strings(names: seq<Name>): (r: seq<seq<Byte>>)
    ensures |r| == |names|
  {
    seq(|names|, i requires 0 <= i < |names| => Terminated(names[i]))
  }

  function Dictionary(names: seq<Name>): seq<Byte> { Concat(Strings(names)) }

  function SchemeOffset(names: seq<Name>, i: nat): nat
    requires i <= |names|
  {
    |Concat(Strings(names)[..i])|
  }

  function SspOffset(names: seq<Name>, i: nat): nat
    requires i < |names|
  {
    SchemeOffset(names, i) + |names[i].scheme| + 1
  }

  /** Scheme and SSP offsets of the first `n` identifiers, alternating. */
  function Offsets(names: seq<Name>, n: nat): (r: seq<nat>)
    requires n <= |names|
    ensures |r| == 2 * n
  {
    if n == 0 then [] else Offsets(names, n - 1) + [SchemeOffset(names, n - 1), SspOffset(names, n - 1)]
  }

  lemma {:induction false} OffsetStep(names: seq<Name>, i: nat)
    requires i < |names|
    ensures SchemeOffset(names, i + 1) == SchemeOffset(names, i) + |names[i].scheme| + |names[i].ssp| + 2
  {
    ConcatStep(Strings(names), i);
    assert Strings(names)[i] == Terminated(names[i]);
  }

  /** `bundle6_calculate_dict` for the identifiers of the primary block: one running length gives all offsets. */
  method CalculateDict(names: seq<Name>) returns (offsets: seq<nat>, length: nat)
    ensures offsets == Offsets(names, |names|) && length == |Dictionary(names)|
  {
    offsets, length := [], 0;
    for i := 0 to |names|
      invariant offsets == Offsets(names, i) && length == SchemeOffset(names, i)
    {
      OffsetStep(names, i);
      offsets := offsets + [length, length + |names[i].scheme| + 1];
      length := length + |names[i].scheme| + |names[i].ssp| + 2;
    }
    assert Strings(names)[..|names|] == Strings(names);
  }

  /** Writing a string into a buffer in place. */
  method WriteAt(buffer: array<Byte>, pos: nat, item: seq<Byte>)
    requires pos + |item| <= buffer.Length
    modifies buffer
    ensures buffer[..pos + |item|] == old(buffer[..pos]) + item
  {
    forall k | 0 <= k < |item| { buffer[pos + k] := item[k]; }
  }

  /** `bundle6_serialize_dictionary` */
  method SerializeDictionary(names: seq<Name>, buffer: array<Byte>)
    requires buffer.Length == |Dictionary(names)|
    modifies buffer
    ensures buffer[..] == Dictionary(names)
  {
    var pos := 0;
    ghost var parts := Strings(names);
    for i := 0 to |names|
      invariant pos == |Concat(parts[..i])| <= buffer.Length
      invariant buffer[..pos] == Concat(parts[..i])
    {
      ConcatStep(parts, i);
      var item := Terminated(names[i]);
      assert item == parts[i];
      WriteAt(buffer, pos, item);
      pos := pos + |item|;
    }
    assert parts[..|names|] == parts;
    assert buffer[..] == buffer[..pos];
  }

  // ---------------------------------------------------------------- Reading the dictionary

  /** The C string at an offset; the parser terminates the dictionary with a zero. */
  function StringAt(dict: seq<Byte>, offset: nat): seq<Byte>
    decreases |dict| - offset
  {
    if offset >= |dict| || dict[offset] == 0 then [] else [dict[offset]] + StringAt(dict, offset + 1)
  }

  /** `bundle6_read_eid` */
  function ReadEid(dict: seq<Byte>, scheme: nat, ssp: nat): Eid {
    if scheme >= |dict| || ssp >= |dict| || COLON in StringAt(dict, scheme) then None
    else Some(StringAt(dict, scheme) + [COLON] + StringAt(dict, ssp))
  }

  lemma {:induction false} StringWithin(a: seq<Byte>, s: seq<Byte>, c: seq<Byte>, k: nat)
    requires NulFree(s) && k <= |s|
    ensures StringAt(a + s + [0] + c, |a| + k) == s[k..]
    decreases |s| - k
  {
    var all := a + s + [0] + c;
    if k < |s| {
      assert all[|a| + k] == s[k];
      StringWithin(a, s, c, k + 1);
    } else {
      assert all[|a| + k] == 0;
    }
  }

  ghost predicate EidOk(e: Eid) { e.Some? ==> NulFree(e.value) }

  ghost predicate NameOk(n: Name) { NulFree(n.scheme) && NulFree(n.ssp) && COLON !in n.scheme }

  lemma {:induction false} EidName(e: Eid)
    requires EidOk(e)
    ensures NameOk(NameOf(e))
  {
  }

  /** Each identifier is found at its offsets. */
  lemma {:induction false} ReadBack(names: seq<Name>, i: nat)
    requires i < |names| && NameOk(names[i])
    ensures ReadEid(Dictionary(names), SchemeOffset(names, i), SspOffset(names, i)) == Some(names[i].scheme + [COLON] + names[i].ssp)
  {
    var parts := Strings(names);
    ConcatAt(parts, i);
    assert parts[i] == Terminated(names[i]);
    ReadParts(Concat(parts[..i]), names[i].scheme, names[i].ssp, Concat(parts[i + 1..]), Dictionary(names));
  }

  lemma {:induction false} ReadParts(a: seq<Byte>, scheme: seq<Byte>, ssp: seq<Byte>, rest: seq<Byte>, dict: seq<Byte>)
    requires NulFree(scheme) && NulFree(ssp) && dict == a + (scheme + [0] + ssp + [0]) + rest
    ensures StringAt(dict, |a|) == scheme && StringAt(dict, |a| + |scheme| + 1) == ssp
    ensures COLON !in scheme ==> ReadEid(dict, |a|, |a| + |scheme| + 1) == Some(scheme + [COLON] + ssp)
  {
    assert dict == a + scheme + [0] + (ssp + [0] + rest);
    StringWithin(a, scheme, ssp + [0] + rest, 0);
    assert dict == (a + scheme + [0]) + ssp + [0] + rest;
    StringWithin(a + scheme + [0], ssp, rest, 0);
  }

  // ---------------------------------------------------------------- The wire format

  const RFC5050_FLAGS: nat := 0x7_C1BF

  /** The flags of RFC 5050; the bit for status times is not one of them. */
  function V6Flags(flags: nat): (r: nat)
    ensures r <= RFC5050_FLAGS
  {
    BitAnd(flags, RFC5050_FLAGS)
  }

  lemma {:induction false} FragmentKept(flags: nat)
    ensures Fragment(V6Flags(flags)) == Fragment(flags)
  {
    assert RFC5050_FLAGS % 2 == 1;
    assert V6Flags(flags) % 2 == flags % 2;
  }

  predicate Fragment(flags: nat) { HasFlag(flags, FLAG_IS_FRAGMENT) }

  function Low16(s: seq<nat>): (r: seq<nat>)
    ensures |r| == |s|
  {
    seq(|s|, i requires 0 <= i < |s| => s[i] % U16)
  }

  /** The numbers of the primary block up to the dictionary. */
  function Numbers(b: Bundle6): (r: seq<nat>)
    requires |b.eids| == 4
    ensures |r| == 14
  {
    [V6Flags(b.flags), b.primaryLength] + Low16(Offsets(Names(b.eids), 4))
    + [b.creation / 1000, b.sequence, b.lifetime / 1000, |Dictionary(Names(b.eids))| % U16]
  }

  function Encodings(values: seq<nat>): (r: seq<seq<Byte>>)
    ensures |r| == |values|
  {
    seq(|values|, i requires 0 <= i < |values| => Sdnv.Encode(values[i]))
  }

  function EncodeAll(values: seq<nat>): seq<Byte> { Concat(Encodings(values)) }

  function FragmentNumbers(b: Bundle6): seq<nat> { if Fragment(b.flags) then [b.offset, b.total] else [] }

  function BlockBytes(block: Block6): seq<Byte> {
    [block.kind] + Sdnv.Encode(block.flags) + Sdnv.Encode(|block.data|) + block.data
  }

  function BlockParts(blocks: seq<Block6>): (r: seq<seq<Byte>>)
    ensures |r| == |blocks|
  {
    seq(|blocks|, i requires 0 <= i < |blocks| => BlockBytes(blocks[i]))
  }

  function BlocksBytes(blocks: seq<Block6>): seq<Byte> { Concat(BlockParts(blocks)) }

  /** A serialized bundle whose blocks have no references. */
  function Bytes(b: Bundle6): seq<Byte>
    requires |b.eids| == 4
  {
    [b.version] + EncodeAll(Numbers(b)) + Dictionary(Names(b.eids)) + EncodeAll(FragmentNumbers(b)) + BlocksBytes(b.blocks)
  }

  // ---------------------------------------------------------------- The header length

  function SizeAll(values: seq<nat>): nat {
    if values == [] then 0 else SizeAll(values[..|values| - 1]) + Sdnv.SizeOf(Sdnv.U32, values[|values| - 1])
  }

  /** `bundle6_recalculate_header_length_internal`, before the result is stored in 16 bits. */
  function HeaderLength(b: Bundle6): nat
    requires |b.eids| == 4
  {
    1 + Sdnv.SizeOf(Sdnv.U32, b.flags) + Sdnv.SizeOf(Sdnv.U32, b.primaryLength) + SizeAll(Low16(Offsets(Names(b.eids), 4)))
    + Sdnv.SizeOf(Sdnv.U64, b.creation / 1000) + Sdnv.SizeOf(Sdnv.U64, b.sequence) + Sdnv.SizeOf(Sdnv.U64, b.lifetime / 1000)
    + Sdnv.SizeOf(Sdnv.U32, |Dictionary(Names(b.eids))|) + |Dictionary(Names(b.eids))|
    + (if Fragment(b.flags) then Sdnv.SizeOf(Sdnv.U32, b.offset) + Sdnv.SizeOf(Sdnv.U32, b.total) else 0)
  }

  function Recalculated(b: Bundle6): Bundle6
    requires |b.eids| == 4
  {
    b.(primaryLength := HeaderLength(b) % U16)
  }

  /** Field widths of the bundle, and no references. */
  ghost predicate WellTyped(b: Bundle6) {
    && |b.eids| == 4 && (forall i :: 0 <= i < 4 ==> EidOk(b.eids[i]))
    && b.flags < U32 && b.creation < U64 && b.sequence < U64 && b.lifetime < U64
    && b.offset < U32 && b.total < U32 && b.primaryLength < U16
    && forall i :: 0 <= i < |b.blocks| ==> BlockOk(b.blocks[i])
  }

  ghost predicate BlockOk(block: Block6) {
    block.flags < 0x100 && !HasFlag(block.flags, BLOCK_FLAG_HAS_EID_REFS) && block.refs == [] && |block.data| < U32
  }

  lemma {:induction false} EncodeAllStep(values: seq<nat>)
    requires values != []
    ensures EncodeAll(values) == EncodeAll(values[..|values| - 1]) + Sdnv.Encode(values[|values| - 1])
  {
    var n := |values| - 1;
    assert Encodings(values)[..n] == Encodings(values[..n]);
  }

  lemma {:induction false} EncodeAllAppend(a: seq<nat>, b: seq<nat>)
    ensures EncodeAll(a + b) == EncodeAll(a) + EncodeAll(b)
  {
    assert Encodings(a + b) == Encodings(a) + Encodings(b);
    ConcatAppend(Encodings(a), Encodings(b));
  }

  lemma {:induction false} EncodeAllSize(values: seq<nat>)
    requires forall i :: 0 <= i < |values| ==> values[i] < U32
    ensures |EncodeAll(values)| == SizeAll(values)
  {
    if values != [] {
      var n := |values| - 1;
      EncodeAllSize(values[..n]);
      EncodeAllStep(values);
      Sdnv.SizeExact(Sdnv.U32, values[n]);
    }
  }

  lemma {:induction false} EncodeOne(p: nat)
    ensures EncodeAll([p]) == Sdnv.Encode(p)
  {
    assert Encodings([p]) == [Sdnv.Encode(p)];
    ConcatOne(Sdnv.Encode(p));
  }

  lemma {:induction false} EncodeTwo(p: nat, q: nat)
    ensures EncodeAll([p, q]) == Sdnv.Encode(p) + Sdnv.Encode(q)
  {
    EncodeOne(p);
    EncodeOne(q);
    EncodeAllAppend([p], [q]);
    assert [p] + [q] == [p, q];
  }

  /** The part of the primary block that the announced length must cover: all that follows the length field. */
  function AfterLength(b: Bundle6): seq<Byte>
    requires |b.eids| == 4
  {
    EncodeAll(Numbers(b)[2..]) + Dictionary(Names(b.eids)) + EncodeAll(FragmentNumbers(b))
  }

  lemma {:induction false} TimesSize(p: nat, q: nat, r: nat, d: nat)
    requires p < U64 && q < U64 && r < U64 && d < U32
    ensures |EncodeAll([p, q, r, d])|
            == Sdnv.SizeOf(Sdnv.U64, p) + Sdnv.SizeOf(Sdnv.U64, q) + Sdnv.SizeOf(Sdnv.U64, r) + Sdnv.SizeOf(Sdnv.U32, d)
  {
    EncodeTwo(p, q);
    EncodeTwo(r, d);
    EncodeAllAppend([p, q], [r, d]);
    assert [p, q] + [r, d] == [p, q, r, d];
    Sdnv.SizeExact(Sdnv.U64, p);
    Sdnv.SizeExact(Sdnv.U64, q);
    Sdnv.SizeExact(Sdnv.U64, r);
    Sdnv.SizeExact(Sdnv.U32, d);
  }

  lemma {:induction false} NumbersAfterLength(b: Bundle6)
    requires WellTyped(b) && |Dictionary(Names(b.eids))| < U16
    ensures |EncodeAll(Numbers(b)[2..])| == SizeAll(Low16(Offsets(Names(b.eids), 4)))
              + Sdnv.SizeOf(Sdnv.U64, b.creation / 1000) + Sdnv.SizeOf(Sdnv.U64, b.sequence) + Sdnv.SizeOf(Sdnv.U64, b.lifetime / 1000)
              + Sdnv.SizeOf(Sdnv.U32, |Dictionary(Names(b.eids))|)
  {
    var offsets, d := Low16(Offsets(Names(b.eids), 4)), |Dictionary(Names(b.eids))|;
    var tail := [b.creation / 1000, b.sequence, b.lifetime / 1000, d];
    assert d % U16 == d;
    assert Numbers(b)[2..] == offsets + tail;
    EncodeAllAppend(offsets, tail);
    EncodeAllSize(offsets);
    TimesSize(b.creation / 1000, b.sequence, b.lifetime / 1000, d);
  }

  lemma {:induction false} FragmentNumbersSize(b: Bundle6)
    requires b.offset < U32 && b.total < U32
    ensures |EncodeAll(FragmentNumbers(b))|
            == if Fragment(b.flags) then Sdnv.SizeOf(Sdnv.U32, b.offset) + Sdnv.SizeOf(Sdnv.U32, b.total) else 0
  {
    if Fragment(b.flags) {
      EncodeTwo(b.offset, b.total);
      Sdnv.SizeExact(Sdnv.U32, b.offset);
      Sdnv.SizeExact(Sdnv.U32, b.total);
    }
  }

  /** The header length counts version, flags and length field too, so it exceeds what it must cover by their sizes. */
  lemma {:induction false} HeaderLengthExact(b: Bundle6)
    requires WellTyped(b) && |Dictionary(Names(b.eids))| < U16
    ensures HeaderLength(b) == 1 + Sdnv.SizeOf(Sdnv.U32, b.flags) + Sdnv.SizeOf(Sdnv.U32, b.primaryLength) + |AfterLength(b)|
  {
    NumbersAfterLength(b);
    FragmentNumbersSize(b);
  }

  // ---------------------------------------------------------------- The serializer

  const MAX_SDNV_SIZE: nat := 10

  /** `serialize_u16` and so on: a number through the reused buffer. */
  method WriteNumber(w: Sdnv.Width, buffer: array<Byte>, value: nat, out: seq<Byte>) returns (out': seq<Byte>)
    requires value < w.Limit() && buffer.Length == MAX_SDNV_SIZE
    modifies buffer
    ensures out' == out + Sdnv.Encode(value)
  {
    var n := Sdnv.Write(w, buffer, value);
    out' := out + buffer[..n];
  }

  /** The writing of dictionary offsets, two for each identifier. */
  method WriteOffsets(buffer: array<Byte>, offsets: seq<nat>, start: seq<Byte>) returns (out: seq<Byte>)
    requires buffer.Length == MAX_SDNV_SIZE
    modifies buffer
    ensures out == start + Concat(Encodings(Low16(offsets)))
  {
    out := start;
    ghost var parts := Encodings(Low16(offsets));
    assert parts[..0] == [];
    for i := 0 to |offsets|
      invariant out == start + Concat(parts[..i])
    {
      AppendPart(start, parts, i);
      out := WriteNumber(Sdnv.U16, buffer, offsets[i] % U16, out);
    }
    assert parts[..|offsets|] == parts;
  }

  /** Times, sequence number and dictionary length. */
  method WriteTimes(b: Bundle6, buffer: array<Byte>, length: nat, start: seq<Byte>) returns (out: seq<Byte>)
    requires b.creation < U64 && b.sequence < U64 && b.lifetime < U64 && buffer.Length == MAX_SDNV_SIZE
    modifies buffer
    ensures out == start + (Sdnv.Encode(b.creation / 1000) + Sdnv.Encode(b.sequence) + Sdnv.Encode(b.lifetime / 1000) + Sdnv.Encode(length % U16))
  {
    out := WriteNumber(Sdnv.U64, buffer, b.creation / 1000, start);
    out := WriteNumber(Sdnv.U64, buffer, b.sequence, out);
    out := WriteNumber(Sdnv.U64, buffer, b.lifetime / 1000, out);
    out := WriteNumber(Sdnv.U16, buffer, length % U16, out);
  }

  lemma {:induction false} NumbersWritten(b: Bundle6)
    requires |b.eids| == 4
    ensures EncodeAll(Numbers(b))
            == Sdnv.Encode(V6Flags(b.flags)) + Sdnv.Encode(b.primaryLength) + EncodeAll(Low16(Offsets(Names(b.eids), 4)))
               + (Sdnv.Encode(b.creation / 1000) + Sdnv.Encode(b.sequence) + Sdnv.Encode(b.lifetime / 1000)
                  + Sdnv.Encode(|Dictionary(Names(b.eids))| % U16))
  {
    NumbersEncoded(V6Flags(b.flags), b.primaryLength, Low16(Offsets(Names(b.eids), 4)), b.creation / 1000, b.sequence, b.lifetime / 1000,
                   |Dictionary(Names(b.eids))| % U16);
  }

  lemma {:induction false} NumbersEncoded(f: nat, l: nat, offsets: seq<nat>, p: nat, q: nat, r: nat, d: nat)
    ensures EncodeAll([f, l] + offsets + [p, q, r, d])
            == Sdnv.Encode(f) + Sdnv.Encode(l) + EncodeAll(offsets) + (Sdnv.Encode(p) + Sdnv.Encode(q) + Sdnv.Encode(r) + Sdnv.Encode(d))
  {
    EncodeAllAppend([f, l], offsets);
    EncodeAllAppend([f, l] + offsets, [p, q, r, d]);
    EncodeTwo(f, l);
    EncodeFour(p, q, r, d);
  }

  lemma {:induction false} EncodeFour(p: nat, q: nat, r: nat, d: nat)
    ensures EncodeAll([p, q, r, d]) == Sdnv.Encode(p) + Sdnv.Encode(q) + Sdnv.Encode(r) + Sdnv.Encode(d)
  {
    assert [p, q, r, d] == [p, q] + [r, d];
    EncodeAllAppend([p, q], [r, d]);
    EncodeTwo(p, q);
    EncodeTwo(r, d);
    var x, y, z, w := Sdnv.Encode(p), Sdnv.Encode(q), Sdnv.Encode(r), Sdnv.Encode(d);
    assert x + y + (z + w) == x + y + z + w;
  }

  /** The numbers of the primary block up to the dictionary. */
  method WriteNumbers(b: Bundle6, buffer: array<Byte>, offsets: seq<nat>, length: nat) returns (out: seq<Byte>)
    requires WellTyped(b) && buffer.Length == MAX_SDNV_SIZE
    requires offsets == Offsets(Names(b.eids), 4) && length == |Dictionary(Names(b.eids))|
    modifies buffer
    ensures out == [b.version] + EncodeAll(Numbers(b))
  {
    NumbersWritten(b);
    ghost var x, y := Sdnv.Encode(V6Flags(b.flags)), Sdnv.Encode(b.primaryLength);
    ghost var z := EncodeAll(Low16(offsets));
    out := WriteNumber(Sdnv.U32, buffer, V6Flags(b.flags), [b.version]);
    out := WriteNumber(Sdnv.U32, buffer, b.primaryLength, out);
    out := WriteOffsets(buffer, offsets, out);
    ghost var before := out;
    out := WriteTimes(b, buffer, length, out);
    ghost var t := Sdnv.Encode(b.creation / 1000) + Sdnv.Encode(b.sequence) + Sdnv.Encode(b.lifetime / 1000) + Sdnv.Encode(length % U16);
    Grouped([b.version], x, y, z, t);
  }

  lemma {:induction false} Grouped(v: seq<Byte>, x: seq<Byte>, y: seq<Byte>, z: seq<Byte>, t: seq<Byte>)
    ensures v + x + y + z + t == v + (x + y + z + t)
  {
  }

  /** The fragment fields. */
  method WriteFragment(b: Bundle6, buffer: array<Byte>, start: seq<Byte>) returns (out: seq<Byte>)
    requires b.offset < U32 && b.total < U32 && buffer.Length == MAX_SDNV_SIZE
    modifies buffer
    ensures out == start + EncodeAll(FragmentNumbers(b))
  {
    out := start;
    if Fragment(b.flags) {
      EncodeTwo(b.offset, b.total);
      out := WriteNumber(Sdnv.U32, buffer, b.offset, out);
      out := WriteNumber(Sdnv.U32, buffer, b.total, out);
    }
  }

  /** The body of the loop over the blocks, for a block without references. */
  method WriteBlock(block: Block6, buffer: array<Byte>, start: seq<Byte>) returns (out: seq<Byte>)
    requires BlockOk(block) && buffer.Length == MAX_SDNV_SIZE
    modifies buffer
    ensures out == start + BlockBytes(block)
  {
    var n := Sdnv.Write(Sdnv.U32, buffer, block.flags);
    out := start + [block.kind] + buffer[..n];
    n := Sdnv.Write(Sdnv.U32, buffer, |block.data|);
    out := out + buffer[..n] + block.data;
    assert out == start + ([block.kind] + Sdnv.Encode(block.flags) + Sdnv.Encode(|block.data|) + block.data);
  }

  /** The loop over the blocks. */
  method WriteBlocks(blocks: seq<Block6>, buffer: array<Byte>, head: seq<Byte>) returns (out: seq<Byte>)
    requires (forall i :: 0 <= i < |blocks| ==> BlockOk(blocks[i])) && buffer.Length == MAX_SDNV_SIZE
    modifies buffer
    ensures out == head + BlocksBytes(blocks)
  {
    out := head;
    ghost var parts := BlockParts(blocks);
    assert parts[..0] == [];
    for i := 0 to |blocks|
      invariant out == head + Concat(parts[..i])
    {
      AppendPart(head, parts, i);
      out := WriteBlock(blocks[i], buffer, out);
    }
    assert parts[..|parts|] == parts;
  }

  /** `bundle6_serialize` for a bundle without references. */
  method Serialize(b: Bundle6) returns (out: seq<Byte>)
    requires WellTyped(b)
    ensures out == Bytes(b)
  {
    var buffer := new Byte[MAX_SDNV_SIZE];
    var names := Names(b.eids);
    var offsets, length := CalculateDict(names);
    var dict := new Byte[length];
    SerializeDictionary(names, dict);
    ghost var strings := dict[..];
    out := WriteNumbers(b, buffer, offsets, length);
    assert dict[..] == strings;
    out := out + dict[..];
    out := WriteFragment(b, buffer, out);
    out := WriteBlocks(b.blocks, buffer, out);
  }
}
