/** BPv7 bundles on the wire: CBOR heads, the size calculation, and the serializer. */
module Bundle7 {
  import opened Wrappers
  import opened Bundles
  import Crc
  import CrcCode
  import CrcTables

  // ---------------------------------------------------------------- CBOR heads (section 3 of RFC 8949)

  /** The shortest head of a data item of the given major type. */
  function Head(major: nat, n: nat): seq<Byte>
    requires major < 8
  {
    if n < 24 then [major * 32 + n]
    else if n < 0x100 then [major * 32 + 24] + BigEndian(n, 1)
    else if n < 0x1_0000 then [major * 32 + 25] + BigEndian(n, 2)
    else if n < 0x1_0000_0000 then [major * 32 + 26] + BigEndian(n, 4)
    else [major * 32 + 27] + BigEndian(n, 8)
  }

  function Uint(n: nat): seq<Byte> { Head(0, n) }

  /** `bundle7_cbor_uint_sizeof` */
  function UintSize(n: nat): (r: nat)
    ensures 1 <= r <= 9
  {
    if n <= 0xffff then
      if n <= 0xff then
        if n <= 23 then 1 else 2
      else 3
    else if n <= 0xffff_ffff then 5 else 9
  }

  lemma {:induction false} HeadSize(major: nat, n: nat)
    requires major < 8
    ensures |Head(major, n)| == UintSize(n)
  {
  }

  lemma {:induction false} UintSizeGrows(m: nat, n: nat)
    requires m <= n
    ensures UintSize(m) <= UintSize(n)
  {
  }

  /** The major type and value of the head that a byte string starts with, and what follows it. */
  function ReadHead(s: seq<Byte>): Option<(nat, nat, seq<Byte>)> {
    if s == [] then None
    else
      var info := s[0] % 32;
      var k := if info < 24 then 0 else if info == 24 then 1 else if info == 25 then 2 else if info == 26 then 4 else 8;
      if info > 27 || |s| < 1 + k then None
      else Some((s[0] / 32, if k == 0 then info else FromBigEndian(s[1..1 + k]), s[1 + k..]))
  }

  /** A value in `k` bytes of its own is read back. */
  lemma {:induction false} LongHead(major: nat, code: nat, n: nat, k: nat, rest: seq<Byte>)
    requires major < 8 && n < Pow256(k)
    requires (code == 24 && k == 1) || (code == 25 && k == 2) || (code == 26 && k == 4) || (code == 27 && k == 8)
    ensures ReadHead([major * 32 + code] + BigEndian(n, k) + rest) == Some((major, n, rest))
  {
    var value := BigEndian(n, k);
    var s := [major * 32 + code] + value + rest;
    BigEndianRead(n, k);
    assert s[0] == major * 32 + code && s[1..1 + k] == value && s[1 + k..] == rest;
  }

  /** A head with a value in bytes of its own. */
  lemma {:induction false} HeadParts(major: nat, n: nat) returns (code: nat, k: nat)
    requires major < 8 && 24 <= n < U64
    ensures (code == 24 && k == 1) || (code == 25 && k == 2) || (code == 26 && k == 4) || (code == 27 && k == 8)
    ensures n < Pow256(k) && Head(major, n) == [major * 32 + code] + BigEndian(n, k)
  {
    Powers256();
    code := if n < 0x100 then 24 else if n < 0x1_0000 then 25 else if n < 0x1_0000_0000 then 26 else 27;
    k := if n < 0x100 then 1 else if n < 0x1_0000 then 2 else if n < 0x1_0000_0000 then 4 else 8;
  }

  /** A head is read back, whatever follows it. */
  lemma {:induction false} HeadReadBack(major: nat, n: nat, rest: seq<Byte>)
    requires major < 8 && n < U64
    ensures ReadHead(Head(major, n) + rest) == Some((major, n, rest))
  {
    if n < 24 {
      var s := [major * 32 + n] + rest;
      assert s[0] == major * 32 + n && s[1..] == rest;
    } else {
      var code, k := HeadParts(major, n);
      LongHead(major, code, n, k, rest);
    }
  }

  // ---------------------------------------------------------------- Endpoint identifiers

  /** What the C library's `sscanf` reads with the format `ipn:%u.%u`: two 32-bit numbers, or nothing. */
  type Scan = string -> Option<(nat, nat)>

  function Chars(s: string): (r: seq<Byte>)
    ensures |r| == |s|
  {
    seq(|s|, i requires 0 <= i < |s| => s[i] as int % 256)
  }

  const NULL_EID := "dtn:none"
  const SERIALIZER_BUFFER_SIZE: nat := 128

  predicate StartsWith(s: string, prefix: string) { |s| >= |prefix| && s[..|prefix|] == prefix }

  /** The encoded EID, if it has a known scheme. */
  function EidItem(scan: Scan, eid: string): Option<seq<Byte>> {
    if eid == NULL_EID then Some([0x82] + Uint(1) + Uint(0))
    else if StartsWith(eid, "dtn:") then Some([0x82] + Uint(1) + Head(3, |eid| - 4) + Chars(eid[4..]))
    else if |eid| > 4 && StartsWith(eid, "ipn:") then
      match scan(eid)
      case None => None
      case Some((node, service)) => Some([0x82] + Uint(2) + [0x82] + Uint(node) + Uint(service))
    else None
  }

  /** `bundle7_eid_serialize` into the serializer's buffer. */
  function EidBytes(scan: Scan, eid: string): Option<seq<Byte>> {
    match EidItem(scan, eid)
    case None => None
    case Some(item) => if |item| <= SERIALIZER_BUFFER_SIZE then Some(item) else None
  }

  /** `bundle7_eid_sizeof`: zero for what it cannot parse; only the first letter tells the schemes apart. */
  function EidSize(scan: Scan, eid: string): nat {
    if eid == NULL_EID then 3
    else if eid != "" && eid[0] == 'd' then
      var length := if |eid| >= 4 then |eid| - 4 else U64 + |eid| - 4;
      1 + UintSize(1) + UintSize(length) + length
    else
      match scan(eid)
      case None => 0
      case Some((node, service)) => 1 + UintSize(2) + 1 + UintSize(node) + UintSize(service)
  }

  /** An EID that can be written has the calculated size. */
  lemma {:induction false} EidSizeExact(scan: Scan, eid: string)
    requires EidBytes(scan, eid).Some?
    ensures |EidBytes(scan, eid).value| == EidSize(scan, eid)
  {
    if eid != NULL_EID && StartsWith(eid, "dtn:") {
      assert eid[..4][0] == 'd';
      HeadSize(3, |eid| - 4);
    } else if eid != NULL_EID {
      assert eid[..4][0] == 'i';
      var (node, service) := scan(eid).value;
      HeadSize(0, node);
      HeadSize(0, service);
    }
  }

  // ---------------------------------------------------------------- Flags

  const BP_V7_FLAGS: nat := 0x7_4067
  const BP_V7_BLOCK_FLAGS: nat := 0x17

  /** `proc_flags & BP_V7_FLAGS` */
  function V7Flags(flags: nat): nat { BitAnd(flags, BP_V7_FLAGS) }

  /** `bundle7_convert_to_protocol_block_flags` */
  function V7BlockFlags(flags: nat): nat { BitAnd(flags, BP_V7_BLOCK_FLAGS) }

  // ---------------------------------------------------------------- Sizes

  const CRC_NONE: nat := 0
  const CRC_16: nat := 1
  const CRC_32: nat := 2

  function CrcSize(t: nat): nat { if t == CRC_32 then 5 else if t == CRC_16 then 3 else 0 }

  /** `bundle7_recalculate_primary_block_length`, before it is stored in 16 bits. */
  function PrimarySize(scan: Scan, b: Bundle): nat {
    1 + UintSize(b.version) + UintSize(b.flags) + UintSize(b.crcType)
    + EidSize(scan, b.destination) + EidSize(scan, b.source) + EidSize(scan, b.reportTo)
    + 1 + UintSize(b.creation) + UintSize(b.sequence) + UintSize(b.lifetime)
    + (if IsFragment(b) then UintSize(b.offset) + UintSize(b.total) else 0)
    + CrcSize(b.crcType)
  }

  function Recalculated(scan: Scan, b: Bundle): Bundle { b.(primaryLength := PrimarySize(scan, b) % U16) }

  /** `bundle7_block_get_serialized_size` */
  function BlockSize(block: Block): nat {
    1 + UintSize(block.kind) + UintSize(block.number) + UintSize(V7BlockFlags(block.flags)) + UintSize(block.crcType)
    + UintSize(|block.data|) + |block.data| + CrcSize(block.crcType)
  }

  function BlocksSize(blocks: seq<Block>): nat {
    if blocks == [] then 0 else BlocksSize(blocks[..|blocks| - 1]) + BlockSize(blocks[|blocks| - 1])
  }

  /** `bundle7_get_serialized_size` */
  function SerializedSize(b: Bundle): nat { 1 + b.primaryLength + BlocksSize(b.blocks) + 1 }

  // ---------------------------------------------------------------- The wire format

  /** A register as bytes in network order. */
  function CrcBytes(x: Crc.Bits): (r: seq<Byte>)
    requires |x| % 8 == 0
    ensures |r| == |x| / 8
  {
    if x == [] then []
    else
      CrcCode.ByteIndex(x[|x| - 8..]);
      [Crc.FromBits(x[|x| - 8..])] + CrcBytes(x[..|x| - 8])
  }

  /** A checksum field: the checksum is taken over the item with the field's value set to zero. */
  function Sealed(m: Crc.Model, item: seq<Byte>): (r: seq<Byte>)
    requires m.Valid() && m.Width() % 8 == 0 && m.Width() <= 32
    ensures |r| == 1 + m.Width() / 8
  {
    var start := [0x40 + m.Width() / 8];
    var zeros: seq<Byte> := seq(m.Width() / 8, _ => 0);
    start + CrcBytes(Crc.Checksum(m, item + start + zeros))
  }

  lemma {:induction false} CrcWidths()
    ensures Crc.X25.Valid() && Crc.X25.Width() == 16
    ensures Crc.CASTAGNOLI.Valid() && Crc.CASTAGNOLI.Width() == 32
  {
  }

  /** What follows an item with the given type of checksum. */
  function CrcField(t: nat, item: seq<Byte>): (r: seq<Byte>)
    ensures |r| == CrcSize(t)
  {
    CrcWidths();
    if t == CRC_32 then Sealed(Crc.CASTAGNOLI, item) else if t == CRC_16 then Sealed(Crc.X25, item) else []
  }

  function BlockItem(block: Block): seq<Byte> {
    [0x80 + 5 + if block.crcType != CRC_NONE then 1 else 0]
    + Uint(block.kind) + Uint(block.number) + Uint(V7BlockFlags(block.flags)) + Uint(block.crcType)
    + Head(2, |block.data|) + block.data
  }

  function BlockBytes(block: Block): seq<Byte> { BlockItem(block) + CrcField(block.crcType, BlockItem(block)) }

  function BlocksBytes(blocks: seq<Block>): seq<Byte> {
    if blocks == [] then [] else BlocksBytes(blocks[..|blocks| - 1]) + BlockBytes(blocks[|blocks| - 1])
  }

  predicate EidsFit(scan: Scan, b: Bundle) {
    EidBytes(scan, b.destination).Some? && EidBytes(scan, b.source).Some? && EidBytes(scan, b.reportTo).Some?
  }

  function PrimaryItem(scan: Scan, b: Bundle): seq<Byte>
    requires EidsFit(scan, b)
  {
    PrimaryHead(b)
    + (EidBytes(scan, b.destination).value + EidBytes(scan, b.source).value + EidBytes(scan, b.reportTo).value)
    + ([0x82] + Uint(b.creation) + Uint(b.sequence) + Uint(b.lifetime)
       + (if IsFragment(b) then Uint(b.offset) + Uint(b.total) else []))
  }

  function PrimaryBytes(scan: Scan, b: Bundle): seq<Byte>
    requires EidsFit(scan, b)
  {
    PrimaryItem(scan, b) + CrcField(b.crcType, PrimaryItem(scan, b))
  }

  function Bytes(scan: Scan, b: Bundle): seq<Byte>
    requires EidsFit(scan, b)
  {
    [0x9f] + PrimaryBytes(scan, b) + BlocksBytes(b.blocks) + [0xff]
  }

  /** The EIDs before the first one that cannot be written. */
  function UpToMissing(destination: Option<seq<Byte>>, source: Option<seq<Byte>>, reportTo: Option<seq<Byte>>): seq<Byte>
    requires destination.None? || source.None? || reportTo.None?
  {
    if destination.None? then [] else if source.None? then destination.value else destination.value + source.value
  }

  /** The first three items of the primary block, with the head of its array. */
  function PrimaryHead(b: Bundle): seq<Byte> {
    [0x80 + 8 + (if b.crcType != CRC_NONE then 1 else 0) + (if IsFragment(b) then 2 else 0)]
    + Uint(b.version) + Uint(V7Flags(b.flags)) + Uint(b.crcType)
  }

  /** What is left on the wire when an EID cannot be written. */
  function Stump(scan: Scan, b: Bundle): seq<Byte>
    requires !EidsFit(scan, b)
  {
    [0x9f] + (PrimaryHead(b) + UpToMissing(EidBytes(scan, b.destination), EidBytes(scan, b.source), EidBytes(scan, b.reportTo)))
  }

  predicate CrcTypesOk(b: Bundle) {
    b.crcType <= CRC_32 && forall i :: 0 <= i < |b.blocks| ==> b.blocks[i].crcType <= CRC_32
  }

  // ---------------------------------------------------------------- The size is exact

  lemma {:induction false} BlockSizeExact(block: Block)
    ensures |BlockBytes(block)| == BlockSize(block)
  {
    HeadSize(0, block.kind);
    HeadSize(0, block.number);
    HeadSize(0, V7BlockFlags(block.flags));
    HeadSize(0, block.crcType);
    HeadSize(2, |block.data|);
  }

  lemma {:induction false} BlocksSizeExact(blocks: seq<Block>)
    ensures |BlocksBytes(blocks)| == BlocksSize(blocks)
  {
    if blocks != [] {
      BlocksSizeExact(blocks[..|blocks| - 1]);
      BlockSizeExact(blocks[|blocks| - 1]);
    }
  }

  lemma {:induction false} PrimarySizeExact(scan: Scan, b: Bundle)
    requires EidsFit(scan, b)
    ensures |PrimaryBytes(scan, b)| == PrimarySize(scan, b) - UintSize(b.flags) + UintSize(V7Flags(b.flags))
  {
    EidSizeExact(scan, b.destination);
    EidSizeExact(scan, b.source);
    EidSizeExact(scan, b.reportTo);
    HeadSize(0, b.version);
    HeadSize(0, V7Flags(b.flags));
    HeadSize(0, b.crcType);
    HeadSize(0, b.creation);
    HeadSize(0, b.sequence);
    HeadSize(0, b.lifetime);
    HeadSize(0, b.offset);
    HeadSize(0, b.total);
  }

  lemma {:induction false} PrimaryFits(scan: Scan, b: Bundle)
    requires EidsFit(scan, b)
    ensures PrimarySize(scan, b) < U16
  {
    EidSizeExact(scan, b.destination);
    EidSizeExact(scan, b.source);
    EidSizeExact(scan, b.reportTo);
  }

  lemma {:induction false} BytesSize(scan: Scan, b: Bundle)
    requires EidsFit(scan, b)
    ensures |Bytes(scan, b)| == 2 + PrimarySize(scan, b) - UintSize(b.flags) + UintSize(V7Flags(b.flags)) + BlocksSize(b.blocks)
  {
    PrimarySizeExact(scan, b);
    BlocksSizeExact(b.blocks);
  }

  /**
   With the header length recalculated, the serialized bundle has exactly the calculated size if
   and only if flags that BPv7 does not know do not make the stored flags longer.
   */
  lemma {:induction false} SizeExact(scan: Scan, b: Bundle)
    requires EidsFit(scan, b) && b.primaryLength == PrimarySize(scan, b) % U16
    ensures |Bytes(scan, b)| == SerializedSize(b) <==> UintSize(b.flags) == UintSize(V7Flags(b.flags))
    ensures V7Flags(b.flags) == b.flags ==> |Bytes(scan, b)| == SerializedSize(b)
  {
    var size := PrimarySize(scan, b);
    assert size % U16 == size by { PrimaryFits(scan, b); }
    BytesSize(scan, b);
  }

  // ---------------------------------------------------------------- The serializer

  function VersionOf(t: nat): CrcTables.Version { if t == CRC_32 then CrcTables.Crc32 else CrcTables.Crc16X25 }

  /** `init_crc`; without a checksum the stream is never used. */
  method InitCrc(t: nat) returns (crc: CrcCode.CrcStream)
    ensures fresh(crc) && crc.model == VersionOf(t).Of() && crc.Has([])
  {
    crc := new CrcCode.CrcStream(VersionOf(t));
  }

  /** The checksum, if there is one, has been fed these bytes. */
  ghost predicate Fed(crc: CrcCode.CrcStream, t: nat, bytes: seq<Byte>)
    reads crc
  {
    t == CRC_NONE || crc.Has(bytes)
  }

  /** `feed_crc` */
  method FeedCrc(crc: CrcCode.CrcStream, t: nat, data: seq<Byte>, ghost fed: seq<Byte>)
    requires Fed(crc, t, fed)
    modifies crc
    ensures Fed(crc, t, fed + data)
  {
    if t != CRC_NONE {
      crc.FeedBytes(data, fed);
    }
  }

  /** Feeding the empty field. */
  method FinishCrc(crc: CrcCode.CrcStream, start: seq<Byte>, zeros: seq<Byte>, ghost item: seq<Byte>) returns (checksum: Crc.Bits)
    requires crc.Has(item)
    modifies crc
    ensures checksum == Crc.Checksum(crc.model, item + start + zeros)
  {
    crc.FeedBytes(start, item);
    crc.FeedBytes(zeros, item + start);
    crc.FeedEof(item + start + zeros);
    checksum := crc.checksum;
  }

  /** `write_crc` for a checksum of any width. */
  method WriteChecksum(crc: CrcCode.CrcStream, ghost item: seq<Byte>) returns (field: seq<Byte>)
    requires crc.Has(item) && crc.model.Width() % 8 == 0 && crc.model.Width() <= 32
    modifies crc
    ensures field == Sealed(crc.model, item)
  {
    var start := [0x40 + crc.model.Width() / 8];
    var zeros: seq<Byte> := seq(crc.model.Width() / 8, _ => 0);
    var checksum := FinishCrc(crc, start, zeros, item);
    field := start + CrcBytes(checksum);
  }

  /** `write_crc` */
  method WriteCrc(crc: CrcCode.CrcStream, t: nat, ghost item: seq<Byte>) returns (field: seq<Byte>)
    requires t == CRC_16 || t == CRC_32
    requires crc.model == VersionOf(t).Of() && crc.Has(item)
    modifies crc
    ensures field == CrcField(t, item)
  {
    CrcWidths();
    field := WriteChecksum(crc, item);
  }

  /** Writing and checksumming a block that consists of a head and the content. */
  method WriteBlock(t: nat, head: seq<Byte>, data: seq<Byte>) returns (out: seq<Byte>)
    requires t <= CRC_32
    ensures out == head + data + CrcField(t, head + data)
  {
    var crc := InitCrc(t);
    out := head;
    FeedCrc(crc, t, head, []);
    assert [] + head == head;
    out := out + data;
    FeedCrc(crc, t, data, head);
    if t != CRC_NONE {
      var field := WriteCrc(crc, t, head + data);
      out := out + field;
    } else {
      assert CrcField(t, head + data) == [];
    }
  }

  /** Writing and checksumming an EID; nothing happens if the EID could not be serialized. */
  method WriteEid(crc: CrcCode.CrcStream, t: nat, eid: Option<seq<Byte>>, out: seq<Byte>, ghost fed: seq<Byte>) returns (ok: bool, out': seq<Byte>)
    requires Fed(crc, t, fed + out)
    modifies crc
    ensures ok == eid.Some?
    ensures !ok ==> out' == out
    ensures ok ==> out' == out + eid.value && Fed(crc, t, fed + out')
  {
    if eid.None? { return false, out; }
    FeedCrc(crc, t, eid.value, fed + out);
    ok, out' := true, out + eid.value;
    assert fed + out + eid.value == fed + out';
  }

  /** Writing and checksumming three EIDs; what was written before a failure stays written. */
  method WriteEids(crc: CrcCode.CrcStream, t: nat, destination: Option<seq<Byte>>, source: Option<seq<Byte>>, reportTo: Option<seq<Byte>>, ghost fed: seq<Byte>) returns (ok: bool, out: seq<Byte>)
    requires Fed(crc, t, fed)
    modifies crc
    ensures ok <==> destination.Some? && source.Some? && reportTo.Some?
    ensures out == if ok then destination.value + source.value + reportTo.value else UpToMissing(destination, source, reportTo)
    ensures ok ==> Fed(crc, t, fed + out)
  {
    assert fed + [] == fed;
    ok, out := WriteEid(crc, t, destination, [], fed);
    assert ok ==> out == destination.value;
    if ok { ok, out := WriteTwo(crc, t, source, reportTo, out, fed); }
  }

  /** The second and the third. */
  method WriteTwo(crc: CrcCode.CrcStream, t: nat, source: Option<seq<Byte>>, reportTo: Option<seq<Byte>>, out: seq<Byte>, ghost fed: seq<Byte>) returns (ok: bool, out': seq<Byte>)
    requires Fed(crc, t, fed + out)
    modifies crc
    ensures ok <==> source.Some? && reportTo.Some?
    ensures out' == if ok then out + source.value + reportTo.value else if source.None? then out else out + source.value
    ensures ok ==> Fed(crc, t, fed + out')
  {
    ok, out' := WriteEid(crc, t, source, out, fed);
    if ok { ok, out' := WriteEid(crc, t, reportTo, out', fed); }
  }

  /** Writing and checksumming the primary block in five pieces. */
  method WritePrimary(t: nat, head: seq<Byte>, destination: Option<seq<Byte>>, source: Option<seq<Byte>>, reportTo: Option<seq<Byte>>, rest: seq<Byte>) returns (ok: bool, out: seq<Byte>)
    requires t <= CRC_32
    ensures ok <==> destination.Some? && source.Some? && reportTo.Some?
    ensures !ok ==> out == [0x9f] + (head + UpToMissing(destination, source, reportTo))
    ensures ok ==>
              var item := head + (destination.value + source.value + reportTo.value) + rest;
              out == [0x9f] + (item + CrcField(t, item))
  {
    var crc := InitCrc(t);
    FeedCrc(crc, t, head, []);
    assert [] + head == head;
    var eids;
    ok, eids := WriteEids(crc, t, destination, source, reportTo, head);
    out := [0x9f] + (head + eids);
    if !ok { return; }
    var end := WriteRest(crc, t, rest, head + eids);
    PrimaryParts(head, eids, rest, CrcField(t, head + eids + rest));
    out := out + end;
  }

  lemma {:induction false} PrimaryParts(head: seq<Byte>, eids: seq<Byte>, rest: seq<Byte>, field: seq<Byte>)
    ensures [0x9f] + (head + eids) + (rest + field) == [0x9f] + (head + eids + rest + field)
  {
  }

  method WriteRest(crc: CrcCode.CrcStream, t: nat, rest: seq<Byte>, ghost fed: seq<Byte>) returns (end: seq<Byte>)
    requires t <= CRC_32 && crc.model == VersionOf(t).Of()
    requires Fed(crc, t, fed)
    modifies crc
    ensures end == rest + CrcField(t, fed + rest)
  {
    end := rest;
    if t != CRC_NONE {
      FeedCrc(crc, t, rest, fed);
      var field := WriteCrc(crc, t, fed + rest);
      end := end + field;
    } else {
      assert CrcField(t, fed + rest) == [];
    }
  }

  /** Setting 0x40 in the head of an unsigned integer makes it the head of a byte string. */
  lemma {:induction false} UintToByteString(n: nat)
    ensures Uint(n) != [] && Uint(n)[0] + 0x40 < 256
    ensures [Uint(n)[0] + 0x40] + Uint(n)[1..] == Head(2, n)
  {
    if n >= 24 {
      assert Uint(n)[1..] == Head(2, n)[1..];
    }
  }

  method ByteStringHead(n: nat) returns (head: seq<Byte>)
    ensures head == Head(2, n)
  {
    var uint := Uint(n);
    UintToByteString(n);
    head := [uint[0] + 0x40] + uint[1..];
  }

  /** The loop body of `bundle7_serialize`. */
  method SerializeBlock(block: Block) returns (out: seq<Byte>)
    requires block.crcType <= CRC_32
    ensures out == BlockBytes(block)
  {
    var head := [0x80 + 5 + if block.crcType != CRC_NONE then 1 else 0]
      + Uint(block.kind) + Uint(block.number) + Uint(V7BlockFlags(block.flags)) + Uint(block.crcType);
    var length := ByteStringHead(|block.data|);
    out := WriteBlock(block.crcType, head + length, block.data);
  }

  method SerializePrimary(scan: Scan, b: Bundle) returns (ok: bool, out: seq<Byte>)
    requires b.crcType <= CRC_32
    ensures ok <==> EidsFit(scan, b)
    ensures out == if ok then [0x9f] + PrimaryBytes(scan, b) else Stump(scan, b)
  {
    var head := [0x80 + 8 + (if b.crcType != CRC_NONE then 1 else 0) + (if IsFragment(b) then 2 else 0)]
      + Uint(b.version) + Uint(V7Flags(b.flags)) + Uint(b.crcType);
    var rest := [0x82] + Uint(b.creation) + Uint(b.sequence) + Uint(b.lifetime)
      + (if IsFragment(b) then Uint(b.offset) + Uint(b.total) else []);
    ok, out := WritePrimary(b.crcType, head, EidBytes(scan, b.destination), EidBytes(scan, b.source), EidBytes(scan, b.reportTo), rest);
  }

  method SerializeBlocks(blocks: seq<Block>) returns (out: seq<Byte>)
    requires forall i :: 0 <= i < |blocks| ==> blocks[i].crcType <= CRC_32
    ensures out == BlocksBytes(blocks)
  {
    out := [];
    for i := 0 to |blocks|
      invariant out == BlocksBytes(blocks[..i])
    {
      var block := SerializeBlock(blocks[i]);
      assert blocks[..i + 1][..i] == blocks[..i];
      out := out + block;
    }
    assert blocks[..|blocks|] == blocks;
  }

  /** `bundle7_serialize` */
  method Serialize(scan: Scan, b: Bundle) returns (ok: bool, out: seq<Byte>)
    requires CrcTypesOk(b)
    ensures ok <==> b.version == 7 && EidsFit(scan, b)
    ensures out == if b.version != 7 then [] else if ok then Bytes(scan, b) else Stump(scan, b)
  {
    if b.version != 7 { return false, []; }
    ok, out := SerializePrimary(scan, b);
    if ok {
      var blocks := SerializeBlocks(b.blocks);
      out := out + blocks + [0xff];
    }
  }
}
