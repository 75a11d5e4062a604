/** Splitting BPv7 bundles, once and repeatedly, up to the delivery of the reassembled data unit. */
module Fragmentation {
  import opened Wrappers
  import opened Bundles
  import opened Bundle7
  import opened Reassembly
  import opened Processor
  import opened Delivery

  // ---------------------------------------------------------------- Blocks

  ghost predicate HasPayload(blocks: seq<Block>) {
    exists i :: 0 <= i < |blocks| && blocks[i].kind == BLOCK_TYPE_PAYLOAD
  }

  /** Where `payload_block` points to. */
  function PayloadIndex(blocks: seq<Block>): (k: nat)
    requires HasPayload(blocks)
    ensures k < |blocks| && blocks[k].kind == BLOCK_TYPE_PAYLOAD && blocks[k].data == PayloadOf(blocks)
    ensures forall i :: 0 <= i < k ==> blocks[i].kind != BLOCK_TYPE_PAYLOAD
  {
    if blocks[0].kind == BLOCK_TYPE_PAYLOAD then 0 else 1 + PayloadIndex(blocks[1..])
  }

  function WithPayload(blocks: seq<Block>, data: seq<Byte>): seq<Block>
    requires HasPayload(blocks)
  {
    var k := PayloadIndex(blocks);
    blocks[k := blocks[k].(data := data)]
  }

  predicate MustReplicate(block: Block) {
    HasFlag(block.flags, BLOCK_FLAG_MUST_BE_REPLICATED) && block.kind != BLOCK_TYPE_PAYLOAD
  }

  /** The extension blocks that every fragment must carry, in order. */
  function Replicated(blocks: seq<Block>): seq<Block> {
    if blocks == [] then []
    else
      var n := |blocks| - 1;
      Replicated(blocks[..n]) + if MustReplicate(blocks[n]) then [blocks[n]] else []
  }

  function NewPayload(data: seq<Byte>): Block { Block(BLOCK_TYPE_PAYLOAD, 1, 0, CRC_NONE, data) }

  // ---------------------------------------------------------------- One split

  function MinBlock(block: Block): nat {
    if block.kind == BLOCK_TYPE_PAYLOAD then
      1 + UintSize(block.kind) + UintSize(block.number) + UintSize(block.flags) + UintSize(block.crcType)
      + UintSize(|block.data|) + CrcSize(block.crcType) + 2
    else BlockSize(block)
  }

  function MinBlocks(blocks: seq<Block>): nat {
    if blocks == [] then 0 else MinBlocks(blocks[..|blocks| - 1]) + MinBlock(blocks[|blocks| - 1])
  }

  /** `bundle7_get_first_fragment_min_size`: room for offset and total length is added if the bundle already is a fragment. */
  function FirstMin(b: Bundle): nat {
    b.primaryLength + MinBlocks(b.blocks) + if IsFragment(b) then UintSize(Length(b)) + 1 else 0
  }

  /** How many payload bytes the first fragment gets; the difference is stored in 32 bits. */
  function Share(b: Bundle, firstMax: nat): nat
    requires FirstMin(b) <= firstMax
  {
    (firstMax - FirstMin(b)) % U32
  }

  predicate Splits(b: Bundle, firstMax: nat) { FirstMin(b) <= firstMax && Share(b, firstMax) < Length(b) }

  function Total(b: Bundle): nat { if IsFragment(b) then b.total else Length(b) }

  /** The first `n` payload bytes, with everything else the bundle has. */
  function FirstPart(scan: Scan, b: Bundle, n: nat): Bundle
    requires HasPayload(b.blocks) && n <= Length(b)
  {
    Recalculated(scan, b.(flags := SetFragment(b.flags), total := Total(b), blocks := WithPayload(b.blocks, Payload(b)[..n])))
  }

  /** The other payload bytes. */
  function Rest(scan: Scan, b: Bundle, n: nat): Bundle
    requires n <= Length(b)
  {
    Recalculated(scan, b.(flags := SetFragment(b.flags), total := Total(b), offset := Add32(b.offset, n),
                          blocks := Replicated(b.blocks) + [NewPayload(Payload(b)[n..])]))
  }

  datatype Outcome = Null | Same | Remainder(rest: BundleObject)

  /** A bundle in memory, changed in place. */
  class BundleObject {
    var value: Bundle

    constructor (value: Bundle)
      ensures this.value == value
    {
      this.value := value;
    }

    /** `bundle7_fragment_bundle` */
    method Fragment(scan: Scan, firstMax: nat) returns (r: Outcome)
      requires HasPayload(value.blocks)
      modifies this
      ensures r.Null? <==> FirstMin(old(value)) > firstMax
      ensures r.Remainder? <==> Splits(old(value), firstMax)
      ensures !r.Remainder? ==> value == old(value)
      ensures r.Remainder? ==>
                var n := Share(old(value), firstMax);
                fresh(r.rest) && value == FirstPart(scan, old(value), n) && r.rest.value == Rest(scan, old(value), n)
    {
      var firstMin := FirstFragmentMinSize(value);
      if firstMin > firstMax { return Null; }
      var n := (firstMax - firstMin) % U32;
      if n >= Length(value) { return Same; }
      var b := value;
      var rest := b.(total := Total(b), flags := SetFragment(b.flags), blocks := []);
      var blocks := ReplicateBlocks(b.blocks);
      rest := rest.(blocks := blocks + [NewPayload(Payload(b)[n..])]);
      if !IsFragment(value) {
        value := value.(total := Length(value));
      }
      value := value.(blocks := WithPayload(value.blocks, Payload(value)[..n]));
      rest := rest.(offset := Add32(value.offset, n), total := value.total);
      value := Recalculated(scan, value.(flags := SetFragment(value.flags)));
      var remainder := new BundleObject(Recalculated(scan, rest));
      r := Remainder(remainder);
    }
  }

  /** The loop of `bundle7_get_first_fragment_min_size`. */
  method FirstFragmentMinSize(b: Bundle) returns (size: nat)
    ensures size == FirstMin(b)
  {
    size := 0;
    for i := 0 to |b.blocks|
      invariant size == MinBlocks(b.blocks[..i])
    {
      assert b.blocks[..i + 1][..i] == b.blocks[..i];
      size := size + MinBlock(b.blocks[i]);
    }
    assert b.blocks[..|b.blocks|] == b.blocks;
    if IsFragment(b) {
      size := size + UintSize(Length(b)) + 1;
    }
    size := b.primaryLength + size;
  }

  /** The loop that duplicates blocks for the remainder. */
  method ReplicateBlocks(blocks: seq<Block>) returns (r: seq<Block>)
    ensures r == Replicated(blocks)
  {
    r := [];
    for i := 0 to |blocks|
      invariant r == Replicated(blocks[..i])
    {
      assert blocks[..i + 1][..i] == blocks[..i];
      if MustReplicate(blocks[i]) {
        r := r + [blocks[i]];
      }
    }
    assert blocks[..|blocks|] == blocks;
  }

  // ---------------------------------------------------------------- Size of the first fragment

  ghost predicate OnlyPayload(blocks: seq<Block>, k: nat) {
    k < |blocks| && forall i :: 0 <= i < |blocks| ==> (blocks[i].kind == BLOCK_TYPE_PAYLOAD <==> i == k)
  }

  lemma {:induction false} BlocksSizeUpdate(blocks: seq<Block>, k: nat, x: Block)
    requires k < |blocks|
    ensures BlocksSize(blocks[k := x]) == BlocksSize(blocks) - BlockSize(blocks[k]) + BlockSize(x)
  {
    var n := |blocks| - 1;
    if k < n {
      BlocksSizeUpdate(blocks[..n], k, x);
      assert blocks[k := x][..n] == blocks[..n][k := x];
    } else {
      assert blocks[k := x][..n] == blocks[..n];
    }
  }

  lemma {:induction false} MinBlocksSize(blocks: seq<Block>)
    ensures (forall i :: 0 <= i < |blocks| ==> blocks[i].kind != BLOCK_TYPE_PAYLOAD) ==> MinBlocks(blocks) == BlocksSize(blocks)
  {
    if blocks != [] { MinBlocksSize(blocks[..|blocks| - 1]); }
  }

  lemma {:induction false} MinBlocksOnly(blocks: seq<Block>, k: nat)
    requires OnlyPayload(blocks, k)
    ensures MinBlocks(blocks) == BlocksSize(blocks) - BlockSize(blocks[k]) + MinBlock(blocks[k])
  {
    var n := |blocks| - 1;
    if k < n {
      MinBlocksOnly(blocks[..n], k);
    } else {
      MinBlocksSize(blocks[..n]);
    }
  }

  /** The blocks of the first fragment, against what the minimum size calculation has reserved for them. */
  lemma {:induction false} FirstBlocksSize(blocks: seq<Block>, k: nat, data: seq<Byte>)
    requires OnlyPayload(blocks, k)
    ensures HasPayload(blocks)
    ensures BlocksSize(WithPayload(blocks, data)) + 2 + UintSize(blocks[k].flags) + UintSize(|blocks[k].data|)
            == MinBlocks(blocks) + |data| + UintSize(V7BlockFlags(blocks[k].flags)) + UintSize(|data|)
  {
    assert blocks[k].kind == BLOCK_TYPE_PAYLOAD;
    assert PayloadIndex(blocks) == k;
    BlocksSizeUpdate(blocks, k, blocks[k].(data := data));
    MinBlocksOnly(blocks, k);
  }

  /** The primary block of the first fragment; it grows by the two fragment fields if the bundle was whole. */
  lemma {:induction false} FirstPrimarySize(scan: Scan, b: Bundle, n: nat)
    requires HasPayload(b.blocks) && n <= Length(b) && EidsFit(scan, b) && b == Recalculated(scan, b)
    ensures FirstPart(scan, b, n).primaryLength
            == b.primaryLength + (if IsFragment(b) then 0
                                  else UintSize(b.flags + 1) - UintSize(b.flags) + UintSize(b.offset) + UintSize(Length(b)))
  {
    var raw := b.(flags := SetFragment(b.flags), total := Total(b), blocks := WithPayload(b.blocks, Payload(b)[..n]));
    assert EidsFit(scan, raw) && IsFragment(raw);
    PrimaryStored(scan, b);
    PrimaryStored(scan, raw);
  }

  lemma {:induction false} PrimaryStored(scan: Scan, b: Bundle)
    requires EidsFit(scan, b)
    ensures Recalculated(scan, b).primaryLength == PrimarySize(scan, b)
  {
    PrimaryFits(scan, b);
    var size := PrimarySize(scan, b);
    assert size % U16 == size;
  }

  /** The exact size of the first fragment, relative to the room that was asked for. */
  lemma {:induction false} FirstPartSize(scan: Scan, b: Bundle, n: nat, k: nat)
    requires OnlyPayload(b.blocks, k) && n <= Length(b) && EidsFit(scan, b) && b == Recalculated(scan, b)
    requires V7BlockFlags(b.blocks[k].flags) == b.blocks[k].flags
    ensures HasPayload(b.blocks)
    ensures IsFragment(b) ==>
              SerializedSize(FirstPart(scan, b, n)) == FirstMin(b) + n + UintSize(n) - 2 * UintSize(Length(b)) - 1
    ensures !IsFragment(b) ==>
              SerializedSize(FirstPart(scan, b, n))
              == FirstMin(b) + n + UintSize(n) + UintSize(b.offset) + UintSize(b.flags + 1) - UintSize(b.flags)
  {
    FirstBlocksSize(b.blocks, k, Payload(b)[..n]);
    FirstPrimarySize(scan, b, n);
    assert |b.blocks[k].data| == Length(b) && |Payload(b)[..n]| == n by { assert PayloadIndex(b.blocks) == k; }
  }

  lemma {:induction false} Truncated(d: nat, n: nat)
    requires n == d % U32
    ensures d < U32 ==> n == d
    ensures d >= U32 ==> n + U32 <= d
  {
    assert d == d / U32 * U32 + n;
  }

  /**
   The first fragment keeps the given limit if and only if the bundle was a fragment before, or the
   limit exceeds the minimum by more than 32 bits can hold.
   */
  lemma {:induction false} FitsIffFragment(scan: Scan, b: Bundle, firstMax: nat, k: nat)
    requires OnlyPayload(b.blocks, k) && EidsFit(scan, b) && b == Recalculated(scan, b)
    requires V7BlockFlags(b.blocks[k].flags) == b.blocks[k].flags && Splits(b, firstMax)
    ensures HasPayload(b.blocks)
    ensures SerializedSize(FirstPart(scan, b, Share(b, firstMax))) <= firstMax
            <==> IsFragment(b) || firstMax - FirstMin(b) >= U32
  {
    var n := Share(b, firstMax);
    FirstPartSize(scan, b, n, k);
    LimitKept(b, firstMax, n, SerializedSize(FirstPart(scan, b, n)));
  }

  lemma {:induction false} LimitKept(b: Bundle, firstMax: nat, n: nat, size: nat)
    requires Splits(b, firstMax) && n == Share(b, firstMax)
    requires IsFragment(b) ==> size == FirstMin(b) + n + UintSize(n) - 2 * UintSize(Length(b)) - 1
    requires !IsFragment(b) ==> size == FirstMin(b) + n + UintSize(n) + UintSize(b.offset) + UintSize(b.flags + 1) - UintSize(b.flags)
    ensures size <= firstMax <==> IsFragment(b) || firstMax - FirstMin(b) >= U32
  {
    Truncated(firstMax - FirstMin(b), n);
    UintSizeGrows(n, Length(b));
    UintSizeGrows(b.flags, b.flags + 1);
  }

  // ---------------------------------------------------------------- Repeated splitting

  /** Everything that all fragments have in common with the original bundle. */
  ghost predicate SameHeaders(p: Bundle, b: Bundle) {
    && p.version == b.version && p.crcType == b.crcType && p.destination == b.destination && p.source == b.source
    && p.reportTo == b.reportTo && p.creation == b.creation && p.sequence == b.sequence && p.lifetime == b.lifetime
  }

  /** Piece `p` of the whole bundle `b`. */
  ghost predicate PieceOf(p: Bundle, b: Bundle) {
    && SameHeaders(p, b) && HasPayload(p.blocks) && HasPayload(b.blocks)
    && p.flags == SetFragment(b.flags) && p.total == Length(b)
    && 0 < Length(p) && p.offset + Length(p) <= Length(b) && Payload(p) == Payload(b)[p.offset..p.offset + Length(p)]
    && p.blocks == if p.offset == 0 then WithPayload(b.blocks, Payload(p)) else Replicated(b.blocks) + [NewPayload(Payload(p))]
  }

  /** The pieces lie side by side and make up the whole. */
  ghost predicate Partition(pieces: seq<Bundle>, size: nat) {
    && pieces != [] && pieces[0].offset == 0
    && (forall i :: 0 <= i < |pieces| - 1 ==> pieces[i + 1].offset == pieces[i].offset + Length(pieces[i]))
    && pieces[|pieces| - 1].offset + Length(pieces[|pieces| - 1]) == size
  }

  /** One call of the fragmenter on one of the bundles, with a limit that leaves payload for the first part. */
  ghost predicate Cut(scan: Scan, before: seq<Bundle>, after: seq<Bundle>, i: nat, firstMax: nat) {
    && i < |before| && HasPayload(before[i].blocks) && Splits(before[i], firstMax) && Share(before[i], firstMax) > 0
    && var n := Share(before[i], firstMax);
       after == before[..i] + [FirstPart(scan, before[i], n), Rest(scan, before[i], n)] + before[i + 1..]
  }

  /** Any number of such calls, each on any of the bundles there are by then. */
  ghost predicate Cuts(scan: Scan, history: seq<seq<Bundle>>) {
    forall j :: 0 < j < |history| ==> CutSomewhere(scan, history[j - 1], history[j])
  }

  ghost predicate CutSomewhere(scan: Scan, before: seq<Bundle>, after: seq<Bundle>) {
    exists i: nat, firstMax: nat :: Cut(scan, before, after, i, firstMax)
  }

  ghost predicate Whole(b: Bundle) {
    HasPayload(b.blocks) && !IsFragment(b) && b.offset == 0 && Length(b) < U32
  }

  lemma {:induction false} ReplicatedAppend(blocks: seq<Block>, x: Block)
    ensures Replicated(blocks + [x]) == Replicated(blocks) + if MustReplicate(x) then [x] else []
  {
    assert (blocks + [x])[..|blocks|] == blocks;
  }

  lemma {:induction false} ReplicatedTwice(blocks: seq<Block>)
    ensures Replicated(Replicated(blocks)) == Replicated(blocks)
  {
    if blocks != [] {
      var n := |blocks| - 1;
      ReplicatedTwice(blocks[..n]);
      ReplicatedAppend(Replicated(blocks[..n]), blocks[n]);
      if !MustReplicate(blocks[n]) { assert Replicated(blocks) == Replicated(blocks[..n]); }
    }
  }

  lemma {:induction false} ReplicatedSame(a: seq<Block>, b: seq<Block>)
    requires |a| == |b|
    requires forall i :: 0 <= i < |a| ==> MustReplicate(a[i]) == MustReplicate(b[i]) && (MustReplicate(a[i]) ==> a[i] == b[i])
    ensures Replicated(a) == Replicated(b)
  {
    if a != [] { ReplicatedSame(a[..|a| - 1], b[..|b| - 1]); }
  }

  lemma {:induction false} ReplicatedNot(blocks: seq<Block>, i: nat)
    requires i < |Replicated(blocks)|
    ensures MustReplicate(Replicated(blocks)[i])
  {
    var n := |blocks| - 1;
    if i < |Replicated(blocks[..n])| { ReplicatedNot(blocks[..n], i); }
  }

  lemma {:induction false} NewPayloadBlocks(blocks: seq<Block>, data: seq<Byte>)
    ensures var all := Replicated(blocks) + [NewPayload(data)];
            && HasPayload(all) && PayloadIndex(all) == |all| - 1 && PayloadOf(all) == data
            && Replicated(all) == Replicated(blocks)
  {
    var all := Replicated(blocks) + [NewPayload(data)];
    assert all[|all| - 1].kind == BLOCK_TYPE_PAYLOAD;
    forall i | 0 <= i < |all| - 1 ensures all[i].kind != BLOCK_TYPE_PAYLOAD { ReplicatedNot(blocks, i); }
    ReplicatedAppend(Replicated(blocks), NewPayload(data));
    ReplicatedTwice(blocks);
    assert PayloadIndex(all) == |all| - 1;
  }

  lemma {:induction false} WithPayloadBlocks(blocks: seq<Block>, data: seq<Byte>)
    requires HasPayload(blocks)
    ensures var all := WithPayload(blocks, data);
            && HasPayload(all) && PayloadIndex(all) == PayloadIndex(blocks) && PayloadOf(all) == data
            && Replicated(all) == Replicated(blocks)
  {
    var k, all := PayloadIndex(blocks), WithPayload(blocks, data);
    assert all[k].kind == BLOCK_TYPE_PAYLOAD;
    assert PayloadIndex(all) == k;
    ReplicatedSame(all, blocks);
  }

  /** What a split makes of a bundle, leaving the recalculated header lengths open. */
  ghost predicate Halves(b: Bundle, n: nat, first: Bundle, rest: Bundle) {
    && HasPayload(b.blocks) && n <= Length(b)
    && first == b.(flags := SetFragment(b.flags), total := Total(b), primaryLength := first.primaryLength,
                   blocks := WithPayload(b.blocks, Payload(b)[..n]))
    && rest == b.(flags := SetFragment(b.flags), total := Total(b), primaryLength := rest.primaryLength,
                  offset := Add32(b.offset, n), blocks := Replicated(b.blocks) + [NewPayload(Payload(b)[n..])])
  }

  lemma {:induction false} HalvesPayload(b: Bundle, n: nat, first: Bundle, rest: Bundle)
    requires Halves(b, n, first, rest)
    ensures HasPayload(first.blocks) && Payload(first) == Payload(b)[..n]
    ensures HasPayload(rest.blocks) && Payload(rest) == Payload(b)[n..]
  {
    WithPayloadBlocks(b.blocks, Payload(b)[..n]);
    NewPayloadBlocks(b.blocks, Payload(b)[n..]);
  }

  /** The two halves of a whole bundle are pieces of it. */
  lemma {:induction false} FirstCut(b: Bundle, n: nat, first: Bundle, rest: Bundle)
    requires Whole(b) && 0 < n < Length(b) && Halves(b, n, first, rest)
    ensures PieceOf(first, b) && PieceOf(rest, b)
    ensures first.offset == b.offset && rest.offset == b.offset + n && Length(first) == n && n + Length(rest) == Length(b)
  {
    HalvesPayload(b, n, first, rest);
  }

  lemma {:induction false} PayloadTwice(blocks: seq<Block>, data: seq<Byte>, part: seq<Byte>)
    requires HasPayload(blocks)
    ensures HasPayload(WithPayload(blocks, data)) && Replicated(WithPayload(blocks, data)) == Replicated(blocks)
    ensures WithPayload(WithPayload(blocks, data), part) == WithPayload(blocks, part)
  {
    WithPayloadBlocks(blocks, data);
  }

  lemma {:induction false} PayloadAfterNew(blocks: seq<Block>, data: seq<Byte>, part: seq<Byte>)
    ensures HasPayload(Replicated(blocks) + [NewPayload(data)]) && Replicated(Replicated(blocks) + [NewPayload(data)]) == Replicated(blocks)
    ensures WithPayload(Replicated(blocks) + [NewPayload(data)], part) == Replicated(blocks) + [NewPayload(part)]
  {
    NewPayloadBlocks(blocks, data);
  }

  /** The blocks of the first half of a piece. */
  lemma {:induction false} LaterBlocks(b: Bundle, p: Bundle, part: seq<Byte>)
    requires PieceOf(p, b)
    ensures WithPayload(p.blocks, part) == if p.offset == 0 then WithPayload(b.blocks, part) else Replicated(b.blocks) + [NewPayload(part)]
    ensures Replicated(p.blocks) == Replicated(b.blocks)
  {
    var blocks, data := b.blocks, Payload(p);
    if p.offset == 0 {
      PayloadTwice(blocks, data, part);
    } else {
      PayloadAfterNew(blocks, data, part);
    }
  }

  lemma {:induction false} SubSlice(whole: seq<Byte>, o: nat, m: nat, data: seq<Byte>, n: nat)
    requires n <= |data| && m == |data| && o + m <= |whole| && data == whole[o..o + m]
    ensures data[..n] == whole[o..o + n] && data[n..] == whole[o + n..o + m]
  {
  }

  lemma {:induction false} FlagTwice(flags: nat)
    ensures SetFragment(SetFragment(flags)) == SetFragment(flags)
  {
    FlagKept(flags);
  }

  lemma {:induction false} LaterFirst(b: Bundle, p: Bundle, n: nat, first: Bundle, rest: Bundle)
    requires Whole(b) && PieceOf(p, b) && 0 < n < Length(p) && Halves(p, n, first, rest)
    requires HasPayload(first.blocks) && Payload(first) == Payload(p)[..n] == Payload(b)[p.offset..p.offset + n]
    ensures PieceOf(first, b)
  {
    FlagTwice(b.flags);
    LaterBlocks(b, p, Payload(first));
  }

  lemma {:induction false} LaterRest(b: Bundle, p: Bundle, n: nat, first: Bundle, rest: Bundle)
    requires Whole(b) && PieceOf(p, b) && 0 < n < Length(p) && Halves(p, n, first, rest)
    requires HasPayload(rest.blocks) && Payload(rest) == Payload(p)[n..] == Payload(b)[p.offset + n..p.offset + Length(p)]
    ensures PieceOf(rest, b)
  {
    FlagTwice(b.flags);
    LaterOffset(p.offset, n, Length(p), Length(b));
    LaterBlocks(b, p, Payload(p));
    RestOf(b, p, n, rest);
  }

  lemma {:induction false} LaterOffset(offset: nat, n: nat, length: nat, size: nat)
    requires n <= length && offset + length <= size < U32
    ensures Add32(offset, n) == offset + n
  {
  }

  lemma {:induction false} RestOf(b: Bundle, p: Bundle, n: nat, rest: Bundle)
    requires PieceOf(p, b) && 0 < n < Length(p) && HasPayload(rest.blocks)
    requires Payload(rest) == Payload(p)[n..] == Payload(b)[p.offset + n..p.offset + Length(p)]
    requires SameHeaders(rest, p) && rest.flags == SetFragment(b.flags) && rest.total == Length(b) && rest.offset == p.offset + n
    requires rest.blocks == Replicated(b.blocks) + [NewPayload(Payload(rest))]
    ensures PieceOf(rest, b)
  {
  }

  /** The two halves of a piece are pieces of the same bundle. */
  lemma {:induction false} LaterCut(b: Bundle, p: Bundle, n: nat, first: Bundle, rest: Bundle)
    requires Whole(b) && PieceOf(p, b) && 0 < n < Length(p) && Halves(p, n, first, rest)
    ensures PieceOf(first, b) && PieceOf(rest, b)
    ensures first.offset == p.offset && rest.offset == p.offset + n && Length(first) == n && n + Length(rest) == Length(p)
  {
    LaterPayloads(b, p, n, first, rest);
    LaterFirst(b, p, n, first, rest);
    LaterRest(b, p, n, first, rest);
  }

  lemma {:induction false} LaterPayloads(b: Bundle, p: Bundle, n: nat, first: Bundle, rest: Bundle)
    requires Whole(b) && PieceOf(p, b) && 0 < n < Length(p) && Halves(p, n, first, rest)
    ensures HasPayload(first.blocks) && Payload(first) == Payload(p)[..n] == Payload(b)[p.offset..p.offset + n]
    ensures HasPayload(rest.blocks) && Payload(rest) == Payload(p)[n..] == Payload(b)[p.offset + n..p.offset + Length(p)]
    ensures first.offset == p.offset && rest.offset == p.offset + n && Length(first) == n && n + Length(rest) == Length(p)
  {
    HalvesPayload(p, n, first, rest);
    HalvesPlaces(p, n, first, rest, Length(b));
    SubSlice(Payload(b), p.offset, Length(p), Payload(p), n);
  }

  lemma {:induction false} HalvesPlaces(p: Bundle, n: nat, first: Bundle, rest: Bundle, size: nat)
    requires Halves(p, n, first, rest) && p.offset + Length(p) <= size < U32
    ensures first.offset == p.offset && rest.offset == p.offset + n
  {
    LaterOffset(p.offset, n, Length(p), size);
  }

  ghost predicate PiecesOf(pieces: seq<Bundle>, b: Bundle) {
    Partition(pieces, Length(b)) && if |pieces| == 1 then pieces[0] == b else forall i :: 0 <= i < |pieces| ==> PieceOf(pieces[i], b)
  }

  lemma {:induction false} SplitIsHalves(scan: Scan, b: Bundle, n: nat)
    requires HasPayload(b.blocks) && n <= Length(b)
    ensures Halves(b, n, FirstPart(scan, b, n), Rest(scan, b, n))
  {
  }

  lemma {:induction false} CutHalves(scan: Scan, before: seq<Bundle>, after: seq<Bundle>) returns (i: nat, n: nat, first: Bundle, rest: Bundle)
    requires CutSomewhere(scan, before, after)
    ensures i < |before| && 0 < n < Length(before[i]) && Halves(before[i], n, first, rest)
    ensures after == before[..i] + [first, rest] + before[i + 1..]
  {
    var k: nat, firstMax: nat :| Cut(scan, before, after, k, firstMax);
    i, n := k, Share(before[k], firstMax);
    SplitIsHalves(scan, before[i], n);
    first, rest := FirstPart(scan, before[i], n), Rest(scan, before[i], n);
  }

  lemma {:induction false} CutKeepsPieces(scan: Scan, b: Bundle, before: seq<Bundle>, after: seq<Bundle>)
    requires Whole(b) && PiecesOf(before, b) && CutSomewhere(scan, before, after)
    ensures PiecesOf(after, b) && |after| == |before| + 1
  {
    var i, n, first, rest := CutHalves(scan, before, after);
    if |before| == 1 {
      FirstCut(b, n, first, rest);
    } else {
      LaterCut(b, before[i], n, first, rest);
    }
    Replaced(before, after, i, first, rest, Length(b));
    AllPieces(b, before, after, i, first, rest);
  }

  lemma {:induction false} AllPieces(b: Bundle, before: seq<Bundle>, after: seq<Bundle>, i: nat, first: Bundle, rest: Bundle)
    requires i < |before| && after == before[..i] + [first, rest] + before[i + 1..] && PieceOf(first, b) && PieceOf(rest, b)
    requires |before| > 1 ==> forall j :: 0 <= j < |before| ==> PieceOf(before[j], b)
    ensures forall j :: 0 <= j < |after| ==> PieceOf(after[j], b)
  {
    forall j | 0 <= j < |after| ensures PieceOf(after[j], b) {
      if j < i { assert after[j] == before[j]; }
      if j > i + 1 { assert after[j] == before[j - 1]; }
    }
  }

  /** Replacing an interval by two that lie side by side and make it up. */
  lemma {:induction false} Replaced(before: seq<Bundle>, after: seq<Bundle>, i: nat, x: Bundle, y: Bundle, size: nat)
    requires i < |before| && Partition(before, size) && after == before[..i] + [x, y] + before[i + 1..]
    requires x.offset == before[i].offset && y.offset == x.offset + Length(x) && Length(x) + Length(y) == Length(before[i])
    ensures Partition(after, size)
    ensures forall j :: 0 <= j < |after| ==> after[j] == (if j < i then before[j] else if j == i then x else if j == i + 1 then y else before[j - 1])
  {
    forall j | 0 <= j < |after| - 1 ensures after[j + 1].offset == after[j].offset + Length(after[j]) {
      if j < i - 1 || j == i - 1 { assert before[j + 1].offset == before[j].offset + Length(before[j]); }
      if j > i { assert before[j].offset == before[j - 1].offset + Length(before[j - 1]); }
    }
  }

  /** However often and in whatever order a bundle is split, the pieces are a partition of its payload, with the right blocks. */
  lemma {:induction false} CutsKeepPieces(scan: Scan, b: Bundle, history: seq<seq<Bundle>>)
    requires Whole(b) && history != [] && history[0] == [b] && Cuts(scan, history)
    ensures PiecesOf(history[|history| - 1], b) && |history[|history| - 1]| == |history|
  {
    if |history| > 1 {
      var n := |history| - 2;
      CutsKeepPieces(scan, b, history[..n + 1]);
      CutKeepsPieces(scan, b, history[n], history[n + 1]);
    }
  }

  // ---------------------------------------------------------------- End to end

  lemma {:induction false} FlagKept(flags: nat)
    ensures HasFlag(SetFragment(flags), FLAG_ADMINISTRATIVE_RECORD) == HasFlag(flags, FLAG_ADMINISTRATIVE_RECORD)
    ensures HasFlag(SetFragment(flags), FLAG_IS_FRAGMENT)
  {
    if !HasFlag(flags, FLAG_IS_FRAGMENT) { EvenFlags(flags / 2); }
  }

  lemma {:induction false} EvenFlags(half: nat)
    ensures (2 * half + 1) / 2 == half && (2 * half) / 2 == half && (2 * half + 1) % 2 == 1
  {
  }

  lemma {:induction false} ShorterThanWhole(pieces: seq<Bundle>, b: Bundle, i: nat)
    requires PiecesOf(pieces, b) && |pieces| >= 2 && i < |pieces|
    ensures PieceOf(pieces[i], b) && 0 < Length(pieces[i]) < Length(b)
  {
    assert PieceOf(pieces[i], b) && PieceOf(pieces[0], b) && PieceOf(pieces[1], b);
    if Length(pieces[i]) == Length(b) {
      assert pieces[i].offset == 0;
      assert pieces[1].offset == Length(pieces[0]);
      Increasing(pieces, b, i);
    }
  }

  lemma {:induction false} Increasing(pieces: seq<Bundle>, b: Bundle, i: nat)
    requires PiecesOf(pieces, b) && |pieces| >= 2 && i < |pieces|
    ensures i > 0 ==> pieces[i].offset > 0
  {
    if i > 1 { Increasing(pieces, b, i - 1); }
    if i > 0 { assert PieceOf(pieces[i - 1], b); }
  }

  lemma {:induction false} PiecesAreTarget(local: string, b: Bundle, pieces: seq<Bundle>)
    requires Whole(b) && PiecesOf(pieces, b) && |pieces| >= 2
    requires |local| > 0 && b.creation != 0 && Deliverable(local, b.flags, b.destination)
    ensures Target(local, pieces, Payload(b)).Valid()
  {
    var t := Target(local, pieces, Payload(b));
    ShorterThanWhole(pieces, b, 0);
    forall i | 0 <= i < |pieces| ensures t.PieceOk(pieces[i]) {
      ShorterThanWhole(pieces, b, i);
      PieceIsOk(t, b, pieces[i]);
    }
  }

  lemma {:induction false} PieceIsOk(t: Target, b: Bundle, p: Bundle)
    requires Whole(b) && t.adu == Payload(b) && t.pieces != [] && PieceOf(t.pieces[0], b) && PieceOf(p, b) && Length(p) < Length(b)
    requires |t.local| > 0 && b.creation != 0 && Deliverable(t.local, b.flags, b.destination)
    ensures t.PieceOk(p)
  {
    FlagKept(b.flags);
  }

  /** What is delivered does not show that the bundle was split. */
  lemma {:induction false} PieceAdu(b: Bundle, p: Bundle)
    requires Whole(b) && PieceOf(p, b)
    ensures AduOf(p, Payload(b)) == AduOf(b, Payload(b))
  {
    FlagCleared(b.flags);
  }

  lemma {:induction false} FlagCleared(flags: nat)
    ensures ClearFragment(SetFragment(flags)) == ClearFragment(flags)
  {
  }

  /**
   A bundle split any number of times is delivered once, whatever the order, the duplicates and the
   other traffic in which its fragments arrive, if all of them arrive in time; otherwise it is not. It is
   delivered with the last fragment missing, and as if it had not been split.
   */
  lemma {:induction false} FragmentedDeliveredOnce(scan: Scan, local: string, b: Bundle, history: seq<seq<Bundle>>, events: seq<Event>)
    requires Whole(b) && |history| >= 2 && history[0] == [b] && Cuts(scan, history)
    requires |local| > 0 && b.creation != 0 && Deliverable(local, b.flags, b.destination)
    requires var pieces := history[|history| - 1]; pieces != [] && Traffic(Target(local, pieces, Payload(b)), events)
    ensures var t := Target(local, history[|history| - 1], Payload(b));
            && Deliveries(t, events) == (if Seen(t, events) == t.All() then 1 else 0)
            && forall n :: 0 <= n < |events| && events[n].bundle in t.pieces ==> DeliversAt(t, events, n, AduOf(b, Payload(b)))
  {
    var t := Target(local, history[|history| - 1], Payload(b));
    CutsKeepPieces(scan, b, history);
    PiecesAreTarget(local, b, t.pieces);
    ExactlyOnce(t, events);
    PieceAdu(b, t.Head());
    forall n | 0 <= n < |events| && events[n].bundle in t.pieces ensures DeliversAt(t, events, n, AduOf(b, Payload(b))) {
      EveryPieceDelivers(t, events, n);
    }
  }
}
