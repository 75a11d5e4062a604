/** Bundles as the node holds them in memory, and the parts of them that other components ask for. */
module Bundles {

  type Byte = b: int | 0 <= b < 256

  const U16: nat := 0x1_0000
  const U32: nat := 0x1_0000_0000
  const U64: nat := 0x1_0000_0000_0000_0000

  /** Addition in 32 bits. */
  function Add32(x: nat, y: nat): nat { if x + y < U32 then x + y else (x + y) % U32 }

  const BLOCK_TYPE_PAYLOAD: nat := 1

  /** An extension block or the payload block; `data` is the block-type-specific content. */
  datatype Block = Block(kind: nat, number: nat, flags: nat, crcType: nat, data: seq<Byte>)

  datatype Bundle = Bundle(
    version: nat, flags: nat, crcType: nat,
    destination: string, source: string, reportTo: string,
    creation: nat, sequence: nat, lifetime: nat,
    offset: nat, total: nat, primaryLength: nat,
    blocks: seq<Block>)

  /** HAS_FLAG for the flag with value `bit`, a power of two. */
  predicate HasFlag(flags: nat, bit: nat)
    requires bit > 0
  {
    flags / bit % 2 == 1
  }

  /** `x & y` */
  function BitAnd(x: nat, y: nat): (r: nat)
    ensures r <= y && r <= x
    decreases x
  {
    if x == 0 || y == 0 then 0 else 2 * BitAnd(x / 2, y / 2) + if x % 2 == 1 && y % 2 == 1 then 1 else 0
  }

  const FLAG_IS_FRAGMENT: nat := 1
  const FLAG_ADMINISTRATIVE_RECORD: nat := 2
  const BLOCK_FLAG_MUST_BE_REPLICATED: nat := 1

  predicate IsFragment(b: Bundle) { HasFlag(b.flags, FLAG_IS_FRAGMENT) }

  /** `flags |= BUNDLE_FLAG_IS_FRAGMENT` */
  function SetFragment(flags: nat): nat { if HasFlag(flags, FLAG_IS_FRAGMENT) then flags else flags + FLAG_IS_FRAGMENT }

  /** `flags & ~BUNDLE_FLAG_IS_FRAGMENT` */
  function ClearFragment(flags: nat): nat { if HasFlag(flags, FLAG_IS_FRAGMENT) then flags - FLAG_IS_FRAGMENT else flags }

  /** The blocks end with the payload block, which is the only one of its type. */
  ghost predicate PayloadLast(blocks: seq<Block>) {
    && |blocks| > 0 && blocks[|blocks| - 1].kind == BLOCK_TYPE_PAYLOAD
    && forall i :: 0 <= i < |blocks| - 1 ==> blocks[i].kind != BLOCK_TYPE_PAYLOAD
  }

  /** What `payload_block->data` points to: the content of the first payload block, if there is one. */
  function PayloadOf(blocks: seq<Block>): seq<Byte> {
    if blocks == [] then []
    else if blocks[0].kind == BLOCK_TYPE_PAYLOAD then blocks[0].data
    else PayloadOf(blocks[1..])
  }

  function Payload(b: Bundle): seq<Byte> { PayloadOf(b.blocks) }

  lemma {:induction false} PayloadIsLast(blocks: seq<Block>)
    requires PayloadLast(blocks)
    ensures PayloadOf(blocks) == blocks[|blocks| - 1].data
  {
    if blocks[0].kind != BLOCK_TYPE_PAYLOAD {
      PayloadIsLast(blocks[1..]);
    }
  }

  /** `bundle_get_expiration_time_s`: 64-bit arithmetic, both parts rounded to seconds. */
  function Deadline(b: Bundle, now: nat): nat {
    ((if b.creation != 0 then (b.creation + 500) % U64 / 1000 else now) + (b.lifetime + 500) % U64 / 1000) % U64
  }

  // ---------------------------------------------------------------- Numbers in network byte order

  /** `n` in `k` bytes, most significant first. */
  function BigEndian(n: nat, k: nat): (r: seq<Byte>)
    ensures |r| == k
  {
    if k == 0 then [] else BigEndian(n / 256, k - 1) + [n % 256]
  }

  function FromBigEndian(s: seq<Byte>): nat {
    if s == [] then 0 else FromBigEndian(s[..|s| - 1]) * 256 + s[|s| - 1]
  }

  function Pow256(k: nat): nat { if k == 0 then 1 else 256 * Pow256(k - 1) }

  /** A number is read back. */
  lemma {:induction false} BigEndianRead(n: nat, k: nat)
    requires n < Pow256(k)
    ensures FromBigEndian(BigEndian(n, k)) == n
  {
    if k > 0 {
      BigEndianRead(n / 256, k - 1);
      assert BigEndian(n, k)[..k - 1] == BigEndian(n / 256, k - 1);
    }
  }

  lemma {:induction false} Powers256()
    ensures Pow256(1) == 0x100 && Pow256(2) == U16 && Pow256(4) == U32 && Pow256(8) == U64
  {
    assert Pow256(4) == 0x1_0000_0000;
    assert Pow256(8) == 0x100 * (0x100 * (0x100 * (0x100 * Pow256(4))));
  }
}
