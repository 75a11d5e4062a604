/** The byte-driven BPv6 parser. */
module Bundle6Parser {
  import opened Wrappers
  import opened Bundles
  import Sdnv
  import opened Bundle6

  /**
   The parser's stages. The numbers of the primary block are stages `Field(0)` to `Field(15)`: flags,
   block length, eight dictionary offsets, creation time, sequence number, lifetime, dictionary length,
   and after the dictionary fragment offset and total length.
   */
  datatype Stage =
    | Version | Field(k: nat) | Dict
    | BlockType | BlockFlags | RefCount | RefScheme | RefSsp | DataLength | BlockData
    | Finished

  datatype Status = Good | Done | Error

  const FIELD_LENGTH: nat := 1
  const FIELD_CREATION: nat := 10
  const FIELD_SEQUENCE: nat := 11
  const FIELD_LIFETIME: nat := 12
  const FIELD_DICT_LENGTH: nat := 13
  const FIELD_OFFSET: nat := 14
  const FIELD_TOTAL: nat := 15

  function WidthOf(k: nat): Sdnv.Width {
    if k == 0 || k >= FIELD_OFFSET then Sdnv.U32
    else if FIELD_CREATION <= k <= FIELD_LIFETIME then Sdnv.U64
    else Sdnv.U16
  }

  /**
   The quota, and what is read at every reset: the storage then in use, plus the size of the bundle
   structure, is any number at all; `round` counts the resets.
   */
  datatype Limits = Limits(quota: nat, usage: nat -> nat, round: nat) {
    function Base(): nat { usage(round) }

    function Next(): Limits { this.(round := round + 1) }
  }

  /**
   `struct bundle6_parser`. `fields` are the numbers of the primary block read so far, `next` and
   `buffer` belong to the bulk read that `bulk` requests, and `sent` is what the callback was given.
   */
  datatype State = State(
    status: Status, stage: Stage, sdnv: Sdnv.State, countdown: nat,
    version: Byte, fields: seq<nat>, dict: seq<Byte>, left: nat, eids: seq<Eid>,
    limits: Limits, size: nat, index: nat, scheme: nat,
    block: Block6, last: bool, blocks: seq<Block6>,
    bulk: bool, next: nat, buffer: seq<Byte>,
    sent: seq<Bundle6>)

  /** `bundle6_parser_reset` */
  function Fresh(limits: Limits, sent: seq<Bundle6>): State {
    State(Good, Version, Sdnv.Reset(0), 0, 6, [], [], 0, [], limits, limits.Base(), 0, 0, Block6(0, 0, [], []), false, [], false, 0, [], sent)
  }

  predicate Primary(stage: Stage) { stage.Version? || stage.Field? || stage.Dict? }

  predicate LengthKnown(stage: Stage) { !stage.Version? && (stage.Field? ==> stage.k > FIELD_LENGTH) }

  predicate IsNumber(stage: Stage) {
    stage.Field? || stage.BlockFlags? || stage.RefCount? || stage.RefScheme? || stage.RefSsp? || stage.DataLength?
  }

  function WidthAt(stage: Stage): Sdnv.Width {
    match stage
    case Field(k) => WidthOf(k)
    case BlockFlags => Sdnv.U8
    case RefScheme => Sdnv.U16
    case RefSsp => Sdnv.U16
    case _ => Sdnv.U32
  }

  /** Which of the structure's parts are filled in at which stage. */
  predicate Valid(s: State) {
    match s.stage
    case Version => s.fields == []
    case Field(k) => |s.fields| == k <= FIELD_TOTAL
    case Dict => |s.fields| == 14
    case _ => |s.fields| >= 14
  }

  // ---------------------------------------------------------------- One byte

  function Failed(s: State): State { s.(status := Error) }

  /** Entering a stage; the SDNV reader is ready for the next number. */
  function Enter(s: State, stage: Stage): State { s.(stage := stage, sdnv := Sdnv.Reset(0)) }

  function ReadEids(dict: seq<Byte>, fields: seq<nat>): (r: seq<Eid>)
    requires |fields| >= 10
    ensures |r| == 4
  {
    seq(4, i requires 0 <= i < 4 => ReadEid(dict, fields[2 + 2 * i], fields[3 + 2 * i]))
  }

  /** The bundle as far as it was parsed; times are read in seconds and kept in milliseconds. */
  function BundleOf(s: State): Bundle6
    requires |s.fields| >= 14
  {
    Bundle6(s.version, s.fields[0], s.eids,
            s.fields[FIELD_CREATION] * 1000 % U64, s.fields[FIELD_SEQUENCE], s.fields[FIELD_LIFETIME] * 1000 % U64,
            if |s.fields| > FIELD_TOTAL then s.fields[FIELD_OFFSET] else 0,
            if |s.fields| > FIELD_TOTAL then s.fields[FIELD_TOTAL] else 0,
            s.fields[FIELD_LENGTH], s.blocks)
  }

  predicate HasPayload(blocks: seq<Block6>) { exists i :: 0 <= i < |blocks| && blocks[i].kind == BLOCK_TYPE_PAYLOAD }

  /** A number of the primary block is complete. */
  function AfterField(s: State, k: nat, v: nat): (r: State)
    requires |s.fields| == k <= FIELD_TOTAL
    ensures Valid(r)
  {
    var s1 := s.(fields := s.fields + [v]);
    if k == FIELD_LENGTH then Enter(s1, Field(2)).(countdown := v)
    else if k == FIELD_DICT_LENGTH then
      var size := (s.size + v + 1) % U32;
      if v == 0 || size > s.limits.quota then Failed(Enter(s1, Dict))
      else Enter(s1, Dict).(dict := [], left := v, size := size)
    else if k == FIELD_TOTAL then Enter(s1, BlockType)
    else Enter(s1, Field(k + 1))
  }

  /** A number is complete. The count of references is kept where the size used to be. */
  function AfterNumber(s: State, v: nat): (r: State)
    requires IsNumber(s.stage) && Valid(s)
    ensures Valid(r)
  {
    match s.stage
    case Field(k) => AfterField(s, k, v)
    case BlockFlags =>
      var s1 := s.(block := s.block.(flags := v), last := HasFlag(v, BLOCK_FLAG_LAST));
      Enter(s1, if HasFlag(v, BLOCK_FLAG_HAS_EID_REFS) then RefCount else DataLength)
    case RefCount => Enter(s.(size := v, index := 0), if v == 0 then DataLength else RefScheme)
    case RefScheme => Enter(s.(scheme := v), RefSsp)
    case RefSsp =>
      var eid := ReadEid(s.dict, s.scheme, v);
      var s1 := s.(block := s.block.(refs := [eid] + s.block.refs), index := s.index + 1);
      if eid.None? then Failed(Enter(s1, RefScheme)) else Enter(s1, if s1.index == s.size then DataLength else RefScheme)
    case DataLength =>
      var size := (s.size + v) % U32;
      var s1 := Enter(s, BlockData).(next := v, size := size, buffer := []);
      if size > s.limits.quota then Failed(s1) else s1.(bulk := true)
  }

  /** The dictionary is complete. */
  function AfterDict(s: State): (r: State)
    requires Valid(s) && s.stage.Dict?
    ensures Valid(r)
  {
    var s1 := s.(eids := ReadEids(s.dict, s.fields));
    if exists i :: 0 <= i < 4 && s1.eids[i].None? then Failed(s1)
    else Enter(s1, if Fragment(s.fields[0]) then Field(FIELD_OFFSET) else BlockType)
  }

  /** The content of a block is complete; after the last block the bundle is sent, if it has a payload. */
  function EndBlock(s: State): (r: State)
    requires Valid(s) && s.stage.BlockData?
    ensures Valid(r)
  {
    var s1 := s.(blocks := s.blocks + [s.block.(data := s.buffer)]);
    if s.last then s1.(stage := Finished, status := Done, sent := if HasPayload(s1.blocks) then s.sent + [BundleOf(s1)] else s.sent)
    else Enter(s1, BlockType)
  }

  function Tick(countdown: nat): nat { if countdown == 0 then U16 - 1 else countdown - 1 }

  /** A byte of a number. */
  function NumberByte(s: State, byte: Byte): (r: State)
    requires Valid(s) && IsNumber(s.stage)
    ensures Valid(r)
  {
    var n := Sdnv.Feed(WidthAt(s.stage), s.sdnv, byte);
    match n.status
    case InProgress => s.(sdnv := n)
    case Done => AfterNumber(s, n.value)
    case Error => Failed(s)
  }

  /** A byte that is not part of a number. */
  function OtherByte(s: State, byte: Byte): (r: State)
    requires Valid(s) && !IsNumber(s.stage)
    ensures Valid(r)
  {
    match s.stage
    case Version => Enter(s.(version := byte), Field(0))
    case Dict =>
      var s1 := s.(dict := s.dict + [byte], left := if s.left > 0 then s.left - 1 else U32 - 1);
      if s1.left == 0 then AfterDict(s1) else s1
    case BlockType => Enter(s.(block := Block6(byte, 0, [], [])), BlockFlags)
    case BlockData => EndBlock(s)
    case _ => Failed(s)
  }

  /** `bundle6_parser_read_byte` with `bundle6_parser_next` */
  function ReadByte(s: State, byte: Byte): (r: State)
    requires Valid(s)
    ensures Valid(r)
  {
    if Primary(s.stage) && LengthKnown(s.stage) && s.countdown == 0 then Failed(s)
    else
      var s1 := if Primary(s.stage) then s.(countdown := Tick(s.countdown)) else s;
      if IsNumber(s.stage) then NumberByte(s1, byte) else OtherByte(s1, byte)
  }

  // ---------------------------------------------------------------- The reference: every byte on its own

  /** An empty block needs no further byte. */
  function Settle(s: State): (r: State)
    requires Valid(s)
    ensures Valid(r)
  {
    if s.status == Good && s.stage.BlockData? && s.bulk && s.next == 0 then ReadByte(s.(bulk := false), 0) else s
  }

  function Feed(s: State, byte: Byte): (r: State)
    requires Valid(s)
    ensures Valid(r)
  {
    if s.status != Good then s
    else if s.bulk then
      var s1 := s.(buffer := s.buffer + [byte]);
      if |s1.buffer| == s.next then ReadByte(s1.(bulk := false), 0) else s1
    else Settle(ReadByte(s, byte))
  }

  /** A parser that takes one byte after the other. */
  function Run(s: State, bytes: seq<Byte>): (r: State)
    requires Valid(s)
    ensures Valid(r)
  {
    if bytes == [] then s else Feed(Run(s, bytes[..|bytes| - 1]), bytes[|bytes| - 1])
  }

  lemma {:induction false} RunAppend(s: State, a: seq<Byte>, b: seq<Byte>)
    requires Valid(s)
    ensures Run(s, a + b) == Run(Run(s, a), b)
    decreases |b|
  {
    if b == [] {
      assert a + b == a;
    } else {
      var n := |b| - 1;
      assert (a + b)[..|a + b| - 1] == a + b[..n];
      RunAppend(s, a, b[..n]);
    }
  }

  lemma {:induction false} RunStuck(s: State, bytes: seq<Byte>)
    requires Valid(s) && s.status != Good
    ensures Run(s, bytes) == s
  {
    if bytes != [] { RunStuck(s, bytes[..|bytes| - 1]); }
  }
}
