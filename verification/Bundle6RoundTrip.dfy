/** The BPv6 parser reads back what the serializer writes. */
module Bundle6RoundTrip {
  import opened Wrappers
  import opened Chains
  import opened Bundles
  import Sdnv
  import opened Bundle6
  import opened Bundle6Parser

  // ---------------------------------------------------------------- Runs

  /** One byte, taken by a parser that has neither finished nor failed. */
  ghost predicate Next(s: State, byte: Byte, t: State) { Valid(s) && s.status == Good && Feed(s, byte) == t }

  ghost predicate IsTrace(trace: seq<State>, bytes: seq<Byte>) {
    |trace| == |bytes| + 1
    && forall i {:trigger Next(trace[i], bytes[i], trace[i + 1])} :: 0 <= i < |bytes| ==> Next(trace[i], bytes[i], trace[i + 1])
  }

  /** The bytes take the parser from `s` to `t`. */
  ghost predicate Goes(s: State, bytes: seq<Byte>, t: State) { Leads(Next, s, bytes, t) }

  lemma {:induction false} TraceIsLinked(trace: seq<State>, bytes: seq<Byte>)
    ensures IsTrace(trace, bytes) == Linked(Next, trace, bytes)
  {
  }

  lemma {:induction false} GoesTrace(trace: seq<State>, bytes: seq<Byte>)
    requires |trace| == |bytes| + 1 && forall i :: 0 <= i < |bytes| ==> Next(trace[i], bytes[i], trace[i + 1])
    ensures Goes(trace[0], bytes, trace[|bytes|])
  {
    TraceIsLinked(trace, bytes);
  }

  lemma {:induction false} TraceOf(s: State, bytes: seq<Byte>, t: State) returns (trace: seq<State>)
    requires Goes(s, bytes, t)
    ensures IsTrace(trace, bytes) && trace[0] == s && trace[|bytes|] == t
  {
    trace :| Linked(Next, trace, bytes) && trace[0] == s && trace[|bytes|] == t;
    TraceIsLinked(trace, bytes);
  }

  lemma {:induction false} GoesNowhere(s: State)
    ensures Goes(s, [], s)
  {
    LeadsNowhere<State, Byte>(Next, s);
  }

  lemma {:induction false} GoesByte(s: State, byte: Byte, t: State)
    requires Next(s, byte, t)
    ensures Goes(s, [byte], t)
  {
    LeadsOnce(Next, s, byte, t);
  }

  lemma {:induction false} GoesOn(s: State, a: seq<Byte>, t: State, b: seq<Byte>, u: State)
    requires Goes(s, a, t) && Goes(t, b, u)
    ensures Goes(s, a + b, u)
  {
    LeadsOn(Next, s, a, t, b, u);
  }

  lemma {:induction false} GoesRuns(s: State, bytes: seq<Byte>, t: State)
    requires Goes(s, bytes, t) && Valid(s)
    ensures Run(s, bytes) == t
  {
    var trace := TraceOf(s, bytes, t);
    TraceRuns(trace, bytes, |bytes|);
    assert bytes[..|bytes|] == bytes;
  }

  lemma {:induction false} TraceRuns(trace: seq<State>, bytes: seq<Byte>, n: nat)
    requires IsTrace(trace, bytes) && Valid(trace[0]) && n <= |bytes|
    ensures Run(trace[0], bytes[..n]) == trace[n]
  {
    if n > 0 {
      var m := n - 1;
      TraceRuns(trace, bytes, m);
      assert bytes[..n][..m] == bytes[..m];
      assert Next(trace[m], bytes[m], trace[m + 1]);
    }
  }

  // ---------------------------------------------------------------- Numbers

  /** The parser waits for something and has no bulk read pending. */
  ghost predicate Ready(s: State) { Valid(s) && s.status == Good && !s.bulk }

  function Ticks(countdown: nat, n: nat): nat { if n == 0 then countdown else Tick(Ticks(countdown, n - 1)) }

  lemma {:induction false} TicksDown(countdown: nat, n: nat)
    requires n <= countdown
    ensures Ticks(countdown, n) == countdown - n
  {
    if n > 0 { TicksDown(countdown, n - 1); }
  }

  function Counted(s: State, n: nat): State { if Primary(s.stage) then s.(countdown := Ticks(s.countdown, n)) else s }

  /** There is room for `n` bytes in what was announced as the length of the primary block. */
  predicate Room(s: State, n: nat) { Primary(s.stage) && LengthKnown(s.stage) ==> n <= s.countdown }

  ghost predicate AtNumber(s: State) { Ready(s) && IsNumber(s.stage) && s.sdnv == Sdnv.Reset(0) }

  function Within(s: State, v: nat, n: nat): State
    requires n <= |Sdnv.Encode(v)|
  {
    Counted(s, n).(sdnv := Sdnv.FeedAll(WidthAt(s.stage), Sdnv.Reset(0), Sdnv.Encode(v)[..n]))
  }

  lemma {:induction false} NumberStep(s: State, n: nat, sdnv: Sdnv.State, byte: Byte)
    requires AtNumber(s) && Room(s, n + 1)
    ensures Feed(Counted(s, n).(sdnv := sdnv), byte) == Settle(NumberByte(Counted(s, n + 1).(sdnv := sdnv), byte))
  {
    if Primary(s.stage) && LengthKnown(s.stage) { TicksDown(s.countdown, n); }
  }

  lemma {:induction false} NumberByteWithin(s: State, v: nat, n: nat)
    requires AtNumber(s) && v < WidthAt(s.stage).Limit() && n + 1 < |Sdnv.Encode(v)| && Room(s, n + 1)
    ensures Next(Within(s, v, n), Sdnv.Encode(v)[n], Within(s, v, n + 1))
  {
    var w, bytes := WidthAt(s.stage), Sdnv.Encode(v);
    Sdnv.WithinEncoding(w, v, n);
    Sdnv.WithinEncoding(w, v, n + 1);
    NumberStep(s, n, Sdnv.FeedAll(w, Sdnv.Reset(0), bytes[..n]), bytes[n]);
  }

  lemma {:induction false} NumberLastByte(s: State, v: nat, t: State)
    requires AtNumber(s) && v < WidthAt(s.stage).Limit() && Room(s, |Sdnv.Encode(v)|)
    requires Settle(AfterNumber(Counted(s, |Sdnv.Encode(v)|), v)) == t
    ensures Next(Within(s, v, |Sdnv.Encode(v)| - 1), Sdnv.Encode(v)[|Sdnv.Encode(v)| - 1], t)
  {
    var w, bytes := WidthAt(s.stage), Sdnv.Encode(v);
    var n := |bytes| - 1;
    Sdnv.WithinEncoding(w, v, n);
    var sdnv := Sdnv.FeedAll(w, Sdnv.Reset(0), bytes[..n]);
    NumberStep(s, n, sdnv, bytes[n]);
    SdnvForgotten(Counted(s, n + 1), sdnv, v);
  }

  lemma {:induction false} SdnvForgotten(s: State, sdnv: Sdnv.State, v: nat)
    requires Valid(s) && IsNumber(s.stage) && s.sdnv == Sdnv.Reset(0)
    ensures AfterNumber(s.(sdnv := sdnv), v) == AfterNumber(s, v)
  {
    if s.stage.Field? { FieldForgets(s, sdnv, s.stage.k, v); } else { BlockForgets(s, sdnv, v); }
  }

  lemma {:induction false} BlockForgets(s: State, sdnv: Sdnv.State, v: nat)
    requires Valid(s) && IsNumber(s.stage) && !s.stage.Field?
    ensures AfterNumber(s.(sdnv := sdnv), v) == AfterNumber(s, v)
  {
    match s.stage
    case BlockFlags =>
    case RefCount =>
    case RefScheme =>
    case RefSsp =>
    case DataLength =>
  }

  lemma {:induction false} FieldForgets(s: State, sdnv: Sdnv.State, k: nat, v: nat)
    requires |s.fields| == k <= FIELD_TOTAL
    ensures AfterField(s.(sdnv := sdnv), k, v) == AfterField(s, k, v)
  {
  }

  /** An encoded number takes the parser to what follows the number. */
  lemma {:induction false} NumberGoes(s: State, v: nat, t: State)
    requires AtNumber(s) && v < WidthAt(s.stage).Limit() && Room(s, |Sdnv.Encode(v)|)
    requires Settle(AfterNumber(Counted(s, |Sdnv.Encode(v)|), v)) == t
    ensures Goes(s, Sdnv.Encode(v), t)
  {
    var bytes := Sdnv.Encode(v);
    var n := |bytes|;
    var trace := seq(n, i requires 0 <= i < n => Within(s, v, i)) + [t];
    forall i | 0 <= i < n ensures Next(trace[i], bytes[i], trace[i + 1]) {
      if i + 1 < n { NumberByteWithin(s, v, i); } else { NumberLastByte(s, v, t); }
    }
    assert trace[0] == s by { assert bytes[..0] == []; }
    GoesTrace(trace, bytes);
  }

  // ---------------------------------------------------------------- The primary block

  /** Numbers between the block length and the dictionary length only pile up. */
  ghost predicate Plain(k: nat, values: seq<nat>) {
    2 <= k && k + |values| <= FIELD_DICT_LENGTH && forall i :: 0 <= i < |values| ==> values[i] < WidthOf(k + i).Limit()
  }

  function Piled(s: State, k: nat, values: seq<nat>, used: nat): State
    requires used <= s.countdown
  {
    s.(stage := Field(k + |values|), fields := s.fields + values, countdown := s.countdown - used)
  }

  lemma {:induction false} OneMoreNumber(s: State, k: nat, before: seq<nat>, v: nat, used: nat)
    requires AtNumber(s) && s.stage == Field(k) && 2 <= k && k + |before| < FIELD_DICT_LENGTH && v < WidthOf(k + |before|).Limit()
    requires used + |Sdnv.Encode(v)| <= s.countdown
    ensures Goes(Piled(s, k, before, used), Sdnv.Encode(v), Piled(s, k, before + [v], used + |Sdnv.Encode(v)|))
  {
    var t := Piled(s, k, before, used);
    TicksDown(t.countdown, |Sdnv.Encode(v)|);
    assert s.fields + before + [v] == s.fields + (before + [v]);
    NumberGoes(t, v, Piled(s, k, before + [v], used + |Sdnv.Encode(v)|));
  }

  lemma {:induction false} PlainNumbers(s: State, k: nat, values: seq<nat>)
    requires AtNumber(s) && s.stage == Field(k) && Plain(k, values) && |EncodeAll(values)| <= s.countdown
    ensures Goes(s, EncodeAll(values), Piled(s, k, values, |EncodeAll(values)|))
    decreases |values|
  {
    if values == [] {
      assert s.fields + values == s.fields;
      GoesNowhere(s);
    } else {
      var n := |values| - 1;
      var before, v := values[..n], values[n];
      assert before + [v] == values;
      EncodeAllStep(values);
      PlainNumbers(s, k, before);
      OneMoreNumber(s, k, before, v, |EncodeAll(before)|);
      GoesOn(s, EncodeAll(before), Piled(s, k, before, |EncodeAll(before)|), Sdnv.Encode(v), Piled(s, k, values, |EncodeAll(values)|));
    }
  }

  function DictState(s: State, dict: seq<Byte>, n: nat): State
    requires n <= |dict| <= s.countdown
  {
    s.(dict := dict[..n], left := |dict| - n, countdown := s.countdown - n)
  }

  lemma {:induction false} DictByte(s: State, byte: Byte)
    requires Ready(s) && s.stage.Dict? && 0 < s.left && 0 < s.countdown
    ensures var t := s.(dict := s.dict + [byte], left := s.left - 1, countdown := s.countdown - 1);
            Feed(s, byte) == if s.left > 1 then t else AfterDict(t)
  {
  }

  lemma {:induction false} DictStep(s: State, dict: seq<Byte>, n: nat)
    requires Ready(s) && s.stage.Dict? && n < |dict| <= s.countdown
    ensures Next(DictState(s, dict, n), dict[n], if n + 1 < |dict| then DictState(s, dict, n + 1) else AfterDict(DictState(s, dict, n + 1)))
  {
    DictByte(DictState(s, dict, n), dict[n]);
    assert dict[..n] + [dict[n]] == dict[..n + 1];
  }

  /** The dictionary is taken as it is. */
  lemma {:induction false} DictGoes(s: State, dict: seq<Byte>, t: State)
    requires Ready(s) && s.stage.Dict? && s.dict == [] && s.left == |dict| && 0 < |dict| <= s.countdown
    requires AfterDict(s.(dict := dict, left := 0, countdown := s.countdown - |dict|)) == t
    ensures Goes(s, dict, t)
  {
    var m := |dict|;
    assert dict[..m] == dict;
    var trace := seq(m, i requires 0 <= i < m => DictState(s, dict, i)) + [t];
    forall i | 0 <= i < m ensures Next(trace[i], dict[i], trace[i + 1]) {
      DictStep(s, dict, i);
    }
    assert trace[0] == s;
    GoesTrace(trace, dict);
  }

  // ---------------------------------------------------------------- Blocks

  ghost predicate AtData(s: State, n: nat) {
    Valid(s) && s.status == Good && s.stage.BlockData? && s.bulk && s.buffer == [] && s.next == n
  }

  lemma {:induction false} DataByte(s: State, byte: Byte)
    requires Valid(s) && s.status == Good && s.stage.BlockData? && s.bulk && |s.buffer| < s.next
    ensures var t := s.(buffer := s.buffer + [byte]);
            Feed(s, byte) == if |s.buffer| + 1 < s.next then t else EndBlock(t.(bulk := false))
  {
  }

  lemma {:induction false} DataStep(s: State, data: seq<Byte>, n: nat)
    requires AtData(s, |data|) && n < |data|
    ensures Next(s.(buffer := data[..n]), data[n],
                 if n + 1 < |data| then s.(buffer := data[..n + 1]) else EndBlock(s.(buffer := data[..n + 1], bulk := false)))
  {
    DataByte(s.(buffer := data[..n]), data[n]);
    assert data[..n] + [data[n]] == data[..n + 1];
  }

  /** Bulk data ends the block with its last byte; an empty block has ended before. */
  lemma {:induction false} DataGoes(s: State, data: seq<Byte>, t: State)
    requires AtData(s, |data|) && EndBlock(s.(buffer := data, bulk := false)) == t
    ensures Goes(Settle(s), data, t)
  {
    var m := |data|;
    assert data[..m] == data;
    if m > 0 {
      var trace := seq(m, i requires 0 <= i < m => s.(buffer := data[..i])) + [t];
      forall i | 0 <= i < m ensures Next(trace[i], data[i], trace[i + 1]) {
        DataStep(s, data, i);
      }
      assert trace[0] == s;
      GoesTrace(trace, data);
    } else {
      assert Settle(s) == t by { assert s.(bulk := false) == s.(buffer := data, bulk := false); }
      GoesNowhere(t);
    }
  }

  ghost predicate AtType(s: State) { Ready(s) && s.stage.BlockType? }

  /** Nothing but the blocks differs. */
  ghost predicate SameHead(s: State, t: State) {
    s.version == t.version && s.fields == t.fields && s.eids == t.eids && s.limits == t.limits
  }

  function Sum(blocks: seq<Block6>): nat {
    if blocks == [] then 0 else Sum(blocks[..|blocks| - 1]) + |blocks[|blocks| - 1].data|
  }

  /** After type and flags of a block. */
  function Flagged(s: State, block: Block6): State {
    s.(stage := DataLength, sdnv := Sdnv.Reset(0), block := Block6(block.kind, block.flags, [], []),
       last := HasFlag(block.flags, BLOCK_FLAG_LAST))
  }

  /** After its length. */
  function Announced(s: State, block: Block6): State {
    Flagged(s, block).(stage := BlockData, next := |block.data|, size := s.size + |block.data|, buffer := [], bulk := true)
  }

  lemma {:induction false} FlagsGo(s: State, block: Block6)
    requires AtType(s) && BlockOk(block)
    ensures Goes(s, [block.kind] + Sdnv.Encode(block.flags), Flagged(s, block))
  {
    var t := Enter(s.(block := Block6(block.kind, 0, [], [])), BlockFlags);
    GoesByte(s, block.kind, t);
    NumberGoes(t, block.flags, Flagged(s, block));
    GoesOn(s, [block.kind], t, Sdnv.Encode(block.flags), Flagged(s, block));
  }

  lemma {:induction false} LengthSettles(s: State, n: nat)
    requires AtNumber(s) && s.stage.DataLength? && s.size + n <= s.limits.quota < U32
    ensures AfterNumber(s, n) == s.(stage := BlockData, next := n, size := s.size + n, buffer := [], bulk := true)
  {
    var size := s.size + n;
    assert size % U32 == size;
  }

  lemma {:induction false} LengthGoes(s: State, n: nat, t: State)
    requires AtNumber(s) && s.stage.DataLength? && n < U32 && s.size + n <= s.limits.quota < U32
    requires t == s.(stage := BlockData, next := n, size := s.size + n, buffer := [], bulk := true)
    ensures Goes(s, Sdnv.Encode(n), Settle(t))
  {
    LengthSettles(s, n);
    NumberGoes(s, n, Settle(t));
  }

  ghost predicate Fits(s: State, n: nat) { s.size + n <= s.limits.quota < U32 }

  lemma {:induction false} BlockGoes(s: State, block: Block6, t: State)
    requires AtType(s) && BlockOk(block) && Fits(s, |block.data|)
    requires EndBlock(Announced(s, block).(buffer := block.data, bulk := false)) == t
    ensures Goes(s, BlockBytes(block), t)
  {
    var f, u := Flagged(s, block), Announced(s, block);
    FlagsGo(s, block);
    LengthGoes(f, |block.data|, u);
    GoesOn(s, [block.kind] + Sdnv.Encode(block.flags), f, Sdnv.Encode(|block.data|), Settle(u));
    DataGoes(u, block.data, t);
    GoesOn(s, [block.kind] + Sdnv.Encode(block.flags) + Sdnv.Encode(|block.data|), Settle(u), block.data, t);
  }

  /** What the parser has after some blocks. */
  ghost predicate Collected(s: State, blocks: seq<Block6>, t: State) {
    Valid(t) && SameHead(s, t) && t.blocks == s.blocks + blocks && t.size == s.size + Sum(blocks)
  }

  /** What the last block leads to. */
  ghost predicate Sent(s: State, t: State) {
    Valid(t) && t.status == Done && |t.fields| >= 14 && t.sent == s.sent + if HasPayload(t.blocks) then [BundleOf(t)] else []
  }

  lemma {:induction false} BlockEffect(s: State, block: Block6) returns (t: State)
    requires AtType(s) && BlockOk(block) && Fits(s, |block.data|)
    ensures Goes(s, BlockBytes(block), t) && SameHead(s, t) && t.blocks == s.blocks + [block] && t.size == s.size + |block.data|
    ensures if HasFlag(block.flags, BLOCK_FLAG_LAST) then Sent(s, t) else AtType(t) && t.sent == s.sent
  {
    var u := Announced(s, block).(buffer := block.data, bulk := false);
    assert u.block.(data := u.buffer) == block;
    t := EndBlock(u);
    BlockGoes(s, block, t);
  }

  /** The last-block flag is on the last block and on no other. */
  ghost predicate LastFlags(blocks: seq<Block6>) {
    blocks != [] && forall i :: 0 <= i < |blocks| ==> (HasFlag(blocks[i].flags, BLOCK_FLAG_LAST) <==> i == |blocks| - 1)
  }

  ghost predicate Unflagged(blocks: seq<Block6>) {
    forall i :: 0 <= i < |blocks| ==> BlockOk(blocks[i]) && !HasFlag(blocks[i].flags, BLOCK_FLAG_LAST)
  }

  lemma {:induction false} BlocksStep(blocks: seq<Block6>)
    requires blocks != []
    ensures BlocksBytes(blocks) == BlocksBytes(blocks[..|blocks| - 1]) + BlockBytes(blocks[|blocks| - 1])
  {
    var n := |blocks| - 1;
    assert BlockParts(blocks)[..n] == BlockParts(blocks[..n]);
  }

  lemma {:induction false} FirstBlocks(s: State, blocks: seq<Block6>) returns (t: State)
    requires AtType(s) && Unflagged(blocks) && Fits(s, Sum(blocks))
    ensures Goes(s, BlocksBytes(blocks), t) && AtType(t) && t.sent == s.sent && Collected(s, blocks, t)
    decreases |blocks|
  {
    if blocks == [] {
      t := s;
      GoesNowhere(s);
      assert s.blocks + blocks == s.blocks;
    } else {
      var n := |blocks| - 1;
      var before := blocks[..n];
      var u := FirstBlocks(s, before);
      t := BlockEffect(u, blocks[n]);
      BlocksStep(blocks);
      GoesOn(s, BlocksBytes(before), u, BlockBytes(blocks[n]), t);
      OneMore(s.blocks, blocks, n);
    }
  }

  lemma {:induction false} OneMore(sofar: seq<Block6>, blocks: seq<Block6>, n: nat)
    requires |blocks| == n + 1
    ensures blocks[..n] + [blocks[n]] == blocks && sofar + blocks[..n] + [blocks[n]] == sofar + blocks
  {
    assert sofar + blocks[..n] + [blocks[n]] == sofar + (blocks[..n] + [blocks[n]]);
  }

  /** All blocks: the last one makes the parser send the bundle. */
  lemma {:induction false} BlocksGo(s: State, blocks: seq<Block6>) returns (t: State)
    requires AtType(s) && LastFlags(blocks) && (forall i :: 0 <= i < |blocks| ==> BlockOk(blocks[i])) && Fits(s, Sum(blocks))
    ensures Goes(s, BlocksBytes(blocks), t) && Collected(s, blocks, t) && Sent(s, t)
  {
    var n := |blocks| - 1;
    var before := blocks[..n];
    var u := FirstBlocks(s, before);
    t := BlockEffect(u, blocks[n]);
    BlocksStep(blocks);
    GoesOn(s, BlocksBytes(before), u, BlockBytes(blocks[n]), t);
    OneMore(s.blocks, blocks, n);
  }

  // ---------------------------------------------------------------- The whole bundle

  /** What the parser makes of a serialized bundle. */
  function Parsed(b: Bundle6): Bundle6 {
    b.(flags := V6Flags(b.flags),
       eids := seq(|b.eids|, i requires 0 <= i < |b.eids| => Normal(b.eids[i])),
       creation := b.creation / 1000 * 1000, lifetime := b.lifetime / 1000 * 1000,
       offset := if Fragment(b.flags) then b.offset else 0, total := if Fragment(b.flags) then b.total else 0)
  }

  /** The parser while it reads the primary block. */
  function Head(limits: Limits, sent: seq<Bundle6>, version: Byte, fields: seq<nat>, countdown: nat): State {
    Fresh(limits, sent).(version := version, stage := Field(|fields|), fields := fields, countdown := countdown)
  }

  lemma {:induction false} StartGoes(limits: Limits, sent: seq<Bundle6>, version: Byte, flags: nat, length: nat)
    requires flags < U32 && length < U16
    ensures Goes(Fresh(limits, sent), [version] + Sdnv.Encode(flags) + Sdnv.Encode(length), Head(limits, sent, version, [flags, length], length))
  {
    var s := Fresh(limits, sent);
    var s0 := Head(limits, sent, version, [], Tick(0));
    GoesByte(s, version, s0);
    var c := Ticks(Tick(0), |Sdnv.Encode(flags)|);
    var s1 := Head(limits, sent, version, [flags], c);
    ProcFlagsGo(limits, sent, version, flags, c);
    GoesOn(s, [version], s0, Sdnv.Encode(flags), s1);
    var s2 := Head(limits, sent, version, [flags, length], length);
    HeadLengthGoes(limits, sent, version, flags, c, length);
    GoesOn(s, [version] + Sdnv.Encode(flags), s1, Sdnv.Encode(length), s2);
  }

  lemma {:induction false} ProcFlagsGo(limits: Limits, sent: seq<Bundle6>, version: Byte, flags: nat, c: nat)
    requires flags < U32 && c == Ticks(Tick(0), |Sdnv.Encode(flags)|)
    ensures Goes(Head(limits, sent, version, [], Tick(0)), Sdnv.Encode(flags), Head(limits, sent, version, [flags], c))
  {
    assert [] + [flags] == [flags];
    NumberGoes(Head(limits, sent, version, [], Tick(0)), flags, Head(limits, sent, version, [flags], c));
  }

  lemma {:induction false} HeadLengthGoes(limits: Limits, sent: seq<Bundle6>, version: Byte, flags: nat, c: nat, length: nat)
    requires flags < U32 && length < U16 && c == Ticks(Tick(0), |Sdnv.Encode(flags)|)
    ensures Goes(Head(limits, sent, version, [flags], c), Sdnv.Encode(length), Head(limits, sent, version, [flags, length], length))
  {
    assert [flags] + [length] == [flags, length];
    NumberGoes(Head(limits, sent, version, [flags], c), length, Head(limits, sent, version, [flags, length], length));
  }

  /** The parser when it expects the dictionary. */
  function DictHead(limits: Limits, sent: seq<Bundle6>, version: Byte, fields: seq<nat>, countdown: nat, length: nat): State {
    Head(limits, sent, version, fields, countdown).(stage := Dict, left := length, size := limits.Base() + length + 1)
  }

  lemma {:induction false} DictLengthGoes(limits: Limits, sent: seq<Bundle6>, version: Byte, fields: seq<nat>, countdown: nat, length: nat)
    requires |fields| == FIELD_DICT_LENGTH && 0 < length < U16 && |Sdnv.Encode(length)| <= countdown
    requires limits.Base() + length + 1 <= limits.quota < U32
    ensures Goes(Head(limits, sent, version, fields, countdown), Sdnv.Encode(length),
                 DictHead(limits, sent, version, fields + [length], countdown - |Sdnv.Encode(length)|, length))
  {
    TicksDown(countdown, |Sdnv.Encode(length)|);
    var size := limits.Base() + length + 1;
    assert size % U32 == size;
    NumberGoes(Head(limits, sent, version, fields, countdown), length,
               DictHead(limits, sent, version, fields + [length], countdown - |Sdnv.Encode(length)|, length));
  }

  lemma {:induction false} OffsetsAt(names: seq<Name>, n: nat, i: nat)
    requires i < n <= |names|
    ensures Offsets(names, n)[2 * i] == SchemeOffset(names, i) && Offsets(names, n)[2 * i + 1] == SspOffset(names, i)
  {
    if i < n - 1 { OffsetsAt(names, n - 1, i); }
  }

  lemma {:induction false} EidRead(b: Bundle6, i: nat)
    requires WellTyped(b) && i < 4 && |Dictionary(Names(b.eids))| < U16
    ensures ReadEid(Dictionary(Names(b.eids)), Numbers(b)[2 + 2 * i], Numbers(b)[3 + 2 * i]) == Normal(b.eids[i])
  {
    var names, e := Names(b.eids), b.eids[i];
    assert EidOk(e);
    EidName(e);
    ReadBack(names, i);
    NormalParts(e);
    OffsetNumbers(names, i);
    assert Numbers(b)[2 + 2 * i] == Low16(Offsets(names, 4))[2 * i];
    assert Numbers(b)[3 + 2 * i] == Low16(Offsets(names, 4))[2 * i + 1];
  }

  /** Offsets within a dictionary that fits into 16 bits are written as they are. */
  lemma {:induction false} OffsetNumbers(names: seq<Name>, i: nat)
    requires |names| == 4 && i < 4 && |Dictionary(names)| < U16 && NameOk(names[i])
    ensures Low16(Offsets(names, 4))[2 * i] == SchemeOffset(names, i) && Low16(Offsets(names, 4))[2 * i + 1] == SspOffset(names, i)
  {
    ReadBack(names, i);
    OffsetsAt(names, 4, i);
    var scheme, ssp := SchemeOffset(names, i), SspOffset(names, i);
    assert scheme % U16 == scheme && ssp % U16 == ssp;
  }

  lemma {:induction false} EidsRead(b: Bundle6)
    requires WellTyped(b) && |Dictionary(Names(b.eids))| < U16
    ensures ReadEids(Dictionary(Names(b.eids)), Numbers(b)) == Parsed(b).eids
    ensures forall i :: 0 <= i < 4 ==> Parsed(b).eids[i].Some?
  {
    forall i | 0 <= i < 4 ensures ReadEids(Dictionary(Names(b.eids)), Numbers(b))[i] == Normal(b.eids[i]) && Normal(b.eids[i]).Some? {
      EidRead(b, i);
    }
  }

  /** The quota has room for the dictionary. */
  ghost predicate HeadFits(b: Bundle6, limits: Limits) {
    && WellTyped(b) && |Dictionary(Names(b.eids))| < U16
    && limits.Base() + |Dictionary(Names(b.eids))| + 1 <= limits.quota < U32
  }

  /** What is demanded of a bundle for the parser to read it back: a last block, and room for all of it. */
  ghost predicate Serializable(b: Bundle6, limits: Limits) {
    && WellTyped(b) && LastFlags(b.blocks) && |Dictionary(Names(b.eids))| < U16
    && limits.Base() + |Dictionary(Names(b.eids))| + 1 + Sum(b.blocks) <= limits.quota < U32
  }

  /** The announced length covers what follows it. */
  ghost predicate Covers(b: Bundle6)
    requires |b.eids| == 4
  {
    |AfterLength(b)| <= b.primaryLength
  }

  lemma {:induction false} NumbersFit(b: Bundle6)
    requires WellTyped(b)
    ensures Plain(2, Numbers(b)[2..13]) && Numbers(b)[0] < U32
    ensures Numbers(b) == [Numbers(b)[0], Numbers(b)[1]] + Numbers(b)[2..13] + [Numbers(b)[13]] && Numbers(b)[1] == b.primaryLength
  {
    var values := Numbers(b)[2..13];
    forall i | 0 <= i < |values| ensures values[i] < WidthOf(2 + i).Limit() {
      if i < 8 { assert values[i] == Low16(Offsets(Names(b.eids), 4))[i]; }
    }
  }

  lemma {:induction false} DictNotEmpty(names: seq<Name>)
    requires names != []
    ensures |Dictionary(names)| > 0
  {
    var n := |names| - 1;
    assert Strings(names)[n] == Terminated(names[n]);
  }

  /** From the block length to the end of the dictionary length. */
  lemma {:induction false} NumbersGo(b: Bundle6, limits: Limits, sent: seq<Bundle6>, countdown: nat)
    requires HeadFits(b, limits) && |EncodeAll(Numbers(b)[2..])| <= countdown
    ensures Goes(Head(limits, sent, b.version, Numbers(b)[..2], countdown), EncodeAll(Numbers(b)[2..]),
                 DictHead(limits, sent, b.version, Numbers(b), countdown - |EncodeAll(Numbers(b)[2..])|, |Dictionary(Names(b.eids))|))
  {
    var d := |Dictionary(Names(b.eids))|;
    NumbersFit(b);
    DictNotEmpty(Names(b.eids));
    assert Numbers(b)[13] == d by { assert d % U16 == d; }
    AllNumbersGo(limits, sent, b.version, Numbers(b), d, countdown);
  }

  lemma {:induction false} AllNumbersGo(limits: Limits, sent: seq<Bundle6>, version: Byte, all: seq<nat>, d: nat, countdown: nat)
    requires |all| == 14 && Plain(2, all[2..13]) && all[13] == d && 0 < d < U16
    requires |EncodeAll(all[2..])| <= countdown && limits.Base() + d + 1 <= limits.quota < U32
    ensures Goes(Head(limits, sent, version, all[..2], countdown), EncodeAll(all[2..]),
                 DictHead(limits, sent, version, all, countdown - |EncodeAll(all[2..])|, d))
  {
    NumbersBytes(all);
    assert all == all[..2] + all[2..13] + [d];
    NumbersParts(limits, sent, version, all[..2], all[2..13], d, countdown);
  }

  lemma {:induction false} NumbersBytes(all: seq<nat>)
    requires |all| == 14
    ensures EncodeAll(all) == Sdnv.Encode(all[0]) + Sdnv.Encode(all[1]) + EncodeAll(all[2..])
    ensures EncodeAll(all[2..]) == EncodeAll(all[2..13]) + Sdnv.Encode(all[13])
  {
    var values := all[2..13];
    assert all[2..] == values + [all[13]];
    EncodeAllAppend(values, [all[13]]);
    EncodeOne(all[13]);
    assert all == [all[0], all[1]] + all[2..];
    EncodeAllAppend([all[0], all[1]], all[2..]);
    EncodeTwo(all[0], all[1]);
  }

  lemma {:induction false} NumbersParts(limits: Limits, sent: seq<Bundle6>, version: Byte, first: seq<nat>, values: seq<nat>, d: nat, countdown: nat)
    requires |first| == 2 && |values| == 11 && Plain(2, values) && 0 < d < U16
    requires |EncodeAll(values)| + |Sdnv.Encode(d)| <= countdown && limits.Base() + d + 1 <= limits.quota < U32
    ensures Goes(Head(limits, sent, version, first, countdown), EncodeAll(values) + Sdnv.Encode(d),
                 DictHead(limits, sent, version, first + values + [d], countdown - |EncodeAll(values)| - |Sdnv.Encode(d)|, d))
  {
    var s2 := Head(limits, sent, version, first, countdown);
    var used := |EncodeAll(values)|;
    var s13 := Head(limits, sent, version, first + values, countdown - used);
    PlainNumbers(s2, 2, values);
    DictLengthGoes(limits, sent, version, first + values, countdown - used, d);
    GoesOn(s2, EncodeAll(values), s13, Sdnv.Encode(d),
           DictHead(limits, sent, version, first + values + [d], countdown - used - |Sdnv.Encode(d)|, d));
  }

  /** The parser after the dictionary. */
  function Resolved(s: State, b: Bundle6): State
    requires |b.eids| == 4 && |Dictionary(Names(b.eids))| <= s.countdown
  {
    var dict := Dictionary(Names(b.eids));
    s.(dict := dict, left := 0, countdown := s.countdown - |dict|, eids := Parsed(b).eids,
       stage := if Fragment(b.flags) then Field(FIELD_OFFSET) else BlockType)
  }

  lemma {:induction false} DictionaryGoes(b: Bundle6, s: State)
    requires WellTyped(b) && 0 < |Dictionary(Names(b.eids))| < U16
    requires Ready(s) && s.stage.Dict? && s.dict == [] && s.left == |Dictionary(Names(b.eids))| <= s.countdown
    requires s.fields == Numbers(b) && s.sdnv == Sdnv.Reset(0)
    ensures Goes(s, Dictionary(Names(b.eids)), Resolved(s, b))
  {
    EidsRead(b);
    FragmentKept(b.flags);
    assert s.fields[0] == V6Flags(b.flags);
    DictGoes(s, Dictionary(Names(b.eids)), Resolved(s, b));
  }

  lemma {:induction false} FragmentNumberGoes(s: State, v: nat)
    requires AtNumber(s) && (s.stage == Field(FIELD_OFFSET) || s.stage == Field(FIELD_TOTAL)) && v < U32 && |Sdnv.Encode(v)| <= s.countdown
    ensures Goes(s, Sdnv.Encode(v), s.(stage := if s.stage == Field(FIELD_OFFSET) then Field(FIELD_TOTAL) else BlockType,
                                       fields := s.fields + [v], countdown := s.countdown - |Sdnv.Encode(v)|))
  {
    TicksDown(s.countdown, |Sdnv.Encode(v)|);
    NumberGoes(s, v, s.(stage := if s.stage == Field(FIELD_OFFSET) then Field(FIELD_TOTAL) else BlockType,
                        fields := s.fields + [v], countdown := s.countdown - |Sdnv.Encode(v)|));
  }

  /** The two numbers of a fragment. */
  lemma {:induction false} FragmentGoes(s: State, offset: nat, total: nat)
    requires AtNumber(s) && s.stage == Field(FIELD_OFFSET) && offset < U32 && total < U32
    requires |EncodeAll([offset, total])| <= s.countdown
    ensures Goes(s, EncodeAll([offset, total]),
                 s.(stage := BlockType, fields := s.fields + [offset, total], countdown := s.countdown - |EncodeAll([offset, total])|))
  {
    EncodeTwo(offset, total);
    var m, n := |Sdnv.Encode(offset)|, |Sdnv.Encode(total)|;
    var t := s.(stage := Field(FIELD_TOTAL), fields := s.fields + [offset], countdown := s.countdown - m);
    FragmentNumberGoes(s, offset);
    FragmentNumberGoes(t, total);
    assert s.fields + [offset] + [total] == s.fields + [offset, total];
    GoesOn(s, Sdnv.Encode(offset), t, Sdnv.Encode(total),
           s.(stage := BlockType, fields := s.fields + [offset, total], countdown := s.countdown - m - n));
  }

  /** The parser at the end of the primary block. */
  function HeadDone(b: Bundle6, limits: Limits, sent: seq<Bundle6>, left: nat): State
    requires |b.eids| == 4
  {
    DictHead(limits, sent, b.version, Numbers(b) + FragmentNumbers(b), left, |Dictionary(Names(b.eids))|).(
      dict := Dictionary(Names(b.eids)), left := 0, eids := Parsed(b).eids, stage := BlockType)
  }

  lemma {:induction false} EndOfHead(b: Bundle6, s: State, left: nat)
    requires WellTyped(b) && 0 < |Dictionary(Names(b.eids))| < U16
    requires Ready(s) && s.stage.Dict? && s.dict == [] && s.left == |Dictionary(Names(b.eids))|
    requires s.fields == Numbers(b) && s.sdnv == Sdnv.Reset(0)
    requires s.countdown == left + |Dictionary(Names(b.eids))| + |EncodeAll(FragmentNumbers(b))|
    ensures Goes(s, Dictionary(Names(b.eids)) + EncodeAll(FragmentNumbers(b)),
                 s.(dict := Dictionary(Names(b.eids)), left := 0, eids := Parsed(b).eids, stage := BlockType,
                    fields := s.fields + FragmentNumbers(b), countdown := left))
  {
    var dict, r := Dictionary(Names(b.eids)), Resolved(s, b);
    DictionaryGoes(b, s);
    if Fragment(b.flags) {
      EncodeTwo(b.offset, b.total);
      FragmentGoes(r, b.offset, b.total);
      GoesOn(s, dict, r, EncodeAll([b.offset, b.total]),
             r.(stage := BlockType, fields := r.fields + [b.offset, b.total], countdown := r.countdown - |EncodeAll([b.offset, b.total])|));
    } else {
      assert dict + EncodeAll(FragmentNumbers(b)) == dict;
      assert s.fields + FragmentNumbers(b) == s.fields;
    }
  }

  /** What follows the length field takes the parser to the first block if the countdown is long enough. */
  lemma {:induction false} AfterLengthGoes(b: Bundle6, limits: Limits, sent: seq<Bundle6>, countdown: nat)
    requires HeadFits(b, limits) && |AfterLength(b)| <= countdown
    ensures Goes(Head(limits, sent, b.version, Numbers(b)[..2], countdown), AfterLength(b),
                 HeadDone(b, limits, sent, countdown - |AfterLength(b)|))
  {
    NumbersGo(b, limits, sent, countdown);
    DictNotEmpty(Names(b.eids));
    var first, dict, end := EncodeAll(Numbers(b)[2..]), Dictionary(Names(b.eids)), EncodeAll(FragmentNumbers(b));
    var s2 := Head(limits, sent, b.version, Numbers(b)[..2], countdown);
    var s := DictHead(limits, sent, b.version, Numbers(b), countdown - |first|, |dict|);
    var left := countdown - |AfterLength(b)|;
    EndOfHead(b, s, left);
    HeadDoneIs(b, limits, sent, countdown - |first|, left);
    GoesOn(s2, first, s, dict + end, HeadDone(b, limits, sent, left));
    Associative(first, dict, end);
  }

  lemma {:induction false} HeadDoneIs(b: Bundle6, limits: Limits, sent: seq<Bundle6>, countdown: nat, left: nat)
    requires |b.eids| == 4
    ensures HeadDone(b, limits, sent, left)
            == DictHead(limits, sent, b.version, Numbers(b), countdown, |Dictionary(Names(b.eids))|).(
                 dict := Dictionary(Names(b.eids)), left := 0, eids := Parsed(b).eids, stage := BlockType,
                 fields := Numbers(b) + FragmentNumbers(b), countdown := left)
  {
  }

  /** Version, flags and length. */
  function Start(b: Bundle6): seq<Byte> { [b.version] + Sdnv.Encode(V6Flags(b.flags)) + Sdnv.Encode(b.primaryLength) }

  lemma {:induction false} BytesParts(b: Bundle6)
    requires |b.eids| == 4
    ensures Bytes(b) == Start(b) + AfterLength(b) + BlocksBytes(b.blocks)
  {
    NumbersBytes(Numbers(b));
    Regroup([b.version], Sdnv.Encode(V6Flags(b.flags)), Sdnv.Encode(b.primaryLength), EncodeAll(Numbers(b)[2..]),
            Dictionary(Names(b.eids)), EncodeAll(FragmentNumbers(b)), BlocksBytes(b.blocks));
  }

  lemma {:induction false} Regroup(v: seq<Byte>, a: seq<Byte>, b: seq<Byte>, c: seq<Byte>, d: seq<Byte>, e: seq<Byte>, f: seq<Byte>)
    ensures v + (a + b + c) + d + e + f == v + a + b + (c + d + e) + f
  {
  }

  lemma {:induction false} StartOf(b: Bundle6, limits: Limits, sent: seq<Bundle6>)
    requires WellTyped(b)
    ensures Goes(Fresh(limits, sent), Start(b), Head(limits, sent, b.version, Numbers(b)[..2], b.primaryLength))
  {
    assert Numbers(b)[..2] == [V6Flags(b.flags), b.primaryLength];
    StartGoes(limits, sent, b.version, V6Flags(b.flags), b.primaryLength);
  }

  lemma {:induction false} WholeSeconds(ms: nat)
    requires ms < U64
    ensures ms / 1000 * 1000 % U64 == ms / 1000 * 1000
  {
    var n := ms / 1000 * 1000;
    assert n <= ms;
  }

  lemma {:induction false} FieldsOf(b: Bundle6, fields: seq<nat>)
    requires |b.eids| == 4 && fields == Numbers(b) + FragmentNumbers(b)
    ensures |fields| == if Fragment(b.flags) then 16 else 14
    ensures fields[0] == V6Flags(b.flags) && fields[FIELD_LENGTH] == b.primaryLength
    ensures fields[FIELD_CREATION] == b.creation / 1000 && fields[FIELD_SEQUENCE] == b.sequence && fields[FIELD_LIFETIME] == b.lifetime / 1000
    ensures Fragment(b.flags) ==> fields[FIELD_OFFSET] == b.offset && fields[FIELD_TOTAL] == b.total
  {
  }

  lemma {:induction false} SameBundle(b: Bundle6, limits: Limits, sent: seq<Bundle6>, left: nat, t: State)
    requires WellTyped(b) && SameHead(HeadDone(b, limits, sent, left), t) && t.blocks == b.blocks
    ensures |t.fields| >= 14 && BundleOf(t) == Parsed(b)
  {
    FieldsOf(b, t.fields);
    WholeSeconds(b.creation);
    WholeSeconds(b.lifetime);
  }

  /** The bytes of a bundle take the parser, in working order up to the last one, to a state in which the bundle was sent. */
  lemma {:induction false} BundleGoes(b: Bundle6, limits: Limits, sent: seq<Bundle6>) returns (t: State)
    requires Serializable(b, limits) && Covers(b)
    ensures Goes(Fresh(limits, sent), Bytes(b), t) && t.status == Done && t.limits == limits
    ensures t.sent == sent + if HasPayload(b.blocks) then [Parsed(b)] else []
  {
    var left := b.primaryLength - |AfterLength(b)|;
    var s0, s2, s := Fresh(limits, sent), Head(limits, sent, b.version, Numbers(b)[..2], b.primaryLength), HeadDone(b, limits, sent, left);
    StartOf(b, limits, sent);
    AfterLengthGoes(b, limits, sent, b.primaryLength);
    GoesOn(s0, Start(b), s2, AfterLength(b), s);
    t := BlocksGo(s, b.blocks);
    GoesOn(s0, Start(b) + AfterLength(b), s, BlocksBytes(b.blocks), t);
    BytesParts(b);
    assert s.blocks + b.blocks == b.blocks;
    SameBundle(b, limits, sent, left, t);
  }

  /**
   Parsing what was serialized gives the same bundle back, with times cut to whole seconds and only
   the flags of RFC 5050, if the announced header length covers the primary block.
   */
  lemma {:induction false} RoundTrip(b: Bundle6, limits: Limits, sent: seq<Bundle6>)
    requires Serializable(b, limits) && Covers(b)
    ensures var t := Run(Fresh(limits, sent), Bytes(b));
            t.status == Done && t.sent == sent + if HasPayload(b.blocks) then [Parsed(b)] else []
  {
    var t := BundleGoes(b, limits, sent);
    GoesRuns(Fresh(limits, sent), Bytes(b), t);
  }

  // ---------------------------------------------------------------- A length that is too short

  /** Reading the primary block, its length being known. */
  ghost predicate OnHead(s: State) { Ready(s) && Primary(s.stage) && LengthKnown(s.stage) }

  ghost predicate Off(s: State) { Valid(s) && (s.status != Good || !Primary(s.stage)) }

  lemma {:induction false} HeadStep(s: State, byte: Byte)
    requires OnHead(s) && s.countdown > 0
    ensures var t := Feed(s, byte); t.countdown == s.countdown - 1 && t.sent == s.sent && (OnHead(t) || Off(t))
  {
  }

  lemma {:induction false} OffNumber(s: State, v: nat)
    requires Valid(s) && IsNumber(s.stage) && !s.stage.Field?
    ensures var t := AfterNumber(s, v); t.countdown == s.countdown && !Primary(t.stage)
  {
  }

  lemma {:induction false} OffRead(s: State, byte: Byte)
    requires Valid(s) && !Primary(s.stage)
    ensures var t := ReadByte(s, byte); t.countdown == s.countdown && !Primary(t.stage)
  {
    if IsNumber(s.stage) {
      OffNumber(s, Sdnv.Feed(WidthAt(s.stage), s.sdnv, byte).value);
    }
  }

  lemma {:induction false} OffStep(s: State, byte: Byte)
    requires Off(s)
    ensures Off(Feed(s, byte)) && Feed(s, byte).countdown == s.countdown
  {
    if s.status == Good {
      OffRead(s, byte);
      OffRead(s.(buffer := s.buffer + [byte], bulk := false), 0);
      OffRead(ReadByte(s, byte).(bulk := false), 0);
    }
  }

  lemma {:induction false} CountdownNumber(s: State, v: nat, c: nat)
    requires Valid(s) && s.stage.Field? && s.stage.k > FIELD_LENGTH
    ensures AfterNumber(s.(countdown := c), v) == AfterNumber(s, v).(countdown := c)
  {
  }

  lemma {:induction false} CountdownDict(s: State, c: nat)
    requires Valid(s) && s.stage.Dict?
    ensures AfterDict(s.(countdown := c)) == AfterDict(s).(countdown := c)
  {
  }

  lemma {:induction false} FeedHead(s: State, byte: Byte)
    requires OnHead(s) && s.countdown > 0
    ensures var t := s.(countdown := s.countdown - 1);
            Feed(s, byte) == if s.stage.Field? then NumberByte(t, byte) else OtherByte(t, byte)
  {
  }

  lemma {:induction false} CountdownByte(s: State, byte: Byte, c: nat)
    requires OnHead(s)
    ensures s.stage.Field? ==> NumberByte(s.(countdown := c), byte) == NumberByte(s, byte).(countdown := c)
    ensures s.stage.Dict? ==> OtherByte(s.(countdown := c), byte) == OtherByte(s, byte).(countdown := c)
  {
    if s.stage.Field? {
      CountdownNumber(s, Sdnv.Feed(WidthAt(s.stage), s.sdnv, byte).value, c);
    } else {
      CountdownDict(s.(dict := s.dict + [byte], left := if s.left > 0 then s.left - 1 else U32 - 1), c);
    }
  }

  /** One byte with either countdown, by what the byte does to the rest of the state. */
  lemma {:induction false} SameButCountdown(s: State, byte: Byte, c: nat, a: State, plain: State, other: State)
    requires OnHead(s) && s.countdown > 0 && c > 0 && a == s.(countdown := s.countdown - 1)
    requires plain == (if s.stage.Field? then NumberByte(a, byte) else OtherByte(a, byte))
    requires other == (if s.stage.Field? then NumberByte(a.(countdown := c - 1), byte) else OtherByte(a.(countdown := c - 1), byte))
    ensures Feed(s, byte) == plain && Feed(s.(countdown := c), byte) == other
  {
    FeedHead(s, byte);
    FeedHead(s.(countdown := c), byte);
  }

  /** The countdown decides about nothing but its own end. */
  lemma {:induction false} CountdownOnly(s: State, byte: Byte, c: nat)
    requires OnHead(s) && s.countdown > 0 && c > 0
    ensures Feed(s.(countdown := c), byte) == Feed(s, byte).(countdown := c - 1)
  {
    var a := s.(countdown := s.countdown - 1);
    CountdownByte(a, byte, c - 1);
    if s.stage.Field? {
      SameButCountdown(s, byte, c, a, NumberByte(a, byte), NumberByte(a.(countdown := c - 1), byte));
    } else {
      SameButCountdown(s, byte, c, a, OtherByte(a, byte), OtherByte(a.(countdown := c - 1), byte));
    }
  }

  lemma {:induction false} OffForever(trace: seq<State>, bytes: seq<Byte>, i: nat)
    requires IsTrace(trace, bytes) && i <= |bytes| && Off(trace[i])
    ensures trace[|bytes|].countdown == trace[i].countdown
    decreases |bytes| - i
  {
    if i < |bytes| {
      assert Next(trace[i], bytes[i], trace[i + 1]);
      OffStep(trace[i], bytes[i]);
      OffForever(trace, bytes, i + 1);
    }
  }

  /** A run that uses its countdown up exactly reads the primary block all the time. */
  lemma {:induction false} OnHeadUntil(trace: seq<State>, bytes: seq<Byte>, i: nat)
    requires IsTrace(trace, bytes) && OnHead(trace[0]) && trace[0].countdown == |bytes| && trace[|bytes|].countdown == 0 && i < |bytes|
    ensures OnHead(trace[i]) && trace[i].countdown == |bytes| - i && trace[i].sent == trace[0].sent
  {
    if i > 0 {
      var j := i - 1;
      OnHeadUntil(trace, bytes, j);
      assert Next(trace[j], bytes[j], trace[j + 1]);
      HeadStep(trace[j], bytes[j]);
      if Off(trace[i]) { OffForever(trace, bytes, i); }
    }
  }

  lemma {:induction false} ShortStep(trace: seq<State>, bytes: seq<Byte>, c: nat, i: nat)
    requires IsTrace(trace, bytes) && OnHead(trace[0]) && trace[0].countdown == |bytes| && trace[|bytes|].countdown == 0
    requires i < c < |bytes|
    ensures Next(trace[i].(countdown := c - i), bytes[i], trace[i + 1].(countdown := c - i - 1))
  {
    OnHeadUntil(trace, bytes, i);
    assert Next(trace[i], bytes[i], trace[i + 1]);
    CountdownOnly(trace[i], bytes[i], c - i);
  }

  lemma {:induction false} ShortPrefix(trace: seq<State>, bytes: seq<Byte>, c: nat, i: nat)
    requires IsTrace(trace, bytes) && OnHead(trace[0]) && trace[0].countdown == |bytes| && trace[|bytes|].countdown == 0
    requires i <= c < |bytes|
    ensures Goes(trace[0].(countdown := c), bytes[..i], trace[i].(countdown := c - i))
  {
    var s, t := trace[0].(countdown := c), trace[i].(countdown := c - i);
    if i == 0 {
      GoesNowhere(s);
    } else {
      var j := i - 1;
      var u := trace[j].(countdown := c - j);
      ShortPrefix(trace, bytes, c, j);
      ShortStep(trace, bytes, c, j);
      GoesByte(u, bytes[j], t);
      GoesOn(s, bytes[..j], u, [bytes[j]], t);
      assert bytes[..j] + [bytes[j]] == bytes[..i];
    }
  }

  lemma {:induction false} NoneLeft(s: State, byte: Byte)
    requires OnHead(s) && s.countdown == 0
    ensures Goes(s, [byte], Failed(s))
  {
    GoesByte(s, byte, Failed(s));
  }

  /** With a shorter countdown the same bytes end in an error. */
  lemma {:induction false} ShortFails(s: State, bytes: seq<Byte>, t: State, c: nat) returns (e: State)
    requires Goes(s, bytes, t) && OnHead(s) && s.countdown == |bytes| && t.countdown == 0 && c < |bytes|
    ensures Goes(s.(countdown := c), bytes[..c + 1], e) && Valid(e) && e.status == Error && e.sent == s.sent
  {
    var trace := TraceOf(s, bytes, t);
    ShortPrefix(trace, bytes, c, c);
    OnHeadUntil(trace, bytes, c);
    var u := trace[c].(countdown := 0);
    e := Failed(u);
    NoneLeft(u, bytes[c]);
    GoesOn(s.(countdown := c), bytes[..c], u, [bytes[c]], e);
    assert bytes[..c] + [bytes[c]] == bytes[..c + 1];
  }

  /** If the announced length does not cover the primary block, the parser fails and sends nothing. */
  lemma {:induction false} ShortLengthFails(b: Bundle6, limits: Limits, sent: seq<Bundle6>)
    requires Serializable(b, limits) && !Covers(b)
    ensures var t := Run(Fresh(limits, sent), Bytes(b)); t.status == Error && t.sent == sent
  {
    var head, c := AfterLength(b), b.primaryLength;
    var s0, s2 := Fresh(limits, sent), Head(limits, sent, b.version, Numbers(b)[..2], |head|);
    AfterLengthGoes(b, limits, sent, |head|);
    var e := ShortFails(s2, head, HeadDone(b, limits, sent, 0), c);
    StartOf(b, limits, sent);
    GoesOn(s0, Start(b), s2.(countdown := c), head[..c + 1], e);
    GoesRuns(s0, Start(b) + head[..c + 1], e);
    var rest := head[c + 1..] + BlocksBytes(b.blocks);
    BytesParts(b);
    assert Bytes(b) == Start(b) + head[..c + 1] + rest by { SplitHead(Start(b), head, BlocksBytes(b.blocks), c + 1); }
    RunAppend(s0, Start(b) + head[..c + 1], rest);
    RunStuck(e, rest);
  }

  lemma {:induction false} SplitHead(a: seq<Byte>, head: seq<Byte>, b: seq<Byte>, k: nat)
    requires k <= |head|
    ensures a + head + b == a + head[..k] + (head[k..] + b)
  {
    assert head == head[..k] + head[k..];
  }

  /** After recalculation the announced length covers the primary block unless it does not fit into 16 bits. */
  lemma {:induction false} RecalculatedCovers(b: Bundle6)
    requires WellTyped(b) && |Dictionary(Names(b.eids))| < U16
    ensures Covers(Recalculated(b)) <==> HeaderLength(b) < U16
  {
    HeaderLengthExact(b);
    SameButLength(b, HeaderLength(b) % U16);
    NumbersBound(b);
    StoredCovers(HeaderLength(b), HeaderLength(b) - |AfterLength(b)|);
  }

  lemma {:induction false} StoredCovers(length: nat, extra: nat)
    requires 0 < extra < 100 && extra <= length < U16 + U16 - 100
    ensures length - extra <= length % U16 <==> length < U16
  {
    assert length < U16 ==> length % U16 == length;
    assert length >= U16 ==> length % U16 == length - U16;
  }

  lemma {:induction false} SameButLength(b: Bundle6, n: nat)
    requires |b.eids| == 4
    ensures AfterLength(b.(primaryLength := n)) == AfterLength(b)
  {
    assert Numbers(b.(primaryLength := n))[2..] == Numbers(b)[2..];
  }

  /** With the header length recalculated, the parser succeeds if and only if that length fits into its 16 bits. */
  lemma {:induction false} RecalculatedRoundTrip(b: Bundle6, limits: Limits, sent: seq<Bundle6>)
    requires Serializable(b, limits)
    ensures var r := Recalculated(b);
            var t := Run(Fresh(limits, sent), Bytes(r));
            && (t.status == Done <==> HeaderLength(b) < U16)
            && t.sent == sent + if HeaderLength(b) < U16 && HasPayload(b.blocks) then [Parsed(r)] else []
  {
    RecalculatedCovers(b);
    var r := Recalculated(b);
    if Covers(r) { RoundTrip(r, limits, sent); } else { ShortLengthFails(r, limits, sent); }
  }

  lemma {:induction false} NumbersBound(b: Bundle6)
    requires WellTyped(b) && |Dictionary(Names(b.eids))| < U16
    ensures HeaderLength(b) < U16 + U16 - 100 && Sdnv.SizeOf(Sdnv.U32, b.flags) <= 5 && Sdnv.SizeOf(Sdnv.U32, b.primaryLength) <= 5
  {
    SizeAllBound(Low16(Offsets(Names(b.eids), 4)));
  }

  lemma {:induction false} SizeAllBound(values: seq<nat>)
    ensures SizeAll(values) <= 5 * |values|
  {
    if values != [] { SizeAllBound(values[..|values| - 1]); }
  }
}
