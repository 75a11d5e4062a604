/** BPv6 bundles that do not fit into the parser's quota. */
module Bundle6Quota {
  import opened Wrappers
  import opened Bundles
  import Sdnv
  import opened Bundle6
  import opened Bundle6Parser
  import opened Bundle6RoundTrip

  /** What the parser accounts for a bundle, on top of what is in use when it begins. */
  function Accounted(b: Bundle6): nat { |Dictionary(Names(b.eids))| + 1 + Sum(b.blocks) }

  /** A failed parser that has sent nothing. */
  ghost predicate Gave(s: State, e: State) { Valid(e) && e.status == Error && e.sent == s.sent }

  /** Somewhere within the bytes the parser fails. */
  ghost predicate Breaks(s: State, bytes: seq<Byte>) {
    exists n: nat, e :: n <= |bytes| && Goes(s, bytes[..n], e) && Gave(s, e)
  }

  lemma {:induction false} BreaksLater(s: State, a: seq<Byte>, t: State, b: seq<Byte>)
    requires Goes(s, a, t) && t.sent == s.sent && Breaks(t, b)
    ensures Breaks(s, a + b)
  {
    var n: nat, e :| n <= |b| && Goes(t, b[..n], e) && Gave(t, e);
    var m := |a| + n;
    GoesOn(s, a, t, b[..n], e);
    assert (a + b)[..m] == a + b[..n];
    assert Gave(s, e) && m <= |a + b| && Goes(s, (a + b)[..m], e);
  }

  lemma {:induction false} BreaksBefore(s: State, a: seq<Byte>, b: seq<Byte>)
    requires Breaks(s, a)
    ensures Breaks(s, a + b)
  {
    var n: nat, e :| n <= |a| && Goes(s, a[..n], e) && Gave(s, e);
    assert (a + b)[..n] == a[..n];
  }

  lemma {:induction false} BreaksNow(s: State, bytes: seq<Byte>, e: State)
    requires Goes(s, bytes, e) && Gave(s, e)
    ensures Breaks(s, bytes)
  {
    assert bytes[..|bytes|] == bytes;
  }

  /** Whatever follows, the parser has failed. */
  lemma {:induction false} BreaksFails(s: State, bytes: seq<Byte>)
    requires Valid(s) && Breaks(s, bytes)
    ensures Run(s, bytes).status == Error && Run(s, bytes).sent == s.sent
  {
    var n: nat, e :| n <= |bytes| && Goes(s, bytes[..n], e) && Gave(s, e);
    GoesRuns(s, bytes[..n], e);
    assert bytes == bytes[..n] + bytes[n..];
    RunAppend(s, bytes[..n], bytes[n..]);
    RunStuck(e, bytes[n..]);
  }

  // ---------------------------------------------------------------- A block that is too long

  lemma {:induction false} LengthTooLong(s: State, n: nat)
    requires AtNumber(s) && s.stage.DataLength? && n < U32 && s.limits.quota < s.size + n < U32
    ensures Breaks(s, Sdnv.Encode(n))
  {
    var size := s.size + n;
    assert size % U32 == size;
    var e := AfterNumber(s, n);
    assert Gave(s, e) && Settle(e) == e;
    NumberGoes(s, n, e);
    BreaksNow(s, Sdnv.Encode(n), e);
  }

  lemma {:induction false} BlockTooLong(s: State, block: Block6)
    requires AtType(s) && BlockOk(block) && s.limits.quota < s.size + |block.data| < U32
    ensures Breaks(s, BlockBytes(block))
  {
    var head, length := [block.kind] + Sdnv.Encode(block.flags), Sdnv.Encode(|block.data|);
    FlagsGo(s, block);
    LengthTooLong(Flagged(s, block), |block.data|);
    BreaksLater(s, head, Flagged(s, block), length);
    BreaksBefore(s, head + length, block.data);
  }

  /** Blocks, none before the last one flagged as last, that together are too long. */
  lemma {:induction false} BlocksTooLong(s: State, blocks: seq<Block6>)
    requires AtType(s) && s.size <= s.limits.quota < s.size + Sum(blocks) < U32
    requires (forall i :: 0 <= i < |blocks| ==> BlockOk(blocks[i])) && Unflagged(blocks[..if blocks == [] then 0 else |blocks| - 1])
    ensures Breaks(s, BlocksBytes(blocks))
    decreases |blocks|
  {
    var n := |blocks| - 1;
    var before := blocks[..n];
    BlocksStep(blocks);
    if s.size + Sum(before) <= s.limits.quota {
      var u := FirstBlocks(s, before);
      BlockTooLong(u, blocks[n]);
      BreaksLater(s, BlocksBytes(before), u, BlockBytes(blocks[n]));
    } else {
      BlocksTooLong(s, before);
      BreaksBefore(s, BlocksBytes(before), BlockBytes(blocks[n]));
    }
  }

  // ---------------------------------------------------------------- A dictionary that is too long

  lemma {:induction false} DictTooLong(limits: Limits, sent: seq<Bundle6>, version: Byte, fields: seq<nat>, countdown: nat, length: nat)
    requires |fields| == FIELD_DICT_LENGTH && 0 < length < U16 && |Sdnv.Encode(length)| <= countdown
    requires limits.quota < limits.Base() + length + 1 < U32
    ensures Breaks(Head(limits, sent, version, fields, countdown), Sdnv.Encode(length))
  {
    var s := Head(limits, sent, version, fields, countdown);
    TicksDown(countdown, |Sdnv.Encode(length)|);
    var size := limits.Base() + length + 1;
    assert size % U32 == size;
    var e := AfterNumber(Counted(s, |Sdnv.Encode(length)|), length);
    assert Gave(s, e) && Settle(e) == e;
    NumberGoes(s, length, e);
    BreaksNow(s, Sdnv.Encode(length), e);
  }

  lemma {:induction false} HeadTooLong(b: Bundle6, limits: Limits, sent: seq<Bundle6>)
    requires WellTyped(b) && |Dictionary(Names(b.eids))| < U16 && Covers(b)
    requires limits.quota < limits.Base() + |Dictionary(Names(b.eids))| + 1 < U32
    ensures Breaks(Head(limits, sent, b.version, Numbers(b)[..2], b.primaryLength), EncodeAll(Numbers(b)[2..]))
  {
    var all, d := Numbers(b), |Dictionary(Names(b.eids))|;
    NumbersFit(b);
    DictNotEmpty(Names(b.eids));
    assert all[13] == d by { assert d % U16 == d; }
    NumbersBytes(all);
    NumbersTooLong(limits, sent, b.version, all[..2], all[2..13], d, b.primaryLength);
  }

  lemma {:induction false} NumbersTooLong(limits: Limits, sent: seq<Bundle6>, version: Byte, first: seq<nat>, values: seq<nat>, d: nat, countdown: nat)
    requires |first| == 2 && |values| == 11 && Plain(2, values) && 0 < d < U16
    requires |EncodeAll(values)| + |Sdnv.Encode(d)| <= countdown && limits.quota < limits.Base() + d + 1 < U32
    ensures Breaks(Head(limits, sent, version, first, countdown), EncodeAll(values) + Sdnv.Encode(d))
  {
    var s2, used := Head(limits, sent, version, first, countdown), |EncodeAll(values)|;
    var s13 := Head(limits, sent, version, first + values, countdown - used);
    PlainNumbers(s2, 2, values);
    DictTooLong(limits, sent, version, first + values, countdown - used, d);
    BreaksLater(s2, EncodeAll(values), s13, Sdnv.Encode(d));
  }

  // ---------------------------------------------------------------- The exact condition

  lemma {:induction false} TooLongFails(b: Bundle6, limits: Limits, sent: seq<Bundle6>)
    requires WellTyped(b) && LastFlags(b.blocks) && |Dictionary(Names(b.eids))| < U16 && Covers(b)
    requires limits.quota < limits.Base() + Accounted(b) < U32
    ensures var t := Run(Fresh(limits, sent), Bytes(b)); t.status == Error && t.sent == sent
  {
    var s0, s2 := Fresh(limits, sent), Head(limits, sent, b.version, Numbers(b)[..2], b.primaryLength);
    StartOf(b, limits, sent);
    BytesParts(b);
    if limits.Base() + |Dictionary(Names(b.eids))| + 1 > limits.quota {
      HeadTooLong(b, limits, sent);
      BreaksBefore(s2, EncodeAll(Numbers(b)[2..]), Dictionary(Names(b.eids)));
      BreaksBefore(s2, EncodeAll(Numbers(b)[2..]) + Dictionary(Names(b.eids)), EncodeAll(FragmentNumbers(b)));
      BreaksLater(s0, Start(b), s2, AfterLength(b));
      BreaksBefore(s0, Start(b) + AfterLength(b), BlocksBytes(b.blocks));
    } else {
      var s := HeadDone(b, limits, sent, b.primaryLength - |AfterLength(b)|);
      AfterLengthGoes(b, limits, sent, b.primaryLength);
      GoesOn(s0, Start(b), s2, AfterLength(b), s);
      BlocksTooLong(s, b.blocks);
      BreaksLater(s0, Start(b) + AfterLength(b), s, BlocksBytes(b.blocks));
    }
    BreaksFails(s0, Bytes(b));
  }

  /**
   A bundle whose announced length covers its primary block is read back if and only if the quota has room for its
   dictionary and data next to the storage that is in use when it begins, as long as the sums fit into 32 bits.
   */
  lemma {:induction false} ReadBackIffFits(b: Bundle6, limits: Limits, sent: seq<Bundle6>)
    requires WellTyped(b) && LastFlags(b.blocks) && |Dictionary(Names(b.eids))| < U16 && Covers(b)
    requires limits.quota < U32 && limits.Base() + Accounted(b) < U32
    ensures var t := Run(Fresh(limits, sent), Bytes(b));
            var fits := limits.Base() + Accounted(b) <= limits.quota;
            (t.status == Done <==> fits) && t.sent == sent + if fits && HasPayload(b.blocks) then [Parsed(b)] else []
  {
    if limits.Base() + Accounted(b) <= limits.quota { RoundTrip(b, limits, sent); } else { TooLongFails(b, limits, sent); }
  }
}
