/** The receiving task: a shifting input buffer, the parser's own bulk reads, and those that bypass the buffer. */
module RxTask {
  import opened Wrappers
  import opened Bundles
  import Sdnv
  import opened Bundle6
  import opened Bundle6Parser
  import opened Bundle6RoundTrip
  import opened Chains

  // ---------------------------------------------------------------- The parser's read loop

  /** Between two calls: a bulk read is pending exactly if the content of a block is awaited. */
  ghost predicate Resting(s: State) {
    Valid(s) && (s.bulk ==> s.status == Good && s.stage.BlockData? && s.buffer == []) && (s.status == Good && s.stage.BlockData? ==> s.bulk)
  }

  /** One byte outside bulk reads. */
  lemma {:induction false} ByteRest(s: State, byte: Byte)
    requires Resting(s) && s.status == Good && !s.bulk
    ensures Resting(ReadByte(s, byte)) && Settle(s) == s
    ensures Goes(s, [byte], Settle(ReadByte(s, byte)))
  {
    ByteKeepsRest(s, byte);
    GoesByte(s, byte, Settle(ReadByte(s, byte)));
  }

  lemma {:induction false} ByteKeepsRest(s: State, byte: Byte)
    requires Resting(s) && s.status == Good && !s.bulk
    ensures Resting(ReadByte(s, byte))
  {
  }

  /** A complete bulk read. */
  lemma {:induction false} BulkRest(s: State, data: seq<Byte>)
    requires Resting(s) && s.bulk && |data| == s.next
    ensures var t := ReadByte(s.(buffer := data, bulk := false), 0);
            Resting(t) && !t.bulk && Settle(t) == t && Goes(Settle(s), data, t)
  {
    var t := ReadByte(s.(buffer := data, bulk := false), 0);
    DataGoes(s, data, t);
  }

  /** Why `bundle6_parser_read` stops: nothing left, finished or failed, or a bulk read of more than is there. */
  ghost predicate Stopped(t: State, left: nat) {
    left == 0 || t.status != Good || (t.bulk && t.next > left)
  }

  /** One round of the loop of `bundle6_parser_read`; the state and how many bytes it took. */
  method ReadSome(s: State, data: seq<Byte>) returns (t: State, n: nat)
    requires Resting(s) && s.status == Good && data != [] && !Stopped(s, |data|)
    ensures n <= |data| && Resting(t) && Goes(Settle(s), data[..n], Settle(t))
    ensures (n == 0 ==> s.bulk && !t.bulk) && (t.bulk && t.next == 0 ==> n > 0)
  {
    if s.bulk {
      n := s.next;
      BulkRest(s, data[..n]);
      t := ReadByte(s.(buffer := data[..n], bulk := false), 0);
    } else {
      ByteRest(s, data[0]);
      t, n := ReadByte(s, data[0]), 1;
      assert data[..1] == [data[0]];
    }
  }

  class Parser {
    var s: State

    constructor (limits: Limits)
      ensures s == Fresh(limits, [])
    {
      s := Fresh(limits, []);
    }

    /** `bundle6_parser_read` with a buffer: whatever it takes, it ends up where the byte-wise parser does. */
    method Read(data: seq<Byte>) returns (i: nat)
      requires Resting(s) && s.status == Good && !s.bulk && data != []
      modifies this
      ensures 0 < i <= |data| && Resting(s) && Goes(old(s), data[..i], Settle(s)) && Stopped(s, |data| - i)
      ensures s.bulk && s.next == 0 ==> i == |data|
    {
      i := 0;
      ghost var start := s;
      GoesNowhere(start);
      assert data[..0] == [];
      while i < |data| && s.status == Good
        invariant i <= |data| && Resting(s) && Goes(start, data[..i], Settle(s))
        invariant i == 0 ==> s == start
        decreases |data| - i, s.bulk
      {
        if s.bulk && i + s.next > |data| {
          return;
        }
        ghost var before := Settle(s);
        assert data[i..] != [];
        var t, n := ReadSome(s, data[i..]);
        GoesOn(start, data[..i], before, data[i..][..n], Settle(t));
        assert data[..i] + data[i..][..n] == data[..i + n];
        s := t;
        i := i + n;
      }
    }
  }

  // ---------------------------------------------------------------- The reference: a receiver that takes one byte after the other

  const CLA_RX_BUFFER_SIZE: nat := 64
  const VERSION_6: Byte := 6
  const VERSION_7: Byte := 0x9f

  /** `known` says that a bundle has begun, `skip` how many bytes are still to be ignored; from `foreign` on this model says nothing. */
  datatype Ref = Ref(known: bool, p: State, skip: nat, foreign: bool)

  /** A finished or failed parser is reset. */
  function Renew(r: Ref): Ref {
    if r.p.status != Good then Ref(false, Fresh(r.p.limits.Next(), r.p.sent), 0, false) else r
  }

  /** A first byte that is no known version makes the receiver ignore as many bytes as the buffer holds. */
  function Take(r: Ref, byte: Byte): (r': Ref)
    requires Valid(r.p)
    ensures Valid(r'.p)
  {
    if r.foreign then r
    else if r.skip > 0 then r.(skip := r.skip - 1)
    else if !r.known && byte == VERSION_7 then r.(foreign := true)
    else if !r.known && byte != VERSION_6 then r.(skip := CLA_RX_BUFFER_SIZE - 1)
    else Renew(r.(known := true, p := Feed(r.p, byte)))
  }

  function Receive(r: Ref, bytes: seq<Byte>): (r': Ref)
    requires Valid(r.p)
    ensures Valid(r'.p)
  {
    if bytes == [] then r else Take(Receive(r, bytes[..|bytes| - 1]), bytes[|bytes| - 1])
  }

  ghost predicate Takes(r: Ref, byte: Byte, r': Ref) { Valid(r.p) && Take(r, byte) == r' }

  ghost predicate IsHistory(trace: seq<Ref>, bytes: seq<Byte>) {
    |trace| == |bytes| + 1
    && forall i {:trigger Takes(trace[i], bytes[i], trace[i + 1])} :: 0 <= i < |bytes| ==> Takes(trace[i], bytes[i], trace[i + 1])
  }

  /** The bytes take the byte-wise receiver from `r` to `r'`. */
  ghost predicate Receives(r: Ref, bytes: seq<Byte>, r': Ref) { Leads(Takes, r, bytes, r') }

  lemma {:induction false} HistoryIsLinked(trace: seq<Ref>, bytes: seq<Byte>)
    ensures IsHistory(trace, bytes) == Linked(Takes, trace, bytes)
  {
  }

  lemma {:induction false} ReceivesTrace(trace: seq<Ref>, bytes: seq<Byte>)
    requires |trace| == |bytes| + 1 && forall i :: 0 <= i < |bytes| ==> Takes(trace[i], bytes[i], trace[i + 1])
    ensures Receives(trace[0], bytes, trace[|bytes|])
  {
    HistoryIsLinked(trace, bytes);
  }

  lemma {:induction false} ReceivesNothing(r: Ref)
    ensures Receives(r, [], r)
  {
    LeadsNowhere<Ref, Byte>(Takes, r);
  }

  lemma {:induction false} ReceivesOn(r: Ref, a: seq<Byte>, r': Ref, b: seq<Byte>, r'': Ref)
    requires Receives(r, a, r') && Receives(r', b, r'')
    ensures Receives(r, a + b, r'')
  {
    LeadsOn(Takes, r, a, r', b, r'');
  }

  lemma {:induction false} HistoryIs(trace: seq<Ref>, bytes: seq<Byte>, n: nat)
    requires IsHistory(trace, bytes) && n <= |bytes| && Valid(trace[0].p)
    ensures Receive(trace[0], bytes[..n]) == trace[n]
  {
    if n > 0 {
      var m := n - 1;
      HistoryIs(trace, bytes, m);
      assert bytes[..n][..m] == bytes[..m];
      assert Takes(trace[m], bytes[m], trace[m + 1]);
    }
  }

  lemma {:induction false} ReceivesIs(r: Ref, bytes: seq<Byte>, r': Ref)
    requires Receives(r, bytes, r') && Valid(r.p)
    ensures Receive(r, bytes) == r'
  {
    var trace :| Linked(Takes, trace, bytes) && trace[0] == r && trace[|bytes|] == r';
    HistoryIsLinked(trace, bytes);
    HistoryIs(trace, bytes, |bytes|);
    assert bytes[..|bytes|] == bytes;
  }

  /** What the parser does with bytes is what the receiver does with them, up to the reset at the end. */
  lemma {:induction false} ParserReceives(known: bool, s: State, bytes: seq<Byte>, t: State)
    requires Goes(s, bytes, t) && bytes != [] && (known || bytes[0] == VERSION_6)
    ensures Receives(Ref(known, s, 0, false), bytes, Renew(Ref(true, t, 0, false)))
  {
    var states := TraceOf(s, bytes, t);
    TraceReceives(known, states, bytes, |bytes|);
  }

  lemma {:induction false} TraceReceives(known: bool, states: seq<State>, bytes: seq<Byte>, m: nat)
    requires IsTrace(states, bytes) && m == |bytes| > 0 && (known || bytes[0] == VERSION_6)
    ensures Receives(RefAt(known, states, 0), bytes, RefAt(known, states, m))
  {
    var trace := seq(m + 1, i requires 0 <= i <= m => RefAt(known, states, i));
    forall i | 0 <= i < m ensures Takes(trace[i], bytes[i], trace[i + 1]) { StepReceives(known, states, bytes, i); }
    ReceivesTrace(trace, bytes);
  }

  /** The receiver whose parser is at some point of a run. */
  function RefAt(known: bool, states: seq<State>, i: nat): Ref
    requires i < |states|
  {
    if i + 1 < |states| then Ref(known || i > 0, states[i], 0, false) else Renew(Ref(true, states[i], 0, false))
  }

  lemma {:induction false} InRun(states: seq<State>, bytes: seq<Byte>, i: nat)
    requires IsTrace(states, bytes) && i < |bytes|
    ensures Next(states[i], bytes[i], states[i + 1]) && states[i].status == Good
  {
    assert Next(states[i], bytes[i], states[i + 1]);
  }

  lemma {:induction false} StepReceives(known: bool, states: seq<State>, bytes: seq<Byte>, i: nat)
    requires IsTrace(states, bytes) && i < |bytes| && (known || bytes[0] == VERSION_6)
    ensures Takes(RefAt(known, states, i), bytes[i], RefAt(known, states, i + 1))
  {
    InRun(states, bytes, i);
    TakesNext(known || i > 0, states[i], bytes[i], states[i + 1]);
    if i + 1 < |bytes| { InRun(states, bytes, i + 1); }
  }

  lemma {:induction false} TakesNext(known: bool, s: State, byte: Byte, t: State)
    requires Next(s, byte, t) && (known || byte == VERSION_6)
    ensures Takes(Ref(known, s, 0, false), byte, Renew(Ref(true, t, 0, false)))
  {
  }

  /** Bytes after an unknown first one are ignored. */
  lemma {:induction false} IgnoredReceives(r: Ref, bytes: seq<Byte>)
    requires Valid(r.p) && !r.known && r.skip == 0 && !r.foreign && |bytes| == CLA_RX_BUFFER_SIZE
    requires bytes[0] != VERSION_6 && bytes[0] != VERSION_7
    ensures Receives(r, bytes, r)
  {
    var m := |bytes|;
    var trace := seq(m + 1, i requires 0 <= i <= m => r.(skip := if i == 0 then 0 else m - i));
    assert trace[0] == r && trace[m] == r;
    forall i | 0 <= i < m ensures Takes(trace[i], bytes[i], trace[i + 1]) {
    }
    ReceivesTrace(trace, bytes);
  }

  // ---------------------------------------------------------------- The link and the input buffer

  function Work(chunks: seq<seq<Byte>>): nat { if chunks == [] then 0 else 1 + |chunks[0]| + Work(chunks[1..]) }

  /** The stream as the reads will deliver it: in pieces of any size, empty ones included, until reading fails. */
  class Wire {
    var chunks: seq<seq<Byte>>
    ghost var received: seq<Byte>

    constructor (chunks: seq<seq<Byte>>)
      ensures this.chunks == chunks && received == []
    {
      this.chunks := chunks;
      received := [];
    }

    /** `cla_read` */
    method Read(max: nat) returns (ok: bool, bytes: seq<Byte>)
      requires max > 0
      modifies this
      ensures ok <==> old(chunks) != []
      ensures |bytes| <= max && received == old(received) + bytes
      ensures ok ==> Work(chunks) < Work(old(chunks))
      ensures !ok ==> bytes == [] && chunks == []
    {
      if chunks == [] {
        return false, [];
      }
      ok := true;
      if |chunks[0]| <= max {
        bytes, chunks := chunks[0], chunks[1..];
      } else {
        ghost var before := chunks;
        bytes, chunks := chunks[0][..max], chunks[0 := chunks[0][max..]];
        assert chunks[1..] == before[1..];
      }
      received := received + bytes;
    }
  }

  /** `input_buffer` */
  class InputBuffer {
    const data: array<Byte>
    var end: nat

    ghost predicate Valid()
      reads this
    {
      data.Length == CLA_RX_BUFFER_SIZE && end <= CLA_RX_BUFFER_SIZE
    }

    function Contents(): seq<Byte>
      reads this, data
      requires Valid()
    {
      data[..end]
    }

    constructor ()
      ensures Valid() && fresh(data) && Contents() == []
    {
      data := new Byte[CLA_RX_BUFFER_SIZE];
      end := 0;
    }

    method Append(bytes: seq<Byte>)
      requires Valid() && end + |bytes| <= CLA_RX_BUFFER_SIZE
      modifies this, data
      ensures Valid() && Contents() == old(Contents()) + bytes
    {
      forall k | 0 <= k < |bytes| { data[end + k] := bytes[k]; }
      end := end + |bytes|;
    }

    /** The parsed bytes are removed by moving the others to the start. */
    method Shift(parsed: nat)
      requires Valid() && parsed <= end
      modifies this, data
      ensures Valid() && Contents() == old(Contents())[parsed..]
    {
      forall k | 0 <= k < end - parsed { data[k] := data[parsed + k]; }
      end := end - parsed;
    }

    method Clear()
      requires Valid()
      modifies this
      ensures Valid() && Contents() == []
    {
      end := 0;
    }
  }

  // ---------------------------------------------------------------- The task

  /** In this state a reset does nothing. */
  predicate IsFresh(s: State) { s.status == Good && s.stage.Version? }

  function Initially(limits: Limits): Ref { Ref(false, Fresh(limits, []), 0, false) }

  class Receiver {
    const parser: Parser
    var known: bool
    var foreign: bool

    constructor (limits: Limits)
      ensures fresh(parser) && parser.s == Fresh(limits, []) && !known && !foreign
    {
      parser := new Parser(limits);
      known, foreign := false, false;
    }

    /** Between two calls. */
    ghost predicate Rest()
      reads this, parser
    {
      Resting(parser.s) && parser.s.status == Good && (!known ==> parser.s == Fresh(parser.s.limits, parser.s.sent))
    }

    ghost predicate Quiet()
      reads this, parser
    {
      Rest() && !parser.s.bulk
    }

    /** What the byte-wise receiver would be like. */
    ghost function Abs(): Ref
      reads this, parser
      requires Rest()
    {
      Renew(Ref(known, Settle(parser.s), 0, false))
    }

    /** `rx_task_reset_parsers` */
    method ResetParsers()
      modifies this`known, parser
      ensures !known && parser.s == if IsFresh(old(parser.s)) then old(parser.s) else Fresh(old(parser.s).limits.Next(), old(parser.s).sent)
    {
      known := false;
      if !IsFresh(parser.s) {
        parser.s := Fresh(parser.s.limits.Next(), parser.s.sent);
      }
    }

    /** `select_bundle_parser_version` while no bundle has begun, the version 6 parser afterwards. */
    method Forward(data: seq<Byte>) returns (n: nat)
      requires Quiet() && data != [] && !foreign
      modifies this, parser
      ensures n <= |data|
      ensures n == 0 ==> parser.s == old(parser.s) && !known && !old(known) && data[0] != VERSION_6 && foreign == (data[0] == VERSION_7)
      ensures n > 0 ==> known && !foreign && (old(known) || data[0] == VERSION_6) && Resting(parser.s) && Goes(old(parser.s), data[..n], Settle(parser.s))
                        && Stopped(parser.s, |data| - n) && (parser.s.bulk && parser.s.next == 0 ==> n == |data|)
    {
      if !known {
        if data[0] == VERSION_6 {
          known := true;
        } else {
          foreign := data[0] == VERSION_7;
          return 0;
        }
      }
      n := parser.Read(data);
    }

    /** One round of the loop of `chunk_read`. */
    method Advance(data: seq<Byte>) returns (n: nat, more: bool)
      requires Quiet() && data != [] && !foreign
      modifies this, parser
      ensures n <= |data| && Rest() && Receives(old(Abs()), data[..n], Abs())
      ensures more ==> Quiet() && n > 0 && !foreign
      ensures !more ==> (parser.s.bulk && n > 0 && !foreign && (parser.s.next == 0 ==> n == |data|))
                        || (Quiet() && n == 0 && !known && data[0] != VERSION_6 && foreign == (data[0] == VERSION_7))
    {
      ghost var k, s := known, parser.s;
      n := Forward(data);
      if n == 0 {
        ReceivesNothing(Abs());
        return 0, false;
      }
      ParserReceives(k, s, data[..n], Settle(parser.s));
      if parser.s.status != Good {
        ResetParsers();
        more := true;
      } else {
        more := !parser.s.bulk;
      }
    }

    /** The parsing step of `chunk_read`, on the buffer's contents. */
    method ParseInput(data: seq<Byte>) returns (stream: nat)
      requires Quiet() && !foreign
      modifies this, parser
      ensures stream <= |data| && Rest() && Receives(old(Abs()), data[..stream], Abs())
      ensures parser.s.bulk ==> stream > 0 && !foreign && (parser.s.next == 0 ==> stream == |data|)
      ensures !parser.s.bulk && stream < |data| ==> !known && data[stream] != VERSION_6 && foreign == (data[stream] == VERSION_7)
      ensures !parser.s.bulk && stream == |data| ==> !foreign
    {
      stream := 0;
      var more := true;
      ghost var start := Abs();
      ReceivesNothing(start);
      assert data[..0] == [];
      while stream < |data| && more
        invariant stream <= |data| && Rest() && Receives(start, data[..stream], Abs())
        invariant more ==> Quiet() && !foreign
        invariant !more && parser.s.bulk ==> stream > 0 && !foreign && (parser.s.next == 0 ==> stream == |data|)
        invariant !more && !parser.s.bulk ==> stream < |data| && !known && data[stream] != VERSION_6 && foreign == (data[stream] == VERSION_7)
        decreases |data| - stream, more
      {
        ghost var before, done := Abs(), data[..stream];
        var left := data[stream..];
        var n;
        n, more := Advance(left);
        ReceivesOn(start, done, before, left[..n], Abs());
        assert done + left[..n] == data[..stream + n];
        stream := stream + n;
      }
    }

    /** The end of `bulk_read`: the parser is told that the awaited bytes are there. */
    method BulkDone(data: seq<Byte>)
      requires Rest() && parser.s.bulk && |data| == parser.s.next
      modifies this, parser
      ensures Quiet() && foreign == old(foreign) && Receives(old(Abs()), data, Abs())
    {
      ghost var s := parser.s;
      ghost var before := Abs();
      BulkRest(s, data);
      parser.s := ReadByte(parser.s.(buffer := data, bulk := false), 0);
      if data == [] {
        assert Settle(s) == parser.s by { assert s.(bulk := false) == s.(buffer := data, bulk := false); }
        ReceivesNothing(before);
      } else {
        ParserReceives(true, s, data, parser.s);
      }
      if parser.s.status != Good {
        ResetParsers();
      }
    }
  }

  /** The reads of `bulk_read` past the input buffer. */
  method ReadDirectly(wire: Wire, filled: seq<Byte>, next: nat) returns (ok: bool, data: seq<Byte>)
    requires |filled| <= next
    modifies wire
    ensures ok ==> |data| == next && filled <= data && wire.received == old(wire.received) + data[|filled|..]
    ensures Work(wire.chunks) <= Work(old(wire.chunks))
    ensures |filled| < next && ok ==> Work(wire.chunks) < Work(old(wire.chunks))
  {
    data := filled;
    assert data[|filled|..] == [];
    while |data| < next
      invariant |filled| <= |data| <= next && filled <= data && wire.received == old(wire.received) + data[|filled|..]
      invariant Work(wire.chunks) <= Work(old(wire.chunks)) && (|data| > |filled| ==> Work(wire.chunks) < Work(old(wire.chunks)))
      decreases Work(wire.chunks)
    {
      var more, bytes := wire.Read(next - |data|);
      if !more {
        return false, data;
      }
      assert (data + bytes)[|filled|..] == data[|filled|..] + bytes;
      data := data + bytes;
    }
    ok := true;
  }

  class Task {
    const limits: Limits
    const receiver: Receiver
    const parser: Parser
    const input: InputBuffer
    ghost var consumed: seq<Byte>

    /** What holds at the top of the task's loop. */
    ghost predicate Valid(wire: Wire)
      reads this, receiver, parser, input, input.data, wire
    {
      && receiver.parser == parser && input.Valid() && receiver.Rest() && (input.end < CLA_RX_BUFFER_SIZE || receiver.foreign)
      && (parser.s.bulk && parser.s.next == 0 ==> input.Contents() == [])
      && wire.received == consumed + input.Contents()
      && Receives(Initially(limits), consumed, receiver.Abs())
    }

    constructor (limits: Limits, wire: Wire)
      requires wire.received == []
      ensures Valid(wire) && fresh(receiver) && fresh(parser) && fresh(input) && fresh(input.data) && !receiver.foreign
      ensures this.limits == limits
    {
      this.limits := limits;
      var r := new Receiver(limits);
      receiver, parser := r, r.parser;
      input := new InputBuffer();
      consumed := [];
      ReceivesNothing(Initially(limits));
    }

    /** `chunk_read`, and the removal of what was parsed. */
    method ChunkRead(wire: Wire) returns (ok: bool)
      requires Valid(wire) && !parser.s.bulk && !receiver.foreign
      modifies this, receiver, parser, input, input.data, wire
      ensures ok ==> Valid(wire)
      ensures Work(wire.chunks) <= Work(old(wire.chunks)) && (ok ==> Work(wire.chunks) < Work(old(wire.chunks)))
    {
      var bytes;
      ok, bytes := wire.Read(CLA_RX_BUFFER_SIZE - input.end);
      if !ok {
        receiver.ResetParsers();
        input.Clear();
        return;
      }
      input.Append(bytes);
      ghost var before := receiver.Abs();
      var data := input.Contents();
      var parsed := receiver.ParseInput(data);
      Consume(wire, before, data, parsed);
    }

    /** The end of a round: the whole buffer was consumed, or its start, or nothing while it is full. */
    method Consume(wire: Wire, ghost before: Ref, ghost data: seq<Byte>, parsed: nat)
      requires receiver.parser == parser && input.Valid() && receiver.Rest() && data == input.Contents() && parsed <= |data|
      requires wire.received == consumed + data && Receives(Initially(limits), consumed, before)
      requires Receives(before, data[..parsed], receiver.Abs())
      requires parser.s.bulk ==> parsed > 0 && (parser.s.next == 0 ==> parsed == |data|)
      requires !parser.s.bulk && parsed < |data| && !receiver.foreign ==> !receiver.known && data[parsed] != VERSION_6 && data[parsed] != VERSION_7
      modifies this, receiver, parser, input, input.data
      ensures Valid(wire) && receiver.foreign == old(receiver.foreign)
    {
      ReceivesOn(Initially(limits), consumed, before, data[..parsed], receiver.Abs());
      ghost var done := consumed;
      consumed := consumed + data[..parsed];
      if parsed == input.end {
        input.Clear();
        assert data[..parsed] == data;
      } else if parsed != 0 {
        input.Shift(parsed);
        assert done + data == done + data[..parsed] + data[parsed..];
      } else if input.end == CLA_RX_BUFFER_SIZE && !receiver.foreign {
        assert data[..0] == [] && consumed == done;
        DiscardAll(wire, data);
      } else {
        assert data[..0] == [] && consumed == done;
      }
    }

    /** A full buffer of which nothing could be parsed is dropped. */
    method DiscardAll(wire: Wire, ghost data: seq<Byte>)
      requires receiver.parser == parser && input.Valid() && receiver.Quiet() && data == input.Contents() && |data| == CLA_RX_BUFFER_SIZE
      requires wire.received == consumed + data && Receives(Initially(limits), consumed, receiver.Abs())
      requires !receiver.known && data[0] != VERSION_6 && data[0] != VERSION_7
      modifies this, receiver`known, parser, input
      ensures Valid(wire)
    {
      IgnoredReceives(receiver.Abs(), data);
      ReceivesOn(Initially(limits), consumed, receiver.Abs(), data, receiver.Abs());
      receiver.ResetParsers();
      consumed := consumed + data;
      input.Clear();
    }

    /** A bulk read that the buffer can satisfy. */
    method BulkFromBuffer(wire: Wire)
      requires Valid(wire) && parser.s.bulk && !receiver.foreign && parser.s.next <= input.end
      modifies this, receiver, parser, input, input.data
      ensures Valid(wire) && !parser.s.bulk && !receiver.foreign
    {
      var contents, next := input.Contents(), parser.s.next;
      var data := contents[..next];
      ghost var before := receiver.Abs();
      input.Shift(next);
      receiver.BulkDone(data);
      ReceivesOn(Initially(limits), consumed, before, data, receiver.Abs());
      SplitContents(consumed, contents, next);
      consumed := consumed + data;
    }

    /** `bulk_read`, and the removal of what was used. */
    method BulkRead(wire: Wire) returns (ok: bool)
      requires Valid(wire) && parser.s.bulk && !receiver.foreign
      modifies this, receiver, parser, input, input.data, wire
      ensures ok ==> Valid(wire) && !parser.s.bulk && !receiver.foreign
    {
      if parser.s.next <= input.end {
        BulkFromBuffer(wire);
        return true;
      }
      var contents, data := input.Contents(), [];
      ghost var before := receiver.Abs();
      ok, data := ReadDirectly(wire, contents, parser.s.next);
      input.Clear();
      if !ok {
        receiver.ResetParsers();
        return;
      }
      receiver.BulkDone(data);
      ReceivesOn(Initially(limits), consumed, before, data, receiver.Abs());
      assert data == contents + data[|contents|..];
      consumed := consumed + data;
    }

    /** The bundles that the parser has sent are those that the byte-wise receiver sends for what was consumed. */
    ghost predicate SentAsReference()
      reads this, receiver, parser
      requires receiver.parser == parser && receiver.Rest()
    {
      var reference := Receive(Initially(limits), consumed);
      parser.s.sent == reference.p.sent || (parser.s.bulk && parser.s.next == 0 && Settle(parser.s).sent == reference.p.sent)
    }

    /**
     `cla_contact_rx_task` for as many rounds as the link is active, or until a read fails or a bundle of version 7
     begins. At the top of its loop, what has been received is what has been consumed followed by what is in the
     buffer, and the bundles sent are those of the byte-wise receiver; only an empty block may yet have to be ended.
     */
    method Run(wire: Wire, rounds: nat) returns (ok: bool)
      requires Valid(wire) && !receiver.foreign
      modifies this, receiver, parser, input, input.data, wire
      ensures ok ==> Valid(wire) && wire.received == consumed + input.Contents() && SentAsReference()
    {
      ok := true;
      var n := 0;
      while n < rounds && ok && !receiver.foreign
        invariant ok ==> Valid(wire)
      {
        if parser.s.bulk {
          ok := BulkRead(wire);
        } else {
          ok := ChunkRead(wire);
        }
        n := n + 1;
      }
      if ok {
        ReceivesIs(Initially(limits), consumed, receiver.Abs());
        SettledSent(parser.s);
      }
    }
  }

  lemma {:induction false} SplitContents(consumed: seq<Byte>, contents: seq<Byte>, n: nat)
    requires n <= |contents|
    ensures consumed + contents == consumed + contents[..n] + contents[n..]
  {
    assert contents == contents[..n] + contents[n..];
  }

  lemma {:induction false} SettledSent(s: State)
    requires Resting(s) && s.status == Good
    ensures (s.bulk && s.next == 0) || Settle(s) == s
  {
  }

  // ---------------------------------------------------------------- Streams of bundles

  /** The limits that apply to bundle number `i`. */
  function At(limits: Limits, i: nat): Limits { limits.(round := limits.round + i) }

  /** Every bundle can be serialized and read back, given the storage in use when it begins. */
  ghost predicate Transmittable(bundles: seq<Bundle6>, limits: Limits) {
    forall i :: 0 <= i < |bundles| ==>
      Serializable(bundles[i], At(limits, i)) && Covers(bundles[i]) && bundles[i].version == VERSION_6 && HasPayload(bundles[i].blocks)
  }

  function Stream(bundles: seq<Bundle6>): seq<Byte>
    requires forall i :: 0 <= i < |bundles| ==> |bundles[i].eids| == 4
  {
    if bundles == [] then [] else Stream(bundles[..|bundles| - 1]) + Bytes(bundles[|bundles| - 1])
  }

  function AllParsed(bundles: seq<Bundle6>): seq<Bundle6> { seq(|bundles|, i requires 0 <= i < |bundles| => Parsed(bundles[i])) }

  /** The receiver between two bundles. */
  function Idle(limits: Limits, sent: seq<Bundle6>): Ref { Ref(false, Fresh(limits, sent), 0, false) }

  lemma {:induction false} BundleReceived(b: Bundle6, limits: Limits, sent: seq<Bundle6>)
    requires Serializable(b, limits) && Covers(b) && b.version == VERSION_6 && HasPayload(b.blocks)
    ensures Receives(Idle(limits, sent), Bytes(b), Idle(limits.Next(), sent + [Parsed(b)]))
  {
    var t := BundleGoes(b, limits, sent);
    assert Bytes(b)[0] == b.version;
    ParserReceives(false, Fresh(limits, sent), Bytes(b), t);
  }

  /** A stream of serialized bundles makes the receiver send them all, in order, and leaves it idle. */
  lemma {:induction false} StreamReceived(bundles: seq<Bundle6>, limits: Limits)
    requires Transmittable(bundles, limits)
    ensures Receives(Initially(limits), Stream(bundles), Idle(At(limits, |bundles|), AllParsed(bundles)))
    decreases |bundles|
  {
    if bundles == [] {
      assert At(limits, 0) == limits;
      ReceivesNothing(Initially(limits));
    } else {
      var n := |bundles| - 1;
      var before := bundles[..n];
      StreamReceived(before, limits);
      OneMoreReceived(limits, Stream(before), n, AllParsed(before), bundles[n]);
      AllParsedStep(bundles);
    }
  }

  lemma {:induction false} AllParsedStep(bundles: seq<Bundle6>)
    requires bundles != []
    ensures AllParsed(bundles) == AllParsed(bundles[..|bundles| - 1]) + [Parsed(bundles[|bundles| - 1])]
  {
  }

  lemma {:induction false} OneMoreReceived(limits: Limits, stream: seq<Byte>, n: nat, sent: seq<Bundle6>, b: Bundle6)
    requires Receives(Initially(limits), stream, Idle(At(limits, n), sent))
    requires Serializable(b, At(limits, n)) && Covers(b) && b.version == VERSION_6 && HasPayload(b.blocks)
    ensures Receives(Initially(limits), stream + Bytes(b), Idle(At(limits, n + 1), sent + [Parsed(b)]))
  {
    BundleReceived(b, At(limits, n), sent);
    assert At(limits, n).Next() == At(limits, n + 1);
    ReceivesOn(Initially(limits), stream, Idle(At(limits, n), sent), Bytes(b), Idle(At(limits, n + 1), sent + [Parsed(b)]));
  }

  /**
   So, wherever the stream was split, a task that has consumed it has sent exactly these bundles, if each of them fits
   into the quota next to what is in use when it begins; bundles that are kept in the store count then.
   */
  lemma {:induction false} StreamDelivered(bundles: seq<Bundle6>, limits: Limits)
    requires Transmittable(bundles, limits)
    ensures Receive(Initially(limits), Stream(bundles)).p.sent == AllParsed(bundles)
  {
    StreamReceived(bundles, limits);
    ReceivesIs(Initially(limits), Stream(bundles), Idle(At(limits, |bundles|), AllParsed(bundles)));
  }
}
