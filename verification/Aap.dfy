/** The application agent protocol: messages on a local socket, parsed from pieces of any size. */
module Aap {
  import opened Wrappers
  import opened Bundles

  const ACK: nat := 0
  const NACK: nat := 1
  const REGISTER: nat := 2
  const SENDBUNDLE: nat := 3
  const RECVBUNDLE: nat := 4
  const SENDCONFIRM: nat := 5
  const CANCELBUNDLE: nat := 6
  const WELCOME: nat := 7
  const PING: nat := 8
  const INVALID: nat := 0xff

  /** `struct aap_message`; parts that a message of its kind does not have are empty. */
  datatype Message = Message(kind: nat, eid: seq<Byte>, payload: seq<Byte>, id: nat)

  const CLEARED := Message(INVALID, [], [], 0)

  predicate HasEid(kind: nat) { kind == REGISTER || kind == SENDBUNDLE || kind == RECVBUNDLE || kind == WELCOME }

  predicate HasPayload(kind: nat) { kind == SENDBUNDLE || kind == RECVBUNDLE }

  predicate HasId(kind: nat) { kind == SENDCONFIRM || kind == CANCELBUNDLE }

  /** Messages with the field widths of the protocol and without stray parts. */
  predicate WellFormed(m: Message) {
    && m.kind <= PING && |m.eid| < U16 && |m.payload| < U64 && m.id < U16
    && (!HasEid(m.kind) ==> m.eid == []) && (!HasPayload(m.kind) ==> m.payload == []) && (!HasId(m.kind) ==> m.id == 0)
  }

  // ---------------------------------------------------------------- The serializer

  function PayloadPart(m: Message): seq<Byte> { if HasPayload(m.kind) then BigEndian(|m.payload|, 8) + m.payload else [] }

  function EidPart(m: Message): seq<Byte> { if HasEid(m.kind) then BigEndian(|m.eid|, 2) + m.eid else [] }

  function IdPart(m: Message): seq<Byte> { if HasId(m.kind) then BigEndian(m.id, 8) else [] }

  function Bytes(m: Message): seq<Byte> { [0x10 + m.kind % 16] + EidPart(m) + PayloadPart(m) + IdPart(m) }

  /** `aap_get_serialized_size` */
  function SerializedSize(m: Message): (r: nat)
    ensures r == |Bytes(m)|
  {
    var withEid := if HasEid(m.kind) then 1 + 2 + |m.eid| else 1;
    var withPayload := if HasPayload(m.kind) then withEid + 8 + |m.payload| else withEid;
    if HasId(m.kind) then withPayload + 8 else withPayload
  }

  /** `aap_serialize` */
  method Serialize(m: Message) returns (out: seq<Byte>)
    ensures out == Bytes(m)
  {
    out := [0x10 + m.kind % 16];
    if HasEid(m.kind) {
      out := WriteWithLength(out, BigEndian(|m.eid|, 2), m.eid);
    }
    if HasPayload(m.kind) {
      out := WriteWithLength(out, BigEndian(|m.payload|, 8), m.payload);
    }
    if HasId(m.kind) {
      out := out + BigEndian(m.id, 8);
    }
  }

  /** A length, and what it is the length of unless that is empty. */
  method WriteWithLength(start: seq<Byte>, length: seq<Byte>, data: seq<Byte>) returns (out: seq<Byte>)
    ensures out == start + (length + data)
  {
    out := start + length;
    if |data| != 0 { out := out + data; }
  }

  // ---------------------------------------------------------------- The parser

  datatype Status = Good | Done | Error

  /** The function that `parse` points to. */
  datatype Stage = ParseType | ParseEidLength | ParseEid | ParsePayloadLength | ParsePayload | ParseBundleId

  /** `struct aap_parser`; the lengths of what has been copied so far are those of the message's parts. */
  datatype State = State(status: Status, stage: Stage, message: Message, remaining: nat, maxPayload: nat)

  /** `aap_parser_reset` */
  function Fresh(maxPayload: nat): State { State(Good, ParseType, CLEARED, 0, maxPayload) }

  /** The new state and the number of bytes consumed. */
  function ParseTypeByte(s: State, buffer: seq<Byte>): (r: (State, nat))
    ensures r.1 <= |buffer|
  {
    if buffer == [] then (s, 0)
    else if buffer[0] / 16 != 1 then (s.(status := Error), 1)
    else
      var kind := buffer[0] % 16;
      var s1 := s.(message := s.message.(kind := kind));
      if kind == ACK || kind == NACK || kind == PING then (s1.(status := Done), 1)
      else if HasEid(kind) then (s1.(stage := ParseEidLength), 1)
      else if HasId(kind) then (s1.(stage := ParseBundleId), 1)
      else (s1.(status := Error), 1)
  }

  /** An empty EID ends the message, whatever its kind. */
  function ParseEidLengthBytes(s: State, buffer: seq<Byte>): (r: (State, nat))
    ensures r.1 <= |buffer|
  {
    if |buffer| < 2 then (s, 0)
    else
      var length := FromBigEndian(buffer[..2]);
      (s.(remaining := length, stage := ParseEid, status := if length == 0 then Done else s.status), 2)
  }

  function ParseEidBytes(s: State, buffer: seq<Byte>): (r: (State, nat))
    ensures r.1 <= |buffer|
  {
    var n := Min(|buffer|, s.remaining);
    var s1 := s.(message := s.message.(eid := s.message.eid + buffer[..n]), remaining := s.remaining - n);
    if s1.remaining > 0 then (s1, n)
    else if HasPayload(s.message.kind) then (s1.(stage := ParsePayloadLength), n)
    else (s1.(status := Done), n)
  }

  function ParsePayloadLengthBytes(s: State, buffer: seq<Byte>): (r: (State, nat))
    ensures r.1 <= |buffer|
  {
    if |buffer| < 8 then (s, 0)
    else
      var length := FromBigEndian(buffer[..8]);
      var s1 := s.(remaining := length);
      if s.maxPayload != 0 && length > s.maxPayload then (s1.(status := Error), 8)
      else (s1.(stage := ParsePayload, status := if length == 0 then Done else s.status), 8)
  }

  function ParsePayloadBytes(s: State, buffer: seq<Byte>): (r: (State, nat))
    ensures r.1 <= |buffer|
  {
    var n := Min(|buffer|, s.remaining);
    var s1 := s.(message := s.message.(payload := s.message.payload + buffer[..n]), remaining := s.remaining - n);
    (if s1.remaining > 0 then s1 else s1.(status := Done), n)
  }

  function ParseBundleIdBytes(s: State, buffer: seq<Byte>): (r: (State, nat))
    ensures r.1 <= |buffer|
  {
    if |buffer| < 8 then (s, 0)
    else (s.(message := s.message.(id := FromBigEndian(buffer[..8]) % U16), status := Done), 8)
  }

  function Parse(s: State, buffer: seq<Byte>): (r: (State, nat))
    ensures r.1 <= |buffer|
  {
    match s.stage
    case ParseType => ParseTypeByte(s, buffer)
    case ParseEidLength => ParseEidLengthBytes(s, buffer)
    case ParseEid => ParseEidBytes(s, buffer)
    case ParsePayloadLength => ParsePayloadLengthBytes(s, buffer)
    case ParsePayload => ParsePayloadBytes(s, buffer)
    case ParseBundleId => ParseBundleIdBytes(s, buffer)
  }

  // ---------------------------------------------------------------- In the middle of a message

  /** Messages that the parser reads to their end. */
  predicate Parsable(m: Message, maxPayload: nat) {
    WellFormed(m) && (HasPayload(m.kind) ==> m.eid != []) && (maxPayload != 0 ==> |m.payload| <= maxPayload)
  }

  /** The parser has read all of `m` but `rest`. */
  ghost predicate Expects(s: State, m: Message, rest: seq<Byte>) {
    match s.status
    case Error => false
    case Done => s.message == m && rest == []
    case Good =>
      match s.stage
      case ParseType => s.message == CLEARED && rest == Bytes(m)
      case ParseEidLength =>
        s.message == CLEARED.(kind := m.kind) && HasEid(m.kind) && rest == BigEndian(|m.eid|, 2) + m.eid + PayloadPart(m)
      case ParseEid =>
        && |s.message.eid| < |m.eid| && s.remaining == |m.eid| - |s.message.eid| && s.message == CLEARED.(kind := m.kind, eid := s.message.eid)
        && s.message.eid <= m.eid && HasEid(m.kind) && rest == m.eid[|s.message.eid|..] + PayloadPart(m)
      case ParsePayloadLength =>
        s.message == CLEARED.(kind := m.kind, eid := m.eid) && HasPayload(m.kind) && rest == PayloadPart(m)
      case ParsePayload =>
        && |s.message.payload| < |m.payload| && s.remaining == |m.payload| - |s.message.payload| && HasPayload(m.kind)
        && s.message == CLEARED.(kind := m.kind, eid := m.eid, payload := s.message.payload)
        && s.message.payload <= m.payload && rest == m.payload[|s.message.payload|..]
      case ParseBundleId => s.message == CLEARED.(kind := m.kind) && HasId(m.kind) && rest == BigEndian(m.id, 8)
  }

  /** What one call of `parse` does in the middle of a message: it takes a part of the rest, or waits for more. */
  ghost predicate Advances(s: State, m: Message, rest: seq<Byte>, buffer: seq<Byte>, s': State, n: nat) {
    && n <= |rest| && n <= |buffer| && Expects(s', m, rest[n..]) && s'.maxPayload == s.maxPayload
    && (n == 0 ==> s' == s && |buffer| < |rest| && |buffer| < 8)
  }

  ghost predicate Progress(s: State, m: Message, rest: seq<Byte>, buffer: seq<Byte>) {
    exists s', n: nat :: Advances(s, m, rest, buffer, s', n) && Parse(s, buffer) == (s', n)
  }

  /** The head of the buffer is the head of the rest. */
  lemma {:induction false} SameHead(rest: seq<Byte>, more: seq<Byte>, buffer: seq<Byte>, k: nat)
    requires buffer <= rest + more && k <= |buffer| && k <= |rest|
    ensures buffer[..k] == rest[..k]
  {
    assert (rest + more)[..k] == rest[..k];
  }

  /** The state after the type byte of a message. */
  function Typed(s: State, m: Message): State {
    var t := s.(message := CLEARED.(kind := m.kind));
    if HasEid(m.kind) then t.(stage := ParseEidLength) else if HasId(m.kind) then t.(stage := ParseBundleId) else t.(status := Done)
  }

  lemma {:induction false} TypeByte(s: State, m: Message, buffer: seq<Byte>)
    requires s.status == Good && s.stage.ParseType? && s.message == CLEARED && WellFormed(m) && buffer != [] && buffer[0] == 0x10 + m.kind
    ensures Parse(s, buffer) == (Typed(s, m), 1)
  {
  }

  lemma {:induction false} TypedExpects(s: State, m: Message, rest: seq<Byte>)
    requires s.status == Good && s.stage.ParseType? && s.message == CLEARED && WellFormed(m) && rest == Bytes(m)
    ensures Expects(Typed(s, m), m, rest[1..])
  {
    AfterType(0x10 + m.kind, EidPart(m), PayloadPart(m), IdPart(m));
  }

  lemma {:induction false} AtType(s: State, m: Message, rest: seq<Byte>, more: seq<Byte>, buffer: seq<Byte>)
    requires Expects(s, m, rest) && s.status == Good && s.stage.ParseType? && WellFormed(m) && buffer != [] && buffer <= rest + more
    ensures Progress(s, m, rest, buffer)
  {
    SameHead(rest, more, buffer, 1);
    assert buffer[0] == buffer[..1][0] && rest[0] == rest[..1][0];
    AfterType(0x10 + m.kind, EidPart(m), PayloadPart(m), IdPart(m));
    TypeByte(s, m, buffer);
    TypedExpects(s, m, rest);
    assert Advances(s, m, rest, buffer, Typed(s, m), 1);
  }

  lemma {:induction false} AfterType(first: Byte, eid: seq<Byte>, payload: seq<Byte>, id: seq<Byte>)
    ensures ([first] + eid + payload + id)[0] == first
    ensures id == [] ==> ([first] + eid + payload + id)[1..] == eid + payload
    ensures eid == [] && payload == [] ==> ([first] + eid + payload + id)[1..] == id
  {
    assert ([first] + eid + payload + id)[1..] == eid + payload + id;
  }

  lemma {:induction false} AtEidLength(s: State, m: Message, rest: seq<Byte>, more: seq<Byte>, buffer: seq<Byte>)
    requires Expects(s, m, rest) && s.status == Good && s.stage.ParseEidLength? && Parsable(m, s.maxPayload) && buffer <= rest + more
    ensures Progress(s, m, rest, buffer)
  {
    if |buffer| >= 2 {
      SameHead(rest, more, buffer, 2);
      AfterEidLength(BigEndian(|m.eid|, 2), m.eid, PayloadPart(m));
      Powers256();
      BigEndianRead(|m.eid|, 2);
      EidBegins(s, m);
      assert Advances(s, m, rest, buffer, BeginEid(s, |m.eid|), 2);
    } else {
      assert Advances(s, m, rest, buffer, s, 0);
    }
  }

  function BeginEid(s: State, length: nat): State { s.(remaining := length, stage := ParseEid, status := if length == 0 then Done else s.status) }

  lemma {:induction false} EidBegins(s: State, m: Message)
    requires s.status == Good && s.message == CLEARED.(kind := m.kind) && HasEid(m.kind) && Parsable(m, s.maxPayload)
    ensures Expects(BeginEid(s, |m.eid|), m, m.eid + PayloadPart(m))
  {
    assert m.eid[0..] == m.eid;
  }

  lemma {:induction false} AfterEidLength(length: seq<Byte>, eid: seq<Byte>, payload: seq<Byte>)
    requires |length| == 2
    ensures (length + eid + payload)[..2] == length && (length + eid + payload)[2..] == eid + payload
  {
  }

  lemma {:induction false} AtEid(s: State, m: Message, rest: seq<Byte>, more: seq<Byte>, buffer: seq<Byte>)
    requires Expects(s, m, rest) && s.status == Good && s.stage.ParseEid? && WellFormed(m) && buffer != [] && buffer <= rest + more
    ensures Progress(s, m, rest, buffer)
  {
    var k, n := |s.message.eid|, Min(|buffer|, s.remaining);
    SameHead(rest, more, buffer, n);
    Advanced(m.eid, k, n, PayloadPart(m));
    assert Advances(s, m, rest, buffer, Parse(s, buffer).0, Parse(s, buffer).1);
  }

  /** Taking `n` more bytes of a string of which `k` were taken. */
  lemma {:induction false} Advanced(str: seq<Byte>, k: nat, n: nat, tail: seq<Byte>)
    requires k + n <= |str|
    ensures (str[k..] + tail)[..n] == str[k..k + n] && (str[k..] + tail)[n..] == str[k + n..] + tail
    ensures str[..k] + str[k..k + n] == str[..k + n]
    ensures k + n == |str| ==> str[..k + n] == str && str[k + n..] + tail == tail
  {
    var rest := str[k..];
    assert rest == rest[..n] + rest[n..] && rest[n..] == str[k + n..];
    assert rest + tail == rest[..n] + (rest[n..] + tail);
  }

  lemma {:induction false} AtPayloadLength(s: State, m: Message, rest: seq<Byte>, more: seq<Byte>, buffer: seq<Byte>)
    requires Expects(s, m, rest) && s.status == Good && s.stage.ParsePayloadLength? && Parsable(m, s.maxPayload) && buffer <= rest + more
    ensures Progress(s, m, rest, buffer)
  {
    if |buffer| >= 8 {
      SameHead(rest, more, buffer, 8);
      assert rest[..8] == BigEndian(|m.payload|, 8) && rest[8..] == m.payload;
      Powers256();
      BigEndianRead(|m.payload|, 8);
    }
    assert Advances(s, m, rest, buffer, Parse(s, buffer).0, Parse(s, buffer).1);
  }

  lemma {:induction false} AtPayload(s: State, m: Message, rest: seq<Byte>, more: seq<Byte>, buffer: seq<Byte>)
    requires Expects(s, m, rest) && s.status == Good && s.stage.ParsePayload? && WellFormed(m) && buffer != [] && buffer <= rest + more
    ensures Progress(s, m, rest, buffer)
  {
    var k, n := |s.message.payload|, Min(|buffer|, s.remaining);
    SameHead(rest, more, buffer, n);
    Advanced(m.payload, k, n, []);
    assert m.payload[k..] + [] == m.payload[k..] && m.payload[k + n..] + [] == m.payload[k + n..];
    assert Advances(s, m, rest, buffer, Parse(s, buffer).0, Parse(s, buffer).1);
  }

  lemma {:induction false} AtBundleId(s: State, m: Message, rest: seq<Byte>, more: seq<Byte>, buffer: seq<Byte>)
    requires Expects(s, m, rest) && s.status == Good && s.stage.ParseBundleId? && WellFormed(m) && buffer <= rest + more
    ensures Progress(s, m, rest, buffer)
  {
    if |buffer| >= 8 {
      SameHead(rest, more, buffer, 8);
      assert rest[..8] == rest && rest[8..] == [];
      Powers256();
      BigEndianRead(m.id, 8);
      assert m.id % U16 == m.id;
    }
    assert Advances(s, m, rest, buffer, Parse(s, buffer).0, Parse(s, buffer).1);
  }

  lemma {:induction false} ParseProgresses(s: State, m: Message, rest: seq<Byte>, more: seq<Byte>, buffer: seq<Byte>)
    requires Expects(s, m, rest) && s.status == Good && Parsable(m, s.maxPayload) && buffer != [] && buffer <= rest + more
    ensures Progress(s, m, rest, buffer)
  {
    match s.stage
    case ParseType => AtType(s, m, rest, more, buffer);
    case ParseEidLength => AtEidLength(s, m, rest, more, buffer);
    case ParseEid => AtEid(s, m, rest, more, buffer);
    case ParsePayloadLength => AtPayloadLength(s, m, rest, more, buffer);
    case ParsePayload => AtPayload(s, m, rest, more, buffer);
    case ParseBundleId => AtBundleId(s, m, rest, more, buffer);
  }

  class Parser {
    var s: State

    constructor (maxPayload: nat)
      ensures s == Fresh(maxPayload)
    {
      s := Fresh(maxPayload);
    }

    /** `parse_aap` */
    method ParseAap(input: seq<Byte>) returns (consumed: nat)
      modifies this
      ensures (s, consumed) == ParseLoop(old(s), input)
    {
      consumed := 0;
      assert input[0..] == input;
      while s.status == Good && consumed < |input|
        invariant consumed <= |input| && ParseLoop(old(s), input) == Ahead(ParseLoop(s, input[consumed..]), consumed)
      {
        LoopStep(ParseLoop(old(s), input), s, input, consumed);
        var (s', delta) := Parse(s, input[consumed..]);
        s := s';
        if delta == 0 {
          return;
        }
        consumed := consumed + delta;
      }
    }
  }

  function Ahead(r: (State, nat), n: nat): (State, nat) { (r.0, n + r.1) }

  /** What the calls of `parse` on a buffer lead to. */
  function ParseLoop(s: State, buffer: seq<Byte>): (State, nat)
    decreases |buffer|
  {
    if s.status == Good && buffer != [] then
      var (s', n) := Parse(s, buffer);
      if n == 0 then (s', 0) else Ahead(ParseLoop(s', buffer[n..]), n)
    else (s, 0)
  }

  lemma {:induction false} LoopStep(whole: (State, nat), s: State, input: seq<Byte>, consumed: nat)
    requires s.status == Good && consumed < |input| && whole == Ahead(ParseLoop(s, input[consumed..]), consumed)
    ensures var (s', n) := Parse(s, input[consumed..]);
            whole == if n == 0 then (s', consumed) else Ahead(ParseLoop(s', input[consumed + n..]), consumed + n)
  {
    var r := Parse(s, input[consumed..]);
    assert input[consumed..][r.1..] == input[consumed + r.1..];
  }

  /**
   In the middle of a message, on a buffer that may go on after its end: nothing is consumed beyond the message,
   which is complete if and only if the buffer has all of it; otherwise fewer than eight bytes are left over.
   */
  ghost predicate Stopped(maxPayload: nat, m: Message, rest: seq<Byte>, buffer: seq<Byte>, t: State, k: nat) {
    && k <= |buffer| && k <= |rest| && Expects(t, m, rest[k..]) && t.maxPayload == maxPayload
    && (t.status == Done <==> |rest| <= |buffer|)
    && (t.status == Good ==> |buffer| - k < 8)
  }

  ghost predicate LoopOk(maxPayload: nat, m: Message, rest: seq<Byte>, buffer: seq<Byte>, r: (State, nat)) {
    exists t, k: nat :: Stopped(maxPayload, m, rest, buffer, t, k) && r == (t, k)
  }

  lemma {:induction false} LoopProgresses(s: State, m: Message, rest: seq<Byte>, more: seq<Byte>, buffer: seq<Byte>)
    requires Expects(s, m, rest) && Parsable(m, s.maxPayload) && buffer <= rest + more
    ensures LoopOk(s.maxPayload, m, rest, buffer, ParseLoop(s, buffer))
    decreases |buffer|
  {
    RestNotEmpty(s, m, rest);
    if s.status == Good && buffer != [] {
      ParseProgresses(s, m, rest, more, buffer);
      var r := Parse(s, buffer);
      if r.1 > 0 {
        Dropped(rest, more, buffer, r.1);
        LoopProgresses(r.0, m, rest[r.1..], more, buffer[r.1..]);
        FurtherOk(s.maxPayload, m, rest, buffer, r.1, ParseLoop(r.0, buffer[r.1..]));
      } else {
        LoopStops(s, m, rest, buffer);
      }
    } else {
      LoopStops(s, m, rest, buffer);
    }
  }

  lemma {:induction false} LoopStops(s: State, m: Message, rest: seq<Byte>, buffer: seq<Byte>)
    requires Expects(s, m, rest) && (s.status == Good ==> |buffer| < |rest| && |buffer| < 8)
    ensures LoopOk(s.maxPayload, m, rest, buffer, (s, 0))
  {
    RestNotEmpty(s, m, rest);
    assert rest[0..] == rest;
    assert Stopped(s.maxPayload, m, rest, buffer, s, 0);
  }

  lemma {:induction false} FurtherOk(maxPayload: nat, m: Message, rest: seq<Byte>, buffer: seq<Byte>, n: nat, r: (State, nat))
    requires n <= |rest| && n <= |buffer| && LoopOk(maxPayload, m, rest[n..], buffer[n..], r)
    ensures LoopOk(maxPayload, m, rest, buffer, Ahead(r, n))
  {
    assert rest[n..][r.1..] == rest[n + r.1..];
    assert Stopped(maxPayload, m, rest, buffer, r.0, n + r.1);
  }

  lemma {:induction false} Dropped(rest: seq<Byte>, more: seq<Byte>, input: seq<Byte>, k: nat)
    requires input <= rest + more && k <= |input| && k <= |rest|
    ensures input[k..] <= rest[k..] + more
  {
    assert rest[k..] + more == (rest + more)[k..];
  }

  /** As long as a message is not done, something of it is missing. */
  lemma {:induction false} RestNotEmpty(s: State, m: Message, rest: seq<Byte>)
    requires Expects(s, m, rest)
    ensures s.status == Good <==> rest != []
  {
  }

  // ---------------------------------------------------------------- The agent's receive buffer

  const RX_BUFFER_SIZE: nat := 512

  function Stream(messages: seq<Message>): seq<Byte> {
    if messages == [] then [] else Bytes(messages[0]) + Stream(messages[1..])
  }

  class Agent {
    const parser: Parser
    const buffer: array<Byte>
    var available: nat
    var processed: seq<Message>

    /**
     The messages of the stream that are still to be processed are `coming`, and `later` are the bytes of it that are
     still to be received; of the first message, the parser has read a part.
     */
    ghost predicate Valid(coming: seq<Message>, later: seq<Byte>)
      reads this, parser, buffer
    {
      buffer.Length == RX_BUFFER_SIZE && available < RX_BUFFER_SIZE && Between(parser.s, coming, buffer[..available] + later)
    }

    constructor (maxPayload: nat, ghost messages: seq<Message>)
      requires forall i :: 0 <= i < |messages| ==> Parsable(messages[i], maxPayload)
      ensures Valid(messages, Stream(messages)) && processed == [] && available == 0
      ensures fresh(parser) && fresh(buffer)
    {
      parser := new Parser(maxPayload);
      buffer := new Byte[RX_BUFFER_SIZE];
      available, processed := 0, [];
      new;
      assert buffer[..0] + Stream(messages) == Stream(messages);
      if messages != [] { FreshMidway(maxPayload, messages); }
    }

    /** The received bytes, behind those that were left over. */
    method Append(bytes: seq<Byte>)
      requires buffer.Length == RX_BUFFER_SIZE && available + |bytes| <= RX_BUFFER_SIZE
      modifies this`available, buffer
      ensures available == old(available) + |bytes| && buffer[..available] == old(buffer[..available]) + bytes
    {
      forall k | 0 <= k < |bytes| { buffer[available + k] := bytes[k]; }
      available := available + |bytes|;
    }

    method Shift(parsed: nat)
      requires buffer.Length == RX_BUFFER_SIZE && parsed <= available <= RX_BUFFER_SIZE
      modifies this`available, buffer
      ensures available == old(available) - parsed && buffer[..available] == old(buffer[..available])[parsed..]
    {
      forall k | 0 <= k < available - parsed { buffer[k] := buffer[parsed + k]; }
      available := available - parsed;
    }

    /** Parsing the buffer, and processing the message if it is complete. */
    method ParseMessage(input: seq<Byte>, ghost coming: seq<Message>, ghost later: seq<Byte>) returns (parsed: nat, ghost coming': seq<Message>)
      requires Between(parser.s, coming, input + later) && input != []
      modifies this`processed, parser
      ensures parsed <= |input| && (parsed > 0 || |input| < 8) && Between(parser.s, coming', input[parsed..] + later)
      ensures coming != [] && Processes(old(processed), coming, later, processed, coming')
    {
      ReceiveOk(parser.s, coming, input, later);
      parsed := parser.ParseAap(input);
      coming' := coming;
      if parser.s.status != Good {
        processed := processed + [parser.s.message];
        parser.s := Fresh(parser.s.maxPayload);
        coming' := coming[1..];
        NextMessage(parser.s.maxPayload, coming);
      }
    }

    /**
     `receive_from_socket` after a successful `recv`: the next message of the stream is processed if and only if what was
     left over and received has all of it. A second message stays in the buffer until more bytes are received.
     */
    method Receive(bytes: seq<Byte>, ghost coming: seq<Message>, ghost later: seq<Byte>) returns (ghost coming': seq<Message>)
      requires Valid(coming, bytes + later) && 0 < |bytes| <= RX_BUFFER_SIZE - available
      modifies this, parser, buffer
      ensures Valid(coming', later)
      ensures coming != [] && Processes(old(processed), coming, later, processed, coming')
    {
      assert buffer[..available] + (bytes + later) == buffer[..available] + bytes + later;
      Append(bytes);
      var parsed;
      parsed, coming' := ParseMessage(buffer[..available], coming, later);
      Shift(parsed);
    }
  }

  /** The first message is processed if no more bytes are still to be received than the messages behind it have. */
  ghost predicate Processes(processed: seq<Message>, coming: seq<Message>, later: seq<Byte>, processed': seq<Message>, coming': seq<Message>)
    requires coming != []
  {
    if |later| <= |Stream(coming[1..])| then processed' == processed + [coming[0]] && coming' == coming[1..]
    else processed' == processed && coming' == coming
  }

  /** Some way into a stream of parsable messages. */
  ghost predicate Between(s: State, coming: seq<Message>, ahead: seq<Byte>) {
    && s.status == Good && (forall i :: 0 <= i < |coming| ==> Parsable(coming[i], s.maxPayload))
    && if coming == [] then ahead == [] && s == Fresh(s.maxPayload) else Midway(s, coming, ahead)
  }

  lemma {:induction false} NextMessage(maxPayload: nat, coming: seq<Message>)
    requires coming != [] && forall i :: 0 <= i < |coming| ==> Parsable(coming[i], maxPayload)
    ensures Between(Fresh(maxPayload), coming[1..], Stream(coming[1..]))
  {
    if coming[1..] != [] { FreshMidway(maxPayload, coming[1..]); }
  }

  /** The effect of parsing on a parser in the middle of a stream. */
  lemma {:induction false} ReceiveOk(s: State, coming: seq<Message>, input: seq<Byte>, later: seq<Byte>)
    requires Between(s, coming, input + later) && input != []
    ensures var (t, k) := ParseLoop(s, input);
            && coming != [] && k <= |input| && (k > 0 || |input| < 8) && t.maxPayload == s.maxPayload
            && (t.status != Good <==> |later| <= |Stream(coming[1..])|)
            && if t.status == Good then Between(t, coming, input[k..] + later)
               else t.message == coming[0] && input[k..] + later == Stream(coming[1..])
  {
    var rest :| Expects(s, coming[0], rest) && input + later == rest + Stream(coming[1..]);
    InputParsed(s, coming[0], rest, Stream(coming[1..]), input, later);
  }

  lemma {:induction false} InputParsed(s: State, m: Message, rest: seq<Byte>, after: seq<Byte>, input: seq<Byte>, later: seq<Byte>)
    requires Expects(s, m, rest) && s.status == Good && Parsable(m, s.maxPayload) && input + later == rest + after && input != []
    ensures var (t, k) := ParseLoop(s, input);
            && k <= |input| && k <= |rest| && (k > 0 || |input| < 8) && t.maxPayload == s.maxPayload && (t.status == Good ==> later != [])
            && input[k..] + later == rest[k..] + after && Expects(t, m, rest[k..])
            && (t.status != Good ==> t.message == m && rest[k..] == []) && (t.status != Good <==> |later| <= |after|)
  {
    Shifted(input, later, rest, after, 0);
    LoopProgresses(s, m, rest, after, input);
    var t, k: nat :| Stopped(s.maxPayload, m, rest, input, t, k) && ParseLoop(s, input) == (t, k);
    RestNotEmpty(s, m, rest);
    StoppedParsed(s.maxPayload, m, rest, after, input, later, t, k);
  }

  lemma {:induction false} StoppedParsed(maxPayload: nat, m: Message, rest: seq<Byte>, after: seq<Byte>, input: seq<Byte>, later: seq<Byte>, t: State, k: nat)
    requires Stopped(maxPayload, m, rest, input, t, k) && input + later == rest + after && input != [] && rest != []
    ensures k <= |input| && k <= |rest| && (k > 0 || |input| < 8) && t.maxPayload == maxPayload && (t.status == Good ==> later != [])
    ensures input[k..] + later == rest[k..] + after && Expects(t, m, rest[k..])
    ensures t.status != Good ==> t.message == m && rest[k..] == []
    ensures t.status != Good <==> |later| <= |after|
  {
    assert |input| + |later| == |rest| + |after|;
    Shifted(input, later, rest, after, k);
    RestNotEmpty(t, m, rest[k..]);
  }

  lemma {:induction false} Shifted(input: seq<Byte>, later: seq<Byte>, rest: seq<Byte>, after: seq<Byte>, k: nat)
    requires input + later == rest + after && k <= |input| && k <= |rest|
    ensures input <= rest + after && input[k..] + later == rest[k..] + after && (|rest| > |input| ==> later != [])
  {
    assert input[k..] + later == (input + later)[k..];
    assert rest[k..] + after == (rest + after)[k..];
  }

  ghost predicate Midway(s: State, coming: seq<Message>, ahead: seq<Byte>)
    requires coming != []
  {
    exists rest :: Expects(s, coming[0], rest) && ahead == rest + Stream(coming[1..])
  }

  lemma {:induction false} FreshMidway(maxPayload: nat, messages: seq<Message>)
    requires messages != []
    ensures Midway(Fresh(maxPayload), messages, Stream(messages))
  {
    assert Expects(Fresh(maxPayload), messages[0], Bytes(messages[0]));
  }

  // ---------------------------------------------------------------- Whole sessions

  function Flat(segments: seq<seq<Byte>>): seq<Byte> { if segments == [] then [] else segments[0] + Flat(segments[1..]) }

  lemma {:induction false} FlatRest(segments: seq<seq<Byte>>, n: nat)
    requires segments != [] && n <= |segments[0]|
    ensures Flat(segments) == segments[0][..n] + Flat(segments[0 := segments[0][n..]])
    ensures n == |segments[0]| ==> Flat(segments) == segments[0] + Flat(segments[1..])
  {
    var shorter := segments[0 := segments[0][n..]];
    assert shorter[1..] == segments[1..];
    assert segments[0] == segments[0][..n] + segments[0][n..];
  }

  /** The number of messages processed after `recv` calls with these totals of bytes received: each call completes one at most. */
  function Processed(messages: seq<Message>, totals: seq<nat>): (p: nat)
    ensures p <= |messages| && p <= |totals|
  {
    if totals == [] then 0
    else
      var n := |totals| - 1;
      var p := Processed(messages, totals[..n]);
      if p < |messages| && |Stream(messages[..p + 1])| <= totals[n] then p + 1 else p
  }

  function Last(totals: seq<nat>): nat { if totals == [] then 0 else totals[|totals| - 1] }

  ghost predicate Increasing(totals: seq<nat>) {
    (forall t :: t in totals ==> t > 0) && forall i, j :: 0 <= i < j < |totals| ==> totals[i] < totals[j]
  }

  /** No `recv` goes beyond the end of a segment. */
  ghost predicate AtBounds(segments: seq<seq<Byte>>, totals: seq<nat>, n: nat)
    requires n <= |segments|
  {
    forall i :: 0 <= i <= n ==> |Flat(segments[..i])| == 0 || |Flat(segments[..i])| in totals
  }

  /** After totals of bytes have been received, the remaining segments are left. */
  ghost predicate Left(segments: seq<seq<Byte>>, totals: seq<nat>, left: seq<seq<Byte>>) {
    && |left| <= |segments| && Increasing(totals) && Last(totals) + |Flat(left)| == |Flat(segments)|
    && AtBounds(segments, totals, |segments| - |left|)
    && (left != [] ==> left[1..] == segments[|segments| - |left| + 1..])
  }

  lemma {:induction false} FlatSplit(segments: seq<seq<Byte>>, i: nat)
    requires i <= |segments|
    ensures Flat(segments) == Flat(segments[..i]) + Flat(segments[i..])
  {
    if i == 0 {
      assert segments[0..] == segments;
    } else {
      FlatSplit(segments[1..], i - 1);
      assert segments[..i][1..] == segments[1..][..i - 1] && segments[1..][i - 1..] == segments[i..];
    }
  }

  lemma {:induction false} StreamSplit(messages: seq<Message>, i: nat)
    requires i <= |messages|
    ensures |Stream(messages)| == |Stream(messages[..i])| + |Stream(messages[i..])|
  {
    if i == 0 {
      assert messages[0..] == messages;
    } else {
      StreamSplit(messages[1..], i - 1);
      assert messages[..i][1..] == messages[1..][..i - 1] && messages[1..][i - 1..] == messages[i..];
    }
  }

  /** What a `recv` takes of the next segment, and what it leaves. */
  method TakeSegment(segments: seq<seq<Byte>>, room: nat) returns (bytes: seq<Byte>, left: seq<seq<Byte>>)
    requires segments != [] && room > 0
    ensures bytes + Flat(left) == Flat(segments) && |bytes| == Min(|segments[0]|, room)
    ensures if |bytes| == |segments[0]| then left == segments[1..] else |left| == |segments| && left[1..] == segments[1..]
  {
    var n := Min(|segments[0]|, room);
    FlatRest(segments, n);
    bytes, left := segments[0][..n], if n == |segments[0]| then segments[1..] else segments[0 := segments[0][n..]];
  }

  /** The totals after a `recv`; without one, for a segment that is empty, they stay. */
  function Received(totals: seq<nat>, n: nat): seq<nat> { if n == 0 then totals else totals + [Last(totals) + n] }

  lemma {:induction false} LeftStep(segments: seq<seq<Byte>>, totals: seq<nat>, left: seq<seq<Byte>>, n: nat, left': seq<seq<Byte>>)
    requires left != [] && Left(segments, totals, left) && n + |Flat(left')| == |Flat(left)|
    requires if n == |left[0]| then left' == left[1..] else |left'| == |left| && left'[1..] == left[1..]
    ensures Left(segments, Received(totals, n), left')
  {
    var next := Received(totals, n);
    var m := |segments| - |left'|;
    if n == |left[0]| {
      assert left' == segments[m..];
      FlatSplit(segments, m);
      assert |Flat(segments[..m])| == Last(next);
    }
    assert forall i :: 0 <= i <= |segments| - |left| ==> |Flat(segments[..i])| == 0 || |Flat(segments[..i])| in totals;
    assert forall t :: t in totals ==> t in next;
    assert AtBounds(segments, next, m);
  }

  /** A `recv` counts the first of the messages still to come exactly when it is processed. */
  lemma {:induction false} ProcessedStep(messages: seq<Message>, totals: seq<nat>, n: nat, later: seq<Byte>, p: nat)
    requires n > 0 && Last(totals) + n + |later| == |Stream(messages)| && p == Processed(messages, totals) < |messages|
    ensures Processed(messages, Received(totals, n)) == if |later| <= |Stream(messages[p..][1..])| then p + 1 else p
  {
    var next := Received(totals, n);
    assert next[..|totals|] == totals && messages[p..][1..] == messages[p + 1..];
    StreamSplit(messages, p + 1);
    LastCounts(messages, next, |totals|, p);
  }

  lemma {:induction false} LastCounts(messages: seq<Message>, totals: seq<nat>, n: nat, p: nat)
    requires |totals| == n + 1 && p == Processed(messages, totals[..n]) < |messages|
    ensures Processed(messages, totals) == if |Stream(messages[..p + 1])| <= totals[n] then p + 1 else p
  {
  }

  lemma {:induction false} Further(messages: seq<Message>, p: nat, later: seq<Byte>, processed: seq<Message>, coming: seq<Message>)
    requires p < |messages| && Processes(messages[..p], messages[p..], later, processed, coming)
    ensures var q := if |later| <= |Stream(messages[p..][1..])| then p + 1 else p; processed == messages[..q] && coming == messages[q..]
  {
    assert messages[p..][1..] == messages[p + 1..] && messages[..p] + [messages[p]] == messages[..p + 1];
  }

  /** All segments, one `recv` after the other; `totals` are the bytes received after each. */
  method Serve(agent: Agent, segments: seq<seq<Byte>>, ghost messages: seq<Message>) returns (ghost totals: seq<nat>)
    requires agent.Valid(messages, Flat(segments)) && agent.processed == [] && Flat(segments) == Stream(messages)
    modifies agent, agent.parser, agent.buffer
    ensures Left(segments, totals, []) && agent.processed == messages[..Processed(messages, totals)]
    ensures agent.Valid(messages[Processed(messages, totals)..], [])
    ensures |segments| == 1 && |segments[0]| <= RX_BUFFER_SIZE - old(agent.available) ==> |totals| <= 1
  {
    totals := [];
    var left := segments;
    ghost var all := Flat(segments);
    assert messages[0..] == messages;
    while left != []
      invariant Left(segments, totals, left) && agent.processed == messages[..Processed(messages, totals)]
      invariant agent.Valid(messages[Processed(messages, totals)..], Flat(left))
      invariant |segments| == 1 && |segments[0]| <= RX_BUFFER_SIZE - old(agent.available) ==>
                  |totals| <= 1 && (left != [] ==> left == segments && totals == [] && agent.available == old(agent.available))
      decreases |Flat(left)|, |left|
    {
      left, totals := ReceiveSome(agent, segments, left, messages, totals);
    }
  }

  method ReceiveSome(agent: Agent, ghost segments: seq<seq<Byte>>, left: seq<seq<Byte>>, ghost messages: seq<Message>, ghost totals: seq<nat>)
      returns (left': seq<seq<Byte>>, ghost totals': seq<nat>)
    requires left != [] && Left(segments, totals, left) && |Flat(segments)| == |Stream(messages)|
    requires agent.processed == messages[..Processed(messages, totals)]
    requires agent.Valid(messages[Processed(messages, totals)..], Flat(left))
    modifies agent, agent.parser, agent.buffer
    ensures Left(segments, totals', left') && agent.processed == messages[..Processed(messages, totals')]
    ensures agent.Valid(messages[Processed(messages, totals')..], Flat(left'))
    ensures |Flat(left')| < |Flat(left)| || (Flat(left') == Flat(left) && |left'| < |left|)
    ensures |totals'| <= |totals| + 1
    ensures |left[0]| <= RX_BUFFER_SIZE - old(agent.available) ==> left' == left[1..]
  {
    var bytes;
    bytes, left' := TakeSegment(left, RX_BUFFER_SIZE - agent.available);
    LeftStep(segments, totals, left, |bytes|, left');
    totals' := Received(totals, |bytes|);
    if bytes != [] {
      ghost var p, later := Processed(messages, totals), Flat(left');
      ghost var coming := agent.Receive(bytes, messages[p..], later);
      ProcessedStep(messages, totals, |bytes|, later, p);
      Further(messages, p, later, agent.processed, coming);
    }
  }

  /** Every message ends where a segment ends. */
  ghost predicate Framed(messages: seq<Message>, segments: seq<seq<Byte>>) {
    forall p :: 0 <= p <= |messages| ==> exists i :: 0 <= i <= |segments| && |Flat(segments[..i])| == |Stream(messages[..p])|
  }

  ghost predicate EndsIn(messages: seq<Message>, totals: seq<nat>, limit: nat) {
    forall p :: 0 <= p <= |messages| && |Stream(messages[..p])| <= limit ==>
                  |Stream(messages[..p])| == 0 || |Stream(messages[..p])| in totals
  }

  /** The messages that have ended are processed, if there was a `recv` up to the end of each. */
  lemma {:induction false} EndedProcessed(messages: seq<Message>, totals: seq<nat>, p: nat)
    requires Increasing(totals) && EndsIn(messages, totals, Last(totals))
    requires p <= |messages| && |Stream(messages[..p])| <= Last(totals)
    ensures p <= Processed(messages, totals)
  {
    if p > 0 {
      Longer(messages, p - 1);
      var n := |totals| - 1;
      FewerEnds(messages, totals, totals[..n], n);
      if |Stream(messages[..p])| <= Last(totals[..n]) {
        EndedProcessed(messages, totals[..n], p);
      } else {
        EndIsLast(messages, totals, p, n);
        EndBefore(messages, totals, p - 1, n);
        EndedProcessed(messages, totals[..n], p - 1);
      }
      LastProcesses(messages, totals, p, n);
    }
  }

  lemma {:induction false} LastProcesses(messages: seq<Message>, totals: seq<nat>, p: nat, n: nat)
    requires |totals| == n + 1 && 0 < p <= |messages| && |Stream(messages[..p])| <= totals[n]
    requires p - 1 <= Processed(messages, totals[..n])
    ensures p <= Processed(messages, totals)
  {
  }

  lemma {:induction false} EndIsLast(messages: seq<Message>, totals: seq<nat>, p: nat, n: nat)
    requires |totals| == n + 1 && Increasing(totals) && EndsIn(messages, totals, totals[n])
    requires p <= |messages| && Last(totals[..n]) < |Stream(messages[..p])| <= totals[n]
    ensures |Stream(messages[..p])| == totals[n]
  {
    assert forall i :: 0 <= i < n ==> totals[i] <= Last(totals[..n]);
    var i :| 0 <= i < |totals| && totals[i] == |Stream(messages[..p])|;
  }

  lemma {:induction false} Longer(messages: seq<Message>, p: nat)
    requires p < |messages|
    ensures |Stream(messages[..p])| < |Stream(messages[..p + 1])|
  {
    StreamSplit(messages[..p + 1], p);
    assert messages[..p + 1][..p] == messages[..p] && messages[..p + 1][p..] == [messages[p]];
  }

  lemma {:induction false} EndBefore(messages: seq<Message>, totals: seq<nat>, p: nat, n: nat)
    requires |totals| == n + 1 && Increasing(totals) && EndsIn(messages, totals, totals[n])
    requires p <= |messages| && |Stream(messages[..p])| < totals[n]
    ensures |Stream(messages[..p])| <= Last(totals[..n])
  {
    if |Stream(messages[..p])| > 0 {
      var i :| 0 <= i < |totals| && totals[i] == |Stream(messages[..p])|;
      assert i < n;
      assert i == n - 1 || totals[i] < totals[n - 1];
    }
  }

  lemma {:induction false} FewerEnds(messages: seq<Message>, totals: seq<nat>, before: seq<nat>, n: nat)
    requires |totals| == n + 1 && before == totals[..n] && Increasing(totals) && EndsIn(messages, totals, totals[n])
    ensures EndsIn(messages, before, Last(before)) && Increasing(before)
  {
    assert forall t :: t in before ==> t in totals;
    forall p | 0 <= p <= |messages| && 0 < |Stream(messages[..p])| <= Last(before)
      ensures |Stream(messages[..p])| in before
    {
      var i :| 0 <= i < |totals| && totals[i] == |Stream(messages[..p])|;
      assert i < n ==> before[i] == totals[i];
    }
  }

  lemma {:induction false} FramedProcessed(messages: seq<Message>, segments: seq<seq<Byte>>, totals: seq<nat>)
    requires Framed(messages, segments) && Left(segments, totals, []) && |Flat(segments)| == |Stream(messages)|
    ensures Processed(messages, totals) == |messages|
  {
    assert messages[..|messages|] == messages;
    forall p | 0 <= p <= |messages| && |Stream(messages[..p])| > 0
      ensures |Stream(messages[..p])| in totals
    {
      var i :| 0 <= i <= |segments| && |Flat(segments[..i])| == |Stream(messages[..p])|;
    }
    EndedProcessed(messages, totals, |messages|);
  }

  lemma {:induction false} SingleFramed(messages: seq<Message>, segments: seq<seq<Byte>>)
    requires |messages| == 1 && |Flat(segments)| == |Stream(messages)|
    ensures Framed(messages, segments)
  {
    assert segments[..0] == [] && segments[..|segments|] == segments && messages[..0] == [] && messages[..1] == messages;
    forall p | 0 <= p <= |messages|
      ensures exists i :: 0 <= i <= |segments| && |Flat(segments[..i])| == |Stream(messages[..p])|
    {
      var i := if p == 0 then 0 else |segments|;
      assert |Flat(segments[..i])| == |Stream(messages[..p])|;
    }
  }

  /** The first message of a stream that a single `recv` takes is processed, the others wait. */
  lemma {:induction false} OneRecv(messages: seq<Message>, segments: seq<seq<Byte>>, totals: seq<nat>)
    requires Left(segments, totals, []) && |totals| <= 1 && |Flat(segments)| == |Stream(messages)| && messages != []
    ensures Processed(messages, totals) == 1
  {
    StreamSplit(messages, 1);
    Longer(messages, 0);
  }

  /**
   An agent that receives a stream of messages in any segmentation processes messages of it in order and nothing else:
   with each `recv` the next one, if it has been received wholly. So every message is processed if each ends where a
   segment ends, but of messages that come with a single `recv` only the first.
   */
  method Session(maxPayload: nat, segments: seq<seq<Byte>>, ghost messages: seq<Message>) returns (agent: Agent, ghost totals: seq<nat>)
    requires (forall i :: 0 <= i < |messages| ==> Parsable(messages[i], maxPayload)) && Flat(segments) == Stream(messages)
    ensures Left(segments, totals, []) && agent.processed == messages[..Processed(messages, totals)]
    ensures Framed(messages, segments) || |messages| == 1 ==> agent.processed == messages && agent.available == 0
    ensures |segments| == 1 && |segments[0]| <= RX_BUFFER_SIZE && messages != [] ==> agent.processed == messages[..1]
  {
    agent := new Agent(maxPayload, messages);
    totals := Serve(agent, segments, messages);
    if |messages| == 1 { SingleFramed(messages, segments); }
    if Framed(messages, segments) { FramedProcessed(messages, segments, totals); }
    if |totals| <= 1 && messages != [] { OneRecv(messages, segments, totals); }
  }

  /**
   The parser reads back a message from its own bytes if and only if a message with a payload has an EID: an empty
   one ends the message before its payload.
   */
  lemma {:induction false} ReadBackIff(m: Message, maxPayload: nat)
    requires WellFormed(m) && (maxPayload != 0 ==> |m.payload| <= maxPayload)
    ensures var (s, n) := ParseLoop(Fresh(maxPayload), Bytes(m));
            s.status == Done && s.message == m && n == SerializedSize(m) <==> (HasPayload(m.kind) ==> m.eid != [])
  {
    var bytes := Bytes(m);
    if HasPayload(m.kind) && m.eid == [] {
      EmptyEid(m, maxPayload);
    } else {
      assert bytes + [] == bytes;
      LoopProgresses(Fresh(maxPayload), m, bytes, [], bytes);
    }
  }

  lemma {:induction false} EmptyEid(m: Message, maxPayload: nat)
    requires WellFormed(m) && HasPayload(m.kind) && m.eid == []
    ensures ParseLoop(Fresh(maxPayload), Bytes(m)).1 == 3 < SerializedSize(m)
    ensures ParseLoop(Fresh(maxPayload), Bytes(m)).0.status == Done
  {
    Powers256();
    BigEndianRead(0, 2);
    ThreeParts(0x10 + m.kind, BigEndian(0, 2), PayloadPart(m));
    EmptyEidSteps(Bytes(m), m.kind, maxPayload);
  }

  lemma {:induction false} ThreeParts(first: Byte, length: seq<Byte>, tail: seq<Byte>)
    requires |length| == 2
    ensures ([first] + (length + []) + tail + [])[1..][..2] == length
  {
    assert ([first] + (length + []) + tail + [])[1..] == length + tail;
  }

  lemma {:induction false} EmptyEidSteps(bytes: seq<Byte>, kind: nat, maxPayload: nat)
    requires |bytes| > 3 && HasEid(kind) && bytes[0] == 0x10 + kind && FromBigEndian(bytes[1..][..2]) == 0
    ensures ParseLoop(Fresh(maxPayload), bytes).1 == 3 && ParseLoop(Fresh(maxPayload), bytes).0.status == Done
  {
    var s := Fresh(maxPayload).(message := CLEARED.(kind := kind), stage := ParseEidLength);
    assert ParseTypeByte(Fresh(maxPayload), bytes) == (s, 1);
    var t := s.(remaining := 0, stage := ParseEid, status := Done);
    assert ParseEidLengthBytes(s, bytes[1..]) == (t, 2);
    assert ParseLoop(t, bytes[1..][2..]) == (t, 0);
    assert ParseLoop(s, bytes[1..]) == (t, 2);
  }
}
