/** Router configuration commands: the Python printer and the byte-driven C parser. */
module Config {
  import opened Bundles
  import opened Chains

  const LPAREN: Byte := 0x28
  const RPAREN: Byte := 0x29
  const COMMA: Byte := 0x2c
  const COLON: Byte := 0x3a
  const SEMICOLON: Byte := 0x3b
  const LBRACKET: Byte := 0x5b
  const RBRACKET: Byte := 0x5d
  const LBRACE: Byte := 0x7b
  const RBRACE: Byte := 0x7d

  datatype Contact = Contact(from: nat, to: nat, bitrate: nat, endpoints: seq<seq<Byte>>)

  // ---------------------------------------------------------------- The parser

  datatype Stage =
    | CommandType | NodeConfStart | NodeConfEid | ReliabilitySeparator | Reliability | ClaAddrSeparator
    | ClaAddrStart | ClaAddr | ClaAddrNodesSeparator
    | NodeListStart | NodeStart | NodeEid | NodeSeparator | NodesContactsSeparator
    | ContactListStart | ContactStart | ContactStartTime | ContactEndTime | ContactBitrate
    | ContactNodeListStart | ContactNodeStart | ContactNodeEid | ContactNodeSeparator | ContactEnd | ContactSeparator
    | CommandEnd

  datatype Status = Good | Done | Error

  /** What is sent to the router; an address that was never begun is missing. `reliability` is in thousandths. */
  datatype Command = Command(kind: nat, eid: seq<Byte>, hasAddr: bool, addr: seq<Byte>, reliability: nat, endpoints: seq<seq<Byte>>, contacts: seq<Contact>)

  /** `token` holds the string or number that is being read, `contact` the contact. */
  datatype State = State(status: Status, stage: Stage, token: seq<Byte>, contact: Contact, command: Command)

  const NO_CONTACT := Contact(0, 0, 0, [])

  /** `config_parser_reset` */
  const FRESH := State(Good, CommandType, [], NO_CONTACT, Command(0, [], false, [], 1000, [], []))

  predicate IsDigit(b: Byte) { 0x30 <= b <= 0x39 }

  /** `read_eid` accepts printable characters but for a few. */
  predicate IsEidChar(b: Byte) { 0x21 <= b <= 0x5f || 0x61 <= b <= 0x7a || b == 0x7e }

  predicate IsAddrChar(b: Byte) {
    IsDigit(b) || 0x41 <= b <= 0x5a || 0x61 <= b <= 0x7a || b == COLON || b == 0x2e || b == LBRACKET || b == RBRACKET
  }

  function Number(digits: seq<Byte>): nat
    requires forall i :: 0 <= i < |digits| ==> IsDigit(digits[i])
  {
    if digits == [] then 0
    else
      assert IsDigit(digits[|digits| - 1]);
      Number(digits[..|digits| - 1]) * 10 + (digits[|digits| - 1] as int - 0x30)
  }

  /** `strtoull`: numbers that do not fit become the largest that does. */
  function Number64(digits: seq<Byte>): nat {
    if (forall i :: 0 <= i < |digits| ==> IsDigit(digits[i])) && Number(digits) < U64 then Number(digits) else U64 - 1
  }

  function Fail(s: State): State { s.(status := Error) }

  function Go(s: State, stage: Stage): State { s.(stage := stage) }

  /** The next stage, with nothing read of a string or number. */
  function Begin(s: State, stage: Stage): State { s.(stage := stage, token := []) }

  predicate Accepts(stage: Stage, b: Byte) {
    match stage
    case NodeConfEid => IsEidChar(b) && b != RPAREN
    case NodeEid => IsEidChar(b) && b != RPAREN
    case ContactNodeEid => IsEidChar(b) && b != RPAREN
    case ClaAddr => IsAddrChar(b)
    case Reliability => IsDigit(b)
    case ContactStartTime => IsDigit(b)
    case ContactEndTime => IsDigit(b)
    case ContactBitrate => IsDigit(b)
    case _ => false
  }

  function FinishReliability(s: State, b: Byte): State {
    var n := Number64(s.token) % U16;
    if n < 100 || n > 1000 then Fail(s)
    else
      var s1 := Begin(s.(command := s.command.(reliability := n)), ClaAddrStart);
      if b == SEMICOLON then s1.(status := Done) else s1
  }

  /** The end of the string or number that a stage reads. */
  function Finish(s: State, b: Byte, now: nat): State {
    match s.stage
    case NodeConfEid => if b == RPAREN then Begin(s.(command := s.command.(eid := s.token)), ReliabilitySeparator) else Fail(s)
    case Reliability => if b == COLON || b == SEMICOLON then FinishReliability(s, b) else Fail(s)
    case ClaAddr => if b == RPAREN then Begin(s.(command := s.command.(addr := s.token)), ClaAddrNodesSeparator) else Fail(s)
    case NodeEid => if b == RPAREN then Begin(s.(command := s.command.(endpoints := s.command.endpoints + [s.token])), NodeSeparator) else Fail(s)
    case ContactStartTime =>
      if b == COMMA then Begin(s.(contact := s.contact.(from := Number64(s.token))), ContactEndTime) else Fail(s)
    case ContactEndTime =>
      if b != COMMA then Fail(s)
      else
        var s1 := s.(contact := s.contact.(to := Number64(s.token)));
        if s1.contact.to > s1.contact.from && s1.contact.to > now then Begin(s1, ContactBitrate) else Fail(s1)
    case ContactBitrate =>
      var s1 := s.(contact := s.contact.(bitrate := Number64(s.token) % U32));
      if b == COMMA then Begin(s1, ContactNodeListStart) else if b == RBRACE then EndContact(s1) else Fail(s)
    case ContactNodeEid => if b == RPAREN then Begin(s.(contact := s.contact.(endpoints := s.contact.endpoints + [s.token])), ContactNodeSeparator) else Fail(s)
    case _ => Fail(s)
  }

  function EndContact(s: State): State {
    Begin(s.(command := s.command.(contacts := s.command.contacts + [s.contact]), contact := NO_CONTACT), ContactSeparator)
  }

  function Either(s: State, b: Byte, first: Byte, stage: Stage, second: Byte, other: Stage): State {
    if b == first then Go(s, stage) else if b == second then Go(s, other) else Fail(s)
  }

  function OrDone(s: State, b: Byte, first: Byte, stage: Stage): State {
    if b == first then Go(s, stage) else if b == SEMICOLON then s.(status := Done) else Fail(s)
  }

  /** The stages that wait for one of a few characters. */
  function Delimiter(s: State, b: Byte): State {
    match s.stage
    case CommandType =>
      var s1 := Go(s, NodeConfStart);
      if 0x31 <= b <= 0x34 then s1.(command := s.command.(kind := b)) else Fail(s1)
    case NodeConfStart => if b == LPAREN then Begin(s, NodeConfEid) else Fail(s)
    case ReliabilitySeparator => if b == COMMA then Begin(s, Reliability) else OrDone(s, b, COLON, ClaAddrStart)
    case ClaAddrSeparator => OrDone(s, b, COLON, ClaAddrStart)
    case ClaAddrStart =>
      if b == LPAREN then Begin(s.(command := s.command.(hasAddr := true)), ClaAddr) else OrDone(s, b, COLON, NodeListStart)
    case ClaAddrNodesSeparator => OrDone(s, b, COLON, NodeListStart)
    case NodeListStart => if b == LBRACKET then Go(s, NodeStart) else OrDone(s, b, COLON, ContactListStart)
    case NodeStart => if b == LPAREN then Begin(s, NodeEid) else if b == RBRACKET then Go(s, NodesContactsSeparator) else Fail(s)
    case NodeSeparator => Either(s, b, COMMA, NodeStart, RBRACKET, NodesContactsSeparator)
    case NodesContactsSeparator => OrDone(s, b, COLON, ContactListStart)
    case ContactListStart => OrDone(s, b, LBRACKET, ContactStart)
    case ContactStart =>
      if b == LBRACE then Begin(s.(contact := NO_CONTACT), ContactStartTime) else if b == RBRACKET then Go(s, CommandEnd) else Fail(s)
    case ContactNodeListStart => if b == LBRACKET then Go(s, ContactNodeStart) else Fail(s)
    case ContactNodeStart => if b == LPAREN then Begin(s, ContactNodeEid) else if b == RBRACKET then Go(s, ContactEnd) else Fail(s)
    case ContactNodeSeparator => Either(s, b, COMMA, ContactNodeStart, RBRACKET, ContactEnd)
    case ContactEnd => if b == RBRACE then EndContact(s) else Fail(s)
    case ContactSeparator => Either(s, b, COMMA, ContactStart, RBRACKET, CommandEnd)
    case CommandEnd => if b == SEMICOLON then s.(status := Done) else Fail(s)
    case _ => Fail(s)
  }

  predicate ReadsToken(stage: Stage) {
    stage.NodeConfEid? || stage.Reliability? || stage.ClaAddr? || stage.NodeEid? || stage.ContactStartTime? || stage.ContactEndTime?
    || stage.ContactBitrate? || stage.ContactNodeEid?
  }

  /** `config_parser_read_byte` and `read_command` */
  function Step(s: State, b: Byte, now: nat): State {
    if s.status != Good then s
    else if Accepts(s.stage, b) then s.(token := s.token + [b])
    else if ReadsToken(s.stage) then Finish(s, b, now)
    else Delimiter(s, b)
  }

  function Run(s: State, bytes: seq<Byte>, now: nat): State {
    if bytes == [] then s else Step(Run(s, bytes[..|bytes| - 1], now), bytes[|bytes| - 1], now)
  }

  class Parser {
    var s: State
    ghost var sent: seq<Command>

    constructor ()
      ensures s == FRESH && sent == []
    {
      s, sent := FRESH, [];
    }

    /** `config_parser_read`: a failure resets the parser and drops the rest of the buffer, the end of a command does not. */
    method Read(buffer: seq<Byte>, now: nat) returns (n: nat)
      requires s.status == Good
      modifies this
      ensures n == |buffer|
      ensures var t := Run(old(s), buffer, now);
              if t.status == Error then s == FRESH && sent == old(sent)
              else s == t && sent == old(sent) + if t.status == Done then [t.command] else []
    {
      n := 0;
      ghost var start := s;
      while n < |buffer|
        invariant n <= |buffer| && s == Run(start, buffer[..n], now) && s.status != Error
        invariant sent == old(sent) + if s.status == Done then [s.command] else []
      {
        assert buffer[..n + 1][..n] == buffer[..n];
        var wasGood := s.status == Good;
        s := Step(s, buffer[n], now);
        if wasGood && s.status == Done {
          sent := sent + [s.command];
        }
        if s.status == Error {
          assert buffer == buffer[..n + 1] + buffer[n + 1..];
          RunAppend(start, buffer[..n + 1], buffer[n + 1..], now);
          RunStuck(s, buffer[n + 1..], now);
          s := FRESH;
          return |buffer|;
        }
        n := n + 1;
      }
      assert buffer[..n] == buffer;
    }
  }

  lemma {:induction false} RunAppend(s: State, a: seq<Byte>, b: seq<Byte>, now: nat)
    ensures Run(s, a + b, now) == Run(Run(s, a, now), b, now)
    decreases |b|
  {
    if b == [] {
      assert a + b == a;
    } else {
      var n := |b| - 1;
      assert (a + b)[..|a + b| - 1] == a + b[..n];
      RunAppend(s, a, b[..n], now);
    }
  }

  lemma {:induction false} RunStuck(s: State, bytes: seq<Byte>, now: nat)
    requires s.status != Good
    ensures Run(s, bytes, now) == s
  {
    if bytes != [] { RunStuck(s, bytes[..|bytes| - 1], now); }
  }

  // ---------------------------------------------------------------- The printer

  /** `ConfigMessage`: the contacts of a message have no endpoints of their own. */
  datatype Message = Message(kind: nat, eid: seq<Byte>, addr: seq<Byte>, endpoints: seq<seq<Byte>>, contacts: seq<Contact>)

  function Decimal(n: nat): (r: seq<Byte>)
    ensures r != [] && forall i :: 0 <= i < |r| ==> IsDigit(r[i])
  {
    if n < 10 then [0x30 + n] else Decimal(n / 10) + [0x30 + n % 10]
  }

  lemma {:induction false} DecimalNumber(n: nat)
    ensures Number(Decimal(n)) == n
  {
    var d := Decimal(n);
    if n >= 10 {
      DecimalNumber(n / 10);
      assert d[..|d| - 1] == Decimal(n / 10);
    } else {
      assert d[..|d| - 1] == [];
    }
  }

  function PrintEid(eid: seq<Byte>): seq<Byte> { [LPAREN] + eid + [RPAREN] }

  function PrintContact(c: Contact): seq<Byte> {
    [LBRACE] + Decimal(c.from) + [COMMA] + Decimal(c.to) + [COMMA] + Decimal(c.bitrate) + [RBRACE]
  }

  /** `",".join` */
  function Join(parts: seq<seq<Byte>>): seq<Byte> {
    if parts == [] then [] else if |parts| == 1 then parts[0] else Join(parts[..|parts| - 1]) + [COMMA] + parts[|parts| - 1]
  }

  function PrintList(parts: seq<seq<Byte>>): seq<Byte> { if parts == [] then [] else [LBRACKET] + Join(parts) + [RBRACKET] }

  function Eids(eids: seq<seq<Byte>>): (r: seq<seq<Byte>>)
    ensures |r| == |eids|
  {
    seq(|eids|, i requires 0 <= i < |eids| => PrintEid(eids[i]))
  }

  function Contacts(contacts: seq<Contact>): (r: seq<seq<Byte>>)
    ensures |r| == |contacts|
  {
    seq(|contacts|, i requires 0 <= i < |contacts| => PrintContact(contacts[i]))
  }

  /** `__str__` */
  function Print(m: Message): seq<Byte> {
    [0x30 + m.kind % 10] + PrintEid(m.eid) + [COLON] + PrintEid(m.addr) + [COLON]
    + PrintList(Eids(m.endpoints)) + [COLON] + PrintList(Contacts(m.contacts)) + [SEMICOLON]
  }

  // ---------------------------------------------------------------- Runs

  ghost predicate Next(s: State, b: Byte, now: nat, t: State) { s.status == Good && Step(s, b, now) == t }

  ghost predicate IsTrace(trace: seq<State>, bytes: seq<Byte>, now: nat) {
    |trace| == |bytes| + 1
    && forall i {:trigger Next(trace[i], bytes[i], now, trace[i + 1])} :: 0 <= i < |bytes| ==> Next(trace[i], bytes[i], now, trace[i + 1])
  }

  ghost function StepAt(now: nat): (State, Byte, State) -> bool { (s: State, b: Byte, t: State) => Next(s, b, now, t) }

  /** The bytes take the parser from `s` to `t`, without having been done before. */
  ghost predicate Goes(s: State, bytes: seq<Byte>, now: nat, t: State) { Leads(StepAt(now), s, bytes, t) }

  lemma {:induction false} TraceIsLinked(trace: seq<State>, bytes: seq<Byte>, now: nat)
    ensures IsTrace(trace, bytes, now) == Linked(StepAt(now), trace, bytes)
  {
    var step := StepAt(now);
    if |trace| == |bytes| + 1 {
      assert forall i :: 0 <= i < |bytes| ==> step(trace[i], bytes[i], trace[i + 1]) == Next(trace[i], bytes[i], now, trace[i + 1]);
    }
  }

  lemma {:induction false} GoesTrace(trace: seq<State>, bytes: seq<Byte>, now: nat)
    requires |trace| == |bytes| + 1 && forall i :: 0 <= i < |bytes| ==> Next(trace[i], bytes[i], now, trace[i + 1])
    ensures Goes(trace[0], bytes, now, trace[|bytes|])
  {
    TraceIsLinked(trace, bytes, now);
  }

  lemma {:induction false} TraceOf(s: State, bytes: seq<Byte>, now: nat, t: State) returns (trace: seq<State>)
    requires Goes(s, bytes, now, t)
    ensures IsTrace(trace, bytes, now) && trace[0] == s && trace[|bytes|] == t
  {
    trace :| Linked(StepAt(now), trace, bytes) && trace[0] == s && trace[|bytes|] == t;
    TraceIsLinked(trace, bytes, now);
  }

  lemma {:induction false} GoesNowhere(s: State, now: nat)
    ensures Goes(s, [], now, s)
  {
    LeadsNowhere<State, Byte>(StepAt(now), s);
  }

  lemma {:induction false} GoesByte(s: State, b: Byte, now: nat, t: State)
    requires Next(s, b, now, t)
    ensures Goes(s, [b], now, t)
  {
    LeadsOnce(StepAt(now), s, b, t);
  }

  lemma {:induction false} GoesOn(s: State, a: seq<Byte>, now: nat, t: State, b: seq<Byte>, u: State)
    requires Goes(s, a, now, t) && Goes(t, b, now, u)
    ensures Goes(s, a + b, now, u)
  {
    LeadsOn(StepAt(now), s, a, t, b, u);
  }

  lemma {:induction false} TraceRuns(trace: seq<State>, bytes: seq<Byte>, now: nat, n: nat)
    requires IsTrace(trace, bytes, now) && n <= |bytes|
    ensures Run(trace[0], bytes[..n], now) == trace[n]
    ensures n < |bytes| ==> trace[n].status == Good
  {
    if n > 0 {
      var m := n - 1;
      TraceRuns(trace, bytes, now, m);
      assert bytes[..n][..m] == bytes[..m];
      assert Next(trace[m], bytes[m], now, trace[m + 1]);
    }
    if n < |bytes| { assert Next(trace[n], bytes[n], now, trace[n + 1]); }
  }

  lemma {:induction false} GoesRuns(s: State, bytes: seq<Byte>, now: nat, t: State)
    requires Goes(s, bytes, now, t)
    ensures Run(s, bytes, now) == t
    ensures forall n :: 0 <= n < |bytes| ==> Run(s, bytes[..n], now).status == Good
  {
    var trace := TraceOf(s, bytes, now, t);
    forall n | 0 <= n < |bytes| ensures Run(s, bytes[..n], now).status == Good { TraceRuns(trace, bytes, now, n); }
    TraceRuns(trace, bytes, now, |bytes|);
    assert bytes[..|bytes|] == bytes;
  }

  /** A string or number is collected. */
  lemma {:induction false} TokenGoes(s: State, str: seq<Byte>, now: nat)
    requires s.status == Good && s.token == [] && forall i :: 0 <= i < |str| ==> Accepts(s.stage, str[i])
    ensures Goes(s, str, now, s.(token := str))
  {
    var m := |str|;
    var trace := seq(m + 1, i requires 0 <= i <= m => s.(token := str[..i]));
    forall i | 0 <= i < m ensures Next(trace[i], str[i], now, trace[i + 1]) {
      assert str[..i] + [str[i]] == str[..i + 1];
    }
    assert trace[0] == s && str[..m] == str;
    GoesTrace(trace, str, now);
  }

  /** A string or number with the delimiters around it. */
  lemma {:induction false} Enclosed(s: State, first: Byte, inner: State, str: seq<Byte>, last: Byte, now: nat, t: State)
    requires Next(s, first, now, inner) && inner.status == Good && inner.token == []
    requires (forall i :: 0 <= i < |str| ==> Accepts(inner.stage, str[i])) && Next(inner.(token := str), last, now, t)
    ensures Goes(s, [first] + str + [last], now, t)
  {
    GoesByte(s, first, now, inner);
    TokenGoes(inner, str, now);
    GoesOn(s, [first], now, inner, str, inner.(token := str));
    GoesByte(inner.(token := str), last, now, t);
    GoesOn(s, [first] + str, now, inner.(token := str), [last], t);
  }

  // ---------------------------------------------------------------- The round trip

  predicate EidOk(eid: seq<Byte>) { forall i :: 0 <= i < |eid| ==> IsEidChar(eid[i]) && eid[i] != LPAREN && eid[i] != RPAREN }

  predicate AddrOk(addr: seq<Byte>) { forall i :: 0 <= i < |addr| ==> IsAddrChar(addr[i]) }

  predicate ContactOk(c: Contact, now: nat) { c.from < c.to && now < c.to < U64 && c.bitrate < U32 && c.endpoints == [] }

  predicate MessageOk(m: Message, now: nat) {
    && 1 <= m.kind <= 4 && EidOk(m.eid) && AddrOk(m.addr)
    && (forall i :: 0 <= i < |m.endpoints| ==> EidOk(m.endpoints[i]))
    && (forall i :: 0 <= i < |m.contacts| ==> ContactOk(m.contacts[i], now))
  }

  /** Nothing is being read. */
  predicate Clean(s: State) { s.status == Good && s.token == [] && s.contact == NO_CONTACT }

  function WithEndpoints(s: State, eids: seq<seq<Byte>>): State { s.(command := s.command.(endpoints := s.command.endpoints + eids)) }

  function WithContacts(s: State, contacts: seq<Contact>): State { s.(command := s.command.(contacts := s.command.contacts + contacts)) }

  lemma {:induction false} EndpointGoes(s: State, eid: seq<Byte>, now: nat)
    requires Clean(s) && s.stage.NodeStart? && EidOk(eid)
    ensures Goes(s, PrintEid(eid), now, WithEndpoints(s, [eid]).(stage := NodeSeparator))
  {
    Enclosed(s, LPAREN, Begin(s, NodeEid), eid, RPAREN, now, WithEndpoints(s, [eid]).(stage := NodeSeparator));
  }

  /** Delimiters that only lead to another stage. */
  predicate Moves(from: Stage, b: Byte, to: Stage) {
    || (from == NodeSeparator && b == COMMA && to == NodeStart)
    || (from == NodeSeparator && b == RBRACKET && to == NodesContactsSeparator)
    || (from == NodeListStart && b == LBRACKET && to == NodeStart)
    || (from == NodeListStart && b == COLON && to == ContactListStart)
    || (from == NodesContactsSeparator && b == COLON && to == ContactListStart)
    || (from == ContactListStart && b == LBRACKET && to == ContactStart)
    || (from == ContactSeparator && b == COMMA && to == ContactStart)
    || (from == ContactSeparator && b == RBRACKET && to == CommandEnd)
    || (from == ReliabilitySeparator && b == COLON && to == ClaAddrStart)
    || (from == ClaAddrNodesSeparator && b == COLON && to == NodeListStart)
  }

  lemma {:induction false} MoveGoes(s: State, b: Byte, to: Stage, now: nat)
    requires s.status == Good && Moves(s.stage, b, to)
    ensures Goes(s, [b], now, s.(stage := to))
  {
    GoesByte(s, b, now, s.(stage := to));
  }

  lemma {:induction false} EndGoes(s: State, now: nat)
    requires s.status == Good && (s.stage.ContactListStart? || s.stage.CommandEnd?)
    ensures Goes(s, [SEMICOLON], now, s.(status := Done))
  {
    GoesByte(s, SEMICOLON, now, s.(status := Done));
  }

  lemma {:induction false} EndpointsGo(s: State, eids: seq<seq<Byte>>, now: nat)
    requires Clean(s) && s.stage.NodeStart? && eids != [] && forall i :: 0 <= i < |eids| ==> EidOk(eids[i])
    ensures Goes(s, Join(Eids(eids)), now, WithEndpoints(s, eids).(stage := NodeSeparator))
    decreases |eids|
  {
    var n := |eids| - 1;
    if n == 0 {
      EndpointGoes(s, eids[0], now);
      assert eids == [eids[0]];
    } else {
      var before, last := eids[..n], eids[n];
      assert Eids(eids)[..n] == Eids(before) && before + [last] == eids;
      EndpointsGo(s, before, now);
      OneMoreEndpoint(s, before, last, Join(Eids(before)), now);
    }
  }

  lemma {:induction false} OneMoreEndpoint(s: State, before: seq<seq<Byte>>, last: seq<Byte>, bytes: seq<Byte>, now: nat)
    requires Clean(s) && EidOk(last) && Goes(s, bytes, now, WithEndpoints(s, before).(stage := NodeSeparator))
    ensures Goes(s, bytes + [COMMA] + PrintEid(last), now, WithEndpoints(s, before + [last]).(stage := NodeSeparator))
  {
    var t := WithEndpoints(s, before).(stage := NodeSeparator);
    var u := t.(stage := NodeStart);
    MoveGoes(t, COMMA, NodeStart, now);
    GoesOn(s, bytes, now, t, [COMMA], u);
    EndpointGoes(u, last, now);
    assert s.command.endpoints + before + [last] == s.command.endpoints + (before + [last]);
    GoesOn(s, bytes + [COMMA], now, u, PrintEid(last), WithEndpoints(s, before + [last]).(stage := NodeSeparator));
  }

  lemma {:induction false} NumberToken(n: nat)
    requires n < U64
    ensures Number64(Decimal(n)) == n
  {
    DecimalNumber(n);
  }

  /** The times of a contact. */
  lemma {:induction false} TimesGo(s: State, c: Contact, now: nat)
    requires Clean(s) && s.stage.ContactStart? && ContactOk(c, now)
    ensures Goes(s, [LBRACE] + Decimal(c.from) + [COMMA] + Decimal(c.to) + [COMMA], now,
                 s.(stage := ContactBitrate, contact := Contact(c.from, c.to, 0, [])))
  {
    NumberToken(c.from);
    NumberToken(c.to);
    var t := s.(stage := ContactEndTime, contact := Contact(c.from, 0, 0, []));
    Enclosed(s, LBRACE, s.(stage := ContactStartTime), Decimal(c.from), COMMA, now, t);
    var u := t.(token := Decimal(c.to));
    var v := s.(stage := ContactBitrate, contact := Contact(c.from, c.to, 0, []));
    TokenGoes(t, Decimal(c.to), now);
    GoesByte(u, COMMA, now, v);
    GoesOn(t, Decimal(c.to), now, u, [COMMA], v);
    GoesOn(s, [LBRACE] + Decimal(c.from) + [COMMA], now, t, Decimal(c.to) + [COMMA], v);
    assert [LBRACE] + Decimal(c.from) + [COMMA] + (Decimal(c.to) + [COMMA]) == [LBRACE] + Decimal(c.from) + [COMMA] + Decimal(c.to) + [COMMA];
  }

  lemma {:induction false} BitrateEnds(s: State, c: Contact, now: nat, u: State, v: State)
    requires Clean(s) && s.stage.ContactStart? && ContactOk(c, now)
    requires u == s.(stage := ContactBitrate, contact := Contact(c.from, c.to, 0, []), token := Decimal(c.bitrate))
    requires v == WithContacts(s, [c]).(stage := ContactSeparator)
    ensures Goes(u, [RBRACE], now, v)
  {
    NumberToken(c.bitrate);
    assert c.bitrate % U32 == c.bitrate;
    GoesByte(u, RBRACE, now, v);
  }

  lemma {:induction false} ContactGoes(s: State, c: Contact, now: nat)
    requires Clean(s) && s.stage.ContactStart? && ContactOk(c, now)
    ensures Goes(s, PrintContact(c), now, WithContacts(s, [c]).(stage := ContactSeparator))
  {
    TimesGo(s, c, now);
    NumberToken(c.bitrate);
    var head := [LBRACE] + Decimal(c.from) + [COMMA] + Decimal(c.to) + [COMMA];
    var t := s.(stage := ContactBitrate, contact := Contact(c.from, c.to, 0, []));
    var u, v := t.(token := Decimal(c.bitrate)), WithContacts(s, [c]).(stage := ContactSeparator);
    TokenGoes(t, Decimal(c.bitrate), now);
    GoesOn(s, head, now, t, Decimal(c.bitrate), u);
    BitrateEnds(s, c, now, u, v);
    GoesOn(s, head + Decimal(c.bitrate), now, u, [RBRACE], v);
  }

  lemma {:induction false} ContactsGo(s: State, contacts: seq<Contact>, now: nat)
    requires Clean(s) && s.stage.ContactStart? && contacts != [] && forall i :: 0 <= i < |contacts| ==> ContactOk(contacts[i], now)
    ensures Goes(s, Join(Contacts(contacts)), now, WithContacts(s, contacts).(stage := ContactSeparator))
    decreases |contacts|
  {
    var n := |contacts| - 1;
    if n == 0 {
      ContactGoes(s, contacts[0], now);
      assert contacts == [contacts[0]];
    } else {
      var before, last := contacts[..n], contacts[n];
      assert Contacts(contacts)[..n] == Contacts(before) && before + [last] == contacts;
      ContactsGo(s, before, now);
      OneMoreContact(s, before, last, Join(Contacts(before)), now);
    }
  }

  lemma {:induction false} OneMoreContact(s: State, before: seq<Contact>, last: Contact, bytes: seq<Byte>, now: nat)
    requires Clean(s) && ContactOk(last, now) && Goes(s, bytes, now, WithContacts(s, before).(stage := ContactSeparator))
    ensures Goes(s, bytes + [COMMA] + PrintContact(last), now, WithContacts(s, before + [last]).(stage := ContactSeparator))
  {
    var t := WithContacts(s, before).(stage := ContactSeparator);
    var u := t.(stage := ContactStart);
    MoveGoes(t, COMMA, ContactStart, now);
    GoesOn(s, bytes, now, t, [COMMA], u);
    ContactGoes(u, last, now);
    assert s.command.contacts + before + [last] == s.command.contacts + (before + [last]);
    GoesOn(s, bytes + [COMMA], now, u, PrintContact(last), WithContacts(s, before + [last]).(stage := ContactSeparator));
  }

  /** A list in brackets. */
  lemma {:induction false} BracketsGo(s: State, items: seq<Byte>, now: nat, inner: Stage, t: State, outer: Stage)
    requires s.status == Good && t.status == Good && Moves(s.stage, LBRACKET, inner) && Moves(t.stage, RBRACKET, outer)
    requires Goes(s.(stage := inner), items, now, t)
    ensures Goes(s, [LBRACKET] + items + [RBRACKET], now, t.(stage := outer))
  {
    MoveGoes(s, LBRACKET, inner, now);
    GoesOn(s, [LBRACKET], now, s.(stage := inner), items, t);
    MoveGoes(t, RBRACKET, outer, now);
    GoesOn(s, [LBRACKET] + items, now, t, [RBRACKET], t.(stage := outer));
  }

  /** The list of endpoints, up to the colon after it. */
  lemma {:induction false} NodeListGoes(s: State, eids: seq<seq<Byte>>, now: nat)
    requires Clean(s) && s.stage.NodeListStart? && forall i :: 0 <= i < |eids| ==> EidOk(eids[i])
    ensures Goes(s, PrintList(Eids(eids)) + [COLON], now, WithEndpoints(s, eids).(stage := ContactListStart))
  {
    if eids == [] {
      assert s.command.endpoints + eids == s.command.endpoints;
      assert PrintList(Eids(eids)) + [COLON] == [COLON];
      MoveGoes(s, COLON, ContactListStart, now);
    } else {
      var u := WithEndpoints(s, eids).(stage := NodeSeparator);
      EndpointsGo(s.(stage := NodeStart), eids, now);
      BracketsGo(s, Join(Eids(eids)), now, NodeStart, u, NodesContactsSeparator);
      var v := u.(stage := NodesContactsSeparator);
      MoveGoes(v, COLON, ContactListStart, now);
      GoesOn(s, PrintList(Eids(eids)), now, v, [COLON], WithEndpoints(s, eids).(stage := ContactListStart));
    }
  }

  /** The list of contacts, up to the final semicolon. */
  lemma {:induction false} ContactListGoes(s: State, contacts: seq<Contact>, now: nat) returns (end: State)
    requires Clean(s) && s.stage.ContactListStart? && forall i :: 0 <= i < |contacts| ==> ContactOk(contacts[i], now)
    ensures Goes(s, PrintList(Contacts(contacts)) + [SEMICOLON], now, end)
    ensures end.status == Done && end.command == WithContacts(s, contacts).command
  {
    if contacts == [] {
      assert s.command.contacts + contacts == s.command.contacts;
      assert PrintList(Contacts(contacts)) + [SEMICOLON] == [SEMICOLON];
      end := s.(status := Done);
      EndGoes(s, now);
    } else {
      var u := WithContacts(s, contacts).(stage := ContactSeparator);
      ContactsGo(s.(stage := ContactStart), contacts, now);
      BracketsGo(s, Join(Contacts(contacts)), now, ContactStart, u, CommandEnd);
      var v := u.(stage := CommandEnd);
      end := v.(status := Done);
      EndGoes(v, now);
      GoesOn(s, PrintList(Contacts(contacts)), now, v, [SEMICOLON], end);
    }
  }

  /** What a message means to the router. */
  function CommandOf(m: Message): Command { Command(0x30 + m.kind, m.eid, true, m.addr, 1000, m.endpoints, m.contacts) }

  /** Command and identifier, up to the colon. */
  lemma {:induction false} NodeGoes(kind: nat, eid: seq<Byte>, now: nat)
    requires 1 <= kind <= 4 && EidOk(eid)
    ensures Goes(FRESH, [0x30 + kind] + PrintEid(eid) + [COLON], now,
                 FRESH.(stage := ClaAddrStart, command := FRESH.command.(kind := 0x30 + kind, eid := eid)))
  {
    var s1 := FRESH.(stage := NodeConfStart, command := FRESH.command.(kind := 0x30 + kind));
    GoesByte(FRESH, 0x30 + kind, now, s1);
    var s2 := s1.(stage := ReliabilitySeparator, command := s1.command.(eid := eid));
    Enclosed(s1, LPAREN, s1.(stage := NodeConfEid), eid, RPAREN, now, s2);
    GoesOn(FRESH, [0x30 + kind], now, s1, PrintEid(eid), s2);
    MoveGoes(s2, COLON, ClaAddrStart, now);
    GoesOn(FRESH, [0x30 + kind] + PrintEid(eid), now, s2, [COLON], s2.(stage := ClaAddrStart));
  }

  /** The address, up to the colon. */
  lemma {:induction false} AddrGoes(s: State, addr: seq<Byte>, now: nat)
    requires Clean(s) && s.stage.ClaAddrStart? && AddrOk(addr)
    ensures Goes(s, PrintEid(addr) + [COLON], now, s.(stage := NodeListStart, command := s.command.(hasAddr := true, addr := addr)))
  {
    var t := s.(stage := ClaAddr, command := s.command.(hasAddr := true));
    var u := t.(stage := ClaAddrNodesSeparator, command := t.command.(addr := addr));
    Enclosed(s, LPAREN, t, addr, RPAREN, now, u);
    MoveGoes(u, COLON, NodeListStart, now);
    GoesOn(s, PrintEid(addr), now, u, [COLON], u.(stage := NodeListStart));
  }

  function HeadOf(m: Message): seq<Byte> { [0x30 + m.kind % 10] + PrintEid(m.eid) + [COLON] + (PrintEid(m.addr) + [COLON]) }

  function NodesOf(m: Message): seq<Byte> { PrintList(Eids(m.endpoints)) + [COLON] }

  function ContactsOf(m: Message): seq<Byte> { PrintList(Contacts(m.contacts)) + [SEMICOLON] }

  lemma {:induction false} PrintParts(m: Message)
    ensures Print(m) == HeadOf(m) + NodesOf(m) + ContactsOf(m)
  {
    Regroup([0x30 + m.kind % 10] + PrintEid(m.eid) + [COLON], PrintEid(m.addr), [COLON], PrintList(Eids(m.endpoints)), [COLON],
            PrintList(Contacts(m.contacts)), [SEMICOLON]);
  }

  lemma {:induction false} HeadGoes(m: Message, now: nat)
    requires MessageOk(m, now)
    ensures Goes(FRESH, HeadOf(m), now, FRESH.(stage := NodeListStart, command := CommandOf(m.(endpoints := [], contacts := []))))
  {
    var r := FRESH.(stage := ClaAddrStart, command := FRESH.command.(kind := 0x30 + m.kind, eid := m.eid));
    NodeGoes(m.kind, m.eid, now);
    AddrGoes(r, m.addr, now);
    assert m.kind % 10 == m.kind;
    GoesOn(FRESH, [0x30 + m.kind] + PrintEid(m.eid) + [COLON], now, r, PrintEid(m.addr) + [COLON],
           FRESH.(stage := NodeListStart, command := CommandOf(m.(endpoints := [], contacts := []))));
  }

  lemma {:induction false} Regroup(a: seq<Byte>, b: seq<Byte>, c: seq<Byte>, d: seq<Byte>, e: seq<Byte>, f: seq<Byte>, g: seq<Byte>)
    ensures a + b + c + d + e + f + g == a + (b + c) + (d + e) + (f + g)
  {
  }

  /**
   A printed message is parsed back to the same command, identifier, address, endpoints and contacts, and the parser is
   done exactly at the final semicolon.
   */
  lemma {:induction false} RoundTrip(m: Message, now: nat)
    requires MessageOk(m, now)
    ensures var t := Run(FRESH, Print(m), now); t.status == Done && t.command == CommandOf(m)
    ensures forall n :: 0 <= n < |Print(m)| ==> Run(FRESH, Print(m)[..n], now).status == Good
  {
    var end := MessageGoes(m, now);
    PrintParts(m);
    GoesRuns(FRESH, Print(m), now, end);
  }

  lemma {:induction false} MessageGoes(m: Message, now: nat) returns (end: State)
    requires MessageOk(m, now)
    ensures Goes(FRESH, HeadOf(m) + NodesOf(m) + ContactsOf(m), now, end) && end.status == Done && end.command == CommandOf(m)
  {
    var s := FRESH.(stage := NodeListStart, command := CommandOf(m.(endpoints := [], contacts := [])));
    var t := WithEndpoints(s, m.endpoints).(stage := ContactListStart);
    HeadGoes(m, now);
    NodeListGoes(s, m.endpoints, now);
    GoesOn(FRESH, HeadOf(m), now, s, NodesOf(m), t);
    end := ContactListGoes(t, m.contacts, now);
    GoesOn(FRESH, HeadOf(m) + NodesOf(m), now, t, ContactsOf(m), end);
    assert [] + m.endpoints == m.endpoints && [] + m.contacts == m.contacts;
  }
}
