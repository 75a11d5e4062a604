/** Local delivery: duplicate check, agent lookup, and reassembly of fragmented data units. */
module Processor {
  import opened Wrappers
  import opened Bundles
  import opened KnownBundleList
  import opened Reassembly

  /** What an application, or the administrative record handler, is given. */
  datatype Adu = Adu(version: nat, flags: nat, source: string, destination: string, payload: seq<Byte>)

  /**
   The processor's global state; `usedAfterDiscard` records that a bundle that had been discarded
   and freed was put into a reassembly slot nevertheless.
   */
  datatype State = State(known: seq<Entry>, slots: seq<seq<Bundle>>, delivered: seq<Adu>, usedAfterDiscard: bool)

  /** `get_agent_id`: what follows the local EID and a slash. */
  function GetAgentId(local: string, dest: string): Option<string>
    requires |local| > 0
  {
    if local[|local| - 1] == '/' then
      if |dest| <= |local| || dest[|local| - 1] != '/' then None else Some(dest[|local|..])
    else
      if |dest| <= |local| + 1 || dest[|local|] != '/' then None else Some(dest[|local| + 1..])
  }

  predicate Deliverable(local: string, flags: nat, dest: string)
    requires |local| > 0
  {
    HasFlag(flags, FLAG_ADMINISTRATIVE_RECORD) || GetAgentId(local, dest).Some?
  }

  /** Field widths of `struct bundle`. */
  predicate WellTyped(b: Bundle) { b.offset < U32 && b.total < U32 && Length(b) < U32 }

  predicate MayReassemble(b: Bundle, c: Bundle) {
    b.creation == c.creation && b.sequence == c.sequence && b.source == c.source
  }

  /** `bundle_adu_init` */
  function AduOf(b: Bundle, payload: seq<Byte>): Adu {
    Adu(b.version, ClearFragment(b.flags), b.source, b.destination, payload)
  }

  ghost predicate FragmentOk(local: string, head: Bundle, b: Bundle)
    requires |local| > 0
  {
    WellTyped(b) && MayReassemble(head, b) && Deliverable(local, b.flags, b.destination)
  }

  /** A slot holds fragments of one data unit, in offset order. */
  ghost predicate SlotOk(local: string, slot: seq<Bundle>)
    requires |local| > 0
  {
    slot != [] && (forall x :: x in slot ==> FragmentOk(local, slot[0], x)) && SortedByOffset(slot)
  }

  ghost predicate SlotsOk(local: string, slots: seq<seq<Bundle>>)
    requires |local| > 0
  {
    forall k :: 0 <= k < |slots| ==> SlotOk(local, slots[k])
  }

  function FindSlot(slots: seq<seq<Bundle>>, b: Bundle, k: nat): (r: nat)
    requires k <= |slots| && (forall i :: 0 <= i < |slots| ==> slots[i] != [])
    ensures k <= r <= |slots| && (r < |slots| ==> MayReassemble(slots[r][0], b))
    ensures forall i :: k <= i < r ==> !MayReassemble(slots[i][0], b)
    decreases |slots| - k
  {
    if k == |slots| || MayReassemble(slots[k][0], b) then k else FindSlot(slots, b, k + 1)
  }

  /** A buffer of the given size out of whatever the allocator's memory held. */
  function Buffer(memory: seq<Byte>, size: nat): (r: seq<Byte>)
    ensures |r| == size && (|memory| == size ==> r == memory)
  {
    if size <= |memory| then memory[..size] else memory + seq(size - |memory|, _ => 0)
  }

  lemma {:induction false} InsertKeepsSlot(local: string, slot: seq<Bundle>, b: Bundle)
    requires |local| > 0 && WellTyped(b) && Deliverable(local, b.flags, b.destination)
    requires slot == [] || (SlotOk(local, slot) && MayReassemble(slot[0], b))
    ensures SlotOk(local, InsertByOffset(slot, b))
  {
    InsertKeepsOrder(slot, b);
    InsertMembers(slot, b);
  }

  lemma {:induction false} SlotSized(local: string, slot: seq<Bundle>)
    requires |local| > 0 && SlotOk(local, slot)
    ensures Sized(slot) && WellTyped(slot[0])
  {
    forall i | 0 <= i < |slot| ensures WellTyped(slot[i]) {
      assert slot[i] in slot;
      assert FragmentOk(local, slot[0], slot[i]);
    }
  }

  /** `try_reassemble` on slot `k` */
  function TryReassemble(st: State, local: string, now: nat, k: nat, memory: seq<Byte>): State
    requires |local| > 0 && SlotsOk(local, st.slots) && k < |st.slots|
  {
    var list := st.slots[k];
    assert SlotOk(local, list);
    SlotSized(local, list);
    if !Complete(list, 0) then st
    else
      var first := list[0];
      State(Insert(st.known, Entry(Key(first, true), Deadline(first, now))),
            st.slots[..k] + st.slots[k + 1..],
            st.delivered + [AduOf(first, Copied(list, Buffer(memory, first.total), 0))],
            st.usedAfterDiscard)
  }

  /** The slots after a fragment has been added to the slot of its data unit. */
  function AddFragment(slots: seq<seq<Bundle>>, b: Bundle): seq<seq<Bundle>>
    requires forall i :: 0 <= i < |slots| ==> slots[i] != []
  {
    var k := FindSlot(slots, b, 0);
    if k < |slots| then slots[k := InsertByOffset(slots[k], b)] else slots + [[b]]
  }

  lemma {:induction false} AddFragmentOk(local: string, slots: seq<seq<Bundle>>, b: Bundle)
    requires |local| > 0 && SlotsOk(local, slots) && WellTyped(b) && Deliverable(local, b.flags, b.destination)
    ensures (forall i :: 0 <= i < |slots| ==> slots[i] != []) && SlotsOk(local, AddFragment(slots, b))
  {
    assert forall i :: 0 <= i < |slots| ==> SlotOk(local, slots[i]);
    var k := FindSlot(slots, b, 0);
    if k < |slots| {
      InsertKeepsSlot(local, slots[k], b);
    } else {
      InsertKeepsSlot(local, [], b);
    }
  }

  /**
   `bundle_attempt_reassembly`: a fragment whose data unit is known as reassembled is discarded, but
   the function goes on with it.
   */
  function AttemptReassembly(st: State, local: string, now: nat, b: Bundle, memory: seq<Byte>): State
    requires |local| > 0 && SlotsOk(local, st.slots) && WellTyped(b) && Deliverable(local, b.flags, b.destination)
  {
    AddFragmentOk(local, st.slots, b);
    var st1 := st.(usedAfterDiscard := st.usedAfterDiscard || HasKey(st.known, Key(b, true)), slots := AddFragment(st.slots, b));
    TryReassemble(st1, local, now, FindSlot(st.slots, b, 0), memory)
  }

  predicate HasKey(s: seq<Entry>, key: Identity) { s != [] && (s[0].id == key || HasKey(s[1..], key)) }

  lemma {:induction false} HasKeyIsHas(s: seq<Entry>, key: Identity)
    ensures HasKey(s, key) <==> Has(s, key)
  {
    if s != [] {
      HasKeyIsHas(s[1..], key);
      if s[0].id == key { assert s[0] in s; }
    }
  }

  /** `bundle_deliver_local` */
  function DeliverLocal(st: State, local: string, now: nat, b: Bundle, memory: seq<Byte>): State
    requires |local| > 0 && SlotsOk(local, st.slots) && WellTyped(b)
  {
    var (known, list) := Record(st.known, b, now);
    var st1 := st.(known := list);
    if known || !Deliverable(local, b.flags, b.destination) then st1
    else if IsFragment(b) then AttemptReassembly(st1, local, now, b, memory)
    else st1.(delivered := st.delivered + [AduOf(b, Payload(b))])
  }

  lemma {:induction false} AttemptOk(st: State, local: string, now: nat, b: Bundle, memory: seq<Byte>)
    requires |local| > 0 && SlotsOk(local, st.slots) && WellTyped(b) && SortedByDeadline(st.known)
    requires Deliverable(local, b.flags, b.destination)
    ensures StepOk(local, st, AttemptReassembly(st, local, now, b, memory))
  {
    AddFragmentOk(local, st.slots, b);
    var slots, k := AddFragment(st.slots, b), FindSlot(st.slots, b, 0);
    assert SlotOk(local, slots[k]);
    var first := slots[k][0];
    assert FragmentOk(local, first, first);
    InsertSorted(st.known, Entry(Key(first, true), Deadline(first, now)));
    AdminUnchanged(first.flags);
  }

  /**
   When a new fragment is used after having been discarded: if its data unit was reassembled before,
   but also if it contains the whole data unit, because its own entry then counts as the data unit's.
   */
  lemma {:induction false} UsedAfterDiscardIff(st: State, local: string, now: nat, b: Bundle, memory: seq<Byte>)
    requires |local| > 0 && SlotsOk(local, st.slots) && WellTyped(b) && SortedByDeadline(st.known)
    requires !Record(st.known, b, now).0 && Deliverable(local, b.flags, b.destination) && IsFragment(b)
    ensures DeliverLocal(st, local, now, b, memory).usedAfterDiscard
            <==> st.usedAfterDiscard || Has(Unexpired(st.known, now), Key(b, true)) || (b.offset == 0 && Length(b) == b.total)
  {
    var live, e := Unexpired(st.known, now), Entry(Key(b, false), Deadline(b, now));
    ExpiryExact(st.known, now);
    InsertSorted(live, e);
    HasKeyIsHas(Insert(live, e), Key(b, true));
    assert e in Insert(live, e);
    if Has(live, Key(b, true)) {
      var x :| x in live && x.id == Key(b, true);
      assert x in Insert(live, e);
    }
  }

  /** The slots and the known list stay in order, and what is delivered has a recipient. */
  ghost predicate StepOk(local: string, st: State, st': State)
    requires |local| > 0
  {
    && SlotsOk(local, st'.slots) && SortedByDeadline(st'.known)
    && (st'.delivered == st.delivered
        || exists a :: st'.delivered == st.delivered + [a] && Deliverable(local, a.flags, a.destination))
  }

  /** No local delivery breaks the slots, and only data units with a recipient are delivered. */
  lemma {:induction false} DeliverLocalOk(st: State, local: string, now: nat, b: Bundle, memory: seq<Byte>)
    requires |local| > 0 && SlotsOk(local, st.slots) && WellTyped(b) && SortedByDeadline(st.known)
    ensures StepOk(local, st, DeliverLocal(st, local, now, b, memory))
  {
    var (known, list) := Record(st.known, b, now);
    ExpiryExact(st.known, now);
    InsertSorted(Unexpired(st.known, now), Entry(Key(b, false), Deadline(b, now)));
    if !known && Deliverable(local, b.flags, b.destination) {
      if IsFragment(b) {
        AttemptOk(st.(known := list), local, now, b, memory);
      } else {
        AdminUnchanged(b.flags);
      }
    }
  }

  lemma {:induction false} AdminUnchanged(flags: nat)
    ensures HasFlag(ClearFragment(flags), FLAG_ADMINISTRATIVE_RECORD) <==> HasFlag(flags, FLAG_ADMINISTRATIVE_RECORD)
  {
  }

  class BundleProcessor {
    const localEid: string
    const known: List
    var slots: seq<seq<Bundle>>
    var delivered: seq<Adu>
    var usedAfterDiscard: bool

    function Now(): State
      reads this, known
    {
      State(known.entries, slots, delivered, usedAfterDiscard)
    }

    constructor (localEid: string)
      requires |localEid| > 0
      ensures this.localEid == localEid && fresh(known) && Now() == State([], [], [], false)
    {
      this.localEid := localEid;
      known := new List();
      slots, delivered, usedAfterDiscard := [], [], false;
    }

    method TryReassembleSlot(k: nat, now: nat) returns (ghost memory: seq<Byte>)
      requires |localEid| > 0 && SlotsOk(localEid, slots) && k < |slots|
      modifies this, known
      ensures Now() == TryReassemble(old(Now()), localEid, now, k, memory)
    {
      var list := slots[k];
      memory := [];
      assert SlotOk(localEid, list);
      SlotSized(localEid, list);
      var complete := CheckGaps(list);
      if !complete {
        return;
      }
      var first := list[0];
      var payload := new Byte[first.total];
      memory := payload[..];
      var _ := known.AddIfNotExists(first, true, now);
      CopyAll(list, payload);
      slots := slots[..k] + slots[k + 1..];
      delivered := delivered + [AduOf(first, payload[..])];
    }

    method AttemptReassemblyOf(b: Bundle, now: nat) returns (ghost memory: seq<Byte>)
      requires |localEid| > 0 && SlotsOk(localEid, slots) && WellTyped(b) && Deliverable(localEid, b.flags, b.destination)
      modifies this, known
      ensures Now() == AttemptReassembly(old(Now()), localEid, now, b, memory)
    {
      var parentKnown := known.ContainsReassembledParent(b);
      HasKeyIsHas(known.entries, Key(b, true));
      if parentKnown {
        usedAfterDiscard := true;
      }
      AddFragmentOk(localEid, slots, b);
      var k := 0;
      while k < |slots| && !MayReassemble(slots[k][0], b)
        invariant k <= |slots| && FindSlot(slots, b, 0) == FindSlot(slots, b, k)
      {
        k := k + 1;
      }
      if k < |slots| {
        var list := AddToList(slots[k], b);
        slots := slots[k := list];
      } else {
        slots := slots + [[b]];
      }
      memory := TryReassembleSlot(k, now);
    }

    method Deliver(b: Bundle, now: nat) returns (ghost memory: seq<Byte>)
      requires |localEid| > 0 && SlotsOk(localEid, slots) && WellTyped(b)
      modifies this, known
      ensures Now() == DeliverLocal(old(Now()), localEid, now, b, memory)
    {
      memory := [];
      var isKnown := known.RecordAddAndCheckKnown(b, now);
      if isKnown || !Deliverable(localEid, b.flags, b.destination) {
        return;
      }
      if IsFragment(b) {
        memory := AttemptReassemblyOf(b, now);
      } else {
        delivered := delivered + [AduOf(b, Payload(b))];
      }
    }
  }
}
