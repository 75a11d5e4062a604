/**
 End to end: the fragments of one data unit, delivered in any order, with duplicates, and mixed
 with arbitrary other traffic, cause exactly one delivery, when the last missing one arrives.
 */
module Delivery {
  import opened Wrappers
  import opened Bundles
  import opened KnownBundleList
  import opened Reassembly
  import opened Processor

  /** A data unit cut into consecutive non-empty fragments that differ in position and content only. */
  datatype Target = Target(local: string, pieces: seq<Bundle>, adu: seq<Byte>) {
    ghost function All(): set<Bundle> { set p | p in pieces }

    ghost function Head(): Bundle
      requires pieces != []
    {
      pieces[0]
    }

    ghost function Due(): nat
      requires pieces != []
    {
      Deadline(Head(), 0)
    }

    ghost function ParentKey(): Identity
      requires pieces != []
    {
      Key(Head(), true)
    }

    ghost predicate Ours(b: Bundle)
      requires pieces != []
    {
      MayReassemble(Head(), b)
    }

    ghost predicate OurId(id: Identity)
      requires pieces != []
    {
      id.source == Head().source && id.creation == Head().creation && id.sequence == Head().sequence
    }

    ghost predicate PieceOk(p: Bundle)
      requires pieces != [] && |local| > 0
    {
      && WellTyped(p) && IsFragment(p) && SliceOf(p, adu) && 0 < Length(p) < |adu|
      && p.version == Head().version && p.source == Head().source && p.creation == Head().creation
      && p.sequence == Head().sequence && p.lifetime == Head().lifetime && p.creation != 0
      && Deliverable(local, p.flags, p.destination)
    }

    ghost predicate Valid() {
      && |local| > 0 && |pieces| >= 2 && 0 < |adu| < U32
      && (forall i :: 0 <= i < |pieces| ==> PieceOk(pieces[i]))
      && pieces[0].offset == 0
      && (forall i :: 0 <= i < |pieces| - 1 ==> pieces[i + 1].offset == pieces[i].offset + Length(pieces[i]))
      && pieces[|pieces| - 1].offset + Length(pieces[|pieces| - 1]) == |adu|
    }
  }

  // ---------------------------------------------------------------- The pieces

  lemma {:induction false} PiecesApart(t: Target, i: nat, j: nat)
    requires t.Valid() && i < j < |t.pieces|
    ensures t.pieces[i].offset + Length(t.pieces[i]) <= t.pieces[j].offset
    decreases j
  {
    assert t.PieceOk(t.pieces[j - 1]);
    if i < j - 1 { PiecesApart(t, i, j - 1); }
  }

  /** A piece is determined by its offset. */
  lemma {:induction false} SameOffset(t: Target, p: Bundle, q: Bundle)
    requires t.Valid() && p in t.pieces && q in t.pieces
    ensures t.PieceOk(p) && t.PieceOk(q)
    ensures p.offset == q.offset ==> p == q
    ensures p.offset < q.offset ==> p.offset + Length(p) <= q.offset
  {
    var i :| 0 <= i < |t.pieces| && t.pieces[i] == p;
    var j :| 0 <= j < |t.pieces| && t.pieces[j] == q;
    if i < j { PiecesApart(t, i, j); }
    if j < i { PiecesApart(t, j, i); }
  }

  /** Every byte of the data unit lies in a piece. */
  lemma {:induction false} PieceAt(t: Target, k: nat, n: nat) returns (p: Bundle)
    requires t.Valid() && n < |t.pieces| && k < t.pieces[n].offset + Length(t.pieces[n])
    ensures p in t.pieces && p.offset <= k < p.offset + Length(p)
    decreases n
  {
    if t.pieces[n].offset <= k {
      p := t.pieces[n];
    } else {
      p := PieceAt(t, k, n - 1);
    }
  }

  // ---------------------------------------------------------------- The slot of the data unit

  /** The slot holds exactly the pieces in `s`, each once, in order. */
  ghost predicate SlotIs(slot: seq<Bundle>, s: set<Bundle>) {
    && (forall x :: x in slot <==> x in s)
    && StrictOffsets(slot)
  }

  ghost predicate StrictOffsets(slot: seq<Bundle>) {
    forall i, j :: 0 <= i < j < |slot| ==> slot[i].offset < slot[j].offset
  }

  lemma {:induction false} InsertPiece(t: Target, slot: seq<Bundle>, s: set<Bundle>, p: Bundle)
    requires t.Valid() && s <= t.All() && SlotIs(slot, s) && p in t.pieces && p !in s
    ensures SlotIs(InsertByOffset(slot, p), s + {p})
  {
    InsertMembers(slot, p);
    forall i | 0 <= i < |slot| ensures slot[i].offset != p.offset {
      assert slot[i] in slot;
      SameOffset(t, slot[i], p);
    }
    InsertStrict(slot, p);
  }

  lemma {:induction false} InsertStrict(slot: seq<Bundle>, p: Bundle)
    requires StrictOffsets(slot) && forall i :: 0 <= i < |slot| ==> slot[i].offset != p.offset
    ensures StrictOffsets(InsertByOffset(slot, p))
  {
    if slot == [] {
    } else if slot[0].offset <= p.offset {
      InsertStrict(slot[1..], p);
      InsertMembers(slot[1..], p);
      var rest := InsertByOffset(slot[1..], p);
      forall j | 0 <= j < |rest| ensures slot[0].offset < rest[j].offset {
        assert rest[j] in rest;
        if rest[j] != p {
          var k :| 0 <= k < |slot[1..]| && slot[1..][k] == rest[j];
        }
      }
    } else {
      assert InsertByOffset(slot, p) == [p] + slot;
    }
  }

  lemma {:induction false} SlotShape(t: Target, slot: seq<Bundle>, s: set<Bundle>)
    requires t.Valid() && s <= t.All() && SlotIs(slot, s)
    ensures Slices(slot, t.adu) && SortedByOffset(slot) && EndsGrow(slot)
  {
    forall i | 0 <= i < |slot| ensures SliceOf(slot[i], t.adu) {
      assert slot[i] in slot;
      SameOffset(t, slot[i], slot[i]);
    }
    forall i, j | 0 <= i < j < |slot| ensures slot[i].offset + Length(slot[i]) <= slot[j].offset + Length(slot[j]) {
      assert slot[i] in slot && slot[j] in slot;
      SameOffset(t, slot[i], slot[j]);
    }
  }

  /** The gap check passes exactly when all pieces are there, and then the first of them heads the list. */
  lemma {:induction false} CompleteIffAll(t: Target, slot: seq<Bundle>, s: set<Bundle>)
    requires t.Valid() && s <= t.All() && SlotIs(slot, s)
    ensures Complete(slot, 0) <==> s == t.All()
    ensures s == t.All() ==> slot != [] && slot[0] == t.Head()
  {
    SlotShape(t, slot, s);
    CompleteIffCovered(slot, t.adu);
    if s == t.All() {
      forall k | 0 <= k < |t.adu| ensures CoveredAt(slot, k) {
        var p := PieceAt(t, k, |t.pieces| - 1);
        assert p in slot;
      }
      assert t.Head() in slot;
      SameOffset(t, t.Head(), slot[0]);
    } else {
      var p :| p in t.All() && p !in s;
      SameOffset(t, p, p);
      if CoveredAt(slot, p.offset) {
        var i :| 0 <= i < |slot| && slot[i].offset <= p.offset < slot[i].offset + Length(slot[i]);
        assert slot[i] in slot;
        SameOffset(t, slot[i], p);
      }
    }
  }

  // ---------------------------------------------------------------- The known list

  /** Among the entries of our data unit are exactly those of the pieces seen, and its own once all were. */
  ghost predicate KnownTracks(t: Target, known: seq<Entry>, s: set<Bundle>)
    requires t.pieces != []
  {
    && SortedByDeadline(known)
    && (forall e :: e in known && t.OurId(e.id) ==>
          e.deadline == t.Due() && (if e.id == t.ParentKey() then s == t.All() else exists p :: p in s && e.id == Key(p, false)))
    && (forall p :: p in s ==> Has(known, Key(p, false)))
  }

  lemma {:induction false} PieceKeys(t: Target, p: Bundle, now: nat)
    requires t.Valid() && p in t.pieces
    ensures t.OurId(Key(p, false)) && Key(p, false) != t.ParentKey() && Key(p, true) == t.ParentKey()
    ensures Deadline(p, now) == t.Due() && t.PieceOk(p) && t.Ours(p)
    ensures forall q :: q in t.pieces && Key(q, false) == Key(p, false) ==> q == p
  {
    SameOffset(t, p, p);
    forall q | q in t.pieces && Key(q, false) == Key(p, false) ensures q == p {
      SameOffset(t, p, q);
    }
  }

  /** An entry of another data unit does not concern us. */
  lemma {:induction false} KnownOther(t: Target, known: seq<Entry>, s: set<Bundle>, e: Entry)
    requires t.Valid() && KnownTracks(t, known, s) && !t.OurId(e.id)
    ensures KnownTracks(t, Insert(known, e), s)
  {
    InsertSorted(known, e);
    forall p | p in s ensures Has(Insert(known, e), Key(p, false)) {
      var x :| x in known && x.id == Key(p, false);
    }
  }

  lemma {:induction false} RecordOther(t: Target, known: seq<Entry>, s: set<Bundle>, b: Bundle, now: nat)
    requires t.Valid() && KnownTracks(t, known, s) && !t.Ours(b) && now <= t.Due() && s <= t.All()
    ensures KnownTracks(t, Record(known, b, now).1, s)
  {
    var e := Entry(Key(b, false), Deadline(b, now));
    LiveTracks(t, known, s, now);
    KnownOther(t, Unexpired(known, now), s, e);
  }

  /** A piece is known exactly if it was seen before, and is known from then on; its data unit is not yet. */
  lemma {:induction false} RecordPiece(t: Target, known: seq<Entry>, s: set<Bundle>, p: Bundle, now: nat)
    requires t.Valid() && KnownTracks(t, known, s) && p in t.pieces && now <= t.Due() && s <= t.All()
    ensures Record(known, p, now).0 <==> p in s
    ensures KnownTracks(t, Record(known, p, now).1, s + {p})
    ensures p !in s ==> !Has(Record(known, p, now).1, t.ParentKey())
  {
    PieceKeys(t, p, now);
    var live, e := Unexpired(known, now), Entry(Key(p, false), Deadline(p, now));
    LiveTracks(t, known, s, now);
    forall x | x in live && x.id == e.id ensures x.deadline == e.deadline && p in s {
      assert t.OurId(x.id);
      var q :| q in s && x.id == Key(q, false);
      assert q == p;
    }
    EarlyExitExact(live, e.id, e.deadline);
    InsertSorted(live, e);
    RecordedTracks(t, live, s, p, e);
  }

  lemma {:induction false} LiveTracks(t: Target, known: seq<Entry>, s: set<Bundle>, now: nat)
    requires t.Valid() && KnownTracks(t, known, s) && now <= t.Due() && s <= t.All()
    ensures KnownTracks(t, Unexpired(known, now), s)
  {
    ExpiryExact(known, now);
    forall p | p in s ensures Has(Unexpired(known, now), Key(p, false)) {
      PieceKeys(t, p, now);
      var x :| x in known && x.id == Key(p, false);
    }
  }

  lemma {:induction false} RecordedTracks(t: Target, live: seq<Entry>, s: set<Bundle>, p: Bundle, e: Entry)
    requires t.Valid() && KnownTracks(t, live, s) && p in t.pieces && s <= t.All() && e == Entry(Key(p, false), t.Due())
    ensures p !in s ==> KnownTracks(t, Insert(live, e), s + {p}) && !Has(Insert(live, e), t.ParentKey())
    ensures p in s ==> KnownTracks(t, live, s + {p})
  {
    PieceKeys(t, p, 0);
    if p in s {
      assert s + {p} == s;
    } else {
      InsertSorted(live, e);
      assert p in t.All() && t.OurId(t.ParentKey());
      assert forall x :: x in live ==> x.id != t.ParentKey();
      forall q | q in s ensures Has(Insert(live, e), Key(q, false)) {
        var x :| x in live && x.id == Key(q, false);
      }
    }
  }

  /** Recording the data unit as reassembled. */
  lemma {:induction false} ParentTracks(t: Target, known: seq<Entry>)
    requires t.Valid() && KnownTracks(t, known, t.All())
    ensures KnownTracks(t, Insert(known, Entry(t.ParentKey(), t.Due())), t.All())
  {
    var e := Entry(t.ParentKey(), t.Due());
    InsertSorted(known, e);
    forall p | p in t.All() ensures Has(Insert(known, e), Key(p, false)) {
      var x :| x in known && x.id == Key(p, false);
    }
  }

  // ---------------------------------------------------------------- The list of slots

  ghost predicate NoSlot(t: Target, slots: seq<seq<Bundle>>, from: nat)
    requires t.pieces != [] && from <= |slots| && SlotsNonEmpty(slots)
  {
    forall k :: from <= k < |slots| ==> !t.Ours(slots[k][0])
  }

  ghost predicate SlotsNonEmpty(slots: seq<seq<Bundle>>) {
    forall k :: 0 <= k < |slots| ==> slots[k] != []
  }

  /** Slot `k` is ours and holds the pieces `s`; no other slot is ours. */
  ghost predicate OurSlot(t: Target, slots: seq<seq<Bundle>>, k: nat, s: set<Bundle>)
    requires t.pieces != [] && SlotsNonEmpty(slots)
  {
    k < |slots| && SlotIs(slots[k], s) && forall j :: 0 <= j < |slots| && j != k ==> !t.Ours(slots[j][0])
  }

  ghost predicate SlotsTrack(t: Target, slots: seq<seq<Bundle>>, s: set<Bundle>)
    requires t.pieces != []
  {
    && SlotsNonEmpty(slots)
    && (if s == {} || s == t.All() then NoSlot(t, slots, 0) else exists k: nat :: OurSlot(t, slots, k, s))
  }

  /** A new piece ends up in our slot, together with those seen before. */
  lemma {:induction false} AddPiece(t: Target, slots: seq<seq<Bundle>>, s: set<Bundle>, p: Bundle)
    requires t.Valid() && SlotsTrack(t, slots, s) && s < t.All() && p in t.pieces && p !in s
    ensures var slots' := AddFragment(slots, p);
            SlotsNonEmpty(slots') && OurSlot(t, slots', FindSlot(slots, p, 0), s + {p})
  {
    PieceKeys(t, p, 0);
    var k := FindSlot(slots, p, 0);
    if s == {} {
      assert k == |slots|;
      assert SlotIs([p], s + {p});
    } else {
      var m: nat :| OurSlot(t, slots, m, s);
      assert slots[m][0] in slots[m];
      PieceKeys(t, slots[m][0], 0);
      assert k == m;
      InsertPiece(t, slots[k], s, p);
      InsertMembers(slots[k], p);
      assert p in InsertByOffset(slots[k], p);
    }
  }

  /** A fragment of another data unit goes into a slot that is not ours. */
  lemma {:induction false} AddOther(t: Target, slots: seq<seq<Bundle>>, s: set<Bundle>, b: Bundle)
    requires t.Valid() && SlotsTrack(t, slots, s) && !t.Ours(b) && s <= t.All()
    requires forall k :: 0 <= k < |slots| ==> forall x :: x in slots[k] ==> MayReassemble(slots[k][0], x)
    ensures var slots', k := AddFragment(slots, b), FindSlot(slots, b, 0);
            SlotsTrack(t, slots', s) && k < |slots'| && !t.Ours(slots'[k][0])
  {
    var slots', k := AddFragment(slots, b), FindSlot(slots, b, 0);
    if k < |slots| {
      InsertMembers(slots[k], b);
      assert b in slots'[k] && slots'[k][0] in slots'[k];
      assert !t.Ours(slots[k][0]);
      assert !t.Ours(slots'[k][0]);
    }
    if s != {} && s != t.All() {
      var m: nat :| OurSlot(t, slots, m, s);
      OurHead(t, slots, m, s);
      assert OurSlot(t, slots', m, s);
    }
  }

  lemma {:induction false} OurHead(t: Target, slots: seq<seq<Bundle>>, m: nat, s: set<Bundle>)
    requires t.Valid() && s <= t.All() && SlotsNonEmpty(slots) && OurSlot(t, slots, m, s)
    ensures t.Ours(slots[m][0])
  {
    assert slots[m][0] in slots[m];
    PieceKeys(t, slots[m][0], 0);
  }

  /** Removing a slot that is not ours. */
  lemma {:induction false} RemoveOther(t: Target, slots: seq<seq<Bundle>>, s: set<Bundle>, k: nat)
    requires t.Valid() && SlotsTrack(t, slots, s) && s <= t.All() && k < |slots| && !t.Ours(slots[k][0])
    ensures SlotsTrack(t, slots[..k] + slots[k + 1..], s)
  {
    var rest := slots[..k] + slots[k + 1..];
    assert forall j :: 0 <= j < |rest| ==> rest[j] == slots[if j < k then j else j + 1];
    if s != {} && s != t.All() {
      var m: nat :| OurSlot(t, slots, m, s);
      OurHead(t, slots, m, s);
      var m': nat := if m < k then m else m - 1;
      assert OurSlot(t, rest, m', s);
    }
  }

  /** Removing our slot leaves none. */
  lemma {:induction false} RemoveOurs(t: Target, slots: seq<seq<Bundle>>, k: nat)
    requires t.Valid() && SlotsNonEmpty(slots) && OurSlot(t, slots, k, t.All())
    ensures SlotsTrack(t, slots[..k] + slots[k + 1..], t.All())
  {
    var rest := slots[..k] + slots[k + 1..];
    assert forall j :: 0 <= j < |rest| ==> rest[j] == slots[if j < k then j else j + 1];
  }

  // ---------------------------------------------------------------- One arrival

  ghost predicate Tracks(t: Target, st: State, s: set<Bundle>)
    requires t.pieces != [] && |t.local| > 0
  {
    s <= t.All() && KnownTracks(t, st.known, s) && SlotsTrack(t, st.slots, s) && SlotsOk(t.local, st.slots)
  }

  /** Traffic of other data units changes nothing for ours. */
  lemma {:induction false} OtherArrives(t: Target, st: State, s: set<Bundle>, b: Bundle, now: nat, memory: seq<Byte>)
    requires t.Valid() && Tracks(t, st, s) && !t.Ours(b) && WellTyped(b) && now <= t.Due()
    ensures Tracks(t, DeliverLocal(st, t.local, now, b, memory), s)
  {
    RecordOther(t, st.known, s, b, now);
    DeliverLocalOk(st, t.local, now, b, memory);
    var (known, list) := Record(st.known, b, now);
    if !known && Deliverable(t.local, b.flags, b.destination) && IsFragment(b) {
      forall k | 0 <= k < |st.slots| ensures forall x :: x in st.slots[k] ==> MayReassemble(st.slots[k][0], x) {
        assert SlotOk(t.local, st.slots[k]);
      }
      AddOther(t, st.slots, s, b);
      var slots, k := AddFragment(st.slots, b), FindSlot(st.slots, b, 0);
      var first := slots[k][0];
      KnownOther(t, list, s, Entry(Key(first, true), Deadline(first, now)));
      RemoveOther(t, slots, s, k);
    }
  }

  /** What the arrival of a piece must lead to: a delivery if and only if it is the last one missing. */
  ghost predicate RightOutcome(t: Target, st: State, s: set<Bundle>, p: Bundle, st': State)
    requires t.pieces != []
  {
    && st'.usedAfterDiscard == st.usedAfterDiscard
    && st'.delivered == if p !in s && s + {p} == t.All() then st.delivered + [AduOf(t.Head(), t.adu)] else st.delivered
  }

  lemma {:induction false} PieceArrives(t: Target, st: State, s: set<Bundle>, p: Bundle, now: nat, memory: seq<Byte>)
    requires t.Valid() && Tracks(t, st, s) && p in t.pieces && now <= t.Due()
    ensures WellTyped(p) && Tracks(t, DeliverLocal(st, t.local, now, p, memory), s + {p})
    ensures RightOutcome(t, st, s, p, DeliverLocal(st, t.local, now, p, memory))
  {
    PieceKeys(t, p, now);
    RecordPiece(t, st.known, s, p, now);
    DeliverLocalOk(st, t.local, now, p, memory);
    var (known, list) := Record(st.known, p, now);
    if known {
      assert s + {p} == s;
    } else {
      HasKeyIsHas(list, Key(p, true));
      AddPiece(t, st.slots, s, p);
      NewPiece(t, st.(known := list), s, p, now, memory);
    }
  }

  lemma {:induction false} NewPiece(t: Target, st: State, s: set<Bundle>, p: Bundle, now: nat, memory: seq<Byte>)
    requires t.Valid() && s < t.All() && p in t.pieces && p !in s && KnownTracks(t, st.known, s + {p})
    requires WellTyped(p) && Deliverable(t.local, p.flags, p.destination) && SlotsOk(t.local, st.slots)
    requires !HasKey(st.known, Key(p, true)) && SlotsNonEmpty(st.slots)
    requires SlotsNonEmpty(AddFragment(st.slots, p)) && OurSlot(t, AddFragment(st.slots, p), FindSlot(st.slots, p, 0), s + {p})
    ensures var st' := AttemptReassembly(st, t.local, now, p, memory);
            KnownTracks(t, st'.known, s + {p}) && SlotsTrack(t, st'.slots, s + {p}) && RightOutcome(t, st, s, p, st')
  {
    var slots, k := AddFragment(st.slots, p), FindSlot(st.slots, p, 0);
    AddFragmentOk(t.local, st.slots, p);
    CompleteIffAll(t, slots[k], s + {p});
    if s + {p} == t.All() {
      PieceKeys(t, t.Head(), now);
      SlotShape(t, slots[k], t.All());
      ReassemblySound(slots[k], t.adu, Buffer(memory, |t.adu|));
      RemoveOurs(t, slots, k);
      ParentTracks(t, st.known);
    }
  }

  // ---------------------------------------------------------------- Whole runs

  /** An arrival at the local node; `memory` is what the allocator's memory holds if a buffer is needed. */
  datatype Event = Event(now: nat, bundle: Bundle, memory: seq<Byte>)

  ghost predicate AllTyped(events: seq<Event>) {
    forall i :: 0 <= i < |events| ==> WellTyped(events[i].bundle)
  }

  /** The state of a node, started empty, after a sequence of arrivals. */
  ghost function Run(local: string, events: seq<Event>): (st: State)
    requires |local| > 0 && AllTyped(events)
    ensures SlotsOk(local, st.slots) && SortedByDeadline(st.known)
  {
    if events == [] then State([], [], [], false)
    else
      var last, before := events[|events| - 1], Run(local, events[..|events| - 1]);
      DeliverLocalOk(before, local, last.now, last.bundle, last.memory);
      DeliverLocal(before, local, last.now, last.bundle, last.memory)
  }

  /** Any mixture of our pieces, in any order and number, and of bundles of other data units, none of it after our deadline. */
  ghost predicate Traffic(t: Target, events: seq<Event>)
    requires t.pieces != []
  {
    AllTyped(events)
    && forall i :: 0 <= i < |events| ==>
         events[i].now <= t.Due() && (events[i].bundle in t.pieces || !t.Ours(events[i].bundle))
  }

  ghost function Seen(t: Target, events: seq<Event>): set<Bundle> {
    set e | e in events && e.bundle in t.pieces :: e.bundle
  }

  lemma {:induction false} SeenStep(t: Target, events: seq<Event>)
    requires events != []
    ensures var n := |events| - 1;
            Seen(t, events) == Seen(t, events[..n]) + if events[n].bundle in t.pieces then {events[n].bundle} else {}
  {
    var n := |events| - 1;
    assert events == events[..n] + [events[n]];
  }

  lemma {:induction false} RunTracks(t: Target, events: seq<Event>)
    requires t.Valid() && Traffic(t, events)
    ensures Tracks(t, Run(t.local, events), Seen(t, events))
  {
    if events != [] {
      var n := |events| - 1;
      var before := events[..n];
      RunTracks(t, before);
      SeenStep(t, events);
      var st, last := Run(t.local, before), events[n];
      if last.bundle in t.pieces {
        PieceArrives(t, st, Seen(t, before), last.bundle, last.now, last.memory);
      } else {
        OtherArrives(t, st, Seen(t, before), last.bundle, last.now, last.memory);
        assert Seen(t, events) == Seen(t, before);
      }
    } else {
      assert Seen(t, events) == {};
    }
  }

  /** In every run the arrival of a piece leads to a delivery of the whole data unit exactly if it is the last one missing. */
  lemma {:induction false} LastPieceDelivers(t: Target, events: seq<Event>)
    requires t.Valid() && Traffic(t, events) && events != [] && events[|events| - 1].bundle in t.pieces
    ensures var n := |events| - 1;
            RightOutcome(t, Run(t.local, events[..n]), Seen(t, events[..n]), events[n].bundle, Run(t.local, events))
  {
    var n := |events| - 1;
    RunTracks(t, events[..n]);
    PieceArrives(t, Run(t.local, events[..n]), Seen(t, events[..n]), events[n].bundle, events[n].now, events[n].memory);
  }

  /** What arrival `n` adds to the deliveries: `adu` if it is the last piece missing, else nothing. */
  ghost predicate DeliversAt(t: Target, events: seq<Event>, n: nat, adu: Adu)
    requires |t.local| > 0 && AllTyped(events) && n < |events|
  {
    var before, after, p := events[..n], events[..n + 1], events[n].bundle;
    Run(t.local, after).delivered ==
      Run(t.local, before).delivered + if p !in Seen(t, before) && Seen(t, before) + {p} == t.All() then [adu] else []
  }

  /** Every arrival of a piece, within any run. */
  lemma {:induction false} EveryPieceDelivers(t: Target, events: seq<Event>, n: nat)
    requires t.Valid() && Traffic(t, events) && n < |events| && events[n].bundle in t.pieces
    ensures DeliversAt(t, events, n, AduOf(t.Head(), t.adu))
  {
    var after := events[..n + 1];
    assert after[..n] == events[..n] && after[n] == events[n];
    LastPieceDelivers(t, after);
  }

  /** How many arrivals of our pieces led to a delivery. */
  ghost function Deliveries(t: Target, events: seq<Event>): nat
    requires |t.local| > 0 && AllTyped(events)
  {
    if events == [] then 0
    else
      var n := |events| - 1;
      Deliveries(t, events[..n])
      + if events[n].bundle in t.pieces && Run(t.local, events).delivered != Run(t.local, events[..n]).delivered then 1 else 0
  }

  /** Exactly once if all pieces arrived, never otherwise. */
  lemma {:induction false} ExactlyOnce(t: Target, events: seq<Event>)
    requires t.Valid() && Traffic(t, events)
    ensures Deliveries(t, events) == if Seen(t, events) == t.All() then 1 else 0
  {
    if events == [] {
      assert t.Head() in t.All() && Seen(t, events) == {};
    } else {
      var n := |events| - 1;
      ExactlyOnce(t, events[..n]);
      RunTracks(t, events[..n]);
      SeenStep(t, events);
      if events[n].bundle in t.pieces {
        LastPieceDelivers(t, events);
        if events[n].bundle in Seen(t, events[..n]) { assert Seen(t, events) == Seen(t, events[..n]); }
      } else {
        assert Seen(t, events) == Seen(t, events[..n]);
      }
    }
  }
}
