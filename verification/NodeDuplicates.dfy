/** Which arrivals a node takes as new, over whole runs in which fragments are reassembled. */
module NodeDuplicates {
  import opened Wrappers
  import opened Bundles
  import opened KnownBundleList
  import opened Reassembly
  import opened Processor
  import opened Delivery
  import DuplicateSuppression

  /** The first fragment of the data unit, if the arrival of `b` completes it. */
  function Completed(st: State, local: string, now: nat, b: Bundle): Option<Bundle>
    requires |local| > 0 && SlotsOk(local, st.slots) && WellTyped(b)
  {
    if Record(st.known, b, now).0 || !Deliverable(local, b.flags, b.destination) || !IsFragment(b) then None
    else
      AddFragmentOk(local, st.slots, b);
      var slots, k := AddFragment(st.slots, b), FindSlot(st.slots, b, 0);
      assert SlotOk(local, slots[k]);
      SlotSized(local, slots[k]);
      if Complete(slots[k], 0) then Some(slots[k][0]) else None
  }

  /** What an arrival writes into the known list. */
  function Notes(st: State, local: string, now: nat, b: Bundle): seq<DuplicateSuppression.Note>
    requires |local| > 0 && SlotsOk(local, st.slots) && WellTyped(b)
  {
    var arrival := DuplicateSuppression.ArrivalOf(b, now);
    match Completed(st, local, now, b)
    case None => [arrival]
    case Some(first) => [arrival, DuplicateSuppression.ReassemblyOf(first, now)]
  }

  lemma {:induction false} KnownIsNoted(st: State, local: string, now: nat, b: Bundle, memory: seq<Byte>)
    requires |local| > 0 && SlotsOk(local, st.slots) && WellTyped(b)
    ensures var list := Record(st.known, b, now).1;
            DeliverLocal(st, local, now, b, memory).known ==
              match Completed(st, local, now, b)
              case None => list
              case Some(first) => Insert(list, Entry(Key(first, true), Deadline(first, now)))
  {
  }

  /** All that a run writes into the list. */
  ghost function History(local: string, events: seq<Event>): seq<DuplicateSuppression.Note>
    requires |local| > 0 && AllTyped(events)
  {
    if events == [] then []
    else
      var n := |events| - 1;
      History(local, events[..n]) + Notes(Run(local, events[..n]), local, events[n].now, events[n].bundle)
  }

  lemma {:induction false} ListOne(run: seq<DuplicateSuppression.Note>, a: DuplicateSuppression.Note)
    ensures DuplicateSuppression.ListAfter(run + [a]) == DuplicateSuppression.Noted(DuplicateSuppression.ListAfter(run), a)
  {
    assert (run + [a])[..|run|] == run;
  }

  /** The known list of a node is what its run has written. */
  lemma {:induction false} KnownIsHistory(local: string, events: seq<Event>)
    requires |local| > 0 && AllTyped(events)
    ensures Run(local, events).known == DuplicateSuppression.ListAfter(History(local, events))
  {
    if events != [] {
      var n := |events| - 1;
      var st, e := Run(local, events[..n]), events[n];
      KnownIsHistory(local, events[..n]);
      StepIsNoted(st, local, e.now, e.bundle, e.memory, History(local, events[..n]));
    }
  }

  lemma {:induction false} StepIsNoted(st: State, local: string, now: nat, b: Bundle, memory: seq<Byte>, before: seq<DuplicateSuppression.Note>)
    requires |local| > 0 && SlotsOk(local, st.slots) && WellTyped(b) && st.known == DuplicateSuppression.ListAfter(before)
    ensures DeliverLocal(st, local, now, b, memory).known == DuplicateSuppression.ListAfter(before + Notes(st, local, now, b))
  {
    var arrival := DuplicateSuppression.ArrivalOf(b, now);
    KnownIsNoted(st, local, now, b, memory);
    ListOne(before, arrival);
    match Completed(st, local, now, b)
    case None =>
    case Some(first) =>
      ListOne(before + [arrival], DuplicateSuppression.ReassemblyOf(first, now));
      assert before + [arrival] + [DuplicateSuppression.ReassemblyOf(first, now)] == before + Notes(st, local, now, b);
  }

  // ---------------------------------------------------------------- Regular traffic

  predicate SameUnit(b: Bundle, c: Bundle) {
    b.version == c.version && b.source == c.source && b.creation == c.creation && b.sequence == c.sequence
  }

  /**
   The clock never runs backwards, bundles have a creation time, and bundles with the same source and time stamps have
   the same lifetime.
   */
  ghost predicate Regular(events: seq<Event>) {
    && (forall i, j :: 0 <= i < j < |events| ==> events[i].now <= events[j].now)
    && (forall i :: 0 <= i < |events| ==> events[i].bundle.creation != 0)
    && (forall i, j :: 0 <= i < |events| && 0 <= j < |events| && SameUnit(events[i].bundle, events[j].bundle)
          ==> events[i].bundle.lifetime == events[j].bundle.lifetime)
  }

  lemma {:induction false} RegularPrefix(events: seq<Event>, n: nat)
    requires Regular(events) && n <= |events|
    ensures Regular(events[..n])
  {
    assert forall i :: 0 <= i < n ==> events[..n][i] == events[i];
  }

  ghost predicate Came(events: seq<Event>, b: Bundle) { exists i :: 0 <= i < |events| && events[i].bundle == b }

  ghost predicate SlotsCame(events: seq<Event>, slots: seq<seq<Bundle>>) {
    forall k :: 0 <= k < |slots| ==> forall x :: x in slots[k] ==> Came(events, x)
  }

  lemma {:induction false} CameLater(events: seq<Event>, n: nat, slots: seq<seq<Bundle>>)
    requires n <= |events| && SlotsCame(events[..n], slots)
    ensures SlotsCame(events, slots)
  {
    forall k, x | 0 <= k < |slots| && x in slots[k] ensures Came(events, x) {
      var i :| 0 <= i < n && events[..n][i].bundle == x;
      assert events[i].bundle == x;
    }
  }

  lemma {:induction false} AddedCame(events: seq<Event>, slots: seq<seq<Bundle>>, b: Bundle)
    requires SlotsCame(events, slots) && Came(events, b) && (forall i :: 0 <= i < |slots| ==> slots[i] != [])
    ensures SlotsCame(events, AddFragment(slots, b))
  {
    var k := FindSlot(slots, b, 0);
    if k < |slots| { InsertMembers(slots[k], b); }
  }

  lemma {:induction false} RemovedCame(events: seq<Event>, slots: seq<seq<Bundle>>, k: nat)
    requires SlotsCame(events, slots) && k < |slots|
    ensures SlotsCame(events, slots[..k] + slots[k + 1..])
  {
    var rest := slots[..k] + slots[k + 1..];
    assert forall j :: 0 <= j < |rest| ==> rest[j] == slots[if j < k then j else j + 1];
  }

  lemma {:induction false} StepCame(events: seq<Event>, st: State, local: string, now: nat, b: Bundle, memory: seq<Byte>)
    requires |local| > 0 && SlotsOk(local, st.slots) && WellTyped(b) && SlotsCame(events, st.slots) && Came(events, b)
    ensures SlotsCame(events, DeliverLocal(st, local, now, b, memory).slots)
    ensures Completed(st, local, now, b).Some? ==> Came(events, Completed(st, local, now, b).value)
  {
    if !Record(st.known, b, now).0 && Deliverable(local, b.flags, b.destination) && IsFragment(b) {
      AddFragmentOk(local, st.slots, b);
      var slots, k := AddFragment(st.slots, b), FindSlot(st.slots, b, 0);
      AddedCame(events, st.slots, b);
      assert SlotOk(local, slots[k]) && slots[k][0] in slots[k];
      RemovedCame(events, slots, k);
    }
  }

  /** Only bundles that have arrived are in the slots. */
  lemma {:induction false} AllCame(local: string, events: seq<Event>)
    requires |local| > 0 && AllTyped(events)
    ensures SlotsCame(events, Run(local, events).slots)
  {
    if events != [] {
      var n := |events| - 1;
      var st := Run(local, events[..n]);
      AllCame(local, events[..n]);
      CameLater(events, n, st.slots);
      assert Came(events, events[n].bundle);
      StepCame(events, st, local, events[n].now, events[n].bundle, events[n].memory);
    }
  }

  /** A note about a bundle that has arrived, at the time of an event. */
  ghost predicate NoteOk(events: seq<Event>, a: DuplicateSuppression.Note) {
    exists b :: Came(events, b) && (a == DuplicateSuppression.ArrivalOf(b, a.now) || a == DuplicateSuppression.ReassemblyOf(b, a.now))
  }

  ghost predicate NotesOk(events: seq<Event>, run: seq<DuplicateSuppression.Note>, now: nat) {
    && (forall k :: 0 <= k < |run| ==> NoteOk(events, run[k]) && run[k].now <= now)
    && (forall i, j :: 0 <= i < j < |run| ==> run[i].now <= run[j].now)
  }

  lemma {:induction false} NoteLater(events: seq<Event>, n: nat, a: DuplicateSuppression.Note)
    requires n <= |events| && NoteOk(events[..n], a)
    ensures NoteOk(events, a)
  {
    var b :| Came(events[..n], b) && (a == DuplicateSuppression.ArrivalOf(b, a.now) || a == DuplicateSuppression.ReassemblyOf(b, a.now));
    var i :| 0 <= i < n && events[..n][i].bundle == b;
    assert events[i].bundle == b;
  }

  lemma {:induction false} NotesAppend(events: seq<Event>, run: seq<DuplicateSuppression.Note>, now: nat, a: DuplicateSuppression.Note)
    requires NotesOk(events, run, now) && NoteOk(events, a) && now == a.now
    ensures NotesOk(events, run + [a], now)
  {
  }

  lemma {:induction false} HistoryOk(local: string, events: seq<Event>)
    requires |local| > 0 && AllTyped(events) && Regular(events)
    ensures NotesOk(events, History(local, events), if events == [] then 0 else events[|events| - 1].now)
  {
    if events != [] {
      var n := |events| - 1;
      var st, e, run := Run(local, events[..n]), events[n], History(local, events[..n]);
      RegularPrefix(events, n);
      HistoryOk(local, events[..n]);
      forall k | 0 <= k < |run| ensures NoteOk(events, run[k]) { NoteLater(events, n, run[k]); }
      AllCame(local, events[..n]);
      CameLater(events, n, st.slots);
      assert Came(events, e.bundle);
      StepCame(events, st, local, e.now, e.bundle, e.memory);
      StepNotesOk(events, run, st, local, e.now, e.bundle);
    }
  }

  lemma {:induction false} StepNotesOk(events: seq<Event>, run: seq<DuplicateSuppression.Note>, st: State, local: string, now: nat, b: Bundle)
    requires |local| > 0 && SlotsOk(local, st.slots) && WellTyped(b) && NotesOk(events, run, now) && Came(events, b)
    requires Completed(st, local, now, b).Some? ==> Came(events, Completed(st, local, now, b).value)
    ensures NotesOk(events, run + Notes(st, local, now, b), now)
  {
    var arrival := DuplicateSuppression.ArrivalOf(b, now);
    NotesAppend(events, run, now, arrival);
    match Completed(st, local, now, b)
    case None =>
    case Some(first) =>
      var reassembly := DuplicateSuppression.ReassemblyOf(first, now);
      NotesAppend(events, run + [arrival], now, reassembly);
      assert run + [arrival] + [reassembly] == run + Notes(st, local, now, b);
  }

  lemma {:induction false} HistoryRegular(local: string, events: seq<Event>)
    requires |local| > 0 && AllTyped(events) && Regular(events)
    ensures DuplicateSuppression.Regular(History(local, events))
  {
    var run := History(local, events);
    HistoryOk(local, events);
    forall i, j | 0 <= i < |run| && 0 <= j < |run| && run[i].entry.id == run[j].entry.id ensures run[i].entry == run[j].entry {
      NotesAgree(events, run[i], run[j]);
    }
  }

  lemma {:induction false} NotesAgree(events: seq<Event>, a: DuplicateSuppression.Note, c: DuplicateSuppression.Note)
    requires Regular(events) && NoteOk(events, a) && NoteOk(events, c) && a.entry.id == c.entry.id
    ensures a.entry == c.entry
  {
    var x :| Came(events, x) && (a == DuplicateSuppression.ArrivalOf(x, a.now) || a == DuplicateSuppression.ReassemblyOf(x, a.now));
    var y :| Came(events, y) && (c == DuplicateSuppression.ArrivalOf(y, c.now) || c == DuplicateSuppression.ReassemblyOf(y, c.now));
    LifetimesAgree(events, x, y);
    DeadlinesAgree(x, a.now, y, c.now);
  }

  lemma {:induction false} LifetimesAgree(events: seq<Event>, x: Bundle, y: Bundle)
    requires Regular(events) && Came(events, x) && Came(events, y) && SameUnit(x, y)
    ensures x.creation != 0 && x.lifetime == y.lifetime
  {
    var i :| 0 <= i < |events| && events[i].bundle == x;
    var j :| 0 <= j < |events| && events[j].bundle == y;
    assert SameUnit(events[i].bundle, events[j].bundle);
  }

  lemma {:induction false} DeadlinesAgree(x: Bundle, t: nat, y: Bundle, u: nat)
    requires x.creation == y.creation != 0 && x.lifetime == y.lifetime
    ensures Deadline(x, t) == Deadline(y, u)
  {
  }

  // ---------------------------------------------------------------- What is taken as new

  /** The identity has arrived in the run. */
  ghost predicate Arrived(events: seq<Event>, id: Identity) {
    exists i :: 0 <= i < |events| && Key(events[i].bundle, false) == id
  }

  /** A data unit of this identity has been reassembled in the run. */
  ghost predicate ReassembledIn(local: string, events: seq<Event>, id: Identity)
    requires |local| > 0 && AllTyped(events)
  {
    events != []
    && var n := |events| - 1;
       var first := Completed(Run(local, events[..n]), local, events[n].now, events[n].bundle);
       ReassembledIn(local, events[..n], id) || (first.Some? && Key(first.value, true) == id)
  }

  ghost predicate HasNote(run: seq<DuplicateSuppression.Note>, id: Identity) { exists k :: 0 <= k < |run| && run[k].entry.id == id }

  /** The identities noted in a run are those that have arrived and those that have been reassembled. */
  lemma {:induction false} NotedIff(local: string, events: seq<Event>, id: Identity)
    requires |local| > 0 && AllTyped(events)
    ensures HasNote(History(local, events), id) <==> Arrived(events, id) || ReassembledIn(local, events, id)
  {
    if events != [] {
      var n := |events| - 1;
      NotedIff(local, events[..n], id);
      ArrivedStep(events, n, id);
      NotesOf(Run(local, events[..n]), local, events[n].now, events[n].bundle, id);
      NotedInEither(History(local, events[..n]), Notes(Run(local, events[..n]), local, events[n].now, events[n].bundle), id);
    }
  }

  lemma {:induction false} NotesOf(st: State, local: string, now: nat, b: Bundle, id: Identity)
    requires |local| > 0 && SlotsOk(local, st.slots) && WellTyped(b)
    ensures var first := Completed(st, local, now, b);
            HasNote(Notes(st, local, now, b), id) <==> Key(b, false) == id || (first.Some? && Key(first.value, true) == id)
  {
    var notes := Notes(st, local, now, b);
    assert notes[0].entry.id == Key(b, false);
    assert |notes| == 2 ==> notes[1].entry.id == Key(Completed(st, local, now, b).value, true);
  }

  lemma {:induction false} NotedInEither(a: seq<DuplicateSuppression.Note>, b: seq<DuplicateSuppression.Note>, id: Identity)
    ensures HasNote(a + b, id) <==> HasNote(a, id) || HasNote(b, id)
  {
    if k :| 0 <= k < |a| && a[k].entry.id == id { assert (a + b)[k].entry.id == id; }
    if k :| 0 <= k < |b| && b[k].entry.id == id { assert (a + b)[|a| + k].entry.id == id; }
  }

  lemma {:induction false} ArrivedStep(events: seq<Event>, n: nat, id: Identity)
    requires |events| == n + 1
    ensures Arrived(events, id) <==> Arrived(events[..n], id) || Key(events[n].bundle, false) == id
  {
    if i :| 0 <= i < n && Key(events[..n][i].bundle, false) == id { assert Key(events[i].bundle, false) == id; }
    if i :| 0 <= i < n && Key(events[i].bundle, false) == id { assert Key(events[..n][i].bundle, false) == id; }
  }

  /**
   In every run of a node an arriving bundle is taken as new if and only if it is in time and its identity has neither
   arrived nor been reassembled before.
   */
  lemma {:induction false} TakenAsNewIff(local: string, events: seq<Event>, b: Bundle, now: nat, memory: seq<Byte>)
    requires |local| > 0 && AllTyped(events) && WellTyped(b) && Regular(events + [Event(now, b, memory)])
    ensures !Record(Run(local, events).known, b, now).0
            <==> now <= Deadline(b, now) && !Arrived(events, Key(b, false)) && !ReassembledIn(local, events, Key(b, false))
  {
    var all, n := events + [Event(now, b, memory)], |events|;
    assert all[..n] == events;
    HistoryRegular(local, all);
    var before, arrival := History(local, events), DuplicateSuppression.ArrivalOf(b, now);
    FirstNoteRegular(History(local, all), before, arrival, Notes(Run(local, events), local, now, b));
    KnownIsHistory(local, events);
    NotedIff(local, events, Key(b, false));
    FirstIsNew(before, arrival);
  }

  lemma {:induction false} FirstNoteRegular(run: seq<DuplicateSuppression.Note>, before: seq<DuplicateSuppression.Note>, a: DuplicateSuppression.Note, notes: seq<DuplicateSuppression.Note>)
    requires DuplicateSuppression.Regular(run) && notes != [] && notes[0] == a && run == before + notes
    ensures DuplicateSuppression.Regular(before + [a])
  {
    DuplicateSuppression.RegularPrefix(run, |before| + 1);
    assert run[..|before| + 1] == before + [a];
  }

  lemma {:induction false} FirstIsNew(before: seq<DuplicateSuppression.Note>, a: DuplicateSuppression.Note)
    requires a.Arrival? && DuplicateSuppression.Regular(before + [a])
    ensures !RecordKey(DuplicateSuppression.ListAfter(before), a.entry, a.now).0 <==> a.now <= a.entry.deadline && !HasNote(before, a.entry.id)
  {
    var run := before + [a];
    assert run[..|before|] == before;
    DuplicateSuppression.AcceptedIsFirst(run);
    assert forall k :: 0 <= k < |before| ==> run[k] == before[k];
  }

  /** So no two bundles of the same identity are taken as new. */
  lemma {:induction false} NodeTakesOnce(local: string, events: seq<Event>, i: nat, j: nat)
    requires |local| > 0 && AllTyped(events) && Regular(events) && i < j < |events|
    requires Key(events[i].bundle, false) == Key(events[j].bundle, false)
    ensures Record(Run(local, events[..j]).known, events[j].bundle, events[j].now).0
  {
    var e := events[j];
    assert events[..j] + [Event(e.now, e.bundle, e.memory)] == events[..j + 1];
    RegularPrefix(events, j + 1);
    assert events[..j][i] == events[i];
    TakenAsNewIff(local, events[..j], e.bundle, e.now, e.memory);
  }
}
