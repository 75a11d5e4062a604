/** What the known-bundle list achieves over a whole run of arrivals and reassemblies. */
module DuplicateSuppression {
  import opened Bundles
  import opened KnownBundleList

  /** What is written into the list: an arriving bundle is recorded, or a data unit that has just been reassembled. */
  datatype Note =
    | Arrival(now: nat, entry: Entry)
    | Reassembly(now: nat, entry: Entry)

  function ArrivalOf(b: Bundle, now: nat): Note {
    Arrival(now, Entry(Key(b, false), Deadline(b, now)))
  }

  function ReassemblyOf(b: Bundle, now: nat): Note {
    Reassembly(now, Entry(Key(b, true), Deadline(b, now)))
  }

  /** A reassembled data unit is added without removing expired entries first. */
  function Noted(s: seq<Entry>, a: Note): seq<Entry> {
    match a
    case Arrival(now, entry) => RecordKey(s, entry, now).1
    case Reassembly(now, entry) => Insert(s, entry)
  }

  /** The list after a run, starting from an empty one. */
  ghost function ListAfter(run: seq<Note>): seq<Entry> {
    if run == [] then [] else Noted(ListAfter(run[..|run| - 1]), run[|run| - 1])
  }

  /** Whether the last arrival of a run is taken as a new bundle. */
  ghost predicate Accepted(run: seq<Note>)
    requires run != []
  {
    var last := run[|run| - 1];
    last.Arrival? && !RecordKey(ListAfter(run[..|run| - 1]), last.entry, last.now).0
  }

  /** The clock never runs backwards and an identity fixes its deadline. */
  ghost predicate Regular(run: seq<Note>) {
    && (forall i, j :: 0 <= i < j < |run| ==> run[i].now <= run[j].now)
    && (forall i, j :: 0 <= i < |run| && 0 <= j < |run| && run[i].entry.id == run[j].entry.id
          ==> run[i].entry == run[j].entry)
  }

  ghost function Seen(run: seq<Note>): set<Entry> {
    set a | a in run :: a.entry
  }

  ghost predicate KeysFixed(seen: set<Entry>) {
    forall e, f :: e in seen && f in seen && e.id == f.id ==> e == f
  }

  /** The list holds seen entries only, among them all that could still be repeated in time. */
  ghost predicate Remembers(seen: set<Entry>, now: nat, s: seq<Entry>) {
    && SortedByDeadline(s)
    && (forall e :: e in s ==> e in seen)
    && (forall e :: e in seen && now <= e.deadline ==> e in s)
  }

  lemma {:induction false} RegularPrefix(run: seq<Note>, n: nat)
    requires Regular(run) && n <= |run|
    ensures Regular(run[..n])
  {
    assert forall i :: 0 <= i < n ==> run[..n][i] == run[i];
  }

  lemma {:induction false} SeenPrefix(run: seq<Note>)
    requires run != [] && Regular(run)
    ensures Seen(run) == Seen(run[..|run| - 1]) + {run[|run| - 1].entry} && KeysFixed(Seen(run))
  {
    assert run == run[..|run| - 1] + [run[|run| - 1]];
  }

  /** What one more arrival does to a list that remembers what was noted before. */
  lemma {:induction false} OneMore(seen: set<Entry>, before: nat, s: seq<Entry>, e: Entry, now: nat)
    requires Remembers(seen, before, s) && KeysFixed(seen + {e}) && before <= now
    ensures Remembers(seen + {e}, now, RecordKey(s, e, now).1)
    ensures RecordKey(s, e, now).0 <==> e.deadline < now || e in seen
  {
    var live := Unexpired(s, now);
    ExpiryExact(s, now);
    EarlyExitExact(live, e.id, e.deadline);
    InsertSorted(live, e);
    if Has(live, e.id) {
      var f :| f in live && f.id == e.id;
      assert f == e;
    }
  }

  /** What one more reassembly does. */
  lemma {:induction false} OneParent(seen: set<Entry>, before: nat, s: seq<Entry>, e: Entry, now: nat)
    requires Remembers(seen, before, s) && KeysFixed(seen + {e}) && before <= now
    ensures Remembers(seen + {e}, now, Insert(s, e))
  {
    InsertSorted(s, e);
    var f :| f in Insert(s, e) && f.id == e.id;
    assert f == e;
  }

  lemma {:induction false} AlwaysRemembers(run: seq<Note>)
    requires Regular(run)
    ensures Remembers(Seen(run), if run == [] then 0 else run[|run| - 1].now, ListAfter(run))
  {
    if run != [] {
      var n := |run| - 1;
      RegularPrefix(run, n);
      AlwaysRemembers(run[..n]);
      SeenPrefix(run);
      var before, s := if n == 0 then 0 else run[n - 1].now, ListAfter(run[..n]);
      if run[n].Arrival? { OneMore(Seen(run[..n]), before, s, run[n].entry, run[n].now); }
      else { OneParent(Seen(run[..n]), before, s, run[n].entry, run[n].now); }
    }
  }

  /**
   An arrival is taken as new exactly when it is in time and its identity has neither arrived nor been reassembled
   before.
   */
  lemma {:induction false} AcceptedIsFirst(run: seq<Note>)
    requires run != [] && Regular(run) && run[|run| - 1].Arrival?
    ensures var n := |run| - 1;
            Accepted(run) <==>
              run[n].now <= run[n].entry.deadline && forall i :: 0 <= i < n ==> run[i].entry.id != run[n].entry.id
  {
    var n := |run| - 1;
    RegularPrefix(run, n);
    AlwaysRemembers(run[..n]);
    SeenPrefix(run);
    OneMore(Seen(run[..n]), if n == 0 then 0 else run[n - 1].now, ListAfter(run[..n]), run[n].entry, run[n].now);
    forall i | 0 <= i < n && run[i].entry.id == run[n].entry.id ensures run[n].entry in Seen(run[..n]) {
      assert run[..n][i] in run[..n];
    }
    if run[n].entry in Seen(run[..n]) {
      var a :| a in run[..n] && a.entry == run[n].entry;
    }
  }

  /** Over a whole run, no identity is taken as new after it has arrived or been reassembled. */
  lemma {:induction false} AtMostOnce(run: seq<Note>, i: nat, j: nat)
    requires Regular(run) && i < j < |run| && Accepted(run[..j + 1])
    ensures run[i].entry.id != run[j].entry.id
  {
    RegularPrefix(run, j + 1);
    AcceptedIsFirst(run[..j + 1]);
    assert run[..j + 1][i] == run[i];
  }

  /** Bundles with a creation time get the same deadline whenever they arrive, so they meet the second condition. */
  lemma {:induction false} DeadlineFixed(b: Bundle, c: Bundle, t: nat, u: nat)
    requires b.creation != 0 && Key(b, false) == Key(c, false) && b.lifetime == c.lifetime
    ensures ArrivalOf(b, t).entry == ArrivalOf(c, u).entry
  {
  }
}
