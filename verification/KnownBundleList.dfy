/**
 The list of bundles that were already delivered: a linked list kept in deadline order, from
 whose head expired entries are popped.
 */
module KnownBundleList {
  import opened Bundles

  /** `struct bundle_unique_identifier` */
  datatype Identity = Identity(version: nat, source: string, creation: nat, sequence: nat, offset: nat, length: nat)

  datatype Entry = Entry(id: Identity, deadline: nat)

  /** The identity under which a bundle, or the bundle that its fragment belongs to, is recorded. */
  function Key(b: Bundle, asParent: bool): Identity {
    if asParent then Identity(b.version, b.source, b.creation, b.sequence, 0, b.total)
    else Identity(b.version, b.source, b.creation, b.sequence, b.offset, |Payload(b)|)
  }

  ghost predicate SortedByDeadline(s: seq<Entry>) {
    forall i, j :: 0 <= i < j < |s| ==> s[i].deadline <= s[j].deadline
  }

  ghost predicate Has(s: seq<Entry>, key: Identity) { exists e :: e in s && e.id == key }

  /** What one pass over the list finds: the index of a match, or where a new entry belongs. */
  datatype Hit = Match | InsertAt(pos: nat)

  function Scan(s: seq<Entry>, key: Identity, deadline: nat, pos: nat): (hit: Hit)
    requires pos <= |s|
    ensures hit.InsertAt? ==> pos <= hit.pos <= |s|
    decreases |s| - pos
  {
    if pos == |s| then InsertAt(pos)
    else if s[pos].id == key then Match
    else if deadline < s[pos].deadline then InsertAt(pos)
    else Scan(s, key, deadline, pos + 1)
  }

  function Insert(s: seq<Entry>, e: Entry): seq<Entry> {
    match Scan(s, e.id, e.deadline, 0)
    case Match => s
    case InsertAt(pos) => s[..pos] + [e] + s[pos..]
  }

  /** The entries left after popping expired ones from the head. */
  function Unexpired(s: seq<Entry>, now: nat): seq<Entry> {
    if s != [] && s[0].deadline < now then Unexpired(s[1..], now) else s
  }

  /** Whether an identity is known, or its deadline passed, and the list after recording it. */
  function RecordKey(s: seq<Entry>, e: Entry, now: nat): (bool, seq<Entry>) {
    var live := Unexpired(s, now);
    if e.deadline < now then (true, live)
    else if Scan(live, e.id, e.deadline, 0).Match? then (true, live)
    else (false, Insert(live, e))
  }

  /** `bundle_record_add_and_check_known` */
  function Record(s: seq<Entry>, b: Bundle, now: nat): (bool, seq<Entry>) {
    RecordKey(s, Entry(Key(b, false), Deadline(b, now)), now)
  }

  class List {
    var entries: seq<Entry>

    constructor ()
      ensures entries == []
    {
      entries := [];
    }

    /** `known_bundle_list_remove_before` */
    method RemoveBefore(now: nat)
      modifies this
      ensures entries == Unexpired(old(entries), now)
    {
      while entries != [] && entries[0].deadline < now
        invariant Unexpired(entries, now) == Unexpired(old(entries), now)
        decreases |entries|
      {
        entries := entries[1..];
      }
    }

    /** `add_if_not_exists` */
    method AddIfNotExists(b: Bundle, asParent: bool, now: nat) returns (known: bool)
      modifies this
      ensures known <==> Scan(old(entries), Key(b, asParent), Deadline(b, now), 0).Match?
      ensures entries == Insert(old(entries), Entry(Key(b, asParent), Deadline(b, now)))
    {
      var deadline := Deadline(b, now);
      var i := 0;
      while i < |entries|
        invariant i <= |entries| && entries == old(entries)
        invariant Scan(entries, Key(b, asParent), deadline, 0) == Scan(entries, Key(b, asParent), deadline, i)
      {
        if entries[i].id == Key(b, asParent) {
          return true;
        } else if deadline < entries[i].deadline {
          break;
        }
        i := i + 1;
      }
      entries := entries[..i] + [Entry(Key(b, asParent), deadline)] + entries[i..];
      return false;
    }

    /** `known_bundle_list_contains_reassembled_parent`: a full pass, without early exit. */
    method ContainsReassembledParent(b: Bundle) returns (known: bool)
      ensures known <==> Has(entries, Key(b, true))
    {
      for i := 0 to |entries|
        invariant forall j :: 0 <= j < i ==> entries[j].id != Key(b, true)
      {
        if entries[i].id == Key(b, true) {
          return true;
        }
      }
      return false;
    }

    /** `bundle_record_add_and_check_known` */
    method RecordAddAndCheckKnown(b: Bundle, now: nat) returns (known: bool)
      modifies this
      ensures (known, entries) == Record(old(entries), b, now)
    {
      RemoveBefore(now);
      if Deadline(b, now) < now {
        return true;
      }
      known := AddIfNotExists(b, false, now);
    }
  }

  // ---------------------------------------------------------------- Order and exactness

  lemma {:induction false} ScanFacts(s: seq<Entry>, key: Identity, deadline: nat, pos: nat)
    requires pos <= |s| && SortedByDeadline(s)
    requires forall e :: e in s && e.id == key ==> e.deadline == deadline
    ensures Scan(s, key, deadline, pos).Match? <==> exists j :: pos <= j < |s| && s[j].id == key
    ensures Scan(s, key, deadline, pos).InsertAt? ==>
              var k := Scan(s, key, deadline, pos).pos;
              (forall j :: pos <= j < k ==> s[j].deadline <= deadline) && (forall j :: k <= j < |s| ==> deadline < s[j].deadline)
    decreases |s| - pos
  {
    if pos < |s| && s[pos].id != key && s[pos].deadline <= deadline {
      ScanFacts(s, key, deadline, pos + 1);
    }
  }

  /** The early exit of the search loses nothing when entries with the key sought carry its deadline. */
  lemma {:induction false} EarlyExitExact(s: seq<Entry>, key: Identity, deadline: nat)
    requires SortedByDeadline(s) && (forall e :: e in s && e.id == key ==> e.deadline == deadline)
    ensures Scan(s, key, deadline, 0).Match? <==> Has(s, key)
  {
    ScanFacts(s, key, deadline, 0);
    if Has(s, key) {
      var e :| e in s && e.id == key;
      var j :| 0 <= j < |s| && s[j] == e;
    }
  }

  lemma {:induction false} ScanStops(s: seq<Entry>, key: Identity, deadline: nat, pos: nat)
    requires pos <= |s| && SortedByDeadline(s) && Scan(s, key, deadline, pos).InsertAt?
    ensures var k := Scan(s, key, deadline, pos).pos;
            (forall j :: pos <= j < k ==> s[j].deadline <= deadline) && (forall j :: k <= j < |s| ==> deadline < s[j].deadline)
    decreases |s| - pos
  {
    if pos < |s| && s[pos].deadline <= deadline {
      ScanStops(s, key, deadline, pos + 1);
    }
  }

  /** Insertion keeps the deadline order, whatever the deadline. */
  lemma {:induction false} InsertSorted(s: seq<Entry>, e: Entry)
    requires SortedByDeadline(s)
    ensures SortedByDeadline(Insert(s, e))
    ensures forall x :: x in Insert(s, e) ==> x in s || x == e
    ensures forall x :: x in s ==> x in Insert(s, e)
    ensures Has(Insert(s, e), e.id)
  {
    var hit := Scan(s, e.id, e.deadline, 0);
    if hit.InsertAt? {
      ScanStops(s, e.id, e.deadline, 0);
      var k, t := hit.pos, Insert(s, e);
      assert s == s[..k] + s[k..];
      assert t[k] == e;
    } else {
      ScanMatches(s, e.id, e.deadline, 0);
    }
  }

  lemma {:induction false} ScanMatches(s: seq<Entry>, key: Identity, deadline: nat, pos: nat)
    requires pos <= |s| && Scan(s, key, deadline, pos).Match?
    ensures Has(s, key)
    decreases |s| - pos
  {
    if s[pos].id != key { ScanMatches(s, key, deadline, pos + 1); }
  }

  /** Popping from the head removes exactly the expired entries of a sorted list. */
  lemma {:induction false} ExpiryExact(s: seq<Entry>, now: nat)
    requires SortedByDeadline(s)
    ensures SortedByDeadline(Unexpired(s, now))
    ensures forall e :: e in Unexpired(s, now) <==> e in s && now <= e.deadline
  {
    if s != [] && s[0].deadline < now {
      ExpiryExact(s[1..], now);
    }
  }
}
