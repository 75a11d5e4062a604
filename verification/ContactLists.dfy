/** Lists of contacts with a node, ordered by start time: verification, merge and difference. */
module ContactLists {
  import opened Wrappers

  type Eid = string

  datatype Contact = Contact(from: nat, to: nat, bitrate: nat, endpoints: set<Eid>)

  ghost predicate Sorted(s: seq<Contact>) { forall i, j :: 0 <= i < j < |s| ==> s[i].from <= s[j].from }

  ghost predicate StrictlySorted(s: seq<Contact>) { forall i, j :: 0 <= i < j < |s| ==> s[i].from < s[j].from }

  ghost predicate AllAfter(s: seq<Contact>, f: int) { forall i :: 0 <= i < |s| ==> f < s[i].from }

  /** The contact that starts at a given time. */
  function At(s: seq<Contact>, f: nat): Option<Contact> {
    if s == [] then None else if s[0].from == f then Some(s[0]) else At(s[1..], f)
  }

  lemma {:induction false} AtNone(s: seq<Contact>, f: nat)
    requires AllAfter(s, f)
    ensures At(s, f) == None
  {
    if s != [] { AtNone(s[1..], f); }
  }

  /** A strictly sorted list is determined by what starts when. */
  lemma {:induction false} AtDetermines(s: seq<Contact>, t: seq<Contact>)
    requires StrictlySorted(s) && StrictlySorted(t) && forall f: nat :: At(s, f) == At(t, f)
    ensures s == t
  {
    if s != [] { assert At(s, s[0].from) == Some(s[0]); }
    if t != [] { assert At(t, t[0].from) == Some(t[0]); }
    if s != [] && t != [] {
      if s[0].from < t[0].from { AtNone(t, s[0].from); }
      if t[0].from < s[0].from { AtNone(s, t[0].from); }
      forall f: nat ensures At(s[1..], f) == At(t[1..], f) {
        if f == s[0].from { AtNone(s[1..], f); AtNone(t[1..], f); } else { assert At(s, f) == At(t, f); }
      }
      AtDetermines(s[1..], t[1..]);
      assert s == [s[0]] + s[1..] && t == [t[0]] + t[1..];
    }
  }

  // ---------------------------------------------------------------- Verification

  /** `contacts_overlap` */
  predicate Overlap(a: Contact, b: Contact) { b.from <= a.from <= b.to || b.from <= a.to <= b.to }

  /** The loops of `node_prepare_and_verify`, after the contacts have been sorted by start time. */
  method Verify(s: seq<Contact>) returns (ok: bool)
    ensures ok <==> forall i, j :: 0 <= i < j < |s| ==> !Overlap(s[i], s[j])
  {
    for i := 0 to |s|
      invariant forall k, j :: 0 <= k < i && k < j < |s| ==> !Overlap(s[k], s[j])
    {
      for j := i + 1 to |s|
        invariant forall k :: i < k < j ==> !Overlap(s[i], s[k])
      {
        if Overlap(s[i], s[j]) { return false; }
      }
    }
    return true;
  }

  ghost predicate Verified(s: seq<Contact>) {
    Sorted(s) && (forall i :: 0 <= i < |s| ==> s[i].from <= s[i].to) && forall i, j :: 0 <= i < j < |s| ==> !Overlap(s[i], s[j])
  }

  /** Success means distinct start times. */
  lemma {:induction false} VerifiedIsStrict(s: seq<Contact>)
    requires Verified(s)
    ensures StrictlySorted(s)
  {
    forall i, j | 0 <= i < j < |s| ensures s[i].from < s[j].from {
      assert !Overlap(s[i], s[j]);
    }
  }

  /**
   But it does not mean that contacts do not overlap in time: a contact that contains a later one is not noticed, and
   it is the only case that is not.
   */
  lemma {:induction false} DisjointIff(s: seq<Contact>)
    requires Verified(s)
    ensures (forall i, j :: 0 <= i < j < |s| ==> s[i].to < s[j].from) <==> (forall i, j :: 0 <= i < j < |s| ==> s[i].to <= s[j].to)
  {
    if forall i, j :: 0 <= i < j < |s| ==> s[i].to <= s[j].to {
      forall i, j | 0 <= i < j < |s| ensures s[i].to < s[j].from { assert !Overlap(s[i], s[j]) && s[i].to <= s[j].to; }
    }
    if forall i, j :: 0 <= i < j < |s| ==> s[i].to < s[j].from {
      forall i, j | 0 <= i < j < |s| ensures s[i].to <= s[j].to { assert s[i].to < s[j].from <= s[j].to; }
    }
  }

  lemma {:induction false} ContainedUnnoticed()
    ensures var s := [Contact(1, 10, 1, {}), Contact(2, 3, 1, {})]; Verified(s) && s[1].from <= s[0].to
  {
    var s := [Contact(1, 10, 1, {}), Contact(2, 3, 1, {})];
    assert !Overlap(s[0], s[1]);
  }

  // ---------------------------------------------------------------- Union

  /** `merge_contacts` */
  function Combine(have: Contact, add: Contact): Contact { have.(endpoints := have.endpoints + add.endpoints, bitrate := add.bitrate) }

  /** What becomes of an existing contact when one with the same start is added. */
  function Update(have: Contact, add: Contact): Contact { if have.to == add.to then Combine(have, add) else have }

  predicate Changes(have: Contact, add: Contact) { have.to == add.to && have.bitrate != add.bitrate }

  /** The merged list, and the changed contacts put in front of those in `changed`. */
  function Merged(a: seq<Contact>, b: seq<Contact>, changed: seq<Contact>): (seq<Contact>, seq<Contact>)
    decreases |a| + |b|
  {
    if a == [] then (b, changed)
    else if b == [] then (a, changed)
    else if b[0].from < a[0].from then
      var (r, m) := Merged(a, b[1..], changed);
      ([b[0]] + r, m)
    else if b[0].from == a[0].from then
      var x := Update(a[0], b[0]);
      Merged([x] + a[1..], b[1..], if Changes(a[0], b[0]) then [x] + changed else changed)
    else
      var (r, m) := Merged(a[1..], b, changed);
      ([a[0]] + r, m)
  }

  function MergedAt(x: Option<Contact>, y: Option<Contact>): Option<Contact> {
    match (x, y)
    case (None, _) => y
    case (_, None) => x
    case (Some(have), Some(add)) => Some(Update(have, add))
  }

  /**
   `contact_list_union`: one slot of the first list after the other; contacts of the second list that start earlier are
   inserted before it, one that starts at the same time updates it.
   */
  method Union(a: seq<Contact>, b: seq<Contact>, record: bool) returns (r: seq<Contact>, modified: seq<Contact>)
    ensures r == Merged(a, b, []).0
    ensures modified == if record then Merged(a, b, []).1 else []
  {
    r, modified := a, [];
    if a == [] { return b, []; }
    if b == [] { return a, []; }
    var slot, can := 0, 0;
    ghost var all := [];
    assert a[0..] == a && b[0..] == b && a[..0] + Merged(a, b, []).0 == Merged(a, b, []).0;
    while slot < |r|
      invariant 0 <= slot <= |r| && 0 <= can <= |b| && Halfway(a, b, r, slot, b[can..], all)
      invariant modified == if record then all else []
      decreases |r| - slot
    {
      ghost var left := |r| - slot;
      var curFrom := r[slot].from;
      while can < |b| && b[can].from <= curFrom
        invariant 0 <= slot < |r| && 0 <= can <= |b| && |r| - slot == left && r[slot].from == curFrom && Halfway(a, b, r, slot, b[can..], all)
        invariant modified == if record then all else []
      {
        if b[can].from < curFrom {
          InsertBefore(a, b, r, slot, b[can..], all);
          r := r[..slot] + [b[can]] + r[slot..];
          slot := slot + 1;
        } else {
          UpdateAt(a, b, r, slot, b[can..], all);
          var changes := Changes(r[slot], b[can]);
          r := r[slot := Update(r[slot], b[can])];
          if changes {
            all := [r[slot]] + all;
            if record { modified := [r[slot]] + modified; }
          }
        }
        assert b[can..][1..] == b[can + 1..];
        can := can + 1;
      }
      Pass(a, b, r, slot, b[can..], all);
      slot := slot + 1;
    }
    r := r + b[can..];
  }

  /** With the slots before `slot` done and `rest` of the second list left, the merge still comes to the same. */
  ghost predicate Halfway(a: seq<Contact>, b: seq<Contact>, r: seq<Contact>, slot: nat, rest: seq<Contact>, changed: seq<Contact>) {
    slot <= |r| && Merged(a, b, []) == (r[..slot] + Merged(r[slot..], rest, changed).0, Merged(r[slot..], rest, changed).1)
  }

  lemma {:induction false} InsertBefore(a: seq<Contact>, b: seq<Contact>, r: seq<Contact>, slot: nat, rest: seq<Contact>, changed: seq<Contact>)
    requires slot < |r| && rest != [] && rest[0].from < r[slot].from && Halfway(a, b, r, slot, rest, changed)
    ensures Halfway(a, b, r[..slot] + [rest[0]] + r[slot..], slot + 1, rest[1..], changed)
  {
    var r' := r[..slot] + [rest[0]] + r[slot..];
    var tail := Merged(r[slot..], rest[1..], changed).0;
    assert r'[slot + 1..] == r[slot..] && r'[..slot + 1] == r[..slot] + [rest[0]];
    assert r[..slot] + ([rest[0]] + tail) == r'[..slot + 1] + tail;
  }

  lemma {:induction false} UpdateAt(a: seq<Contact>, b: seq<Contact>, r: seq<Contact>, slot: nat, rest: seq<Contact>, changed: seq<Contact>)
    requires slot < |r| && rest != [] && rest[0].from == r[slot].from && Halfway(a, b, r, slot, rest, changed)
    ensures var x := Update(r[slot], rest[0]);
            Halfway(a, b, r[slot := x], slot, rest[1..], if Changes(r[slot], rest[0]) then [x] + changed else changed)
  {
    var x := Update(r[slot], rest[0]);
    assert r[slot := x][slot..] == [x] + r[slot..][1..] && r[slot := x][..slot] == r[..slot];
  }

  lemma {:induction false} Pass(a: seq<Contact>, b: seq<Contact>, r: seq<Contact>, slot: nat, rest: seq<Contact>, changed: seq<Contact>)
    requires slot < |r| && (rest == [] || rest[0].from > r[slot].from) && Halfway(a, b, r, slot, rest, changed)
    ensures Halfway(a, b, r, slot + 1, rest, changed)
  {
    assert r[slot..][1..] == r[slot + 1..] && r[..slot + 1] == r[..slot] + [r[slot]];
    if rest == [] {
      assert r[slot..] == [r[slot]] + r[slot + 1..];
    }
    var tail := Merged(r[slot + 1..], rest, changed).0;
    assert r[..slot] + ([r[slot]] + tail) == r[..slot + 1] + tail;
  }

  lemma {:induction false} MergedAfter(a: seq<Contact>, b: seq<Contact>, changed: seq<Contact>, g: int)
    requires AllAfter(a, g) && AllAfter(b, g)
    ensures AllAfter(Merged(a, b, changed).0, g)
    decreases |a| + |b|
  {
    if a != [] && b != [] {
      if b[0].from < a[0].from {
        MergedAfter(a, b[1..], changed, g);
      } else if b[0].from == a[0].from {
        var x := Update(a[0], b[0]);
        MergedAfter([x] + a[1..], b[1..], if Changes(a[0], b[0]) then [x] + changed else changed, g);
      } else {
        MergedAfter(a[1..], b, changed, g);
      }
    }
  }

  lemma {:induction false} PrependSorted(x: Contact, s: seq<Contact>)
    requires StrictlySorted(s) && AllAfter(s, x.from)
    ensures StrictlySorted([x] + s)
  {
  }

  /** The merged list is strictly sorted. */
  lemma {:induction false} MergedSorted(a: seq<Contact>, b: seq<Contact>, changed: seq<Contact>)
    requires StrictlySorted(a) && StrictlySorted(b)
    ensures StrictlySorted(Merged(a, b, changed).0)
    decreases |a| + |b|
  {
    if a != [] && b != [] {
      if b[0].from < a[0].from {
        MergedSorted(a, b[1..], changed);
        MergedAfter(a, b[1..], changed, b[0].from);
        PrependSorted(b[0], Merged(a, b[1..], changed).0);
      } else if b[0].from == a[0].from {
        var x := Update(a[0], b[0]);
        MergedSorted([x] + a[1..], b[1..], if Changes(a[0], b[0]) then [x] + changed else changed);
      } else {
        MergedSorted(a[1..], b, changed);
        MergedAfter(a[1..], b, changed, a[0].from);
        PrependSorted(a[0], Merged(a[1..], b, changed).0);
      }
    }
  }

  lemma {:induction false} AtFirst(x: Contact, s: seq<Contact>, f: nat)
    ensures At([x] + s, f) == if x.from == f then Some(x) else At(s, f)
  {
    assert ([x] + s)[1..] == s;
  }

  /** At every start time the merged list has what the two lists give together; an existing contact is kept, or updated if it also ends at the same time. */
  lemma {:induction false} MergedMeans(a: seq<Contact>, b: seq<Contact>, changed: seq<Contact>, f: nat)
    requires StrictlySorted(a) && StrictlySorted(b)
    ensures At(Merged(a, b, changed).0, f) == MergedAt(At(a, f), At(b, f))
    decreases |a| + |b|
  {
    if a != [] && b != [] {
      if b[0].from < a[0].from {
        MergedMeans(a, b[1..], changed, f);
        AtFirst(b[0], Merged(a, b[1..], changed).0, f);
        if f == b[0].from { AtNone(a, f); }
      } else if b[0].from == a[0].from {
        var x := Update(a[0], b[0]);
        AtFirst(x, a[1..], f);
        MergedMeans([x] + a[1..], b[1..], if Changes(a[0], b[0]) then [x] + changed else changed, f);
        if f == b[0].from { AtNone(b[1..], f); }
      } else {
        MergedMeans(a[1..], b, changed, f);
        AtFirst(a[0], Merged(a[1..], b, changed).0, f);
        if f == a[0].from { AtNone(b, f); }
      }
    }
  }

  ghost predicate ChangedAt(x: Option<Contact>, y: Option<Contact>, c: Contact) {
    x.Some? && y.Some? && Changes(x.value, y.value) && c == Update(x.value, y.value)
  }

  /** The contacts listed as modified are exactly the merged ones whose bitrate has changed. */
  lemma {:induction false} ModifiedMeans(a: seq<Contact>, b: seq<Contact>, changed: seq<Contact>, c: Contact)
    requires StrictlySorted(a) && StrictlySorted(b)
    ensures c in Merged(a, b, changed).1 <==> c in changed || ChangedAt(At(a, c.from), At(b, c.from), c)
    decreases |a| + |b|
  {
    if a != [] && b != [] {
      if b[0].from < a[0].from {
        ModifiedMeans(a, b[1..], changed, c);
        if c.from == b[0].from { AtNone(a, c.from); }
      } else if b[0].from == a[0].from {
        var x := Update(a[0], b[0]);
        AtFirst(x, a[1..], c.from);
        ModifiedMeans([x] + a[1..], b[1..], if Changes(a[0], b[0]) then [x] + changed else changed, c);
        if c.from == b[0].from { AtNone(b[1..], c.from); }
      } else {
        ModifiedMeans(a[1..], b, changed, c);
        if c.from == a[0].from { AtNone(b, c.from); }
      }
    }
  }

  // ---------------------------------------------------------------- Difference

  predicate Matches(x: Contact, y: Contact) { x.from == y.from && x.to == y.to }

  function Without(x: Contact, y: Contact): Contact { x.(endpoints := x.endpoints - y.endpoints) }

  /** What is left of the first list; `deleted` and `modified` are put in front of those given. */
  datatype Outcome = Outcome(left: seq<Contact>, deleted: seq<Contact>, modified: seq<Contact>)

  function Prepend(x: Contact, o: Outcome): Outcome { o.(left := [x] + o.left) }

  function Difference(a: seq<Contact>, b: seq<Contact>, deleted: seq<Contact>, modified: seq<Contact>): Outcome
    decreases |a| + |b|
  {
    if a == [] || b == [] then Outcome(a, deleted, modified)
    else if b[0].from > a[0].from then Prepend(a[0], Difference(a[1..], b, deleted, modified))
    else if !Matches(a[0], b[0]) then Difference(a, b[1..], deleted, modified)
    else if b[0].endpoints == {} then Difference(a[1..], b[1..], [a[0]] + deleted, modified)
    else
      var x := Without(a[0], b[0]);
      Prepend(x, Difference(a[1..], b[1..], deleted, [x] + modified))
  }

  ghost predicate HalfDifferent(a: seq<Contact>, b: seq<Contact>, r: seq<Contact>, slot: nat, rest: seq<Contact>, deleted: seq<Contact>, modified: seq<Contact>) {
    slot <= |r|
    && var o := Difference(r[slot..], rest, deleted, modified);
       Difference(a, b, [], []) == Outcome(r[..slot] + o.left, o.deleted, o.modified)
  }

  /** `contact_list_difference` */
  method Subtract(a: seq<Contact>, b: seq<Contact>) returns (r: seq<Contact>, deleted: seq<Contact>, modified: seq<Contact>)
    ensures Outcome(r, deleted, modified) == Difference(a, b, [], [])
  {
    r, deleted, modified := a, [], [];
    if a == [] || b == [] { return; }
    var slot, can := 0, 0;
    assert a[0..] == a && b[0..] == b && a[..0] + Difference(a, b, [], []).left == Difference(a, b, [], []).left;
    while slot < |r|
      invariant 0 <= slot <= |r| && 0 <= can <= |b| && HalfDifferent(a, b, r, slot, b[can..], deleted, modified)
      decreases |r| - slot
    {
      ghost var left := |r| - slot;
      while slot < |r| && can < |b| && b[can].from <= r[slot].from
        invariant 0 <= slot <= |r| && 0 <= can <= |b| && |r| - slot <= left && HalfDifferent(a, b, r, slot, b[can..], deleted, modified)
      {
        assert b[can..][1..] == b[can + 1..];
        if Matches(r[slot], b[can]) {
          if b[can].endpoints == {} {
            DeleteAt(a, b, r, slot, b[can..], deleted, modified);
            deleted := [r[slot]] + deleted;
            r := r[..slot] + r[slot + 1..];
          } else {
            ReduceAt(a, b, r, slot, b[can..], deleted, modified);
            r := r[slot := Without(r[slot], b[can])];
            modified := [r[slot]] + modified;
            slot := slot + 1;
          }
        }
        can := can + 1;
      }
      if slot < |r| {
        PassOver(a, b, r, slot, b[can..], deleted, modified);
        slot := slot + 1;
      }
    }
  }

  lemma {:induction false} DeleteAt(a: seq<Contact>, b: seq<Contact>, r: seq<Contact>, slot: nat, rest: seq<Contact>, deleted: seq<Contact>, modified: seq<Contact>)
    requires slot < |r| && rest != [] && Matches(r[slot], rest[0]) && rest[0].endpoints == {}
    requires HalfDifferent(a, b, r, slot, rest, deleted, modified)
    ensures HalfDifferent(a, b, r[..slot] + r[slot + 1..], slot, rest[1..], [r[slot]] + deleted, modified)
  {
    var r' := r[..slot] + r[slot + 1..];
    assert r'[slot..] == r[slot..][1..] && r'[..slot] == r[..slot];
  }

  lemma {:induction false} ReduceAt(a: seq<Contact>, b: seq<Contact>, r: seq<Contact>, slot: nat, rest: seq<Contact>, deleted: seq<Contact>, modified: seq<Contact>)
    requires slot < |r| && rest != [] && Matches(r[slot], rest[0]) && rest[0].endpoints != {}
    requires HalfDifferent(a, b, r, slot, rest, deleted, modified)
    ensures var x := Without(r[slot], rest[0]); HalfDifferent(a, b, r[slot := x], slot + 1, rest[1..], deleted, [x] + modified)
  {
    var x := Without(r[slot], rest[0]);
    var tail := Difference(r[slot + 1..], rest[1..], deleted, [x] + modified).left;
    assert r[slot..][1..] == r[slot + 1..] == r[slot := x][slot + 1..] && r[slot := x][..slot + 1] == r[..slot] + [x];
    assert r[..slot] + ([x] + tail) == r[slot := x][..slot + 1] + tail;
  }

  lemma {:induction false} PassOver(a: seq<Contact>, b: seq<Contact>, r: seq<Contact>, slot: nat, rest: seq<Contact>, deleted: seq<Contact>, modified: seq<Contact>)
    requires slot < |r| && (rest == [] || rest[0].from > r[slot].from) && HalfDifferent(a, b, r, slot, rest, deleted, modified)
    ensures HalfDifferent(a, b, r, slot + 1, rest, deleted, modified)
  {
    assert r[slot..][1..] == r[slot + 1..] && r[..slot + 1] == r[..slot] + [r[slot]];
    if rest == [] { assert r[slot..] == [r[slot]] + r[slot + 1..]; }
    var tail := Difference(r[slot + 1..], rest, deleted, modified).left;
    assert r[..slot] + ([r[slot]] + tail) == r[..slot + 1] + tail;
  }

  function LeftAt(x: Option<Contact>, y: Option<Contact>): Option<Contact> {
    if x.Some? && y.Some? && Matches(x.value, y.value) then
      if y.value.endpoints == {} then None else Some(Without(x.value, y.value))
    else x
  }

  /** Exactly the contacts matched on start and end by one without endpoints are removed. */
  lemma {:induction false} DifferenceMeans(a: seq<Contact>, b: seq<Contact>, deleted: seq<Contact>, modified: seq<Contact>, f: nat)
    requires StrictlySorted(a) && StrictlySorted(b)
    ensures At(Difference(a, b, deleted, modified).left, f) == LeftAt(At(a, f), At(b, f))
    decreases |a| + |b|
  {
    if a != [] && b != [] {
      if b[0].from > a[0].from {
        DifferenceMeans(a[1..], b, deleted, modified, f);
        AtFirst(a[0], Difference(a[1..], b, deleted, modified).left, f);
        if f == a[0].from { AtNone(b, f); }
      } else if !Matches(a[0], b[0]) {
        DifferenceMeans(a, b[1..], deleted, modified, f);
        if f == b[0].from && b[0].from < a[0].from { AtNone(a, f); }
        if f == b[0].from { AtNone(b[1..], f); }
      } else if b[0].endpoints == {} {
        DifferenceMeans(a[1..], b[1..], [a[0]] + deleted, modified, f);
        if f == a[0].from { AtNone(a[1..], f); }
      } else {
        var x := Without(a[0], b[0]);
        DifferenceMeans(a[1..], b[1..], deleted, [x] + modified, f);
        AtFirst(x, Difference(a[1..], b[1..], deleted, [x] + modified).left, f);
      }
    }
  }

  /** What was removed is what the list of deleted contacts gets. */
  lemma {:induction false} DeletedMeans(a: seq<Contact>, b: seq<Contact>, deleted: seq<Contact>, modified: seq<Contact>, c: Contact)
    requires StrictlySorted(a) && StrictlySorted(b)
    ensures c in Difference(a, b, deleted, modified).deleted
            <==> c in deleted || (At(a, c.from) == Some(c) && At(b, c.from).Some? && Matches(c, At(b, c.from).value) && At(b, c.from).value.endpoints == {})
    decreases |a| + |b|
  {
    var f := c.from;
    if a != [] && b != [] {
      if b[0].from > a[0].from {
        DeletedMeans(a[1..], b, deleted, modified, c);
        if f == a[0].from { AtNone(b, f); }
      } else if !Matches(a[0], b[0]) {
        DeletedMeans(a, b[1..], deleted, modified, c);
        if f == b[0].from && b[0].from < a[0].from { AtNone(a, f); }
        if f == b[0].from { AtNone(b[1..], f); }
      } else if b[0].endpoints == {} {
        DeletedMeans(a[1..], b[1..], [a[0]] + deleted, modified, c);
        if f == a[0].from { AtNone(a[1..], f); }
      } else {
        DeletedMeans(a[1..], b[1..], deleted, [Without(a[0], b[0])] + modified, c);
        if f == a[0].from { AtNone(a[1..], f); }
      }
    }
  }
}
