/** One slot of the reassembly list: fragments in offset order, the check for gaps, and the copy loop. */
module Reassembly {
  import opened Wrappers
  import opened Bundles

  function Length(b: Bundle): nat { |Payload(b)| }

  /** The end of a fragment, computed in 32 bits. */
  function End(b: Bundle): nat { Add32(b.offset, Length(b)) }

  function InsertByOffset(list: seq<Bundle>, b: Bundle): seq<Bundle> {
    if list == [] then [b]
    else if list[0].offset > b.offset then [b] + list
    else [list[0]] + InsertByOffset(list[1..], b)
  }

  /** `add_to_reassembly_bundle_list`: the slot in front of the first later offset is found and filled. */
  method AddToList(list: seq<Bundle>, b: Bundle) returns (r: seq<Bundle>)
    ensures r == InsertByOffset(list, b)
  {
    var i := 0;
    while i < |list| && list[i].offset <= b.offset
      invariant i <= |list| && InsertByOffset(list, b) == list[..i] + InsertByOffset(list[i..], b)
    {
      InsertPast(list, b, i);
      i := i + 1;
    }
    return list[..i] + [b] + list[i..];
  }

  lemma {:induction false} InsertPast(list: seq<Bundle>, b: Bundle, i: nat)
    requires i < |list| && list[i].offset <= b.offset
    ensures list[..i] + InsertByOffset(list[i..], b) == list[..i + 1] + InsertByOffset(list[i + 1..], b)
  {
    var rest := InsertByOffset(list[i + 1..], b);
    assert list[i..][1..] == list[i + 1..];
    assert list[..i] + ([list[i]] + rest) == list[..i + 1] + rest;
  }

  /** Whether the walk over the list, having got to `pos`, reaches the end of the data unit without meeting a gap. */
  predicate Complete(list: seq<Bundle>, pos: nat) {
    && list != [] && list[0].offset <= pos
    && (End(list[0]) >= list[0].total || Complete(list[1..], End(list[0])))
  }

  /** The first loop of `try_reassemble`. */
  method CheckGaps(list: seq<Bundle>) returns (complete: bool)
    ensures complete == Complete(list, 0)
  {
    var pos, i := 0, 0;
    while i < |list|
      invariant i <= |list| && pos >= 0 && Complete(list, 0) == Complete(list[i..], pos)
    {
      var b := list[i];
      if b.offset > pos {
        return false;
      }
      assert list[i..][1..] == list[i + 1..];
      pos := End(b);
      if pos >= b.total {
        return true;
      }
      i := i + 1;
    }
    return false;
  }

  /** Subtraction of two lengths in the 64 bits of `size_t`. */
  function Minus(x: nat, y: nat): nat
    requires y <= x + U64
  {
    if y <= x then x - y else x + U64 - y
  }

  predicate Sized(list: seq<Bundle>) {
    forall i :: 0 <= i < |list| ==> list[i].offset < U32 && Length(list[i]) < U32
  }

  /** The bytes a fragment adds when the first `pos` bytes have been written. */
  function Fresh(b: Bundle, pos: nat, size: nat): seq<Byte>
    requires pos <= size < U32 && b.offset < U32 && Length(b) < U32
    ensures pos + |Fresh(b, pos, size)| <= size
  {
    var skip := Minus(pos, b.offset);
    if skip < Length(b) then Payload(b)[skip..skip + Min(Minus(Length(b), skip), size - pos)] else []
  }

  /** The buffer after the copy loop; `buf` is what the allocator handed out, written up to `pos`. */
  function Copied(list: seq<Bundle>, buf: seq<Byte>, pos: nat): (r: seq<Byte>)
    requires Sized(list) && pos <= |buf| < U32
    ensures |r| == |buf|
  {
    if list == [] then buf
    else
      var bytes := Fresh(list[0], pos, |buf|);
      Copied(list[1..], buf[..pos] + bytes + buf[pos + |bytes|..], pos + |bytes|)
  }

  /** One round of the copy loop: the bytes beyond `pos` that a fragment has are written in place. */
  method CopyFragment(b: Bundle, payload: array<Byte>, pos: nat) returns (pos': nat)
    requires pos <= payload.Length < U32 && b.offset < U32 && Length(b) < U32
    modifies payload
    ensures var bytes := Fresh(b, pos, payload.Length);
            pos' == pos + |bytes| && payload[..] == old(payload[..])[..pos] + bytes + old(payload[..])[pos'..]
  {
    var data, skip := Payload(b), Minus(pos, b.offset);
    pos' := pos;
    if skip < |data| {
      var count := Min(Minus(|data|, skip), payload.Length - pos);
      forall k | 0 <= k < count { payload[pos + k] := data[skip + k]; }
      pos' := pos + count;
    }
  }

  lemma {:induction false} CopiedStep(list: seq<Bundle>, i: nat, before: seq<Byte>, from: nat, after: seq<Byte>, pos: nat)
    requires Sized(list) && i < |list| && from <= |before| < U32
    requires var bytes := Fresh(list[i], from, |before|); pos == from + |bytes| && after == before[..from] + bytes + before[pos..]
    ensures Copied(list[i..], before, from) == Copied(list[i + 1..], after, pos)
  {
    assert list[i..][1..] == list[i + 1..] && list[i..][0] == list[i];
  }

  /** The second loop of `try_reassemble`, in place on the allocated buffer. */
  method CopyAll(list: seq<Bundle>, payload: array<Byte>)
    requires Sized(list) && payload.Length < U32
    modifies payload
    ensures payload[..] == Copied(list, old(payload[..]), 0)
  {
    var pos := 0;
    ghost var all := Copied(list, payload[..], 0);
    for i := 0 to |list|
      invariant 0 <= pos <= payload.Length && all == Copied(list[i..], payload[..], pos)
    {
      ghost var before, from := payload[..], pos;
      pos := CopyFragment(list[i], payload, pos);
      CopiedStep(list, i, before, from, payload[..], pos);
    }
  }

  // ---------------------------------------------------------------- Soundness

  /** Every fragment is a slice of the data unit `adu`. */
  ghost predicate Slices(list: seq<Bundle>, adu: seq<Byte>) {
    forall i :: 0 <= i < |list| ==> SliceOf(list[i], adu)
  }

  ghost predicate SliceOf(b: Bundle, adu: seq<Byte>) {
    b.total == |adu| && b.offset + Length(b) <= |adu| && Payload(b) == adu[b.offset..b.offset + Length(b)]
  }

  lemma {:induction false} SlicesAreSized(list: seq<Bundle>, adu: seq<Byte>)
    requires Slices(list, adu) && |adu| < U32
    ensures Sized(list)
  {
    forall i | 0 <= i < |list| ensures list[i].offset < U32 && Length(list[i]) < U32 { assert SliceOf(list[i], adu); }
  }

  /** Copying from a fragment that starts within what has been written extends the written part up to its end. */
  lemma {:induction false} FragmentIsSound(b: Bundle, adu: seq<Byte>, buf: seq<Byte>, pos: nat)
    requires SliceOf(b, adu) && pos <= |adu| < U32 && |buf| == |adu| && buf[..pos] == adu[..pos]
    requires b.offset <= pos || pos == |adu|
    ensures b.offset < U32 && Length(b) < U32
    ensures var n := |Fresh(b, pos, |buf|)|;
            var next := buf[..pos] + Fresh(b, pos, |buf|) + buf[pos + n..];
            && |next| == |adu| && next[..pos + n] == adu[..pos + n]
            && (pos == |adu| ==> n == 0)
            && (pos < |adu| ==> End(b) <= pos + n && (End(b) <= pos ==> n == 0))
  {
    var n := |Fresh(b, pos, |buf|)|;
    if pos < |adu| {
      assert Fresh(b, pos, |buf|) == adu[pos..pos + n];
    }
  }

  /** Whatever the overlap, nesting or order of arrival: once the gap check passes, the copy loop rebuilds the data unit. */
  lemma {:induction false} CopyIsSound(list: seq<Bundle>, adu: seq<Byte>, buf: seq<Byte>, pos: nat, checked: nat)
    requires |adu| < U32 && Sized(list) && Slices(list, adu) && |buf| == |adu|
    requires checked <= pos <= |adu| && buf[..pos] == adu[..pos]
    requires pos == |adu| || Complete(list, checked)
    ensures Copied(list, buf, pos) == adu
  {
    if list == [] {
      assert buf == adu;
    } else {
      var next, pos', checked' := OneFragment(list, adu, buf, pos, checked);
      CopyIsSound(list[1..], adu, next, pos', checked');
    }
  }

  /** Where the copy loop and the gap check are after a fragment. */
  lemma {:induction false} OneFragment(list: seq<Bundle>, adu: seq<Byte>, buf: seq<Byte>, pos: nat, checked: nat)
    returns (next: seq<Byte>, pos': nat, checked': nat)
    requires list != [] && |adu| < U32 && Sized(list) && Slices(list, adu) && |buf| == |adu|
    requires checked <= pos <= |adu| && buf[..pos] == adu[..pos] && (pos == |adu| || Complete(list, checked))
    ensures |next| == |adu| && checked' <= pos' <= |adu| && next[..pos'] == adu[..pos'] && (pos' == |adu| || Complete(list[1..], checked'))
    ensures Copied(list, buf, pos) == Copied(list[1..], next, pos')
  {
    var b := list[0];
    assert SliceOf(b, adu);
    FragmentIsSound(b, adu, buf, pos);
    var bytes := Fresh(b, pos, |buf|);
    next, pos' := buf[..pos] + bytes + buf[pos + |bytes|..], pos + |bytes|;
    checked' := if pos == |adu| then checked else End(b);
    assert Copied(list, buf, pos) == Copied(list[1..], next, pos');
    if pos < |adu| { CompleteRest(list, checked, pos, |adu|); }
  }

  lemma {:induction false} CompleteRest(list: seq<Bundle>, checked: nat, pos: nat, size: nat)
    requires list != [] && Complete(list, checked) && checked <= pos < size
    ensures End(list[0]) >= list[0].total || Complete(list[1..], End(list[0]))
  {
  }

  /** The reassembled payload is the original data unit. */
  lemma {:induction false} ReassemblySound(list: seq<Bundle>, adu: seq<Byte>, buf: seq<Byte>)
    requires |adu| < U32 && Slices(list, adu) && |buf| == |adu| && Complete(list, 0)
    ensures Sized(list) && Copied(list, buf, 0) == adu
  {
    SlicesAreSized(list, adu);
    CopyIsSound(list, adu, buf, 0, 0);
  }

  // ---------------------------------------------------------------- Completeness

  ghost predicate SortedByOffset(list: seq<Bundle>) {
    forall i, j :: 0 <= i < j < |list| ==> list[i].offset <= list[j].offset
  }

  lemma {:induction false} InsertKeepsOrder(list: seq<Bundle>, b: Bundle)
    requires SortedByOffset(list)
    ensures SortedByOffset(InsertByOffset(list, b))
  {
    if list != [] && list[0].offset <= b.offset {
      InsertKeepsOrder(list[1..], b);
      InsertMembers(list[1..], b);
      var rest := InsertByOffset(list[1..], b);
      forall j | 0 <= j < |rest| ensures list[0].offset <= rest[j].offset {
        assert rest[j] in rest;
      }
    }
  }

  lemma {:induction false} InsertMembers(list: seq<Bundle>, b: Bundle)
    ensures forall x :: x in InsertByOffset(list, b) <==> x == b || x in list
  {
    if list != [] && list[0].offset <= b.offset {
      InsertMembers(list[1..], b);
    }
  }

  ghost predicate CoveredAt(list: seq<Bundle>, k: nat) {
    exists i :: 0 <= i < |list| && list[i].offset <= k < list[i].offset + Length(list[i])
  }

  /** Every byte from `from` on is in some fragment. */
  ghost predicate CoveredFrom(list: seq<Bundle>, from: nat, size: nat) {
    forall k :: from <= k < size ==> CoveredAt(list, k)
  }

  /** No fragment ends before one that precedes it in the list. */
  ghost predicate EndsGrow(list: seq<Bundle>) {
    forall i, j :: 0 <= i < j < |list| ==> list[i].offset + Length(list[i]) <= list[j].offset + Length(list[j])
  }

  /** A complete list covers the data unit. */
  lemma {:induction false} CompleteCovers(list: seq<Bundle>, adu: seq<Byte>, pos: nat)
    requires |adu| < U32 && Slices(list, adu) && Complete(list, pos)
    ensures CoveredFrom(list, pos, |adu|)
  {
    var b, rest := list[0], list[1..];
    assert SliceOf(b, adu);
    if End(b) < b.total {
      CompleteCovers(rest, adu, End(b));
    }
    forall k | pos <= k < |adu| ensures CoveredAt(list, k) {
      if k >= End(b) {
        assert CoveredAt(rest, k);
        var i :| 0 <= i < |rest| && rest[i].offset <= k < rest[i].offset + Length(rest[i]);
        assert list[i + 1] == rest[i];
      }
    }
  }

  /** A covering list without nested fragments is complete. */
  lemma {:induction false} CoveringIsComplete(list: seq<Bundle>, adu: seq<Byte>, pos: nat)
    requires |adu| < U32 && Slices(list, adu) && SortedByOffset(list) && EndsGrow(list)
    requires pos < |adu| && CoveredFrom(list, pos, |adu|)
    requires forall i :: 0 <= i < |list| ==> pos <= list[i].offset + Length(list[i])
    ensures Complete(list, pos)
  {
    assert CoveredAt(list, pos);
    var b, rest := list[0], list[1..];
    assert SliceOf(b, adu);
    if End(b) < b.total {
      forall k | End(b) <= k < |adu| ensures CoveredAt(rest, k) {
        assert CoveredAt(list, k);
        var j :| 0 <= j < |list| && list[j].offset <= k < list[j].offset + Length(list[j]);
        assert rest[j - 1] == list[j];
      }
      assert forall i :: 0 <= i < |rest| ==> rest[i] == list[i + 1];
      CoveringIsComplete(rest, adu, End(b));
    }
  }

  /**
   The gap check passes exactly when all bytes are there, for lists in which no fragment ends before
   one that precedes it.
   */
  lemma {:induction false} CompleteIffCovered(list: seq<Bundle>, adu: seq<Byte>)
    requires 0 < |adu| < U32 && Slices(list, adu) && SortedByOffset(list) && EndsGrow(list)
    ensures Complete(list, 0) <==> CoveredFrom(list, 0, |adu|)
  {
    if Complete(list, 0) { CompleteCovers(list, adu, 0); }
    if CoveredFrom(list, 0, |adu|) { CoveringIsComplete(list, adu, 0); }
  }

  /** The fragments up to number `n` follow each other without a gap between neighbours, and the last one reaches the end. */
  ghost predicate Chain(list: seq<Bundle>, pos: nat, size: nat, n: nat) {
    && n < |list| && list[0].offset <= pos && list[n].offset + Length(list[n]) == size
    && forall i :: 0 < i <= n ==> list[i].offset <= list[i - 1].offset + Length(list[i - 1])
  }

  /** The gap check in general: only neighbours in the list count. */
  lemma {:induction false} CompleteIffChain(list: seq<Bundle>, adu: seq<Byte>, pos: nat)
    requires |adu| < U32 && Slices(list, adu)
    ensures Complete(list, pos) <==> exists n: nat :: Chain(list, pos, |adu|, n)
  {
    if list != [] {
      var b, rest := list[0], list[1..];
      assert SliceOf(b, adu);
      CompleteIffChain(rest, adu, End(b));
      if Complete(list, pos) {
        if End(b) >= b.total {
          assert Chain(list, pos, |adu|, 0);
        } else {
          var m: nat :| Chain(rest, End(b), |adu|, m);
          ChainLonger(list, pos, |adu|, m);
        }
      }
      if n: nat :| Chain(list, pos, |adu|, n) && End(b) < b.total {
        assert list[1].offset <= list[0].offset + Length(list[0]);
        ChainShorter(list, pos, |adu|, n);
      }
    }
  }

  lemma {:induction false} ChainLonger(list: seq<Bundle>, pos: nat, size: nat, m: nat)
    requires list != [] && list[0].offset <= pos && Chain(list[1..], list[0].offset + Length(list[0]), size, m)
    ensures Chain(list, pos, size, m + 1)
  {
    var rest := list[1..];
    forall i | 0 < i <= m + 1 ensures list[i].offset <= list[i - 1].offset + Length(list[i - 1]) {
      assert list[i] == rest[i - 1];
      if i > 1 { assert list[i - 1] == rest[i - 2]; }
    }
  }

  lemma {:induction false} ChainShorter(list: seq<Bundle>, pos: nat, size: nat, n: nat)
    requires n > 0 && Chain(list, pos, size, n)
    ensures Chain(list[1..], list[0].offset + Length(list[0]), size, n - 1)
  {
    var rest := list[1..];
    assert rest[0] == list[1];
    forall i | 0 < i <= n - 1 ensures rest[i].offset <= rest[i - 1].offset + Length(rest[i - 1]) {
      assert rest[i] == list[i + 1] && rest[i - 1] == list[i];
    }
  }

  /** The part of a data unit from `offset`, as a fragment. */
  function Part(adu: seq<Byte>, offset: nat, length: nat): (b: Bundle)
    requires offset + length <= |adu|
    ensures SliceOf(b, adu) && b.offset == offset && Length(b) == length
  {
    var b := Bundle(7, 1, 0, "dtn:b/x", "dtn:a/x", "dtn:none", 1, 1, 1, offset, |adu|, 0,
                    [Block(BLOCK_TYPE_PAYLOAD, 1, 0, 0, adu[offset..offset + length])]);
    assert PayloadOf(b.blocks) == adu[offset..offset + length];
    b
  }

  /**
   All bytes are there, but a fragment within the first one stops the check when it ends before the third one begins,
   wherever the three begin and end.
   */
  lemma {:induction false} NestedFragmentsStuck(adu: seq<Byte>, end: nat, inner: nat, length: nat, third: nat)
    requires |adu| < U32 && inner + length < third <= end < |adu|
    ensures var list := [Part(adu, 0, end), Part(adu, inner, length), Part(adu, third, |adu| - third)];
            Slices(list, adu) && SortedByOffset(list) && CoveredFrom(list, 0, |adu|) && !Complete(list, 0)
  {
    var list := [Part(adu, 0, end), Part(adu, inner, length), Part(adu, third, |adu| - third)];
    forall k | 0 <= k < |adu| ensures CoveredAt(list, k) {
      if k < end { assert list[0].offset <= k < list[0].offset + Length(list[0]); }
      else { assert list[2].offset <= k < list[2].offset + Length(list[2]); }
    }
    assert Slices(list, adu);
    CompleteIffChain(list, adu, 0);
    assert list[2].offset > list[2 - 1].offset + Length(list[2 - 1]);
  }
}
