/** Self-delimiting numeric values (RFC 6256): the byte-wise C reader and writer, and the unbounded Python codec. */
module Sdnv {
  import opened Bundles

  // ---------------------------------------------------------------- The format

  /** Every byte but the last has its top bit set. */
  predicate WellFormed(s: seq<Byte>) {
    s != [] && s[|s| - 1] < 128 && forall i :: 0 <= i < |s| - 1 ==> s[i] >= 128
  }

  /** The value of the low seven bits of each byte, most significant first. */
  function Value(s: seq<Byte>): nat {
    if s == [] then 0 else Value(s[..|s| - 1]) * 128 + s[|s| - 1] % 128
  }

  function Leading(v: nat): (r: seq<Byte>)
    ensures r != [] && forall i :: 0 <= i < |r| ==> r[i] >= 128
  {
    if v < 128 then [128 + v] else Leading(v / 128) + [128 + v % 128]
  }

  /** The shortest encoding. */
  function Encode(v: nat): (r: seq<Byte>)
    ensures WellFormed(r)
  {
    if v < 128 then [v] else Leading(v / 128) + [v % 128]
  }

  function Pow128(k: nat): nat { if k == 0 then 1 else 128 * Pow128(k - 1) }

  lemma {:induction false} LeadingValue(v: nat)
    ensures Value(Leading(v)) == v
  {
    if v >= 128 {
      LeadingValue(v / 128);
      assert Leading(v)[..|Leading(v)| - 1] == Leading(v / 128);
    } else {
      assert Leading(v)[..0] == [];
    }
  }

  lemma {:induction false} EncodeValue(v: nat)
    ensures Value(Encode(v)) == v
  {
    if v >= 128 {
      LeadingValue(v / 128);
      assert Encode(v)[..|Encode(v)| - 1] == Leading(v / 128);
    } else {
      assert Encode(v)[..0] == [];
    }
  }

  lemma {:induction false} LeadingSize(v: nat, k: nat)
    requires k > 0
    ensures |Leading(v)| <= k <==> v < Pow128(k)
  {
    if k == 1 {
      assert Pow128(1) == 128;
    } else if v >= 128 {
      LeadingSize(v / 128, k - 1);
    } else {
      PowGrows(k);
    }
  }

  lemma {:induction false} PowGrows(k: nat)
    requires k > 0
    ensures Pow128(k) >= 128
  {
    if k > 1 { PowGrows(k - 1); }
  }

  /** The number of bytes is that of groups of seven bits. */
  lemma {:induction false} EncodeSize(v: nat, k: nat)
    requires k > 0
    ensures |Encode(v)| <= k <==> v < Pow128(k)
  {
    if v >= 128 && k > 1 {
      LeadingSize(v / 128, k - 1);
    } else if v >= 128 {
      assert Pow128(1) == 128;
    } else {
      PowGrows(k);
    }
  }

  lemma {:induction false} ValueBound(s: seq<Byte>)
    ensures Value(s) < Pow128(|s|)
  {
    if s != [] { ValueBound(s[..|s| - 1]); }
  }

  /** No encoding of the value is shorter. */
  lemma {:induction false} EncodeShortest(s: seq<Byte>)
    requires WellFormed(s)
    ensures |Encode(Value(s))| <= |s|
  {
    ValueBound(s);
    EncodeSize(Value(s), |s|);
  }

  // ---------------------------------------------------------------- The C reader

  datatype Width = U8 | U16 | U32 | U64 {
    function Limit(): nat {
      match this
      case U8 => 0x100
      case U16 => 0x1_0000
      case U32 => 0x1_0000_0000
      case U64 => 0x1_0000_0000_0000_0000
    }

    /** The length of the longest encoding. */
    function MaxBytes(): nat {
      match this
      case U8 => 2
      case U16 => 3
      case U32 => 5
      case U64 => 10
    }

    /** The largest value to which another seven bits can be added after `MaxBytes() - 1` bytes. */
    function LastLimit(): nat {
      match this
      case U8 => 0x1
      case U16 => 0x1FF
      case U32 => 0x1FF_FFFF
      case U64 => 0x1FF_FFFF_FFFF_FFFF
    }
  }

  datatype Status = InProgress | Done | Error

  datatype Problem = NoProblem | Overflow | AlreadyDone

  /** `struct sdnv_state` together with the value that is being read. */
  datatype State = State(status: Status, error: Problem, count: nat, value: nat)

  /** After `sdnv_reset`; the value keeps what it had. */
  function Reset(value: nat): State { State(InProgress, NoProblem, 0, value) }

  /** `sdnv_read_u8` and so on */
  function Feed(w: Width, s: State, byte: Byte): State {
    if !(s.count < w.MaxBytes() - 1 || (s.count == w.MaxBytes() - 1 && s.value <= w.LastLimit())) then
      s.(error := Overflow, status := Error)
    else if s.status == Done then
      s.(error := AlreadyDone, status := Error)
    else
      var shifted := if s.count == 0 then 0 else s.value * 128 % w.Limit();
      State(if byte < 128 then Done else s.status, s.error, s.count + 1, shifted + byte % 128)
  }

  /** The reader behind a pointer, as the parser holds it. */
  class Reader {
    var state: State

    constructor ()
      ensures state == Reset(0)
    {
      state := Reset(0);
    }

    method Read(w: Width, byte: Byte)
      modifies this
      ensures state == Feed(w, old(state), byte)
    {
      var fits := state.count < w.MaxBytes() - 1 || (state.count == w.MaxBytes() - 1 && state.value <= w.LastLimit());
      if !fits {
        state := state.(error := Overflow, status := Error);
      } else if state.status == Done {
        state := state.(error := AlreadyDone, status := Error);
      } else {
        if state.count == 0 {
          state := state.(value := 0);
        } else {
          state := state.(value := state.value * 128 % w.Limit());
        }
        state := state.(value := state.value + byte % 128);
        if byte < 128 {
          state := state.(status := Done);
        }
        state := state.(count := state.count + 1);
      }
    }

    /** Reading until the value is complete or fails, as all callers do. */
    method ReadAll(w: Width, s: seq<Byte>) returns (n: nat)
      requires state.status == InProgress
      modifies this
      ensures n <= |s| && state == FeedAll(w, old(state), s) == FeedAll(w, old(state), s[..n])
      ensures n < |s| ==> state.status != InProgress
    {
      n := 0;
      while n < |s| && state.status == InProgress
        invariant n <= |s| && state == FeedAll(w, old(state), s[..n])
      {
        assert s[..n + 1][..n] == s[..n];
        Read(w, s[n]);
        n := n + 1;
      }
      assert s == s[..n] + s[n..];
      FeedAllAppend(w, old(state), s[..n], s[n..]);
      if n < |s| { FeedAllStuck(w, state, s[n..]); }
    }
  }

  function FeedAll(w: Width, s: State, bytes: seq<Byte>): State {
    if bytes == [] then s
    else
      var t := FeedAll(w, s, bytes[..|bytes| - 1]);
      if t.status == InProgress then Feed(w, t, bytes[|bytes| - 1]) else t
  }

  lemma {:induction false} FeedAllAppend(w: Width, st: State, a: seq<Byte>, b: seq<Byte>)
    ensures FeedAll(w, st, a + b) == FeedAll(w, FeedAll(w, st, a), b)
    decreases |b|
  {
    if b == [] {
      assert a + b == a;
    } else {
      var n := |b| - 1;
      assert (a + b)[..|a + b| - 1] == a + b[..n];
      FeedAllAppend(w, st, a, b[..n]);
    }
  }

  lemma {:induction false} FeedAllStuck(w: Width, st: State, bytes: seq<Byte>)
    requires st.status != InProgress
    ensures FeedAll(w, st, bytes) == st
  {
    if bytes != [] { FeedAllStuck(w, st, bytes[..|bytes| - 1]); }
  }

  /** The value and count of `s`, whatever the status. */
  ghost predicate Holds(w: Width, st: State, s: seq<Byte>) {
    st.count == |s| && Fits(w, s) && (s == [] || st.value == Value(s))
  }

  /** What the reader has after the leading bytes `s` of an encoding. */
  ghost predicate Has(w: Width, st: State, s: seq<Byte>) {
    && st.status == InProgress && Holds(w, st, s)
    && forall i :: 0 <= i < |s| ==> s[i] >= 128
  }

  lemma {:induction false} WidthFacts(w: Width)
    ensures w.MaxBytes() >= 2 && w.Limit() == (w.LastLimit() + 1) * 128 && Pow128(w.MaxBytes() - 1) <= w.Limit()
    ensures Pow128(w.MaxBytes()) >= w.Limit()
  {
    assert Pow128(2) == 0x4000;
    assert Pow128(5) == 0x8_0000_0000;
    assert Pow128(10) == 0x8_0000_0000 * 0x8_0000_0000;
  }

  lemma {:induction false} PowStep(j: nat, k: nat)
    requires j <= k
    ensures Pow128(j) <= Pow128(k) && (j < k ==> Pow128(j) * 128 <= Pow128(k))
  {
    if j < k { PowStep(j, k - 1); }
  }

  ghost predicate Fits(w: Width, s: seq<Byte>) { |s| <= w.MaxBytes() && Value(s) < w.Limit() }

  /** One more byte fits into the value exactly if the check passes. */
  lemma {:induction false} CheckExact(w: Width, st: State, s: seq<Byte>, b: Byte)
    requires Holds(w, st, s)
    ensures Fits(w, s + [b]) <==> st.count < w.MaxBytes() - 1 || (st.count == w.MaxBytes() - 1 && st.value <= w.LastLimit())
    ensures Fits(w, s + [b]) && s != [] ==> st.value * 128 < w.Limit()
    ensures Value(s + [b]) == Value(s) * 128 + b % 128
  {
    assert (s + [b])[..|s|] == s;
    ValueBound(s + [b]);
    WidthFacts(w);
    if |s| < w.MaxBytes() - 1 { PowStep(|s + [b]|, w.MaxBytes() - 1); }
  }

  lemma {:induction false} FeedMore(w: Width, st: State, s: seq<Byte>, b: Byte)
    requires Has(w, st, s)
    ensures Feed(w, st, b) ==
            if Fits(w, s + [b]) then State(if b < 128 then Done else InProgress, st.error, |s| + 1, Value(s + [b]))
            else st.(error := Overflow, status := Error)
  {
    CheckExact(w, st, s, b);
    if Fits(w, s + [b]) {
      var shifted := if s == [] then 0 else st.value * 128;
      if s != [] { NoWrap(st.value * 128, w.Limit()); }
      FeedPassed(w, st, b, shifted);
    }
  }

  lemma {:induction false} FeedPassed(w: Width, st: State, b: Byte, shifted: nat)
    requires st.status == InProgress && (st.count < w.MaxBytes() - 1 || (st.count == w.MaxBytes() - 1 && st.value <= w.LastLimit()))
    requires shifted == if st.count == 0 then 0 else st.value * 128 % w.Limit()
    ensures Feed(w, st, b) == State(if b < 128 then Done else InProgress, st.error, st.count + 1, shifted + b % 128)
  {
  }

  lemma {:induction false} NoWrap(x: nat, limit: nat)
    requires x < limit
    ensures x % limit == x
  {
  }

  ghost predicate Readable(w: Width, s: seq<Byte>) { WellFormed(s) && Fits(w, s) }

  /** While in progress, the reader has the value of all bytes so far. */
  lemma {:induction false} ProgressIffLeading(w: Width, value: nat, s: seq<Byte>)
    ensures var st := FeedAll(w, Reset(value), s);
            && (st.status == InProgress <==> Fits(w, s) && forall i :: 0 <= i < |s| ==> s[i] >= 128)
            && (st.status == InProgress ==> Has(w, st, s) && st.error == NoProblem)
  {
    WidthFacts(w);
    if s != [] {
      var n := |s| - 1;
      var st := FeedAll(w, Reset(value), s[..n]);
      ProgressIffLeading(w, value, s[..n]);
      assert s[..n] + [s[n]] == s;
      if st.status == InProgress { FeedMore(w, st, s[..n], s[n]); }
      if Fits(w, s) { FitsPrefix(w, s[..n], [s[n]]); }
    }
  }

  lemma {:induction false} FitsPrefix(w: Width, s: seq<Byte>, more: seq<Byte>)
    requires Fits(w, s + more)
    ensures Fits(w, s)
    decreases |more|
  {
    if more == [] {
      assert s + more == s;
    } else {
      var n := |more| - 1;
      assert (s + more)[..|s + more| - 1] == s + more[..n];
      FitsPrefix(w, s, more[..n]);
    }
  }

  /**
   The reader of a width is done after a byte string, and not earlier, exactly if that is a well-formed
   encoding of at most the longest length and of a value in range; then it has that value.
   */
  lemma {:induction false} DoneIffReadable(w: Width, value: nat, s: seq<Byte>)
    requires s != []
    ensures FeedAll(w, Reset(value), s[..|s| - 1]).status == InProgress && FeedAll(w, Reset(value), s).status == Done
            <==> Readable(w, s)
    ensures Readable(w, s) ==> FeedAll(w, Reset(value), s) == State(Done, NoProblem, |s|, Value(s))
  {
    var n := |s| - 1;
    var st := FeedAll(w, Reset(value), s[..n]);
    ProgressIffLeading(w, value, s[..n]);
    assert s[..n] + [s[n]] == s;
    if st.status == InProgress { FeedMore(w, st, s[..n], s[n]); }
    if Fits(w, s) { FitsPrefix(w, s[..n], [s[n]]); }
  }

  /** Reading what was written gives the value back, whatever follows. */
  lemma {:induction false} ReadAfterWrite(w: Width, value: nat, v: nat, rest: seq<Byte>)
    requires v < w.Limit()
    ensures Readable(w, Encode(v))
    ensures FeedAll(w, Reset(value), Encode(v) + rest) == State(Done, NoProblem, |Encode(v)|, v)
  {
    EncodeValue(v);
    WidthFacts(w);
    EncodeSize(v, w.MaxBytes());
    DoneIffReadable(w, value, Encode(v));
    FeedAllAppend(w, Reset(value), Encode(v), rest);
    FeedAllStuck(w, FeedAll(w, Reset(value), Encode(v)), rest);
  }

  lemma {:induction false} WithinReadable(w: Width, s: seq<Byte>, n: nat)
    requires Readable(w, s) && n < |s|
    ensures FeedAll(w, Reset(0), s[..n]).status == InProgress
  {
    assert s[..n] + s[n..] == s;
    FitsPrefix(w, s[..n], s[n..]);
    ProgressIffLeading(w, 0, s[..n]);
  }

  /** Within an encoding the reader is in progress; each byte takes it one step further. */
  lemma {:induction false} WithinEncoding(w: Width, v: nat, n: nat)
    requires v < w.Limit() && n < |Encode(v)|
    ensures FeedAll(w, Reset(0), Encode(v)[..n]).status == InProgress
    ensures FeedAll(w, Reset(0), Encode(v)[..n + 1]) == Feed(w, FeedAll(w, Reset(0), Encode(v)[..n]), Encode(v)[n])
    ensures n + 1 == |Encode(v)| ==> FeedAll(w, Reset(0), Encode(v)[..n + 1]) == State(Done, NoProblem, n + 1, v)
  {
    var s := Encode(v);
    assert Readable(w, s) && FeedAll(w, Reset(0), s) == State(Done, NoProblem, |s|, v) by {
      ReadAfterWrite(w, 0, v, []);
      assert s + [] == s;
    }
    WithinReadable(w, s, n);
    assert s[..n + 1][..n] == s[..n];
    if n + 1 == |s| { assert s[..n + 1] == s; }
  }

  /**
   A caller that goes on after the end gets an error. If it goes on once more, the reader forgets the error and is done
   again if and only if the value with the new byte, and without the refused one, fits.
   */
  lemma {:induction false} RevivedAfterError(w: Width, value: nat, s: seq<Byte>, refused: Byte, b: Byte)
    requires Readable(w, s) && b < 128
    ensures var st := Feed(w, FeedAll(w, Reset(value), s), refused);
            var t := Feed(w, st, b);
            && st.status == Error && !WellFormed(s + [refused])
            && (t.status == Done <==> Fits(w, s + [b]))
            && (t.status == Done ==> t.value == Value(s + [b]) && t.error != NoProblem)
  {
    var done := FeedAll(w, Reset(value), s);
    DoneIffReadable(w, value, s);
    var st := Feed(w, done, refused);
    CheckExact(w, st, s, b);
    if Fits(w, s + [b]) { NoWrap(st.value * 128, w.Limit()); }
    assert (s + [refused])[|s| - 1] < 128;
  }

  // ---------------------------------------------------------------- The C writer

  /** `sdnv_get_size_u8` and so on; the masks select the bits from 7, 14, 21 and so on upwards. */
  function SizeOf(w: Width, v: nat): nat {
    match w
    case U8 => if v < 0x80 then 1 else 2
    case U16 => if v < 0x80 then 1 else if v < 0x4000 then 2 else 3
    case U32 =>
      if v < 0x80 then 1 else if v < 0x4000 then 2 else if v < 0x20_0000 then 3 else if v < 0x1000_0000 then 4 else 5
    case U64 =>
      if v < 0x80 then 1 else if v < 0x4000 then 2 else if v < 0x20_0000 then 3 else if v < 0x1000_0000 then 4
      else if v < 0x8_0000_0000 then 5 else if v < 0x400_0000_0000 then 6 else if v < 0x2_0000_0000_0000 then 7
      else if v < 0x100_0000_0000_0000 then 8 else if v < 0x8000_0000_0000_0000 then 9 else 10
  }

  lemma {:induction false} Powers()
    ensures Pow128(1) == 0x80 && Pow128(2) == 0x4000 && Pow128(3) == 0x20_0000 && Pow128(4) == 0x1000_0000
    ensures Pow128(5) == 0x8_0000_0000 && Pow128(6) == 0x400_0000_0000 && Pow128(7) == 0x2_0000_0000_0000
    ensures Pow128(8) == 0x100_0000_0000_0000 && Pow128(9) == 0x8000_0000_0000_0000
  {
    assert Pow128(3) == 0x20_0000;
    assert Pow128(6) == 128 * Pow128(5) && Pow128(5) == 128 * Pow128(4) && Pow128(4) == 128 * Pow128(3);
    assert Pow128(9) == 128 * Pow128(8) && Pow128(8) == 128 * Pow128(7) && Pow128(7) == 128 * Pow128(6);
  }

  lemma {:induction false} SizeIsGroups(w: Width, v: nat, k: nat)
    requires v < w.Limit() && 0 < k < w.MaxBytes()
    ensures SizeOf(w, v) <= k <==> v < Pow128(k)
  {
    Powers();
  }

  /** The calculated size is that of the shortest encoding. */
  lemma {:induction false} SizeExact(w: Width, v: nat)
    requires v < w.Limit()
    ensures SizeOf(w, v) == |Encode(v)| <= w.MaxBytes()
  {
    WidthFacts(w);
    EncodeSize(v, w.MaxBytes());
    var n, m := SizeOf(w, v), |Encode(v)|;
    if n < w.MaxBytes() { SizeIsGroups(w, v, n); EncodeSize(v, n); }
    if m < w.MaxBytes() { SizeIsGroups(w, v, m); EncodeSize(v, m); }
  }

  /** `v` in `n` groups of seven bits, each with the top bit set. */
  function Groups(v: nat, n: nat): (r: seq<Byte>)
    ensures |r| == n
  {
    if n == 0 then [] else Groups(v / 128, n - 1) + [128 + v % 128]
  }

  lemma {:induction false} GroupsLeading(v: nat)
    ensures Groups(v, |Leading(v)|) == Leading(v)
  {
    if v >= 128 {
      GroupsLeading(v / 128);
    } else {
      assert Groups(v / 128, 0) == [];
    }
  }

  lemma {:induction false} GroupsEncode(v: nat)
    ensures var g := Groups(v, |Encode(v)|); g[|g| - 1 := g[|g| - 1] - 128] == Encode(v)
  {
    var n := |Encode(v)|;
    if v >= 128 {
      GroupsLeading(v / 128);
      assert Groups(v, n) == Leading(v / 128) + [128 + v % 128];
    } else {
      assert Groups(v, n) == Groups(v / 128, 0) + [128 + v % 128];
      assert Groups(v / 128, 0) == [];
    }
  }

  lemma {:induction false} GroupStep(left: nat, i: nat, after: seq<Byte>)
    ensures Groups(left, i + 1) + after == Groups(left / 128, i) + ([128 + left % 128] + after)
  {
    assert Groups(left, i + 1) == Groups(left / 128, i) + [128 + left % 128];
  }

  /** The loop of the writer: the buffer is filled from the last byte backwards. */
  method WriteGroups(buffer: array<Byte>, value: nat, n: nat)
    requires n <= buffer.Length
    modifies buffer
    ensures buffer[..n] == Groups(value, n)
  {
    var left, i := value, n;
    assert buffer[n..n] == [];
    while i > 0
      invariant 0 <= i <= n && left >= 0
      invariant Groups(left, i) + buffer[i..n] == Groups(value, n)
    {
      ghost var after := buffer[i..n];
      i := i - 1;
      GroupStep(left, i, after);
      buffer[i] := left % 128 + 128;
      assert buffer[i..n] == [128 + left % 128] + after;
      left := left / 128;
    }
    assert buffer[..n] == buffer[0..n];
  }

  /** `sdnv_write_u8` and so on */
  method Write(w: Width, buffer: array<Byte>, value: nat) returns (n: nat)
    requires value < w.Limit() && w.MaxBytes() <= buffer.Length
    modifies buffer
    ensures n == |Encode(value)| <= buffer.Length && buffer[..n] == Encode(value)
  {
    SizeExact(w, value);
    n := SizeOf(w, value);
    WriteGroups(buffer, value, n);
    GroupsEncode(value);
    ghost var groups := buffer[..n];
    assert groups[n - 1] == buffer[n - 1];
    buffer[n - 1] := buffer[n - 1] - 128;
    assert buffer[..n] == groups[n - 1 := groups[n - 1] - 128];
  }

  // ---------------------------------------------------------------- The Python codec

  function Reversed(s: seq<Byte>): (r: seq<Byte>)
    ensures |r| == |s|
  {
    seq(|s|, i requires 0 <= i < |s| => s[|s| - 1 - i])
  }

  lemma {:induction false} ReversedStep(s: seq<Byte>, b: Byte)
    ensures Reversed(s + [b]) == [b] + Reversed(s)
  {
  }

  function Higher(v: nat): seq<Byte> { if v == 0 then [] else Leading(v) }

  lemma {:induction false} HigherStep(v: nat, after: seq<Byte>)
    requires v > 0
    ensures Higher(v) + after == Higher(v / 128) + ([128 + v % 128] + after)
  {
    assert Higher(v) == Higher(v / 128) + [128 + v % 128];
  }

  /** `sdnv_encode` */
  method PythonEncode(value: nat) returns (r: seq<Byte>)
    ensures r == Encode(value)
  {
    if value == 0 { return [0]; }
    var left: nat := value;
    var result: seq<Byte> := [];
    while left != 0
      invariant left == 0 ==> result != []
      invariant Higher(left) + Reversed(result) == Higher(value)
      decreases left
    {
      HigherStep(left, Reversed(result));
      ReversedStep(result, left % 128 + 128);
      result := result + [left % 128 + 128];
      left := left / 128;
    }
    HigherStep(value, []);
    assert Reversed(result) == Higher(value / 128) + [128 + value % 128];
    ClearFirst(result, Higher(value / 128), value % 128);
    result := result[0 := result[0] - 128];
    r := Reversed(result);
  }

  /** Clearing the top bit of the first byte clears it in the last one of the reversed string. */
  lemma {:induction false} ClearFirst(s: seq<Byte>, high: seq<Byte>, low: Byte)
    requires Reversed(s) == high + [128 + low] && low < 128 && s != []
    ensures s[0] == 128 + low && Reversed(s[0 := s[0] - 128]) == high + [low]
  {
    var n, r := |s| - 1, Reversed(s);
    assert s[0] == r[n];
    forall i | 0 <= i < n ensures s[0 := s[0] - 128][n - i] == high[i] { assert r[i] == high[i]; }
  }

  datatype Decoded = Number(n: nat, length: nat) | ValueError

  /** Every proper prefix of the bytes up to `n` has only leading bytes. */
  ghost predicate NoEnd(s: seq<Byte>, n: nat) { n <= |s| && forall i :: 0 <= i < n ==> s[i] >= 128 }

  /** `sdnv_decode`: the value and length of the encoding that the buffer starts with. */
  method PythonDecode(buffer: seq<Byte>) returns (r: Decoded)
    ensures r.Number? ==> r.length <= |buffer| && WellFormed(buffer[..r.length]) && r.n == Value(buffer[..r.length])
    ensures r.ValueError? <==> NoEnd(buffer, |buffer|)
  {
    var n: nat := 0;
    for i := 0 to |buffer|
      invariant NoEnd(buffer, i) && n == Value(buffer[..i])
    {
      assert buffer[..i + 1][..i] == buffer[..i];
      n := n * 128 + buffer[i] % 128;
      if buffer[i] < 128 {
        return Number(n, i + 1);
      }
    }
    return ValueError;
  }
}
