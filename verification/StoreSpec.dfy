/**
 What the bundle store is for, without any tree: a map from 16-bit ids to bundles together
 with the counter from which the next free id is searched.
 */
module StoreSpec {

  type Ref = nat

  const ID_RANGE := 0x1_0000
  const INVALID_ID := 0

  datatype State = State(bundles: map<nat, Ref>, nextId: nat)

  datatype Op = Add(bundle: Ref) | Get(id: nat) | Contains(id: nat) | Delete(id: nat)

  /** The id given to a new bundle, the bundle found (0 for none), or whether an id was present. */
  datatype Reply = Id(id: nat) | Found(bundle: Ref) | Known(yes: bool)

  /** `id++` on a 16-bit counter. */
  function Increment(id: nat): nat { if id + 1 == ID_RANGE then 0 else id + 1 }

  predicate Free(used: set<nat>, id: nat) { id != INVALID_ID && id !in used }

  /** The first free id met when counting up from `k` with 16-bit wrap-around, looking at no more than `left` further ids. */
  function Probe(used: set<nat>, k: nat, left: nat): nat
    decreases left, k
  {
    if Free(used, k) || left == 0 then k else Probe(used, Increment(k), left - 1)
  }

  function Step(s: State, op: Op): (State, Reply) {
    match op
    case Add(b) =>
      var id := Probe(s.bundles.Keys, s.nextId, ID_RANGE - 1);
      (State(s.bundles[id := b], Increment(id)), Id(id))
    case Get(id) => (s, Found(if id != INVALID_ID && id in s.bundles then s.bundles[id] else 0))
    case Contains(id) => (s, Known(id != INVALID_ID && id in s.bundles))
    case Delete(id) =>
      if id != INVALID_ID && id in s.bundles then (s.(bundles := s.bundles - {id}), Known(true)) else (s, Known(false))
  }

  function Run(s: State, ops: seq<Op>): (State, seq<Reply>) {
    if ops == [] then (s, [])
    else
      var (s1, replies) := Run(s, ops[..|ops| - 1]);
      var (s2, reply) := Step(s1, ops[|ops| - 1]);
      (s2, replies + [reply])
  }

  /** No bundle is added while all 65535 ids are taken. */
  ghost predicate NeverFull(s: State, ops: seq<Op>) {
    ops != [] ==>
      && NeverFull(s, ops[..|ops| - 1])
      && (ops[|ops| - 1].Add? ==> |Run(s, ops[..|ops| - 1]).0.bundles| < ID_RANGE - 1)
  }

  lemma {:induction false} NeverFullPrefix(s: State, ops: seq<Op>, n: nat)
    requires NeverFull(s, ops) && n <= |ops|
    ensures NeverFull(s, ops[..n])
  {
    if n < |ops| {
      NeverFullPrefix(s, ops[..|ops| - 1], n);
      assert ops[..|ops| - 1][..n] == ops[..n];
    } else {
      assert ops[..n] == ops;
    }
  }

  // ---------------------------------------------------------------- The free-id search

  ghost function Range(lo: nat, hi: nat): (r: set<nat>)
    ensures forall i :: i in r <==> lo <= i < hi
  {
    set i: nat {:trigger Within(lo, i, hi)} | Within(lo, i, hi) && lo <= i < hi
  }

  predicate Within(lo: nat, i: nat, hi: nat) { lo <= i < hi }

  lemma {:induction false} RangeSize(lo: nat, hi: nat)
    requires lo <= hi
    ensures |Range(lo, hi)| == hi - lo
    decreases hi
  {
    if lo < hi {
      RangeSize(lo, hi - 1);
      assert Range(lo, hi) == Range(lo, hi - 1) + {hi - 1};
    } else {
      assert Range(lo, hi) == {};
    }
  }

  lemma {:induction false} SubsetSize(a: set<nat>, b: set<nat>)
    requires a <= b
    ensures |a| <= |b|
    decreases a
  {
    if a != {} {
      var x :| x in a;
      SubsetSize(a - {x}, b - {x});
    }
  }

  /** With fewer than 65535 ids taken, some valid id is free. */
  lemma {:induction false} SomeFree(used: set<nat>) returns (id: nat)
    requires |used| < ID_RANGE - 1
    ensures id < ID_RANGE && Free(used, id)
  {
    if forall i :: i in Range(1, ID_RANGE) ==> i in used {
      RangeSize(1, ID_RANGE);
      SubsetSize(Range(1, ID_RANGE), used);
      assert false;
    }
    id :| id in Range(1, ID_RANGE) && id !in used;
  }

  /** The number of increments, with wrap-around, that lead from `k` to `id`. */
  function Distance(k: nat, id: nat): nat
    requires k < ID_RANGE && id < ID_RANGE
  {
    if k <= id then id - k else ID_RANGE - k + id
  }

  lemma {:induction false} ProbeReaches(used: set<nat>, k: nat, left: nat, id: nat)
    requires k < ID_RANGE && id < ID_RANGE && Free(used, id) && Distance(k, id) <= left
    ensures Probe(used, k, left) < ID_RANGE && Free(used, Probe(used, k, left))
    decreases left
  {
    if !Free(used, k) { ProbeReaches(used, Increment(k), left - 1, id); }
  }

  /** The search ends at a fresh non-zero 16-bit id, across wrap-around, unless all of them are taken. */
  lemma {:induction false} ProbeFindsFree(used: set<nat>, k: nat)
    requires k < ID_RANGE && |used| < ID_RANGE - 1
    ensures 0 < Probe(used, k, ID_RANGE - 1) < ID_RANGE && Probe(used, k, ID_RANGE - 1) !in used
  {
    var id := SomeFree(used);
    ProbeReaches(used, k, ID_RANGE - 1, id);
  }

  /** Some valid id is not taken. */
  ghost predicate HasFree(used: set<nat>) { exists id :: id in Range(1, ID_RANGE) && id !in used }

  /** While all valid ids are taken, the search finds none, however long it goes on. */
  lemma {:induction false} ProbeFindsNone(used: set<nat>, k: nat, left: nat)
    requires k < ID_RANGE && !HasFree(used)
    ensures Probe(used, k, left) < ID_RANGE && !Free(used, Probe(used, k, left))
    decreases left
  {
    assert k == 0 || k in Range(1, ID_RANGE);
    if left > 0 { ProbeFindsNone(used, Increment(k), left - 1); }
  }

  /** Of valid ids, all are taken if and only if there are 65535. */
  lemma {:induction false} FreeIffFewer(used: set<nat>)
    requires used <= Range(1, ID_RANGE)
    ensures HasFree(used) <==> |used| < ID_RANGE - 1
  {
    RangeSize(1, ID_RANGE);
    if HasFree(used) {
      var id :| id in Range(1, ID_RANGE) && id !in used;
      SubsetSize(used, Range(1, ID_RANGE) - {id});
    } else {
      SubsetSize(Range(1, ID_RANGE), used);
    }
  }

  /** The search ends, within one round, if and only if some valid id is free. */
  lemma {:induction false} ProbeEndsIff(used: set<nat>, k: nat)
    requires k < ID_RANGE
    ensures Free(used, Probe(used, k, ID_RANGE - 1)) <==> HasFree(used)
    ensures (exists left: nat :: Free(used, Probe(used, k, left))) <==> HasFree(used)
  {
    if HasFree(used) {
      var id :| id in Range(1, ID_RANGE) && id !in used;
      ProbeReaches(used, k, ID_RANGE - 1, id);
    } else {
      forall left: nat ensures !Free(used, Probe(used, k, left)) { ProbeFindsNone(used, k, left); }
    }
  }
}
