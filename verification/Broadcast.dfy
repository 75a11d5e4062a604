/** The reference simulation of an epidemic broadcast: who can have been informed, second by second. */
module Broadcast {

  type Node = nat

  /** A pair of nodes, the greater one first. */
  type Pair = (Node, Node)

  /** `conn_start`: since when pairs have been in contact; a pair that is not is missing. */
  type Since = map<Pair, nat>

  /** `node_informed`: when nodes were informed; a node that was not is missing. */
  type Informed = map<Node, nat>

  /** One second of the scenario: which nodes are alive, in the order of iteration, and which pairs are within the distance limit. */
  datatype Second = Second(alive: seq<Node>, near: set<Pair>) {
    /** The pairs that are looked at: every two nodes that are alive. */
    ghost function Pairs(): set<Pair> { set a, b | a in alive && b in alive && a > b :: (a, b) }

    ghost function Nodes(): set<Node> { set n | n in alive }
  }

  /** What second `t` starts with. */
  datatype Start = Start(w: Second, t: nat, setup: real, since: Since) {
    /** When the contact of a near pair began, as of this second. */
    ghost function Began(p: Pair): nat { if p in since then since[p] else t }

    /** The pairs over which information is passed on: their contact has lasted for the setup time. */
    ghost predicate Link(p: Pair) { p in w.Pairs() && p in w.near && (t - Began(p)) as real >= setup }

    ghost predicate Closed(s: set<Node>) { forall p :: Link(p) ==> (p.0 in s <==> p.1 in s) }

    /** Every closed set that contains `s` contains `r`. */
    ghost predicate Necessary(s: set<Node>, r: set<Node>) { forall c: set<Node> :: s <= c && Closed(c) ==> r <= c }

    /** `r` is the least closed superset of `s`. */
    ghost predicate LeastClosed(s: set<Node>, r: set<Node>) { s <= r && Closed(r) && Necessary(s, r) }

    /** The contact times after the pairs in `done` have been visited. */
    ghost predicate Updated(done: set<Pair>, now: Since) {
      forall p: Pair :: if p in done then (p in now <==> p in w.near) && (p in now ==> now[p] == Began(p))
                        else (p in now <==> p in since) && (p in now ==> now[p] == since[p])
    }

    ghost predicate NotLater() { forall p :: p in since ==> since[p] <= t }
  }

  /** There is only one least closed set, so the order of the pairs does not matter. */
  lemma {:induction false} LeastUnique(g: Start, s: set<Node>, r: set<Node>, r': set<Node>)
    requires g.LeastClosed(s, r) && g.LeastClosed(s, r')
    ensures r == r'
  {
  }

  /** Nodes informed in this second are informed at `t`. */
  ghost predicate Extends(before: Informed, after: Informed, t: nat) {
    && (forall n :: n in before ==> n in after && after[n] == before[n])
    && (forall n :: n in after && n !in before ==> after[n] == t)
  }

  // ---------------------------------------------------------------- One pair

  function Later(since: Since, w: Second, p: Pair, t: nat): Since {
    if p !in w.near then since - {p} else if p in since then since else since[p := t]
  }

  /** The body of the innermost loop. */
  method Visit(w: Second, t: nat, setup: real, p: Pair, since: Since, informed: Informed) returns (since': Since, informed': Informed, newly: bool)
    requires p in since ==> since[p] <= t
    ensures since' == Later(since, w, p, t)
    ensures newly <==> p in w.near && (t - since'[p]) as real >= setup && (p.0 in informed) != (p.1 in informed)
    ensures informed' == if !newly then informed else if p.0 in informed then informed[p.1 := t] else informed[p.0 := t]
  {
    since', informed', newly := since, informed, false;
    if p !in w.near {
      since' := since' - {p};
    } else {
      if p !in since' { since' := since'[p := t]; }
      if (t - since'[p]) as real >= setup {
        if p.0 in informed && p.1 !in informed {
          informed', newly := informed[p.1 := t], true;
        } else if p.1 in informed && p.0 !in informed {
          informed', newly := informed[p.0 := t], true;
        }
      }
    }
  }

  // ---------------------------------------------------------------- One pass

  /** What a second that began with `first` informed has come to. */
  ghost predicate Progress(g: Start, first: Informed, done: set<Pair>, now: Since, so: Informed) {
    g.Updated(done, now) && Extends(first, so, g.t) && g.Necessary(first.Keys, so.Keys)
  }

  /** What a pass that began with `before` informed has come to. */
  ghost predicate PassOk(g: Start, before: Informed, seen: set<Pair>, so: Informed, newly: bool) {
    if newly then before.Keys < so.Keys <= before.Keys + g.w.Nodes()
    else so == before && forall p :: p in seen && g.Link(p) ==> (p.0 in so <==> p.1 in so)
  }

  lemma {:induction false} VisitUpdates(g: Start, done: set<Pair>, now: Since, p: Pair)
    requires g.Updated(done, now)
    ensures g.Updated(done + {p}, Later(now, g.w, p, g.t))
  {
  }

  lemma {:induction false} VisitInforms(g: Start, first: Informed, so: Informed, p: Pair, so': Informed)
    requires Extends(first, so, g.t) && g.Necessary(first.Keys, so.Keys) && g.Link(p) && (p.0 in so) != (p.1 in so)
    requires so' == if p.0 in so then so[p.1 := g.t] else so[p.0 := g.t]
    ensures Extends(first, so', g.t) && g.Necessary(first.Keys, so'.Keys) && so.Keys < so'.Keys <= so.Keys + g.w.Nodes()
  {
    forall c: set<Node> | first.Keys <= c && g.Closed(c) ensures so'.Keys <= c {
      assert so.Keys <= c;
    }
  }

  ghost function Rows(w: Second, i: nat): set<Pair>
    requires i <= |w.alive|
  {
    set a, b | a in w.alive[..i] && b in w.alive && a > b :: (a, b)
  }

  ghost function Row(w: Second, a: Node, j: nat): set<Pair>
    requires j <= |w.alive|
  {
    set b | b in w.alive[..j] && a > b :: (a, b)
  }

  method VisitPair(ghost g: Start, ghost first: Informed, ghost before: Informed, w: Second, t: nat, setup: real,
                   ghost done: set<Pair>, ghost seen: set<Pair>, p: Pair, now: Since, so: Informed, newly: bool)
    returns (now': Since, so': Informed, newly': bool)
    requires g.w == w && g.t == t && g.setup == setup && g.NotLater() && p in w.Pairs()
    requires Progress(g, first, done, now, so) && PassOk(g, before, seen, so, newly)
    ensures Progress(g, first, done + {p}, now', so') && PassOk(g, before, seen + {p}, so', newly')
  {
    var informs;
    now', so', informs := Visit(w, t, setup, p, now, so);
    VisitUpdates(g, done, now, p);
    newly' := newly || informs;
    if informs { VisitInforms(g, first, so, p, so'); }
  }

  lemma {:induction false} RowStep(w: Second, a: Node, j: nat)
    requires j < |w.alive|
    ensures Row(w, a, j + 1) == if a > w.alive[j] then Row(w, a, j) + {(a, w.alive[j])} else Row(w, a, j)
  {
  }

  lemma {:induction false} RowsStep(w: Second, i: nat)
    requires i < |w.alive|
    ensures Rows(w, i + 1) == Rows(w, i) + Row(w, w.alive[i], |w.alive|)
  {
  }

  /** The inner loop. */
  method SweepRow(ghost g: Start, ghost first: Informed, ghost before: Informed, w: Second, t: nat, setup: real,
                  ghost done: set<Pair>, ghost seen: set<Pair>, a: Node, now: Since, so: Informed, newly: bool)
    returns (now': Since, so': Informed, newly': bool)
    requires g.w == w && g.t == t && g.setup == setup && g.NotLater() && a in w.alive
    requires Progress(g, first, done + seen, now, so) && PassOk(g, before, seen, so, newly)
    ensures Progress(g, first, done + (seen + Row(w, a, |w.alive|)), now', so') && PassOk(g, before, seen + Row(w, a, |w.alive|), so', newly')
  {
    now', so', newly' := now, so, newly;
    ghost var all := seen;
    assert all == seen + Row(w, a, 0);
    for j := 0 to |w.alive|
      invariant all == seen + Row(w, a, j)
      invariant Progress(g, first, done + all, now', so') && PassOk(g, before, all, so', newly')
    {
      var b := w.alive[j];
      RowStep(w, a, j);
      if a > b {
        now', so', newly' := VisitPair(g, first, before, w, t, setup, done + all, all, (a, b), now', so', newly');
        assert done + all + {(a, b)} == done + (all + {(a, b)});
        all := all + {(a, b)};
      }
    }
  }

  /** The two loops over the nodes that are alive. */
  method Sweep(ghost g: Start, ghost first: Informed, w: Second, t: nat, setup: real, ghost done: set<Pair>, now: Since, so: Informed)
    returns (now': Since, so': Informed, newly: bool)
    requires g.w == w && g.t == t && g.setup == setup && g.NotLater() && Progress(g, first, done, now, so)
    ensures Progress(g, first, done + w.Pairs(), now', so')
    ensures PassOk(g, so, w.Pairs(), so', newly)
  {
    now', so', newly := now, so, false;
    assert done + Rows(w, 0) == done;
    for i := 0 to |w.alive|
      invariant Progress(g, first, done + Rows(w, i), now', so') && PassOk(g, so, Rows(w, i), so', newly)
    {
      RowsStep(w, i);
      now', so', newly := SweepRow(g, first, so, w, t, setup, done, Rows(w, i), w.alive[i], now', so', newly);
    }
    assert Rows(w, |w.alive|) == w.Pairs() by { assert w.alive[..|w.alive|] == w.alive; }
  }

  // ---------------------------------------------------------------- One second

  /** Passes are repeated until one informs nobody; each of them leaves fewer nodes uninformed. */
  method Pass(w: Second, t: nat, setup: real, since: Since, informed: Informed) returns (since': Since, informed': Informed)
    requires Start(w, t, setup, since).NotLater()
    ensures var g := Start(w, t, setup, since);
            && g.Updated(w.Pairs(), since') && Extends(informed, informed', t)
            && g.LeastClosed(informed.Keys, informed'.Keys)
  {
    ghost var g := Start(w, t, setup, since);
    since', informed' := since, informed;
    ghost var done: set<Pair> := {};
    var newly := true;
    while newly
      invariant Progress(g, informed, done, since', informed')
      invariant done == {} || done == w.Pairs()
      invariant !newly ==> done == w.Pairs() && g.Closed(informed'.Keys)
      decreases |w.Nodes() - informed'.Keys|, newly
    {
      ghost var before := informed';
      since', informed', newly := Sweep(g, informed, w, t, setup, done, since', informed');
      assert done + w.Pairs() == w.Pairs();
      done := w.Pairs();
      if newly { Fewer(w.Nodes(), before.Keys, informed'.Keys); }
    }
  }

  lemma {:induction false} Fewer(all: set<Node>, s: set<Node>, r: set<Node>)
    requires s < r <= s + all
    ensures |all - r| < |all - s|
  {
    var n :| n in r && n !in s;
    assert all - r < all - s by { assert n in all - s && n !in all - r; }
    Smaller(all - r, all - s);
  }

  lemma {:induction false} Smaller(s: set<Node>, r: set<Node>)
    requires s < r
    ensures |s| < |r|
  {
    if s != {} {
      var n :| n in s;
      Smaller(s - {n}, r - {n});
    }
  }

  // ---------------------------------------------------------------- The whole simulation

  /** The contact times that a second leaves behind. */
  ghost function After(g: Start): Since {
    map p | p in g.since.Keys + g.w.Pairs() && (if p in g.w.Pairs() then p in g.w.near else p in g.since) :: g.Began(p)
  }

  lemma {:induction false} UpdatedIsAfter(g: Start, now: Since)
    requires g.Updated(g.w.Pairs(), now)
    ensures now == After(g)
  {
    forall p ensures p in now <==> p in After(g) {
    }
    forall p | p in now ensures now[p] == After(g)[p] {
    }
  }

  /** The contact times at the start of second `t`. */
  ghost function SinceAt(world: seq<Second>, setup: real, t: nat): Since
    requires t <= |world|
  {
    if t == 0 then map[] else After(Start(world[t - 1], t - 1, setup, SinceAt(world, setup, t - 1)))
  }

  ghost function StartOf(world: seq<Second>, setup: real, t: nat): Start
    requires t < |world|
  {
    Start(world[t], t, setup, SinceAt(world, setup, t))
  }

  lemma {:induction false} SinceNotLater(world: seq<Second>, setup: real, t: nat)
    requires t <= |world|
    ensures forall p :: p in SinceAt(world, setup, t) ==> SinceAt(world, setup, t)[p] <= t
  {
    if t > 0 { SinceNotLater(world, setup, t - 1); }
  }

  /** The nodes informed before second `t`; the source is informed from the start. */
  ghost function Before(informed: Informed, source: Node, t: nat): set<Node> {
    set n | n in informed && (informed[n] < t || n == source)
  }

  /** Second `t` has informed as few nodes as it could. */
  ghost predicate SecondOk(world: seq<Second>, setup: real, informed: Informed, source: Node, t: nat)
    requires t < |world|
  {
    StartOf(world, setup, t).LeastClosed(Before(informed, source, t), Before(informed, source, t + 1))
  }

  /** A further second changes nothing about the earlier ones. */
  lemma {:induction false} OneMoreSecond(world: seq<Second>, setup: real, first: Informed, informed: Informed, source: Node, t: nat)
    requires t < |world| && source in first && Extends(first, informed, t) && Before(first, source, t) == first.Keys
    requires StartOf(world, setup, t).LeastClosed(first.Keys, informed.Keys)
    requires forall k :: 0 <= k < t ==> SecondOk(world, setup, first, source, k)
    ensures Before(informed, source, t + 1) == informed.Keys
    ensures forall k :: 0 <= k <= t ==> SecondOk(world, setup, informed, source, k)
  {
    forall n | n in informed ensures informed[n] < t + 1 || n == source {
      if n in first { assert n in Before(first, source, t); }
    }
    forall k | 0 <= k <= t ensures SecondOk(world, setup, informed, source, k) {
      SameBefore(first, informed, source, t, k);
      if k < t {
        SameBefore(first, informed, source, t, k + 1);
        assert SecondOk(world, setup, first, source, k);
      }
    }
  }

  /**
   `simulate_broadcast`: in every second, the nodes informed at its end are the least set that contains those informed
   before and is closed under contacts that have lasted for the setup time.
   */
  method Simulate(world: seq<Second>, setup: real, source: Node) returns (informed: Informed)
    ensures source in informed && informed[source] == 0
    ensures forall t :: 0 <= t < |world| ==> SecondOk(world, setup, informed, source, t)
    ensures Before(informed, source, |world|) == informed.Keys
  {
    informed := map[source := 0];
    var since: Since := map[];
    for t := 0 to |world|
      invariant since == SinceAt(world, setup, t)
      invariant source in informed && informed[source] == 0 && Before(informed, source, t) == informed.Keys
      invariant forall k :: 0 <= k < t ==> SecondOk(world, setup, informed, source, k)
    {
      ghost var g, first := StartOf(world, setup, t), informed;
      SinceNotLater(world, setup, t);
      since, informed := Pass(world[t], t, setup, since, informed);
      UpdatedIsAfter(g, since);
      OneMoreSecond(world, setup, first, informed, source, t);
    }
  }

  lemma {:induction false} SameBefore(first: Informed, informed: Informed, source: Node, t: nat, k: nat)
    requires Extends(first, informed, t) && source in first && k <= t
    ensures Before(informed, source, k) == Before(first, source, k)
  {
  }
}
