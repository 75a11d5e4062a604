/**
 The shape of the bundle store's search tree: the memory cells of `struct node`, and the
 ghost values (a tree of addresses, and a path to a hole in it) that say how the pointers
 in those cells hang together.
 */
module AvlTree {

  /** An address; 0 is the null pointer. */
  type Ref = nat

  /** Index into `successor[2]`: 0 leads to smaller ids, 1 to larger ones. */
  type Side = d: nat | d < 2

  /** One `struct node`; `bundle` is the address of the stored bundle. */
  datatype Node = Node(id: nat, bundle: Ref, succ0: Ref, succ1: Ref, parent: Ref, height: int) {
    function Succ(d: Side): Ref { if d == 0 then succ0 else succ1 }
    function SetSucc(d: Side, p: Ref): Node { if d == 0 then this.(succ0 := p) else this.(succ1 := p) }
  }

  type Heap = map<Ref, Node>

  /** The parts of a node that never change: its address, and the id and bundle stored there. */
  datatype Cell = Cell(ref: Ref, id: nat, bundle: Ref)

  datatype Tree = Leaf | Branch(cell: Cell, sub0: Tree, sub1: Tree)

  /** The branch with subtree `a` on side `d` and `b` on the other side. */
  ghost function Mk(d: Side, n: Cell, a: Tree, b: Tree): Tree {
    if d == 0 then Branch(n, a, b) else Branch(n, b, a)
  }

  ghost function CellAt(h: Heap, r: Ref): Cell
    requires r in h
  {
    Cell(r, h[r].id, h[r].bundle)
  }

  ghost function At(h: Heap, d: Side, r: Ref, a: Tree, b: Tree): Tree
    requires r in h
  {
    Mk(d, CellAt(h, r), a, b)
  }

  ghost function Refs(t: Tree): set<Ref> {
    match t
    case Leaf => {}
    case Branch(n, a, b) => {n.ref} + Refs(a) + Refs(b)
  }

  ghost function InOrder(t: Tree): seq<Cell> {
    match t
    case Leaf => []
    case Branch(n, a, b) => InOrder(a) + [n] + InOrder(b)
  }

  function Max(x: int, y: int): int { if x > y then x else y }

  ghost function H(t: Tree): nat {
    match t
    case Leaf => 0
    case Branch(_, a, b) => 1 + Max(H(a), H(b))
  }

  ghost function Balance(t: Tree): int {
    if t.Leaf? then 0 else H(t.sub0) - H(t.sub1)
  }

  ghost predicate Avl(t: Tree) {
    t.Branch? ==> -1 <= Balance(t) <= 1 && Avl(t.sub0) && Avl(t.sub1)
  }

  ghost predicate Distinct(t: Tree) {
    t.Branch? ==>
      && t.cell.ref !in Refs(t.sub0) && t.cell.ref !in Refs(t.sub1)
      && Refs(t.sub0) !! Refs(t.sub1)
      && Distinct(t.sub0) && Distinct(t.sub1)
  }

  /** `p` is the top of a pointer structure of shape `t`, with exact parent links leading up to `par`. */
  ghost predicate Linked(h: Heap, t: Tree, p: Ref, par: Ref) {
    match t
    case Leaf => p == 0
    case Branch(n, a, b) =>
      && p == n.ref && p != 0 && p in h && CellAt(h, p) == n && h[p].parent == par
      && Linked(h, a, h[p].succ0, p) && Linked(h, b, h[p].succ1, p)
  }

  /** Every stored height is the exact height. */
  ghost predicate Heights(h: Heap, t: Tree) {
    t.Branch? ==> t.cell.ref in h && h[t.cell.ref].height == H(t) && Heights(h, t.sub0) && Heights(h, t.sub1)
  }

  /** Linked and with exact heights. */
  ghost predicate Rep(h: Heap, t: Tree, p: Ref, par: Ref) {
    Linked(h, t, p, par) && Heights(h, t)
  }

  ghost predicate Same(h: Heap, h': Heap, s: set<Ref>) {
    forall r :: r in s && r in h ==> r in h' && h'[r] == h[r]
  }

  /** No node is allocated or freed, and only those in `touched` are written to. */
  ghost predicate Only(h: Heap, h': Heap, touched: set<Ref>) {
    h'.Keys == h.Keys && forall r :: r in h && r !in touched ==> h'[r] == h[r]
  }

  /** Cells outside a subtree do not matter to it. */
  lemma {:induction false} RepFrame(h: Heap, h': Heap, t: Tree, p: Ref, par: Ref)
    requires Rep(h, t, p, par) && Same(h, h', Refs(t))
    ensures Rep(h', t, p, par)
  {
    match t
    case Leaf =>
    case Branch(_, a, b) => RepFrame(h, h', a, h[p].succ0, p); RepFrame(h, h', b, h[p].succ1, p);
  }

  /** Moving a subtree under another parent only changes its top cell's parent link. */
  lemma {:induction false} Reparent(h: Heap, h': Heap, t: Tree, p: Ref, par: Ref, par': Ref)
    requires Rep(h, t, p, par) && Distinct(t)
    requires Same(h, h', Refs(t) - {p})
    requires p != 0 ==> p in h' && h'[p] == h[p].(parent := par')
    ensures Rep(h', t, p, par')
  {
    if t.Branch? {
      RepFrame(h, h', t.sub0, h[p].succ0, p);
      RepFrame(h, h', t.sub1, h[p].succ1, p);
    }
  }

  lemma {:induction false} MkFacts(d: Side, n: Cell, a: Tree, b: Tree)
    ensures Refs(Mk(d, n, a, b)) == {n.ref} + Refs(a) + Refs(b)
    ensures H(Mk(d, n, a, b)) == 1 + Max(H(a), H(b))
    ensures Distinct(Mk(d, n, a, b)) <==>
            n.ref !in Refs(a) && n.ref !in Refs(b) && Refs(a) !! Refs(b) && Distinct(a) && Distinct(b)
    ensures Avl(Mk(d, n, a, b)) <==> -1 <= H(a) - H(b) <= 1 && Avl(a) && Avl(b)
  {
  }

  /** Putting a node above two represented subtrees. */
  lemma {:induction false} MkRep(h: Heap, d: Side, r: Ref, a: Tree, b: Tree)
    requires r in h && r != 0
    requires Rep(h, a, h[r].Succ(d), r) && Rep(h, b, h[r].Succ(1 - d), r)
    ensures Linked(h, At(h, d, r, a, b), r, h[r].parent)
    ensures h[r].height == 1 + Max(H(a), H(b)) ==> Rep(h, At(h, d, r, a, b), r, h[r].parent)
  {
  }

  lemma {:induction false} MkUnrep(h: Heap, d: Side, n: Cell, a: Tree, b: Tree, p: Ref, par: Ref)
    requires Rep(h, Mk(d, n, a, b), p, par)
    ensures p == n.ref && p != 0 && p in h && CellAt(h, p) == n && h[p].parent == par
    ensures Rep(h, a, h[p].Succ(d), p) && Rep(h, b, h[p].Succ(1 - d), p)
  {
  }

  function Height(h: Heap, p: Ref): int {
    if p in h && p != 0 then h[p].height else 0
  }

  function Recalc(h: Heap, r: Ref): Heap
    requires r in h
  {
    h[r := h[r].(height := 1 + Max(Height(h, h[r].succ0), Height(h, h[r].succ1)))]
  }

  lemma {:induction false} HeightExact(h: Heap, t: Tree, p: Ref, par: Ref)
    requires Rep(h, t, p, par)
    ensures Height(h, p) == H(t)
  {
  }

  /** Recalculating the height of a node above two represented subtrees completes their branch. */
  lemma {:induction false} RecalcRep(h: Heap, d: Side, r: Ref, a: Tree, b: Tree)
    requires r in h && r != 0 && r !in Refs(a) && r !in Refs(b)
    requires Rep(h, a, h[r].Succ(d), r) && Rep(h, b, h[r].Succ(1 - d), r)
    ensures Rep(Recalc(h, r), At(h, d, r, a, b), r, h[r].parent)
  {
    HeightExact(h, a, h[r].Succ(d), r);
    HeightExact(h, b, h[r].Succ(1 - d), r);
    RepFrame(h, Recalc(h, r), a, h[r].Succ(d), r);
    RepFrame(h, Recalc(h, r), b, h[r].Succ(1 - d), r);
    MkRep(Recalc(h, r), d, r, a, b);
  }

  /** A branch whose two subtrees are finished, while its own height may be stale and its balance off by one more. */
  ghost predicate Pending(h: Heap, t: Tree, p: Ref, par: Ref) {
    && t.Branch? && p == t.cell.ref && p != 0 && p in h
    && CellAt(h, p) == t.cell && h[p].parent == par
    && Rep(h, t.sub0, h[p].succ0, p) && Rep(h, t.sub1, h[p].succ1, p)
    && Avl(t.sub0) && Avl(t.sub1) && Distinct(t) && -2 <= Balance(t) <= 2
  }

  lemma {:induction false} PendingMk(h: Heap, d: Side, n: Cell, a: Tree, b: Tree, par: Ref)
    requires n.ref != 0 && n.ref in h && CellAt(h, n.ref) == n && h[n.ref].parent == par
    requires Rep(h, a, h[n.ref].Succ(d), n.ref) && Rep(h, b, h[n.ref].Succ(1 - d), n.ref)
    requires Avl(a) && Avl(b) && Distinct(Mk(d, n, a, b)) && -2 <= H(a) - H(b) <= 2
    ensures Pending(h, Mk(d, n, a, b), n.ref, par)
  {
  }

  /** A finished subtree. */
  ghost predicate Sound(h: Heap, t: Tree, p: Ref, par: Ref) {
    Rep(h, t, p, par) && Avl(t) && Distinct(t)
  }

  /** A rotation keeps the in-order contents. */
  lemma {:induction false} RotationInOrder(d: Side, r: Cell, n: Cell, a: Tree, b: Tree, c: Tree)
    ensures InOrder(Mk(1 - d, n, Mk(1 - d, r, c, b), a))
         == InOrder(Mk(d, r, Mk(d, n, a, b), c))
  {
  }

  lemma {:induction false} RotationRefs(d: Side, r: Cell, n: Cell, a: Tree, b: Tree, c: Tree)
    requires Distinct(Mk(d, r, Mk(d, n, a, b), c))
    ensures Refs(Mk(1 - d, n, Mk(1 - d, r, c, b), a))
         == Refs(Mk(d, r, Mk(d, n, a, b), c))
    ensures Distinct(Mk(1 - d, n, Mk(1 - d, r, c, b), a))
  {
  }

  /** Lifting the higher grandchild on the heavy side restores balance and loses at most one level. */
  lemma {:induction false} SingleRotationBalance(d: Side, r: Cell, n: Cell, a: Tree, b: Tree, c: Tree)
    requires Avl(a) && Avl(b) && Avl(c) && H(a) == H(c) + 1 && H(a) - 1 <= H(b) <= H(a)
    ensures var t' := Mk(1 - d, n, Mk(1 - d, r, c, b), a);
            Avl(t') && H(c) + 2 <= H(t') <= H(c) + 3
  {
    MkFacts(1 - d, r, c, b);
    MkFacts(1 - d, n, Mk(1 - d, r, c, b), a);
  }

  lemma {:induction false} DoubleRotationShape(d: Side, r: Cell, n: Cell, m: Cell, a: Tree, p: Tree, q: Tree, c: Tree)
    requires Distinct(Mk(d, r, Mk(d, n, a, Mk(1 - d, m, p, q)), c))
    ensures var t := Mk(d, r, Mk(d, n, a, Mk(1 - d, m, p, q)), c);
            var t1 := Mk(d, r, Mk(d, m, Mk(d, n, a, q), p), c);
            var t2 := Mk(1 - d, m, Mk(1 - d, r, c, p), Mk(d, n, a, q));
            && InOrder(t2) == InOrder(t) && Refs(t1) == Refs(t2) == Refs(t) && Distinct(t1) && Distinct(t2)
  {
    var x, x1 := Mk(d, n, a, Mk(1 - d, m, p, q)), Mk(d, m, Mk(d, n, a, q), p);
    assert x == Mk(1 - d, n, Mk(1 - d, m, p, q), a);
    MkFacts(d, r, x, c);
    MkFacts(d, r, x1, c);
    RotationInOrder(1 - d, n, m, p, q, a);
    RotationRefs(1 - d, n, m, p, q, a);
    RotationInOrder(d, r, m, Mk(d, n, a, q), p, c);
    RotationRefs(d, r, m, Mk(d, n, a, q), p, c);
  }

  /** Lifting the inner grandchild twice restores balance and loses one level. */
  lemma {:induction false} DoubleRotationBalance(d: Side, r: Cell, n: Cell, m: Cell, a: Tree, b1: Tree, b2: Tree, c: Tree)
    requires Avl(a) && Avl(b1) && Avl(b2) && Avl(c) && H(a) == H(c) && Max(H(b1), H(b2)) == H(c) && -1 <= H(b1) - H(b2) <= 1
    ensures var t' := Mk(1 - d, m, Mk(1 - d, r, c, b2), Mk(d, n, a, b1));
            Avl(t') && H(t') == H(c) + 2
  {
    MkFacts(1 - d, r, c, b2);
    MkFacts(d, n, a, b1);
    MkFacts(1 - d, m, Mk(1 - d, r, c, b2), Mk(d, n, a, b1));
  }

  // ---------------------------------------------------------------- Paths

  /** A path from a hole up to the root: at each step the node, the side the hole is on, and the other subtree. */
  datatype Ctx = Top | In(up: Ctx, cell: Cell, side: Side, sib: Tree)

  ghost function CtxRefs(c: Ctx): set<Ref> {
    match c
    case Top => {}
    case In(up, n, _, sib) => {n.ref} + Refs(sib) + CtxRefs(up)
  }

  ghost function Plug(c: Ctx, t: Tree): Tree {
    match c
    case Top => t
    case In(up, n, d, sib) => Plug(up, Mk(d, n, t, sib))
  }

  /** The path `e` continued by the path `base`. */
  ghost function Under(e: Ctx, base: Ctx): Ctx {
    match e
    case Top => base
    case In(up, n, d, sib) => In(Under(up, base), n, d, sib)
  }

  /** The node directly above the hole, or `above` when the path is empty. */
  ghost function Parent(c: Ctx, above: Ref): Ref {
    if c.Top? then above else c.cell.ref
  }

  ghost predicate CtxRep(h: Heap, c: Ctx, hole: Ref, root: Ref, above: Ref) {
    match c
    case Top => root == hole
    case In(up, n, d, sib) =>
      var r := n.ref;
      && r != 0 && r in h && CellAt(h, r) == n
      && h[r].Succ(d) == hole && h[r].parent == Parent(up, above)
      && Rep(h, sib, h[r].Succ(1 - d), r)
      && CtxRep(h, up, r, root, above)
  }

  ghost predicate CtxDistinct(c: Ctx) {
    match c
    case Top => true
    case In(up, n, _, sib) =>
      && n.ref !in Refs(sib) && n.ref !in CtxRefs(up) && Refs(sib) !! CtxRefs(up)
      && Distinct(sib) && CtxDistinct(up)
  }

  /** The path is balanced everywhere when a subtree of height `n` fills the hole. */
  ghost predicate CtxAvl(c: Ctx, n: int) {
    match c
    case Top => true
    case In(up, _, _, sib) => Avl(sib) && -1 <= n - H(sib) <= 1 && CtxAvl(up, 1 + Max(n, H(sib)))
  }

  /** Filling a hole made for height `n` with `t`, once `t` is rebalanced, is off by at most one level. */
  ghost predicate Near(t: Tree, n: int) {
    if -1 <= Balance(t) <= 1 then -1 <= H(t) - n <= 1 else n <= H(t) <= n + 1
  }

  ghost function Before(c: Ctx): seq<Cell> {
    match c
    case Top => []
    case In(up, n, d, sib) => Before(up) + (if d == 0 then [] else InOrder(sib) + [n])
  }

  ghost function After(c: Ctx): seq<Cell> {
    match c
    case Top => []
    case In(up, n, d, sib) => (if d == 0 then [n] + InOrder(sib) else []) + After(up)
  }

  lemma {:induction false} PlugInOrder(c: Ctx, t: Tree)
    ensures InOrder(Plug(c, t)) == Before(c) + InOrder(t) + After(c)
  {
    match c
    case Top =>
    case In(up, n, d, sib) => PlugInOrder(up, Mk(d, n, t, sib));
  }

  lemma {:induction false} PlugRefs(c: Ctx, t: Tree)
    ensures Refs(Plug(c, t)) == CtxRefs(c) + Refs(t)
  {
    match c
    case Top =>
    case In(up, n, d, sib) => PlugRefs(up, Mk(d, n, t, sib));
  }

  lemma {:induction false} PlugSame(c: Ctx, t: Tree, t': Tree)
    requires InOrder(t') == InOrder(t) && Refs(t') == Refs(t)
    ensures InOrder(Plug(c, t')) == InOrder(Plug(c, t))
    ensures Refs(Plug(c, t')) == Refs(Plug(c, t)) == CtxRefs(c) + Refs(t)
  {
    PlugInOrder(c, t);
    PlugInOrder(c, t');
    PlugRefs(c, t);
    PlugRefs(c, t');
  }

  lemma {:induction false} CtxFrame(h: Heap, h': Heap, c: Ctx, hole: Ref, root: Ref, above: Ref)
    requires CtxRep(h, c, hole, root, above) && Same(h, h', CtxRefs(c))
    ensures CtxRep(h', c, hole, root, above)
  {
    match c
    case Top =>
    case In(up, n, d, sib) =>
      RepFrame(h, h', sib, h[n.ref].Succ(1 - d), n.ref);
      CtxFrame(h, h', up, n.ref, root, above);
  }

  /** The top of a non-empty path is one of its nodes. */
  lemma {:induction false} TopOfPath(h: Heap, c: Ctx, hole: Ref, root: Ref, above: Ref)
    requires c.In? && CtxRep(h, c, hole, root, above)
    ensures root in CtxRefs(c) && root in h && root != 0
  {
    if c.up.In? { TopOfPath(h, c.up, c.cell.ref, root, above); }
  }

  /** The heap after storing `p` in the slot of the path's hole. */
  ghost function Filled(h: Heap, c: Ctx, p: Ref): Heap
    requires c.In? ==> c.cell.ref in h
  {
    if c.Top? then h else h[c.cell.ref := h[c.cell.ref].SetSucc(c.side, p)]
  }

  lemma {:induction false} FillHole(h: Heap, c: Ctx, hole: Ref, p: Ref, root: Ref, above: Ref)
    requires CtxRep(h, c, hole, root, above) && CtxDistinct(c)
    ensures CtxRep(Filled(h, c, p), c, p, if c.Top? then p else root, above)
  {
    if c.In? {
      var r := c.cell.ref;
      var h' := Filled(h, c, p);
      RepFrame(h, h', c.sib, h[r].Succ(1 - c.side), r);
      CtxFrame(h, h', c.up, r, root, above);
    }
  }

  /** Moving a path under another node only changes its top cell's parent link. */
  lemma {:induction false} CtxReparent(h: Heap, h': Heap, c: Ctx, hole: Ref, root: Ref, above: Ref, above': Ref)
    requires c.In? && CtxRep(h, c, hole, root, above) && CtxDistinct(c)
    requires root in h && root in h' && h'[root] == h[root].(parent := above')
    requires Same(h, h', CtxRefs(c) - {root})
    ensures CtxRep(h', c, hole, root, above')
  {
    var r := c.cell.ref;
    if c.up.In? {
      TopOfPath(h, c.up, r, root, above);
      CtxReparent(h, h', c.up, r, root, above, above');
    }
    RepFrame(h, h', c.sib, h[r].Succ(1 - c.side), r);
  }

  lemma {:induction false} UnderRep(h: Heap, e: Ctx, base: Ctx, hole: Ref, mid: Ref, root: Ref, above: Ref)
    requires CtxRep(h, e, hole, mid, Parent(base, above)) && CtxRep(h, base, mid, root, above)
    ensures CtxRep(h, Under(e, base), hole, root, above)
  {
    if e.In? { UnderRep(h, e.up, base, e.cell.ref, mid, root, above); }
  }

  lemma {:induction false} UnderShape(e: Ctx, base: Ctx)
    requires CtxDistinct(e) && CtxDistinct(base) && CtxRefs(e) !! CtxRefs(base)
    ensures CtxDistinct(Under(e, base)) && CtxRefs(Under(e, base)) == CtxRefs(e) + CtxRefs(base)
  {
    if e.In? { UnderShape(e.up, base); }
  }

  lemma {:induction false} UnderAvl(e: Ctx, base: Ctx, t: Tree)
    requires CtxAvl(e, H(t)) && CtxAvl(base, H(Plug(e, t)))
    ensures CtxAvl(Under(e, base), H(t))
  {
    if e.In? {
      MkFacts(e.side, e.cell, t, e.sib);
      UnderAvl(e.up, base, Mk(e.side, e.cell, t, e.sib));
    }
  }

  lemma {:induction false} UnderPlug(e: Ctx, base: Ctx, t: Tree)
    ensures Plug(Under(e, base), t) == Plug(base, Plug(e, t))
  {
    if e.In? { UnderPlug(e.up, base, Mk(e.side, e.cell, t, e.sib)); }
  }

  /** A tree opened at some node: the path above the hole and the subtree `t` at address `p` in it. */
  ghost predicate Opened(h: Heap, root: Ref, above: Ref, c: Ctx, t: Tree, p: Ref) {
    && CtxRep(h, c, p, root, above) && CtxDistinct(c) && CtxAvl(c, H(t))
    && Sound(h, t, p, Parent(c, above)) && Refs(t) !! CtxRefs(c)
  }

  ghost function Sub(t: Tree, d: Side): Tree
    requires t.Branch?
  {
    if d == 0 then t.sub0 else t.sub1
  }

  ghost function Down(c: Ctx, t: Tree, d: Side): Ctx
    requires t.Branch?
  {
    In(c, t.cell, d, Sub(t, 1 - d))
  }

  lemma {:induction false} Descend(h: Heap, root: Ref, above: Ref, c: Ctx, t: Tree, p: Ref, d: Side)
    requires Opened(h, root, above, c, t, p) && t.Branch?
    ensures Opened(h, root, above, Down(c, t, d), Sub(t, d), h[p].Succ(d))
    ensures Plug(Down(c, t, d), Sub(t, d)) == Plug(c, t)
  {
  }

  // ---------------------------------------------------------------- Search order

  ghost predicate Sorted(s: seq<Cell>) {
    forall i, j :: 0 <= i < j < |s| ==> s[i].id < s[j].id
  }

  ghost predicate AllBelow(s: seq<Cell>, id: nat) { forall i :: 0 <= i < |s| ==> s[i].id < id }
  ghost predicate AllAbove(s: seq<Cell>, id: nat) { forall i :: 0 <= i < |s| ==> id < s[i].id }

  /** Everything left of the hole is smaller than `id`, everything right of it larger. */
  ghost predicate Around(c: Ctx, id: nat) { AllBelow(Before(c), id) && AllAbove(After(c), id) }

  lemma {:induction false} DescendAround(c: Ctx, t: Tree, d: Side, id: nat)
    requires t.Branch? && Sorted(InOrder(t)) && Around(c, id)
    requires if d == 0 then id < t.cell.id else t.cell.id < id
    ensures Around(Down(c, t, d), id) && Sorted(InOrder(Sub(t, d)))
  {
    var s := InOrder(t);
    var k := |InOrder(t.sub0)|;
    assert s[k] == t.cell && s[..k] == InOrder(t.sub0) && s[k + 1..] == InOrder(t.sub1);
    PartsSorted(s, k);
  }

  lemma {:induction false} PartsSorted(s: seq<Cell>, k: nat)
    requires Sorted(s) && k < |s|
    ensures Sorted(s[..k]) && Sorted(s[k + 1..]) && AllBelow(s[..k], s[k].id) && AllAbove(s[k + 1..], s[k].id)
  {
  }

  /** A new cell put in an empty hole lands between the smaller and the larger ids. */
  lemma {:induction false} InsertOrder(c: Ctx, x: Cell) returns (k: nat)
    requires Around(c, x.id)
    ensures var s := InOrder(Plug(c, Leaf));
            && k <= |s|
            && InOrder(Plug(c, Branch(x, Leaf, Leaf))) == s[..k] + [x] + s[k..]
            && AllBelow(s[..k], x.id) && AllAbove(s[k..], x.id)
  {
    PlugInOrder(c, Leaf);
    PlugInOrder(c, Branch(x, Leaf, Leaf));
    k := |Before(c)|;
    var s := InOrder(Plug(c, Leaf));
    assert s[..k] == Before(c) && s[k..] == After(c);
  }

  // ---------------------------------------------------------------- Contents as a map

  /** The map from ids to bundles that a sorted sequence of cells stands for. */
  ghost function Entries(s: seq<Cell>): map<nat, Ref>
    requires Sorted(s)
  {
    map x | x in s :: x.id := x.bundle
  }

  lemma {:induction false} EntriesAt(s: seq<Cell>, x: Cell)
    requires Sorted(s) && x in s
    ensures x.id in Entries(s) && Entries(s)[x.id] == x.bundle
  {
  }

  /** Adding one cell to a sorted sequence adds one entry to the map; removing it takes the entry out. */
  lemma {:induction false} EntriesStep(s: seq<Cell>, t: seq<Cell>, x: Cell)
    requires Sorted(s) && Sorted(t) && (forall y :: y in t <==> y == x || y in s)
    requires forall y :: y in s ==> y.id != x.id
    ensures x.id !in Entries(s) && Entries(t) == Entries(s)[x.id := x.bundle] && Entries(s) == Entries(t) - {x.id}
  {
    var m, m' := Entries(s), Entries(t);
    EntriesAt(t, x);
    forall id | id in m ensures id in m' && id != x.id && m'[id] == m[id] {
      var y :| y in s && y.id == id;
      EntriesAt(s, y);
      EntriesAt(t, y);
    }
    forall id | id in m' && id != x.id ensures id in m {
      var y :| y in t && y.id == id;
      EntriesAt(s, y);
    }
  }

  lemma {:induction false} InsertSorted(a: seq<Cell>, x: Cell, b: seq<Cell>)
    requires Sorted(a + b) && AllBelow(a, x.id) && AllAbove(b, x.id)
    ensures Sorted(a + [x] + b) && (forall y :: y in a + b ==> y.id != x.id)
  {
    var s, t := a + b, a + [x] + b;
    forall i, j | 0 <= i < j < |t| ensures t[i].id < t[j].id {
      if i != |a| && j != |a| {
        assert t[i] == s[if i < |a| then i else i - 1] && t[j] == s[if j < |a| then j else j - 1];
      }
    }
  }

  lemma {:induction false} RemoveSorted(a: seq<Cell>, x: Cell, b: seq<Cell>)
    requires Sorted(a + [x] + b)
    ensures Sorted(a + b) && (forall y :: y in a + b ==> y.id != x.id)
  {
    var s, t := a + b, a + [x] + b;
    assert t[|a|] == x;
    forall i, j | 0 <= i < j < |s| ensures s[i].id < s[j].id {
      assert s[i] == t[if i < |a| then i else i + 1] && s[j] == t[if j < |a| then j else j + 1];
    }
    forall i | 0 <= i < |s| ensures s[i].id != x.id {
      assert s[i] == t[if i < |a| then i else i + 1];
    }
  }

  /** Distinct ids below a bound leave room for at most that many cells. */
  lemma {:induction false} SortedSize(s: seq<Cell>, top: nat)
    requires Sorted(s) && forall x :: x in s ==> 0 < x.id <= top
    ensures |s| <= top
    decreases |s|
  {
    if |s| > 0 {
      var k := |s| - 1;
      assert s[k] in s;
      forall x | x in s[..k] ensures 0 < x.id <= s[k].id - 1 { }
      SortedSize(s[..k], s[k].id - 1);
    }
  }

  // ---------------------------------------------------------------- Size of a balanced tree

  /** The least number of nodes a balanced tree of height `n` can have (a Fibonacci recurrence). */
  function MinSize(n: nat): nat {
    if n == 0 then 0 else if n == 1 then 1 else 1 + MinSize(n - 1) + MinSize(n - 2)
  }

  lemma {:induction false} MinSizeMonotone(a: nat, b: nat)
    requires a <= b
    ensures MinSize(a) <= MinSize(b)
    decreases b
  {
    if a < b { MinSizeMonotone(a, b - 1); }
  }

  lemma {:induction false} BalancedSize(t: Tree)
    requires Avl(t)
    ensures |InOrder(t)| >= MinSize(H(t))
  {
    match t
    case Leaf =>
    case Branch(_, a, b) =>
      BalancedSize(a);
      BalancedSize(b);
      var lo := if H(a) < H(b) then H(a) else H(b);
      if H(t) >= 2 { MinSizeMonotone(H(t) - 2, lo); }
  }

  lemma {:induction false} TallNeedsMany(n: nat)
    requires n >= 23
    ensures MinSize(n) >= 75024
  {
    assert MinSize(6) == 20 && MinSize(7) == 33;
    assert MinSize(10) == 143 && MinSize(11) == 232;
    assert MinSize(14) == 986 && MinSize(15) == 1596;
    assert MinSize(18) == 6764 && MinSize(19) == 10945;
    assert MinSize(20) == 17710 && MinSize(21) == 28656;
    assert MinSize(23) == 75024;
    MinSizeMonotone(23, n);
  }

  /** 65535 nodes fit only in balanced trees of height at most 22. */
  lemma {:induction false} HeightBound(t: Tree)
    requires Avl(t) && |InOrder(t)| <= 65535
    ensures H(t) <= 22
  {
    BalancedSize(t);
    if H(t) > 22 { TallNeedsMany(H(t)); }
  }
}
