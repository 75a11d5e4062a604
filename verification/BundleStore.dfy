/**
 The bundle store: an AVL tree with parent pointers, changed in place through "forward
 slots" (the addresses of successor fields and of the tree's root pointer).
 */
module BundleStore {
  import opened AvlTree
  import StoreSpec

  /** A `struct node **`: null, the address of the root pointer, or of one successor field. */
  datatype Slot = NullSlot | RootSlot | SuccSlot(r: Ref, d: Side)

  ghost function SlotOf(c: Ctx): Slot {
    if c.Top? then RootSlot else SuccSlot(c.cell.ref, c.side)
  }

  function GetBalance(h: Heap, p: Ref): int {
    if p in h && p != 0 then Height(h, h[p].succ0) - Height(h, h[p].succ1) else 0
  }

  /** The tree a rotation on side `d` turns `r(n(a, b), c)` into. */
  ghost function Rotated(h: Heap, d: Side, r: Ref, n: Ref, a: Tree, b: Tree, c: Tree): Tree
    requires r in h && n in h
  {
    At(h, 1 - d, n, At(h, 1 - d, r, c, b), a)
  }

  /** After the links have been changed, both heights are recalculated, the lower one first. */
  lemma {:induction false} RecalcBoth(h: Heap, d: Side, r: Ref, n: Ref, a: Tree, b: Tree, c: Tree)
    requires r in h && n in h && r != 0 && n != 0 && n != r && h[r].parent == n && h[n].Succ(1 - d) == r
    requires Rep(h, a, h[n].Succ(d), n) && Rep(h, b, h[r].Succ(d), r) && Rep(h, c, h[r].Succ(1 - d), r)
    requires {n, r} !! Refs(a) && {n, r} !! Refs(b) && {n, r} !! Refs(c)
    ensures n in Recalc(h, r) && Rep(Recalc(Recalc(h, r), n), At(Recalc(h, r), 1 - d, n, At(h, 1 - d, r, c, b), a), n, h[n].parent)
  {
    var t := At(h, 1 - d, r, c, b);
    MkFacts(1 - d, CellAt(h, r), c, b);
    RecalcRep(h, 1 - d, r, c, b);
    RepFrame(h, Recalc(h, r), a, h[n].Succ(d), n);
    RecalcRep(Recalc(h, r), 1 - d, n, t, a);
  }

  /** `r` has a child `n` on side `d`; `a` and `b` hang below `n`, `c` is the other side of `r`. */
  ghost predicate Rotatable(h: Heap, d: Side, r: Ref, a: Tree, b: Tree, c: Tree) {
    && r in h && r != 0
    && var n := h[r].Succ(d);
    && n in h && n != 0 && n != r
    && Rep(h, a, h[n].Succ(d), n) && Rep(h, b, h[n].Succ(1 - d), n) && Rep(h, c, h[r].Succ(1 - d), r)
    && {n, r} !! Refs(a) && {n, r} !! Refs(b) && {n, r} !! Refs(c)
    && Refs(a) !! Refs(b) && Refs(b) !! Refs(c) && Refs(a) !! Refs(c) && Distinct(b)
  }

  lemma {:induction false} FormRotatable(h: Heap, d: Side, r: Ref, n: Cell, a: Tree, b: Tree, c: Tree)
    requires r in h && r != 0 && r !in Refs(Mk(d, n, a, b)) && r !in Refs(c) && Refs(Mk(d, n, a, b)) !! Refs(c)
    requires Rep(h, Mk(d, n, a, b), h[r].Succ(d), r) && Distinct(Mk(d, n, a, b)) && Rep(h, c, h[r].Succ(1 - d), r)
    ensures Rotatable(h, d, r, a, b, c) && h[r].Succ(d) == n.ref && CellAt(h, n.ref) == n
  {
    MkFacts(d, n, a, b);
    MkUnrep(h, d, n, a, b, h[r].Succ(d), r);
  }

  /** Storing `n` into side `d` of `r` makes `r` rotatable. */
  lemma {:induction false} Attach(h: Heap, d: Side, r: Ref, n: Cell, a: Tree, b: Tree, c: Tree)
    requires r in h && r != 0 && r !in Refs(Mk(d, n, a, b)) && r !in Refs(c) && Refs(Mk(d, n, a, b)) !! Refs(c)
    requires Rep(h, Mk(d, n, a, b), n.ref, r) && Distinct(Mk(d, n, a, b)) && Rep(h, c, h[r].Succ(1 - d), r)
    ensures var h' := h[r := h[r].SetSucc(d, n.ref)];
            Rotatable(h', d, r, a, b, c) && n.ref in h' && CellAt(h', n.ref) == n
  {
    var h' := h[r := h[r].SetSucc(d, n.ref)];
    RepFrame(h, h', c, h[r].Succ(1 - d), r);
    RepFrame(h, h', Mk(d, n, a, b), n.ref, r);
    FormRotatable(h', d, r, n, a, b, c);
  }

  /** A child `x` whose inner child is `m` can be rotated the other way. */
  lemma {:induction false} InnerReady(h: Heap, d: Side, par: Ref, x: Tree, n: Cell, m: Cell, a: Tree, p: Tree, q: Tree)
    requires x == Mk(d, n, a, Mk(1 - d, m, p, q)) && Rep(h, x, n.ref, par) && Distinct(x)
    ensures n.ref in h && CellAt(h, n.ref) == n && h[n.ref].parent == par && h[n.ref].Succ(1 - d) == m.ref
    ensures m.ref in h && CellAt(h, m.ref) == m && Rotatable(h, 1 - d, n.ref, p, q, a)
    ensures {n.ref, m.ref} + Refs(q) <= Refs(x)
    ensures Refs(Mk(d, m, Mk(d, n, a, q), p)) == Refs(x) && Distinct(Mk(d, m, Mk(d, n, a, q), p))
  {
    MkFacts(d, n, a, Mk(1 - d, m, p, q));
    MkFacts(1 - d, m, p, q);
    MkUnrep(h, d, n, a, Mk(1 - d, m, p, q), n.ref, par);
    FormRotatable(h, 1 - d, n.ref, m, p, q, a);
    assert x == Mk(1 - d, n, Mk(1 - d, m, p, q), a);
    RotationRefs(1 - d, n, m, p, q, a);
  }

  /** What is known before, and what will hold of the tree after, a double rotation. */
  lemma {:induction false} DoubleReady(h: Heap, d: Side, top: Ref, t: Tree, x: Tree, r: Cell, n: Cell, m: Cell, a: Tree, p: Tree, q: Tree, c: Tree)
    requires t == Mk(d, r, x, c) && x == Mk(d, n, a, Mk(1 - d, m, p, q))
    requires top in h && Pending(h, t, top, h[top].parent) && H(a) == H(c) && Max(H(p), H(q)) == H(c)
    ensures top != 0 && r == CellAt(h, top) && Rep(h, c, h[top].Succ(1 - d), top)
    ensures Rep(h, x, h[top].Succ(d), top) && Distinct(x) && h[top].Succ(d) == n.ref
    ensures top !in Refs(x) && top !in Refs(c) && Refs(x) !! Refs(c) && Refs(t) == {top} + Refs(x) + Refs(c)
    ensures Refs(p) + {m.ref} <= Refs(x)
    ensures var t' := Mk(1 - d, m, Mk(1 - d, r, c, p), Mk(d, n, a, q));
            Avl(t') && Distinct(t') && Refs(t') == Refs(t) && InOrder(t') == InOrder(t) && H(t') == H(t) - 1
  {
    DoubleRotationShape(d, r, n, m, a, p, q, c);
    MkFacts(d, r, x, c);
    MkFacts(d, n, a, Mk(1 - d, m, p, q));
    MkFacts(1 - d, m, p, q);
    DoubleRotationBalance(d, r, n, m, a, q, p, c);
  }

  /** Where a walk towards the root stands: an unfinished subtree `t` in the hole of a path balanced for height `n`. */
  ghost predicate Climbing(h: Heap, root: Ref, c: Ctx, t: Tree, hole: Ref, n: int) {
    && Pending(h, t, hole, Parent(c, 0)) && CtxRep(h, c, hole, root, 0)
    && CtxDistinct(c) && Refs(t) !! CtxRefs(c) && CtxAvl(c, n) && Near(t, n)
  }

  /** Above a finished subtree stands the next node to finish. */
  lemma {:induction false} NextUp(h: Heap, root: Ref, c: Ctx, t: Tree, p: Ref, n: int)
    requires c.In? && Sound(h, t, p, c.cell.ref) && CtxRep(h, c, p, root, 0) && CtxDistinct(c)
    requires Refs(t) !! CtxRefs(c) && CtxAvl(c, n) && -1 <= H(t) - n <= 1
    ensures Climbing(h, root, c.up, Mk(c.side, c.cell, t, c.sib), c.cell.ref, 1 + Max(n, H(c.sib)))
  {
    MkFacts(c.side, c.cell, t, c.sib);
    PendingMk(h, c.side, c.cell, t, c.sib, h[c.cell.ref].parent);
  }

  /** Storing the finished subtree's top in the node above makes that node the next one to finish. */
  lemma {:induction false} Climb(h: Heap, root: Ref, c: Ctx, t: Tree, p: Ref, hole: Ref, n: int)
    requires c.In? && Sound(h, t, p, c.cell.ref) && CtxRep(h, c, hole, root, 0) && CtxDistinct(c)
    requires Refs(t) !! CtxRefs(c) && CtxAvl(c, n) && -1 <= H(t) - n <= 1
    ensures CtxRep(Filled(h, c, p), c, p, root, 0)
    ensures Climbing(Filled(h, c, p), root, c.up, Mk(c.side, c.cell, t, c.sib), c.cell.ref, 1 + Max(n, H(c.sib)))
  {
    RepFrame(h, Filled(h, c, p), t, p, c.cell.ref);
    FillHole(h, c, hole, p, root, 0);
    NextUp(Filled(h, c, p), root, c, t, p, n);
  }

  /** Finishing the subtree `t` as `t'` and storing its top leads to the next step of the walk. */
  lemma {:induction false} AfterRestore(h: Heap, h1: Heap, root: Ref, c: Ctx, t: Tree, t': Tree, top: Ref, p: Ref, n: int)
    requires Climbing(h, root, c, t, top, n) && Only(h, h1, Refs(t)) && Sound(h1, t', p, Parent(c, 0)) && p != 0
    requires Refs(t') == Refs(t) && (if -1 <= Balance(t) <= 1 then H(t') == H(t) else H(t) - 1 <= H(t') <= H(t))
    ensures (c.In? ==> c.cell.ref in h1) && Only(h, Filled(h1, c, p), CtxRefs(c) + Refs(t))
    ensures p in Filled(h1, c, p) && Filled(h1, c, p)[p].parent == Parent(c, 0)
    ensures CtxRep(Filled(h1, c, p), c, p, if c.Top? then p else root, 0)
    ensures if c.Top? then Sound(h1, t', p, 0)
            else Climbing(Filled(h1, c, p), root, c.up, Mk(c.side, c.cell, t', c.sib), c.cell.ref, 1 + Max(n, H(c.sib)))
  {
    CtxFrame(h, h1, c, top, root, 0);
    if c.In? { Climb(h1, root, c, t', p, top, n); }
  }

  /** Hanging a new node below a node with a free side leaves that node to be finished. */
  lemma {:induction false} Hang(h: Heap, root: Ref, c: Ctx, t: Tree, p: Ref, d: Side, x: Cell)
    requires Opened(h, root, 0, c, t, p) && t.Branch? && Sub(t, d).Leaf? && x.ref != 0
    requires x.ref !in h && x.ref !in CtxRefs(c) && x.ref !in Refs(t)
    ensures var h' := h[x.ref := Node(x.id, x.bundle, 0, 0, p, 1)][p := h[p].SetSucc(d, x.ref)];
            && Climbing(h', root, c, Mk(d, t.cell, Branch(x, Leaf, Leaf), Sub(t, 1 - d)), p, H(t))
            && CtxRep(h', Down(c, t, d), x.ref, root, 0) && CtxDistinct(Down(c, t, d))
  {
    var h' := h[x.ref := Node(x.id, x.bundle, 0, 0, p, 1)][p := h[p].SetSucc(d, x.ref)];
    var other := Sub(t, 1 - d);
    MkFacts(d, t.cell, Leaf, other);
    assert t == Mk(d, t.cell, Leaf, other);
    RepFrame(h, h', other, h[p].Succ(1 - d), p);
    CtxFrame(h, h', c, p, root, 0);
    MkFacts(d, t.cell, Branch(x, Leaf, Leaf), other);
    assert Rep(h', Branch(x, Leaf, Leaf), x.ref, p);
    PendingMk(h', d, t.cell, Branch(x, Leaf, Leaf), other, h[p].parent);
  }

  /** `get_parent_fwd_ptr`: the forward slot that holds a node's parent. */
  function ParentFwdPtr(h: Heap, node: Ref): Slot
    requires node in h
    requires var parent := h[node].parent; parent != 0 ==> parent in h && (h[parent].parent != 0 ==> h[parent].parent in h)
  {
    var parent := h[node].parent;
    if parent == 0 then NullSlot
    else
      var grand := h[parent].parent;
      if grand == 0 then RootSlot
      else if parent == h[grand].succ0 then SuccSlot(grand, 0) else SuccSlot(grand, 1)
  }

  /** It is the slot of the path's hole in which the parent sits. */
  lemma {:induction false} ParentFwdPtrIs(h: Heap, node: Ref, up: Ctx, root: Ref, above: Ref)
    requires node in h && h[node].parent in h && h[node].parent != 0
    requires var parent := h[node].parent;
             && parent !in CtxRefs(up) && CtxRep(h, up, parent, root, above) && CtxDistinct(up)
             && h[parent].parent == Parent(up, above) && (up.Top? ==> above == 0)
    ensures (h[h[node].parent].parent != 0 ==> h[h[node].parent].parent in h)
    ensures ParentFwdPtr(h, node) == SlotOf(up)
  {
  }

  /** Splicing out a node with one subtree leaves that subtree in its place. */
  lemma {:induction false} SpliceOne(h: Heap, root: Ref, c: Ctx, t: Tree, del: Ref, d: Side)
    requires Opened(h, root, 0, c, t, del) && t.Branch? && Sub(t, 1 - d).Leaf? && Sub(t, d).Branch?
    ensures var p := h[del].Succ(d); var h1 := Filled(h, c, p);
            && p in h1
            && Climbing(h1[p := h1[p].(parent := h[del].parent)], if c.Top? then p else root, c, Sub(t, d), p, H(t))
  {
    var p := h[del].Succ(d);
    var h1 := Filled(h, c, p);
    var x := Sub(t, d);
    MkFacts(d, t.cell, x, Leaf);
    assert t == Mk(d, t.cell, x, Leaf);
    assert Rep(h, x, p, del) && p == x.cell.ref && p in h;
    FillHole(h, c, del, p, root, 0);
    var h2 := h1[p := h1[p].(parent := h[del].parent)];
    Reparent(h, h2, x, p, del, h[del].parent);
    CtxFrame(h1, h2, c, p, if c.Top? then p else root, 0);
  }

  /** The hole is at the end of its tree that is nearest to a node with that tree on side `d`. */
  ghost predicate OnSide(e: Ctx, d: Side) {
    if d == 0 then After(e) == [] else Before(e) == []
  }

  /** The parts of a node `t` with two subtrees, `x` being the neighbour of `t` on side `d`, below the path `e`. */
  ghost predicate Parts(h: Heap, root: Ref, c: Ctx, t: Tree, del: Ref, d: Side, e: Ctx, x: Tree, p: Ref) {
    && Opened(h, root, 0, c, t, del) && t.Branch? && Sub(t, d).Branch? && Sub(t, 1 - d).Branch?
    && Opened(h, h[del].Succ(d), del, e, x, p) && Plug(e, x) == Sub(t, d)
    && x.Branch? && Sub(x, 1 - d).Leaf? && OnSide(e, d)
  }

  /** The parts share no node. */
  ghost predicate Separate(c: Ctx, del: Ref, e: Ctx, p: Ref, y: Tree, other: Tree) {
    && CtxDistinct(c) && CtxDistinct(e) && Distinct(y) && Distinct(other)
    && p != del && {p, del} !! Refs(y) && {p, del} !! Refs(other) && {p, del} !! CtxRefs(e) && {p, del} !! CtxRefs(c)
    && Refs(y) !! Refs(other) && Refs(y) !! CtxRefs(e) && Refs(y) !! CtxRefs(c)
    && Refs(other) !! CtxRefs(e) && Refs(other) !! CtxRefs(c) && CtxRefs(e) !! CtxRefs(c)
  }

  /** What the parts know of each other: `y` is what hangs below the neighbour `n`, `other` is the far side of `del`. */
  ghost predicate Apart(h: Heap, root: Ref, c: Ctx, del: Ref, e: Ctx, n: Cell, d: Side, y: Tree, other: Tree, q: Ref) {
    && Separate(c, del, e, n.ref, y, other)
    && del in h && n.ref in h && q in h && CellAt(h, n.ref) == n && other.Branch? && q == other.cell.ref
    && del != 0 && h[del].Succ(1 - d) == q && h[del].parent == Parent(c, 0) && CtxRep(h, c, del, root, 0)
    && n.ref != 0 && h[n.ref].Succ(1 - d) == 0 && h[n.ref].parent == Parent(e, del)
    && CtxRep(h, e, n.ref, h[del].Succ(d), del)
    && Rep(h, other, q, del) && Avl(other) && Rep(h, y, h[n.ref].Succ(d), n.ref) && Avl(y)
  }

  lemma {:induction false} PartsApart(h: Heap, root: Ref, c: Ctx, t: Tree, del: Ref, d: Side, e: Ctx, x: Tree, p: Ref)
    requires Parts(h, root, c, t, del, d, e, x, p)
    ensures p == x.cell.ref && Sub(t, 1 - d).Branch?
    ensures Apart(h, root, c, del, e, x.cell, d, Sub(x, d), Sub(t, 1 - d), h[del].Succ(1 - d))
  {
    var other, y := Sub(t, 1 - d), Sub(x, d);
    assert t == Mk(d, t.cell, Sub(t, d), other) && x == Mk(d, x.cell, y, Leaf);
    MkFacts(d, t.cell, Sub(t, d), other);
    MkFacts(d, x.cell, y, Leaf);
    PlugRefs(e, x);
    MkUnrep(h, d, t.cell, Sub(t, d), other, del, Parent(c, 0));
    MkUnrep(h, d, x.cell, y, Leaf, p, Parent(e, del));
  }

  /** The heap after node `p` has been stored in the path's slot and got its new parent link. */
  ghost function Placed(h: Heap, c: Ctx, p: Ref): Heap
    requires p in h && (c.In? ==> c.cell.ref in h)
  {
    var h1 := Filled(h, c, p);
    h1[p := h1[p].(parent := Parent(c, 0))]
  }

  lemma {:induction false} Place(h: Heap, root: Ref, c: Ctx, del: Ref, p: Ref)
    requires CtxRep(h, c, del, root, 0) && CtxDistinct(c) && p in h && p !in CtxRefs(c)
    ensures CtxRep(Placed(h, c, p), c, p, if c.Top? then p else root, 0)
    ensures Only(h, Placed(h, c, p), {p} + CtxRefs(c)) && Placed(h, c, p)[p] == h[p].(parent := Parent(c, 0))
  {
    FillHole(h, c, del, p, root, 0);
    CtxFrame(Filled(h, c, p), Placed(h, c, p), c, p, if c.Top? then p else root, 0);
  }

  /** The heap after the far subtree's top `q` has been hung below side `1 - d` of `p`. */
  ghost function Rehung(h: Heap, d: Side, p: Ref, q: Ref): Heap
    requires p in h && q in h
  {
    h[p := h[p].SetSucc(1 - d, q)][q := h[q].(parent := p)]
  }

  lemma {:induction false} DirectSlot(h: Heap, root: Ref, c: Ctx, del: Ref, d: Side, n: Cell, y: Tree, other: Tree, q: Ref)
    requires Apart(h, root, c, del, Top, n, d, y, other, q)
    ensures var h1 := Rehung(h, d, n.ref, q);
            && CtxRep(h1, c, del, root, 0) && ParentFwdPtr(h1, n.ref) == SlotOf(c)
            && h1[n.ref].parent in h && (h1[h1[n.ref].parent].parent != 0 ==> h1[h1[n.ref].parent].parent in h)
    ensures c.In? ==> c.cell.ref in h
  {
    var h1 := Rehung(h, d, n.ref, q);
    CtxFrame(h, h1, c, del, root, 0);
    ParentFwdPtrIs(h1, n.ref, c, root, 0);
  }

  lemma {:induction false} DirectSubtrees(h: Heap, root: Ref, c: Ctx, del: Ref, d: Side, n: Cell, y: Tree, other: Tree, q: Ref, h2: Heap)
    requires Apart(h, root, c, del, Top, n, d, y, other, q)
    requires Only(Rehung(h, d, n.ref, q), h2, {n.ref} + CtxRefs(c))
    ensures Rep(h2, y, h[n.ref].Succ(d), n.ref) && Rep(h2, other, q, n.ref)
  {
    RepFrame(h, h2, y, h[n.ref].Succ(d), n.ref);
    Reparent(h, h2, other, q, del, n.ref);
  }

  /** The neighbour is the direct child: it takes over the other subtree and the place of `del`. */
  lemma {:induction false} SpliceDirect(h: Heap, root: Ref, c: Ctx, del: Ref, d: Side, n: Cell, y: Tree, other: Tree, q: Ref, k: int)
    requires Apart(h, root, c, del, Top, n, d, y, other, q) && CtxAvl(c, k) && k == 1 + Max(1 + H(y), H(other))
    requires -1 <= 1 + H(y) - H(other) <= 1
    ensures c.In? ==> c.cell.ref in h
    ensures var par := Rehung(h, d, n.ref, q)[n.ref].parent; par in h && (h[par].parent != 0 ==> h[par].parent in h)
    ensures ParentFwdPtr(Rehung(h, d, n.ref, q), n.ref) == SlotOf(c)
    ensures Climbing(Placed(Rehung(h, d, n.ref, q), c, n.ref), if c.Top? then n.ref else root, c, Mk(d, n, y, other), n.ref, k)
  {
    var p := n.ref;
    var h1 := Rehung(h, d, p, q);
    var h2 := Placed(h1, c, p);
    DirectSlot(h, root, c, del, d, n, y, other, q);
    Place(h1, root, c, del, p);
    DirectSubtrees(h, root, c, del, d, n, y, other, q, h2);
    MkFacts(d, n, y, other);
    PendingMk(h2, d, n, y, other, Parent(c, 0));
  }

  /** The heap after the neighbour `p` has been cut out and what hung below it on side `d` tied to its parent. */
  ghost function Detached(h: Heap, d: Side, p: Ref): Heap
    requires p in h && h[p].parent in h && (h[p].Succ(d) != 0 ==> h[p].Succ(d) in h)
  {
    var par, y := h[p].parent, h[p].Succ(d);
    var h1 := h[par := h[par].SetSucc(1 - d, y)];
    var h2 := if y == 0 then h1 else h1[y := h1[y].(parent := par)];
    Recalc(h2, par)
  }

  lemma {:induction false} Detach(h: Heap, root: Ref, c: Ctx, del: Ref, e: Ctx, n: Cell, d: Side, y: Tree, other: Tree, q: Ref)
    requires Apart(h, root, c, del, e, n, d, y, other, q) && e.In? && e.side == 1 - d
    ensures h[n.ref].parent in h && (h[n.ref].Succ(d) != 0 ==> h[n.ref].Succ(d) in h)
    ensures var h' := Detached(h, d, n.ref);
            && Only(h, h', CtxRefs(e) + Refs(y))
            && CtxRep(h', e, h[n.ref].Succ(d), h[del].Succ(d), del) && Rep(h', y, h[n.ref].Succ(d), e.cell.ref)
  {
    var h', yTop, r, top := Detached(h, d, n.ref), h[n.ref].Succ(d), e.cell.ref, h[del].Succ(d);
    Reparent(h, h', y, yTop, n.ref, r);
    RepFrame(h, h', e.sib, h[r].Succ(1 - e.side), r);
    CtxFrame(h, h', e.up, r, top, del);
  }

  /** The heap after the near subtree's top has been hung below side `d` of the neighbour `p`. */
  ghost function Swung(h: Heap, d: Side, p: Ref, top: Ref): Heap
    requires p in h && top in h
  {
    h[p := h[p].SetSucc(d, top)][top := h[top].(parent := p)]
  }

  lemma {:induction false} SwungNodes(h: Heap, d: Side, p: Ref, top: Ref, q: Ref)
    requires p in h && top in h && q in h && p != top && p != q && top != q
    ensures var h' := Rehung(Swung(h, d, p, top), d, p, q);
            && h'[p] == h[p].SetSucc(d, top).SetSucc(1 - d, q) && Only(h, h', {p, top, q})
            && h'[top] == h[top].(parent := p) && h'[q] == h[q].(parent := p)
  {
  }

  /** After both subtrees have been hung below the neighbour, its path and its far side are in place. */
  lemma {:induction false} Swing(h: Heap, d: Side, c: Ctx, del: Ref, root: Ref, e: Ctx, p: Ref, y: Tree, yTop: Ref, other: Tree, q: Ref, top: Ref)
    requires Separate(c, del, e, p, y, other) && e.In? && p in h && other.Branch?
    requires CtxRep(h, e, yTop, top, del) && Rep(h, y, yTop, e.cell.ref) && Rep(h, other, q, del) && CtxRep(h, c, del, root, 0)
    ensures top in h && q in h && top in CtxRefs(e) && q in Refs(other)
    ensures var h' := Rehung(Swung(h, d, p, top), d, p, q);
            && h'[p] == h[p].SetSucc(d, top).SetSucc(1 - d, q)
            && Only(h, h', {p, top, q})
            && CtxRep(h', e, yTop, top, p) && Rep(h', y, yTop, e.cell.ref) && Rep(h', other, q, p) && CtxRep(h', c, del, root, 0)
  {
    TopOfPath(h, e, yTop, top, del);
    assert q == other.cell.ref && q in Refs(other);
    var h' := Rehung(Swung(h, d, p, top), d, p, q);
    SwungNodes(h, d, p, top, q);
    CtxReparent(h, h', e, yTop, top, del, p);
    Reparent(h, h', other, q, del, p);
    RepFrame(h, h', y, yTop, e.cell.ref);
    CtxFrame(h, h', c, del, root, 0);
  }

  /** The path above what was tied to the neighbour's old parent, once the neighbour stands in for `del`. */
  ghost function NewPath(c: Ctx, e: Ctx, n: Cell, d: Side, other: Tree): Ctx {
    Under(e, In(c, n, d, other))
  }

  lemma {:induction false} Substitute(h: Heap, root: Ref, c: Ctx, del: Ref, e: Ctx, n: Cell, d: Side, y: Tree, yTop: Ref, other: Tree, q: Ref, top: Ref)
    requires Separate(c, del, e, n.ref, y, other) && n.ref in h && CellAt(h, n.ref) == n && n.ref != 0
    requires h[n.ref].Succ(d) == top && h[n.ref].Succ(1 - d) == q
    requires CtxRep(h, e, yTop, top, n.ref) && Rep(h, other, q, n.ref) && CtxRep(h, c, del, root, 0)
    ensures c.In? ==> c.cell.ref in h
    ensures CtxRep(Placed(h, c, n.ref), NewPath(c, e, n, d, other), yTop, if c.Top? then n.ref else root, 0)
    ensures CtxDistinct(NewPath(c, e, n, d, other))
    ensures CtxRefs(NewPath(c, e, n, d, other)) == CtxRefs(e) + {n.ref} + Refs(other) + CtxRefs(c)
  {
    var p := n.ref;
    var h', base := Placed(h, c, p), In(c, n, d, other);
    Place(h, root, c, del, p);
    CtxFrame(h, h', e, yTop, top, p);
    RepFrame(h, h', other, q, p);
    UnderRep(h', e, base, yTop, top, if c.Top? then p else root, 0);
    UnderShape(e, base);
  }

  /** The slot that `get_parent_fwd_ptr` finds for the neighbour, still linked to its old parent. */
  lemma {:induction false} RebalanceSlot(h: Heap, c: Ctx, del: Ref, e: Ctx, n: Cell, d: Side, y: Tree, yTop: Ref, other: Tree, q: Ref, top: Ref)
    requires Separate(c, del, e, n.ref, y, other) && e.In? && e.side == 1 - d && n.ref in h && n.ref != 0
    requires h[n.ref].Succ(d) == top && h[n.ref].Succ(1 - d) == q && h[n.ref].parent == e.cell.ref && q in Refs(other)
    requires CtxRep(h, e, yTop, top, n.ref)
    ensures var par := h[n.ref].parent; par in h && (h[par].parent != 0 ==> h[par].parent in h)
    ensures ParentFwdPtr(h, n.ref) == SlotOf(NewPath(c, e, n, d, other).up)
  {
    assert NewPath(c, e, n, d, other).up == Under(e.up, In(c, n, d, other));
    if e.up.In? {
      TopOfPath(h, e.up, e.cell.ref, top, n.ref);
      ParentFwdPtrIs(h, n.ref, e.up, top, n.ref);
    }
  }

  lemma {:induction false} NewPathAvl(c: Ctx, e: Ctx, n: Cell, d: Side, y: Tree, other: Tree)
    requires CtxAvl(e, H(Mk(d, n, y, Leaf))) && CtxAvl(In(c, n, d, other), H(Plug(e, Mk(d, n, y, Leaf))))
    ensures CtxAvl(NewPath(c, e, n, d, other), 1 + H(y))
  {
    MkFacts(d, n, y, Leaf);
    UnderAvl(e, In(c, n, d, other), Mk(d, n, y, Leaf));
  }

  /** The state after both subtrees have been hung below the neighbour, before it takes the place of `del`. */
  ghost predicate Reordered(h: Heap, root: Ref, c: Ctx, del: Ref, e: Ctx, n: Cell, d: Side, y: Tree, yTop: Ref, other: Tree, q: Ref, top: Ref) {
    && Separate(c, del, e, n.ref, y, other) && e.In? && e.side == 1 - d
    && n.ref in h && CellAt(h, n.ref) == n && n.ref != 0 && h[n.ref].parent == e.cell.ref
    && h[n.ref].Succ(d) == top && h[n.ref].Succ(1 - d) == q && q in Refs(other)
    && CtxRep(h, e, yTop, top, n.ref) && Rep(h, other, q, n.ref) && CtxRep(h, c, del, root, 0)
    && Rep(h, y, yTop, e.cell.ref) && Avl(y)
  }

  lemma {:induction false} Reorder(h: Heap, root: Ref, c: Ctx, del: Ref, e: Ctx, n: Cell, d: Side, y: Tree, other: Tree, q: Ref)
    requires Apart(h, root, c, del, e, n, d, y, other, q) && e.In? && e.side == 1 - d
    ensures h[n.ref].parent in h && (h[n.ref].Succ(d) != 0 ==> h[n.ref].Succ(d) in h)
    ensures var p, h1, top := n.ref, Detached(h, d, n.ref), h[del].Succ(d);
            && p in h1 && top in h1 && q in h1
            && var h3 := Rehung(Swung(h1, d, p, top), d, p, q);
            && Only(h, h3, {p} + CtxRefs(e) + Refs(y) + Refs(other))
            && Reordered(h3, root, c, del, e, n, d, y, h[p].Succ(d), other, q, top)
  {
    var p, top, yTop := n.ref, h[del].Succ(d), h[n.ref].Succ(d);
    Detach(h, root, c, del, e, n, d, y, other, q);
    var h1 := Detached(h, d, p);
    RepFrame(h, h1, other, q, del);
    CtxFrame(h, h1, c, del, root, 0);
    Swing(h1, d, c, del, root, e, p, y, yTop, other, q, top);
  }

  /** The neighbour takes the place of `del`, which leaves its old parent as the next node to finish. */
  lemma {:induction false} TakePlace(h: Heap, root: Ref, c: Ctx, del: Ref, e: Ctx, n: Cell, d: Side, y: Tree, yTop: Ref, other: Tree, q: Ref, top: Ref)
    requires Reordered(h, root, c, del, e, n, d, y, yTop, other, q, top) && CtxAvl(NewPath(c, e, n, d, other), 1 + H(y))
    ensures c.In? ==> c.cell.ref in h
    ensures Only(h, Placed(h, c, n.ref), {n.ref} + CtxRefs(c))
    ensures var path := NewPath(c, e, n, d, other);
            && path.In? && path.cell == e.cell && path.side == e.side && path.sib == e.sib
            && Climbing(Placed(h, c, n.ref), if c.Top? then n.ref else root, path.up, Mk(path.side, path.cell, y, path.sib),
                        path.cell.ref, 1 + Max(1 + H(y), H(path.sib)))
  {
    var path, root' := NewPath(c, e, n, d, other), if c.Top? then n.ref else root;
    assert c.In? ==> c.cell.ref in h;
    var h' := Placed(h, c, n.ref);
    assert CtxRep(h', path, yTop, root', 0) && CtxDistinct(path) && Refs(y) !! CtxRefs(path) by {
      Substitute(h, root, c, del, e, n, d, y, yTop, other, q, top);
    }
    assert Only(h, h', {n.ref} + CtxRefs(c)) && Rep(h', y, yTop, e.cell.ref) by {
      Place(h, root, c, del, n.ref);
      RepFrame(h, h', y, yTop, e.cell.ref);
    }
    assert path.In? && path.cell == e.cell && path.side == e.side && path.sib == e.sib;
    NextUp(h', root', path, y, yTop, 1 + H(y));
  }

  /** Where and how rebalancing starts once the neighbour stands in for `del`. */
  lemma {:induction false} StandInFacts(h: Heap, root: Ref, c: Ctx, del: Ref, e: Ctx, n: Cell, d: Side, y: Tree, yTop: Ref, other: Tree, q: Ref, top: Ref, path: Ctx)
    requires Reordered(h, root, c, del, e, n, d, y, yTop, other, q, top) && CtxAvl(path, 1 + H(y))
    requires path == NewPath(c, e, n, d, other)
    ensures (c.In? ==> c.cell.ref in h) && path.In?
    ensures var par := h[n.ref].parent; par in h && (h[par].parent != 0 ==> h[par].parent in h)
    ensures var from := ParentFwdPtr(h, n.ref);
            from == SlotOf(path.up) && (from.SuccSlot? ==> from.r in h)
    ensures Climbing(Placed(h, c, n.ref), if c.Top? then n.ref else root, path.up, Mk(path.side, path.cell, y, path.sib),
                     path.cell.ref, 1 + Max(1 + H(y), H(path.sib)))
  {
    RebalanceSlot(h, c, del, e, n, d, y, yTop, other, q, top);
    TakePlace(h, root, c, del, e, n, d, y, yTop, other, q, top);
  }

  /** Everything of a tree opened at `t`, in order, without the node at the top of `t`. */
  ghost function Without(c: Ctx, t: Tree): seq<Cell>
    requires t.Branch?
  {
    Before(c) + (InOrder(t.sub0) + InOrder(t.sub1)) + After(c)
  }

  lemma {:induction false} OneChildOrder(c: Ctx, t: Tree, d: Side)
    requires t.Branch? && Sub(t, 1 - d).Leaf?
    ensures InOrder(Plug(c, Sub(t, d))) == Without(c, t)
    ensures Refs(Plug(c, Sub(t, d))) == CtxRefs(c) + Refs(t.sub0) + Refs(t.sub1)
  {
    PlugInOrder(c, Sub(t, d));
    PlugRefs(c, Sub(t, d));
  }

  lemma {:induction false} NeighbourOrder(t: Tree, d: Side, e: Ctx, x: Tree)
    requires t.Branch? && x.Branch? && Sub(x, 1 - d).Leaf? && OnSide(e, d) && Plug(e, x) == Sub(t, d)
    ensures if d == 0 then InOrder(t.sub0) == InOrder(Plug(e, x.sub0)) + [x.cell]
            else InOrder(t.sub1) == [x.cell] + InOrder(Plug(e, x.sub1))
  {
    PlugInOrder(e, x);
    PlugInOrder(e, Sub(x, d));
    EdgeCell(Before(e), InOrder(x.sub0), x.cell);
    EdgeCell(InOrder(x.sub1), After(e), x.cell);
  }

  lemma {:induction false} EdgeCell(a: seq<Cell>, b: seq<Cell>, x: Cell)
    ensures a + (b + [x] + []) + [] == a + b + [] + [x]
    ensures [] + ([] + [x] + a) + b == [x] + ([] + a + b)
  {
  }

  lemma {:induction false} SpliceOrder(c: Ctx, t: Tree, d: Side, e: Ctx, x: Tree)
    requires t.Branch? && x.Branch? && Sub(x, 1 - d).Leaf? && OnSide(e, d) && Plug(e, x) == Sub(t, d)
    ensures InOrder(Plug(NewPath(c, e, x.cell, d, Sub(t, 1 - d)), Sub(x, d))) == Without(c, t)
  {
    var base := In(c, x.cell, d, Sub(t, 1 - d));
    NeighbourOrder(t, d, e, x);
    UnderPlug(e, base, Sub(x, d));
    PlugInOrder(c, Mk(d, x.cell, Plug(e, Sub(x, d)), Sub(t, 1 - d)));
  }

  lemma {:induction false} SpliceRefs(c: Ctx, t: Tree, d: Side, e: Ctx, x: Tree)
    requires t.Branch? && x.Branch? && Sub(x, 1 - d).Leaf? && Plug(e, x) == Sub(t, d)
    ensures Refs(Plug(NewPath(c, e, x.cell, d, Sub(t, 1 - d)), Sub(x, d))) == CtxRefs(c) + Refs(t.sub0) + Refs(t.sub1)
  {
    var y, other := Sub(x, d), Sub(t, 1 - d);
    UnderPlug(e, In(c, x.cell, d, other), y);
    PlugRefs(c, Mk(d, x.cell, Plug(e, y), other));
    PlugRefs(e, y);
    PlugRefs(e, x);
    MkFacts(d, x.cell, Plug(e, y), other);
  }

  /** The balance that the neighbour's new path starts from. */
  lemma {:induction false} PartsAvl(h: Heap, root: Ref, c: Ctx, t: Tree, del: Ref, d: Side, e: Ctx, x: Tree, p: Ref)
    requires Parts(h, root, c, t, del, d, e, x, p)
    ensures CtxAvl(NewPath(c, e, x.cell, d, Sub(t, 1 - d)), 1 + H(Sub(x, d)))
    ensures e.In? ==> e.side == 1 - d
    ensures H(x) == 1 + H(Sub(x, d)) && H(t) == 1 + Max(H(Plug(e, x)), H(Sub(t, 1 - d))) && -1 <= H(Plug(e, x)) - H(Sub(t, 1 - d)) <= 1
  {
    NeighbourHeights(c, t, d, e, x);
  }

  lemma {:induction false} NeighbourHeights(c: Ctx, t: Tree, d: Side, e: Ctx, x: Tree)
    requires t.Branch? && x.Branch? && Sub(x, 1 - d).Leaf? && Plug(e, x) == Sub(t, d)
    requires Avl(t) && Avl(x) && CtxAvl(c, H(t)) && CtxAvl(e, H(x))
    ensures CtxAvl(NewPath(c, e, x.cell, d, Sub(t, 1 - d)), 1 + H(Sub(x, d)))
    ensures H(x) == 1 + H(Sub(x, d)) && H(t) == 1 + Max(H(Plug(e, x)), H(Sub(t, 1 - d))) && -1 <= H(Plug(e, x)) - H(Sub(t, 1 - d)) <= 1
  {
    TopHeights(t, d);
    TopHeights(x, d);
    assert x == Mk(d, x.cell, Sub(x, d), Leaf);
    NewPathAvl(c, e, x.cell, d, Sub(x, d), Sub(t, 1 - d));
  }

  lemma {:induction false} TopHeights(t: Tree, d: Side)
    requires t.Branch? && Avl(t)
    ensures H(t) == 1 + Max(H(Sub(t, d)), H(Sub(t, 1 - d))) && -1 <= H(Sub(t, d)) - H(Sub(t, 1 - d)) <= 1
  {
  }

  lemma {:induction false} DropEntry(p: seq<Cell>, a: seq<Cell>, x: Cell, b: seq<Cell>, q: seq<Cell>)
    requires Sorted(p + (a + [x] + b) + q)
    ensures Sorted(p + (a + b) + q) && Entries(p + (a + b) + q) == Entries(p + (a + [x] + b) + q) - {x.id}
    ensures forall y :: y in p + (a + b) + q ==> y in p + (a + [x] + b) + q
  {
    assert p + (a + [x] + b) + q == (p + a) + [x] + (b + q);
    assert p + (a + b) + q == (p + a) + (b + q);
    RemoveSorted(p + a, x, b + q);
    EntriesStep((p + a) + (b + q), (p + a) + [x] + (b + q), x);
  }

  /** Taking the node at the top of `t` out of the sequence takes its entry out of the map. */
  lemma {:induction false} DropOrder(whole: Tree, c: Ctx, t: Tree)
    requires whole == Plug(c, t) && t.Branch? && Sorted(InOrder(whole))
    ensures Sorted(Without(c, t)) && Entries(Without(c, t)) == Entries(InOrder(whole)) - {t.cell.id}
    ensures forall x :: x in Without(c, t) ==> x in InOrder(whole)
  {
    PlugInOrder(c, t);
    assert InOrder(t) == InOrder(t.sub0) + [t.cell] + InOrder(t.sub1);
    DropEntry(Before(c), InOrder(t.sub0), t.cell, InOrder(t.sub1), After(c));
  }

  lemma {:induction false} InsertEntry(s: seq<Cell>, k: nat, x: Cell)
    requires Sorted(s) && k <= |s| && AllBelow(s[..k], x.id) && AllAbove(s[k..], x.id)
    ensures Sorted(s[..k] + [x] + s[k..]) && Entries(s[..k] + [x] + s[k..]) == Entries(s)[x.id := x.bundle]
    ensures forall y :: y in s[..k] + [x] + s[k..] ==> y == x || y in s
  {
    assert s == s[..k] + s[k..];
    InsertSorted(s[..k], x, s[k..]);
    EntriesStep(s, s[..k] + [x] + s[k..], x);
  }

  lemma {:induction false} FreshAddress(used: set<Ref>) returns (r: Ref)
    ensures r != 0 && r !in used
  {
    var top := Upper(used);
    r := top + 1;
  }

  lemma {:induction false} Upper(s: set<Ref>) returns (top: Ref)
    ensures forall r :: r in s ==> r <= top
  {
    if s == {} {
      top := 0;
    } else {
      var x :| x in s;
      var rest := Upper(s - {x});
      top := if x > rest then x else rest;
      forall r | r in s ensures r <= top { assert r == x || r in s - {x}; }
    }
  }

  class Store {
    var heap: Heap
    var root: Ref
    var nextId: nat
    ghost var tree: Tree

    /** A sound AVL tree over exactly the allocated nodes, with ids in search order and in range. */
    ghost predicate TreeValid()
      reads this`heap, this`root, this`tree
    {
      && Sound(heap, tree, root, 0) && heap.Keys == Refs(tree) && Sorted(InOrder(tree))
      && (forall x :: x in InOrder(tree) ==> 0 < x.id < StoreSpec.ID_RANGE)
    }

    ghost predicate Valid()
      reads this
    {
      TreeValid() && nextId < StoreSpec.ID_RANGE
    }

    ghost function Bundles(): map<nat, Ref>
      requires Sorted(InOrder(tree))
      reads this`tree
    {
      Entries(InOrder(tree))
    }

    /** The store as a plain map with a counter. */
    ghost function Abstract(): StoreSpec.State
      requires Sorted(InOrder(tree))
      reads this
    {
      StoreSpec.State(Bundles(), nextId)
    }

    constructor ()
      ensures Valid() && Abstract() == StoreSpec.State(map[], 1)
    {
      heap, root, nextId, tree := map[], 0, 1, Leaf;
    }

    /** The pointer part of a rotation. */
    method Relink(d: Side, oldTop: Ref, ghost a: Tree, ghost b: Tree, ghost c: Tree) returns (newTop: Ref)
      requires Rotatable(heap, d, oldTop, a, b, c)
      modifies this`heap
      ensures newTop == old(heap)[oldTop].Succ(d) && Only(old(heap), heap, {newTop, oldTop} + Refs(b))
      ensures heap[newTop] == old(heap)[newTop].SetSucc(1 - d, oldTop).(parent := old(heap)[oldTop].parent)
      ensures heap[oldTop] == old(heap)[oldTop].SetSucc(d, old(heap)[newTop].Succ(1 - d)).(parent := newTop)
      ensures Rep(heap, a, heap[newTop].Succ(d), newTop)
      ensures Rep(heap, b, heap[oldTop].Succ(d), oldTop) && Rep(heap, c, heap[oldTop].Succ(1 - d), oldTop)
    {
      ghost var h := heap;
      newTop := heap[oldTop].Succ(d);
      var t2 := heap[newTop].Succ(1 - d);
      heap := heap[newTop := heap[newTop].SetSucc(1 - d, oldTop).(parent := heap[oldTop].parent)];
      heap := heap[oldTop := heap[oldTop].(parent := newTop).SetSucc(d, t2)];
      if t2 != 0 {
        heap := heap[t2 := heap[t2].(parent := oldTop)];
      }
      RepFrame(h, heap, a, h[newTop].Succ(d), newTop);
      Reparent(h, heap, b, t2, newTop, oldTop);
      RepFrame(h, heap, c, h[oldTop].Succ(1 - d), oldTop);
    }

    /** `rotate_right` for side 0, `rotate_left` for side 1: lifts the child on side `d` above its parent. */
    method Rotate(d: Side, oldTop: Ref, ghost a: Tree, ghost b: Tree, ghost c: Tree) returns (newTop: Ref)
      requires Rotatable(heap, d, oldTop, a, b, c)
      modifies this`heap
      ensures newTop == old(heap)[oldTop].Succ(d) && Only(old(heap), heap, {newTop, oldTop} + Refs(b))
      ensures Rep(heap, Rotated(old(heap), d, oldTop, newTop, a, b, c), newTop, old(heap)[oldTop].parent)
    {
      newTop := Relink(d, oldTop, a, b, c);
      RecalcBoth(heap, d, oldTop, newTop, a, b, c);
      heap := Recalc(heap, oldTop);
      heap := Recalc(heap, newTop);
    }

    /**
     One round of `rebalance_from_nodeptr`: recomputes the height of a node above two finished
     subtrees and rotates if one of them is two levels higher; the caller stores the new top.
     */
    method RestoreBalance(top: Ref, ghost t: Tree) returns (newTop: Ref, ghost t': Tree)
      requires top in heap && Pending(heap, t, top, heap[top].parent)
      modifies this`heap
      ensures Only(old(heap), heap, Refs(t))
      ensures Sound(heap, t', newTop, old(heap)[top].parent) && newTop != 0
      ensures Refs(t') == Refs(t) && InOrder(t') == InOrder(t)
      ensures if -1 <= Balance(t) <= 1 then H(t') == H(t) else H(t) - 1 <= H(t') <= H(t)
    {
      RecalcRep(heap, 0, top, t.sub0, t.sub1);
      heap := Recalc(heap, top);
      newTop, t' := top, t;
      HeightExact(heap, t.sub0, heap[top].succ0, top);
      HeightExact(heap, t.sub1, heap[top].succ1, top);
      var balance := GetBalance(heap, top);
      if balance == 2 || balance == -2 {
        var d: Side := if balance == 2 then 0 else 1;
        newTop, t' := RotateHeavy(d, top, t);
      }
    }

    /** The rotations for a node whose side `d` is two levels higher than the other. */
    method RotateHeavy(d: Side, top: Ref, ghost t: Tree) returns (newTop: Ref, ghost t': Tree)
      requires top in heap && Pending(heap, t, top, heap[top].parent) && H(Sub(t, d)) == H(Sub(t, 1 - d)) + 2
      modifies this`heap
      ensures Only(old(heap), heap, Refs(t))
      ensures Sound(heap, t', newTop, old(heap)[top].parent) && newTop != 0
      ensures Refs(t') == Refs(t) && InOrder(t') == InOrder(t)
      ensures H(t) - 1 <= H(t') <= H(t)
    {
      ghost var x, c := Sub(t, d), Sub(t, 1 - d);
      ghost var a, b := Sub(x, d), Sub(x, 1 - d);
      MkFacts(d, x.cell, a, b);
      MkFacts(d, t.cell, x, c);
      var child := heap[top].Succ(d);
      HeightExact(heap, x.sub0, heap[child].succ0, child);
      HeightExact(heap, x.sub1, heap[child].succ1, child);
      var inner := GetBalance(heap, child);
      if (d == 0 && inner < 0) || (d == 1 && inner > 0) {
        newTop, t' := DoubleRotate(d, top, t, x, t.cell, x.cell, b.cell, a, Sub(b, 1 - d), Sub(b, d), c);
      } else {
        newTop, t' := SingleRotate(d, top, t, x, t.cell, x.cell, a, b, c);
      }
    }

    /** The outer grandchild is at least as high as the inner one: the child is lifted above the top. */
    method SingleRotate(d: Side, top: Ref, ghost t: Tree, ghost x: Tree, ghost r: Cell, ghost n: Cell, ghost a: Tree, ghost b: Tree, ghost c: Tree)
      returns (newTop: Ref, ghost t': Tree)
      requires t == Mk(d, r, x, c) && x == Mk(d, n, a, b)
      requires top in heap && Pending(heap, t, top, heap[top].parent) && H(a) == H(c) + 1 && H(a) - 1 <= H(b) <= H(a)
      modifies this`heap
      ensures Only(old(heap), heap, Refs(t))
      ensures Sound(heap, t', newTop, old(heap)[top].parent) && newTop != 0
      ensures Refs(t') == Refs(t) && InOrder(t') == InOrder(t) && H(t) - 1 <= H(t') <= H(t)
    {
      MkFacts(d, x.cell, a, b);
      MkFacts(d, t.cell, x, c);
      FormRotatable(heap, d, top, n, a, b, c);
      newTop := Rotate(d, top, a, b, c);
      t' := Mk(1 - d, n, Mk(1 - d, r, c, b), a);
      RotationInOrder(d, r, n, a, b, c);
      RotationRefs(d, r, n, a, b, c);
      SingleRotationBalance(d, r, n, a, b, c);
    }

    /** Replaces the child on side `d` by its own inner child, rotated above it. */
    method LiftInner(d: Side, top: Ref, ghost x: Tree, ghost n: Cell, ghost m: Cell, ghost a: Tree, ghost p: Tree, ghost q: Tree, ghost c: Tree)
      requires top in heap && top != 0 && Rep(heap, c, heap[top].Succ(1 - d), top)
      requires x == Mk(d, n, a, Mk(1 - d, m, p, q)) && Rep(heap, x, heap[top].Succ(d), top) && Distinct(x)
      requires heap[top].Succ(d) == n.ref && top !in Refs(x) && top !in Refs(c) && Refs(x) !! Refs(c)
      modifies this`heap
      ensures Only(old(heap), heap, Refs(x) + {top})
      ensures heap[top] == old(heap)[top].SetSucc(d, m.ref) && Rotatable(heap, d, top, Mk(d, n, a, q), p, c)
      ensures m.ref in heap && CellAt(heap, m.ref) == m
    {
      InnerReady(heap, d, top, x, n, m, a, p, q);
      var child := heap[top].Succ(d);
      var lifted := Rotate(1 - d, child, p, q, a);
      RepFrame(old(heap), heap, c, heap[top].Succ(1 - d), top);
      Attach(heap, d, top, m, Mk(d, n, a, q), p, c);
      heap := heap[top := heap[top].SetSucc(d, lifted)];
    }

    /** The inner grandchild is the highest subtree: it is lifted above the child, then above the top. */
    method DoubleRotate(d: Side, top: Ref, ghost t: Tree, ghost x: Tree, ghost r: Cell, ghost n: Cell, ghost m: Cell,
                        ghost a: Tree, ghost p: Tree, ghost q: Tree, ghost c: Tree)
      returns (newTop: Ref, ghost t': Tree)
      requires t == Mk(d, r, x, c) && x == Mk(d, n, a, Mk(1 - d, m, p, q))
      requires top in heap && Pending(heap, t, top, heap[top].parent) && H(a) == H(c) && Max(H(p), H(q)) == H(c)
      modifies this`heap
      ensures Only(old(heap), heap, Refs(t))
      ensures Sound(heap, t', newTop, old(heap)[top].parent) && newTop != 0
      ensures Refs(t') == Refs(t) && InOrder(t') == InOrder(t) && H(t') == H(t) - 1
    {
      DoubleReady(heap, d, top, t, x, r, n, m, a, p, q, c);
      LiftInner(d, top, x, n, m, a, p, q, c);
      newTop := Rotate(d, top, Mk(d, n, a, q), p, c);
      t' := Mk(1 - d, m, Mk(1 - d, r, c, p), Mk(d, n, a, q));
    }

    function Deref(s: Slot): Ref
      requires s.SuccSlot? ==> s.r in heap
      reads this
    {
      match s
      case NullSlot => 0
      case RootSlot => root
      case SuccSlot(r, d) => heap[r].Succ(d)
    }

    method StoreAt(s: Slot, p: Ref)
      requires !s.NullSlot? && (s.SuccSlot? ==> s.r in heap)
      modifies this`heap, this`root
      ensures heap == if s.SuccSlot? then old(heap)[s.r := old(heap)[s.r].SetSucc(s.d, p)] else old(heap)
      ensures root == if s.RootSlot? then p else old(root)
    {
      match s
      case RootSlot => root := p;
      case SuccSlot(r, d) => heap := heap[r := heap[r].SetSucc(d, p)];
    }

    /** Either done at the root, or at the slot of a node that is next to be finished. */
    ghost predicate WalkState(s: Slot, c: Ctx, t: Tree, n: int)
      reads this
    {
      && (s.SuccSlot? ==> s.r in heap)
      && if s.NullSlot? then c.Top? && Sound(heap, t, root, 0)
         else s == SlotOf(c) && Climbing(heap, root, c, t, Deref(s), n)
    }

    /** One round of the loop of `rebalance_from_nodeptr`. */
    method RebalanceStep(s: Slot, ghost c: Ctx, ghost t: Tree, ghost n: int) returns (s': Slot, ghost c': Ctx, ghost t': Tree, ghost n': int)
      requires !s.NullSlot? && WalkState(s, c, t, n)
      modifies this`heap, this`root
      ensures WalkState(s', c', t', n') && (if c.In? then c' == c.up && s' == SlotOf(c') else s'.NullSlot?)
      ensures InOrder(Plug(c', t')) == InOrder(Plug(c, t)) && Refs(Plug(c', t')) == Refs(Plug(c, t))
      ensures Only(old(heap), heap, Refs(Plug(c, t)))
    {
      var top := Deref(s);
      var newTop, t1 := RestoreBalance(top, t);
      PlugSame(c, t, t1);
      AfterRestore(old(heap), heap, root, c, t, t1, top, newTop, n);
      StoreAt(s, newTop);
      if c.In? { ParentFwdPtrIs(heap, newTop, c.up, root, 0); }
      s' := ParentFwdPtr(heap, newTop);
      if c.In? {
        t', c', n' := Mk(c.side, c.cell, t1, c.sib), c.up, 1 + Max(n, H(c.sib));
      } else {
        t', c', n' := t1, c, n;
      }
    }

    /** `rebalance_from_nodeptr`: finishes every node on the way from a slot up to the root. */
    method RebalanceFrom(from: Slot, ghost c0: Ctx, ghost t0: Tree, ghost n0: int) returns (ghost t: Tree)
      requires !from.NullSlot? && WalkState(from, c0, t0, n0)
      modifies this`heap, this`root
      ensures Sound(heap, t, root, 0) && InOrder(t) == InOrder(Plug(c0, t0)) && Refs(t) == Refs(Plug(c0, t0))
      ensures Only(old(heap), heap, Refs(t))
    {
      var s := from;
      ghost var c, n := c0, n0;
      t := t0;
      while s != NullSlot && Deref(s) != 0
        invariant WalkState(s, c, t, n)
        invariant InOrder(Plug(c, t)) == InOrder(Plug(c0, t0)) && Refs(Plug(c, t)) == Refs(Plug(c0, t0))
        invariant Only(old(heap), heap, Refs(Plug(c0, t0)))
        decreases !s.NullSlot?, c
      {
        s, c, t, n := RebalanceStep(s, c, t, n);
      }
    }

    /**
     `find_nodeptr`: the forward slot of the node with the given id; with `insert` set and no such
     node, the slot of the node below which it belongs.
     */
    method FindNodePtr(id: nat, insert: bool, ghost whole: Tree) returns (s: Slot, ghost c: Ctx, ghost t: Tree)
      requires Sound(heap, whole, root, 0) && Sorted(InOrder(whole))
      ensures s.NullSlot? ==> (forall x :: x in InOrder(whole) ==> x.id != id) && (insert ==> whole.Leaf?)
      ensures !s.NullSlot? ==>
                && s == SlotOf(c) && (s.SuccSlot? ==> s.r in heap) && Plug(c, t) == whole && t.Branch?
                && Opened(heap, root, 0, c, t, Deref(s)) && Around(c, id) && Sorted(InOrder(t))
                && (t.cell.id == id || (insert && Sub(t, if id < t.cell.id then 0 else 1).Leaf?))
    {
      s, c, t := RootSlot, Top, whole;
      if root == 0 {
        return NullSlot, c, t;
      }
      while true
        invariant s == SlotOf(c) && (s.SuccSlot? ==> s.r in heap) && Deref(s) != 0
        invariant Plug(c, t) == whole && Opened(heap, root, 0, c, t, Deref(s))
        invariant Around(c, id) && Sorted(InOrder(t))
        decreases t
      {
        var node := Deref(s);
        if id == heap[node].id {
          return;
        }
        var d: Side := if id < heap[node].id then 0 else 1;
        Descend(heap, root, 0, c, t, node, d);
        DescendAround(c, t, d, id);
        if heap[node].Succ(d) == 0 {
          if insert {
            return;
          }
          PlugInOrder(Down(c, t, d), Leaf);
          return NullSlot, c, t;
        }
        s, c, t := SuccSlot(node, d), Down(c, t, d), Sub(t, d);
      }
    }

    /** Creates a node on the free side of `prev` and rebalances from there. */
    method HangNew(prev: Ref, suc: Side, x: Cell, ghost c: Ctx, ghost t: Tree) returns (ghost t': Tree)
      requires Opened(heap, root, 0, c, t, prev) && t.Branch? && Sub(t, suc).Leaf?
      requires x.ref != 0 && x.ref !in heap && heap.Keys == CtxRefs(c) + Refs(t)
      modifies this`heap, this`root
      ensures Sound(heap, t', root, 0) && heap.Keys == Refs(t')
      ensures InOrder(t') == InOrder(Plug(Down(c, t, suc), Branch(x, Leaf, Leaf)))
    {
      Hang(heap, root, c, t, prev, suc, x);
      heap := heap[x.ref := Node(x.id, x.bundle, 0, 0, prev, 1)];
      heap := heap[prev := heap[prev].SetSucc(suc, x.ref)];
      ghost var t1 := Mk(suc, t.cell, Branch(x, Leaf, Leaf), Sub(t, 1 - suc));
      PlugRefs(c, t1);
      ParentFwdPtrIs(heap, x.ref, c, root, 0);
      var from := ParentFwdPtr(heap, x.ref);
      t' := RebalanceFrom(from, c, t1, H(t));
    }

    /** `add_node`; `addr` is the address the allocator returned for the new node. */
    method AddNode(id: nat, bundle: Ref, addr: Ref, ghost whole: Tree) returns (ghost t': Tree, ghost k: nat)
      requires Sound(heap, whole, root, 0) && Sorted(InOrder(whole)) && heap.Keys == Refs(whole)
      requires forall x :: x in InOrder(whole) ==> x.id != id
      requires addr != 0 && addr !in heap
      modifies this`heap, this`root
      ensures Sound(heap, t', root, 0) && heap.Keys == Refs(t')
      ensures k <= |InOrder(whole)| && InOrder(t') == InOrder(whole)[..k] + [Cell(addr, id, bundle)] + InOrder(whole)[k..]
      ensures AllBelow(InOrder(whole)[..k], id) && AllAbove(InOrder(whole)[k..], id)
    {
      var x := Cell(addr, id, bundle);
      if root == 0 {
        heap := heap[addr := Node(id, bundle, 0, 0, 0, 1)];
        root := addr;
        t', k := Branch(x, Leaf, Leaf), 0;
        return;
      }
      var s, c, t := FindNodePtr(id, true, whole);
      PlugRefs(c, t);
      assert t.cell.id != id by {
        PlugInOrder(c, t);
        assert t.cell in InOrder(t);
      }
      var prev := Deref(s);
      var suc: Side := if id < heap[prev].id then 0 else 1;
      DescendAround(c, t, suc, id);
      k := InsertOrder(Down(c, t, suc), x);
      t' := HangNew(prev, suc, x, c, t);
    }

    /** Removes a node without successors. */
    method DeleteLeaf(s: Slot, ghost c: Ctx, ghost t: Tree) returns (ghost t': Tree)
      requires s == SlotOf(c) && (s.SuccSlot? ==> s.r in heap) && Opened(heap, root, 0, c, t, Deref(s))
      requires t.Branch? && t.sub0.Leaf? && t.sub1.Leaf?
      modifies this`heap, this`root
      ensures Sound(heap, t', root, 0) && heap.Keys == old(heap).Keys
      ensures InOrder(t') == Without(c, t) && Refs(t') == CtxRefs(c) + Refs(t.sub0) + Refs(t.sub1)
    {
      var del := Deref(s);
      PlugRefs(c, Leaf);
      PlugInOrder(c, Leaf);
      StoreAt(s, 0);
      if heap[del].parent == 0 {
        return Leaf;
      }
      Climb(old(heap), root, c, Leaf, 0, del, H(t));
      ParentFwdPtrIs(heap, del, c.up, root, 0);
      t' := RebalanceFrom(ParentFwdPtr(heap, del), c.up, Mk(c.side, c.cell, Leaf, c.sib), 1 + Max(H(t), H(c.sib)));
    }

    /** Removes a node with a successor on side `d` only. */
    method DeleteOneChild(s: Slot, d: Side, ghost c: Ctx, ghost t: Tree) returns (ghost t': Tree)
      requires s == SlotOf(c) && (s.SuccSlot? ==> s.r in heap) && Opened(heap, root, 0, c, t, Deref(s))
      requires t.Branch? && Sub(t, d).Branch? && Sub(t, 1 - d).Leaf?
      modifies this`heap, this`root
      ensures Sound(heap, t', root, 0) && heap.Keys == old(heap).Keys
      ensures InOrder(t') == Without(c, t) && Refs(t') == CtxRefs(c) + Refs(t.sub0) + Refs(t.sub1)
    {
      var del := Deref(s);
      var replacement := heap[del].Succ(d);
      SpliceOne(heap, root, c, t, del, d);
      OneChildOrder(c, t, d);
      StoreAt(s, replacement);
      heap := heap[replacement := heap[replacement].(parent := heap[del].parent)];
      t' := RebalanceFrom(s, c, Sub(t, d), H(t));
    }

    /** The loop that finds the largest node below side 0, or the smallest below side 1, of `del`. */
    method FindNeighbour(del: Ref, d: Side, ghost whole: Tree) returns (replacement: Ref, ghost e: Ctx, ghost x: Tree)
      requires del in heap && Sound(heap, whole, heap[del].Succ(d), del) && whole.Branch?
      ensures Opened(heap, heap[del].Succ(d), del, e, x, replacement) && Plug(e, x) == whole
      ensures x.Branch? && Sub(x, 1 - d).Leaf? && OnSide(e, d)
      ensures e.Top? <==> replacement == heap[del].Succ(d)
    {
      replacement, e, x := heap[del].Succ(d), Top, whole;
      while heap[replacement].Succ(1 - d) != 0
        invariant Opened(heap, heap[del].Succ(d), del, e, x, replacement) && Plug(e, x) == whole
        invariant x.Branch? && OnSide(e, d)
        decreases x
      {
        Descend(heap, heap[del].Succ(d), del, e, x, replacement, 1 - d);
        replacement, e, x := heap[replacement].Succ(1 - d), Down(e, x, 1 - d), Sub(x, 1 - d);
      }
      MkUnrep(heap, 1 - d, x.cell, Sub(x, 1 - d), Sub(x, d), replacement, Parent(e, del));
      if e.In? {
        TopOfPath(heap, e, replacement, heap[del].Succ(d), del);
        assert x.cell.ref == replacement && replacement in Refs(x);
      }
    }

    /** Takes the neighbour out of its place and hangs both of the removed node's subtrees below it. */
    method MoveNeighbour(del: Ref, d: Side, replacement: Ref, ghost c: Ctx, ghost e: Ctx, ghost n: Cell, ghost y: Tree, ghost other: Tree)
      requires del in heap && replacement == n.ref && e.In? && e.side == 1 - d
      requires Apart(heap, root, c, del, e, n, d, y, other, heap[del].Succ(1 - d))
      modifies this`heap
      ensures Only(old(heap), heap, {n.ref} + CtxRefs(e) + Refs(y) + Refs(other))
      ensures Reordered(heap, root, c, del, e, n, d, y, old(heap)[n.ref].Succ(d), other, old(heap)[del].Succ(1 - d), old(heap)[del].Succ(d))
    {
      Reorder(heap, root, c, del, e, n, d, y, other, heap[del].Succ(1 - d));
      var parent, below := heap[replacement].parent, heap[replacement].Succ(d);
      var top, far := heap[del].Succ(d), heap[del].Succ(1 - d);
      heap := heap[parent := heap[parent].SetSucc(1 - d, below)];
      if below != 0 {
        heap := heap[below := heap[below].(parent := parent)];
      }
      heap := Recalc(heap, parent);
      heap := heap[replacement := heap[replacement].SetSucc(d, top)];
      heap := heap[top := heap[top].(parent := replacement)];
      heap := heap[replacement := heap[replacement].SetSucc(1 - d, far)];
      heap := heap[far := heap[far].(parent := replacement)];
    }

    /** Lets the neighbour stand in for the node in slot `s`; returns where rebalancing has to start. */
    method StandIn(s: Slot, d: Side, replacement: Ref, ghost c: Ctx, ghost e: Ctx, ghost n: Cell, ghost y: Tree, ghost other: Tree,
                   ghost yTop: Ref, ghost q: Ref, ghost top: Ref, ghost path: Ctx)
      returns (from: Slot)
      requires s == SlotOf(c) && (s.SuccSlot? ==> s.r in heap) && Deref(s) in heap && replacement == n.ref
      requires Reordered(heap, root, c, Deref(s), e, n, d, y, yTop, other, q, top) && heap[Deref(s)].parent == Parent(c, 0)
      requires CtxAvl(path, 1 + H(y)) && path == NewPath(c, e, n, d, other)
      modifies this`heap, this`root
      ensures heap.Keys == old(heap).Keys && path.In? && !from.NullSlot?
      ensures WalkState(from, path.up, Mk(path.side, path.cell, y, path.sib), 1 + Max(1 + H(y), H(path.sib)))
    {
      var del := Deref(s);
      StandInFacts(heap, root, c, del, e, n, d, y, yTop, other, q, top, path);
      from := ParentFwdPtr(heap, replacement);
      StoreAt(s, replacement);
      heap := heap[replacement := heap[replacement].(parent := heap[del].parent)];
    }

    /** The neighbour is the direct child on side `d`: only the far subtree has to be re-hung. */
    method SpliceChild(s: Slot, d: Side, replacement: Ref, ghost c: Ctx, ghost n: Cell, ghost y: Tree, ghost other: Tree, ghost k: int)
      returns (ghost t': Tree)
      requires s == SlotOf(c) && (s.SuccSlot? ==> s.r in heap) && Deref(s) in heap && replacement == n.ref
      requires Apart(heap, root, c, Deref(s), Top, n, d, y, other, heap[Deref(s)].Succ(1 - d))
      requires CtxAvl(c, k) && k == 1 + Max(1 + H(y), H(other)) && -1 <= 1 + H(y) - H(other) <= 1
      modifies this`heap, this`root
      ensures Sound(heap, t', root, 0) && heap.Keys == old(heap).Keys
      ensures InOrder(t') == InOrder(Plug(c, Mk(d, n, y, other))) && Refs(t') == Refs(Plug(c, Mk(d, n, y, other)))
    {
      var from := TakeOver(s, d, replacement, c, n, y, other, k);
      t' := RebalanceFrom(from, c, Mk(d, n, y, other), k);
    }

    /** The child takes the place of its parent. */
    method TakeOver(s: Slot, d: Side, replacement: Ref, ghost c: Ctx, ghost n: Cell, ghost y: Tree, ghost other: Tree, ghost k: int)
      returns (from: Slot)
      requires s == SlotOf(c) && (s.SuccSlot? ==> s.r in heap) && Deref(s) in heap && replacement == n.ref
      requires Apart(heap, root, c, Deref(s), Top, n, d, y, other, heap[Deref(s)].Succ(1 - d))
      requires CtxAvl(c, k) && k == 1 + Max(1 + H(y), H(other)) && -1 <= 1 + H(y) - H(other) <= 1
      modifies this`heap, this`root
      ensures heap.Keys == old(heap).Keys && WalkState(from, c, Mk(d, n, y, other), k) && !from.NullSlot?
    {
      var del := Deref(s);
      var far := heap[del].Succ(1 - d);
      SpliceDirect(heap, root, c, del, d, n, y, other, far, k);
      heap := heap[replacement := heap[replacement].SetSucc(1 - d, far)];
      heap := heap[far := heap[far].(parent := replacement)];
      from := ParentFwdPtr(heap, replacement);
      StoreAt(s, replacement);
      heap := heap[replacement := heap[replacement].(parent := heap[del].parent)];
    }

    /** The neighbour lies deeper in the subtree on side `d`. */
    method SpliceNeighbour(s: Slot, d: Side, replacement: Ref, ghost c: Ctx, ghost e: Ctx, ghost n: Cell, ghost y: Tree, ghost other: Tree, ghost path: Ctx)
      returns (ghost t': Tree)
      requires s == SlotOf(c) && (s.SuccSlot? ==> s.r in heap) && Deref(s) in heap && replacement == n.ref && e.In? && e.side == 1 - d
      requires Apart(heap, root, c, Deref(s), e, n, d, y, other, heap[Deref(s)].Succ(1 - d))
      requires CtxAvl(path, 1 + H(y)) && path == NewPath(c, e, n, d, other)
      modifies this`heap, this`root
      ensures Sound(heap, t', root, 0) && heap.Keys == old(heap).Keys
      ensures InOrder(t') == InOrder(Plug(path, y)) && Refs(t') == Refs(Plug(path, y))
    {
      var del := Deref(s);
      ghost var q, yTop, top := heap[del].Succ(1 - d), heap[replacement].Succ(d), heap[del].Succ(d);
      MoveNeighbour(del, d, replacement, c, e, n, y, other);
      var from := StandIn(s, d, replacement, c, e, n, y, other, yTop, q, top, path);
      t' := RebalanceFrom(from, path.up, Mk(path.side, path.cell, y, path.sib), 1 + Max(1 + H(y), H(path.sib)));
    }

    /** Removes a node with two successors: its neighbour in the higher subtree takes its place. */
    method DeleteTwoChildren(s: Slot, ghost c: Ctx, ghost t: Tree) returns (ghost t': Tree)
      requires s == SlotOf(c) && (s.SuccSlot? ==> s.r in heap) && Opened(heap, root, 0, c, t, Deref(s))
      requires t.Branch? && t.sub0.Branch? && t.sub1.Branch?
      modifies this`heap, this`root
      ensures Sound(heap, t', root, 0) && heap.Keys == old(heap).Keys
      ensures InOrder(t') == Without(c, t) && Refs(t') == CtxRefs(c) + Refs(t.sub0) + Refs(t.sub1)
    {
      var del := Deref(s);
      var d: Side := if Height(heap, heap[del].succ0) >= Height(heap, heap[del].succ1) then 0 else 1;
      Descend(heap, root, 0, c, t, del, d);
      var replacement, e, x := FindNeighbour(del, d, Sub(t, d));
      t' := SpliceParts(s, d, replacement, c, t, e, x);
    }

    method SpliceParts(s: Slot, d: Side, replacement: Ref, ghost c: Ctx, ghost t: Tree, ghost e: Ctx, ghost x: Tree) returns (ghost t': Tree)
      requires s == SlotOf(c) && (s.SuccSlot? ==> s.r in heap) && Deref(s) in heap
      requires Parts(heap, root, c, t, Deref(s), d, e, x, replacement) && (e.Top? <==> replacement == heap[Deref(s)].Succ(d))
      modifies this`heap, this`root
      ensures Sound(heap, t', root, 0) && heap.Keys == old(heap).Keys
      ensures InOrder(t') == Without(c, t) && Refs(t') == CtxRefs(c) + Refs(t.sub0) + Refs(t.sub1)
    {
      ghost var y, other := Sub(x, d), Sub(t, 1 - d);
      ghost var path := NewPath(c, e, x.cell, d, other);
      PartsApart(heap, root, c, t, Deref(s), d, e, x, replacement);
      PartsAvl(heap, root, c, t, Deref(s), d, e, x, replacement);
      SpliceOrder(c, t, d, e, x);
      SpliceRefs(c, t, d, e, x);
      if replacement == heap[Deref(s)].Succ(d) {
        t' := SpliceChild(s, d, replacement, c, x.cell, y, other, H(t));
      } else {
        t' := SpliceNeighbour(s, d, replacement, c, e, x.cell, y, other, path);
      }
    }

    /** Takes the node in slot `s` out of the tree. */
    method Unlink(s: Slot, ghost c: Ctx, ghost t: Tree) returns (ghost t': Tree)
      requires s == SlotOf(c) && (s.SuccSlot? ==> s.r in heap) && Opened(heap, root, 0, c, t, Deref(s)) && t.Branch?
      modifies this`heap, this`root
      ensures Sound(heap, t', root, 0) && heap.Keys == old(heap).Keys
      ensures InOrder(t') == Without(c, t) && Refs(t') == CtxRefs(c) + Refs(t.sub0) + Refs(t.sub1)
    {
      var del := Deref(s);
      MkUnrep(heap, 0, t.cell, t.sub0, t.sub1, del, Parent(c, 0));
      assert (t.sub0.Leaf? <==> heap[del].succ0 == 0) && (t.sub1.Leaf? <==> heap[del].succ1 == 0);
      if heap[del].succ0 == 0 && heap[del].succ1 == 0 {
        t' := DeleteLeaf(s, c, t);
      } else if heap[del].succ1 == 0 {
        t' := DeleteOneChild(s, 0, c, t);
      } else if heap[del].succ0 == 0 {
        t' := DeleteOneChild(s, 1, c, t);
      } else {
        t' := DeleteTwoChildren(s, c, t);
      }
    }

    /** `delete_node_at_ptr`: unlinks the node in slot `s`, rebalances, and frees it. */
    method DeleteNodeAtPtr(s: Slot, ghost c: Ctx, ghost t: Tree) returns (ghost t': Tree)
      requires s == SlotOf(c) && (s.SuccSlot? ==> s.r in heap) && Opened(heap, root, 0, c, t, Deref(s))
      requires t.Branch? && heap.Keys == CtxRefs(c) + Refs(t)
      modifies this`heap, this`root
      ensures Sound(heap, t', root, 0) && heap.Keys == Refs(t') && InOrder(t') == Without(c, t)
    {
      var del := Deref(s);
      t' := Unlink(s, c, t);
      ghost var h := heap;
      heap := heap - {del};
      RepFrame(h, heap, t', root, 0);
    }

    /** Looks a node up without touching the tree. */
    method Find(id: nat) returns (s: Slot, ghost c: Ctx, ghost t: Tree)
      requires TreeValid()
      ensures s.NullSlot? <==> id !in Bundles()
      ensures !s.NullSlot? ==>
                && s == SlotOf(c) && (s.SuccSlot? ==> s.r in heap) && Opened(heap, root, 0, c, t, Deref(s))
                && Plug(c, t) == tree && t.Branch? && t.cell.id == id && Bundles()[id] == t.cell.bundle
    {
      s, c, t := FindNodePtr(id, false, tree);
      if !s.NullSlot? {
        PlugInOrder(c, t);
        assert t.cell in InOrder(t);
        EntriesAt(InOrder(tree), t.cell);
      }
    }

    /** `bundle_storage_contains` */
    method Contains(id: nat) returns (yes: bool)
      requires Valid()
      ensures (Abstract(), StoreSpec.Known(yes)) == StoreSpec.Step(Abstract(), StoreSpec.Contains(id))
    {
      if id == StoreSpec.INVALID_ID {
        return false;
      }
      var s, c, t := Find(id);
      return s != NullSlot;
    }

    /** `bundle_storage_get` */
    method Get(id: nat) returns (bundle: Ref)
      requires Valid()
      ensures (Abstract(), StoreSpec.Found(bundle)) == StoreSpec.Step(Abstract(), StoreSpec.Get(id))
    {
      if id == StoreSpec.INVALID_ID {
        return 0;
      }
      var s, c, t := Find(id);
      return if s == NullSlot then 0 else heap[Deref(s)].bundle;
    }

    /** Takes the found node out and forgets its entry. */
    method Drop(s: Slot, ghost c: Ctx, ghost t: Tree)
      requires TreeValid() && s == SlotOf(c) && (s.SuccSlot? ==> s.r in heap) && Opened(heap, root, 0, c, t, Deref(s))
      requires Plug(c, t) == tree && t.Branch?
      modifies this`heap, this`root, this`tree
      ensures TreeValid() && Bundles() == old(Bundles()) - {t.cell.id}
    {
      PlugRefs(c, t);
      DropOrder(tree, c, t);
      var t' := DeleteNodeAtPtr(s, c, t);
      tree := t';
    }

    /** `bundle_storage_delete` */
    method Delete(id: nat) returns (yes: bool)
      requires Valid()
      modifies this
      ensures Valid()
      ensures (Abstract(), StoreSpec.Known(yes)) == StoreSpec.Step(old(Abstract()), StoreSpec.Delete(id))
    {
      if id == StoreSpec.INVALID_ID {
        return false;
      }
      var s, c, t := Find(id);
      if s == NullSlot {
        return false;
      }
      Drop(s, c, t);
      return true;
    }

    /** The search of `bundle_storage_add` for an unused id. */
    method FreeId() returns (id: nat)
      requires Valid() && |Bundles()| < StoreSpec.ID_RANGE - 1
      modifies this`nextId
      ensures id == StoreSpec.Probe(Bundles().Keys, old(nextId), StoreSpec.ID_RANGE - 1)
      ensures nextId == StoreSpec.Increment(id)
    {
      ghost var used, left := Bundles().Keys, StoreSpec.ID_RANGE - 1;
      StoreSpec.ProbeFindsFree(used, nextId);
      id := nextId;
      nextId := StoreSpec.Increment(nextId);
      var s, c, t := Find(id);
      while id == StoreSpec.INVALID_ID || s != NullSlot
        invariant left >= 0 && id < StoreSpec.ID_RANGE && nextId == StoreSpec.Increment(id)
        invariant s == NullSlot <==> id !in used
        invariant StoreSpec.Probe(used, id, left) == StoreSpec.Probe(used, old(nextId), StoreSpec.ID_RANGE - 1)
        decreases left
      {
        id := nextId;
        nextId := StoreSpec.Increment(nextId);
        left := left - 1;
        s, c, t := Find(id);
      }
    }

    /** Adds an entry under an unused id; the allocator returns any address not in use. */
    method Insert(id: nat, bundle: Ref)
      requires TreeValid() && 0 < id < StoreSpec.ID_RANGE && id !in Bundles()
      modifies this`heap, this`root, this`tree
      ensures TreeValid() && Bundles() == old(Bundles())[id := bundle]
    {
      ghost var s := InOrder(tree);
      forall x | x in s ensures x.id != id { EntriesAt(s, x); }
      ghost var unused := FreshAddress(heap.Keys);
      assert unused != 0 && unused !in heap;
      var addr: Ref :| addr != 0 && addr !in heap;
      var t', k := AddNode(id, bundle, addr, tree);
      InsertEntry(s, k, Cell(addr, id, bundle));
      tree := t';
    }

    /**
     `bundle_storage_add`: gives the bundle the first free id at or after the counter. While all
     65535 ids are taken the search never ends (`StoreSpec.ProbeEndsIff`), hence the bound.
     */
    method Add(bundle: Ref) returns (id: nat)
      requires Valid() && |Abstract().bundles| < StoreSpec.ID_RANGE - 1
      modifies this
      ensures Valid() && 0 < id < StoreSpec.ID_RANGE && id !in old(Abstract()).bundles
      ensures (Abstract(), StoreSpec.Id(id)) == StoreSpec.Step(old(Abstract()), StoreSpec.Add(bundle))
    {
      StoreSpec.ProbeFindsFree(Bundles().Keys, nextId);
      id := FreeId();
      Insert(id, bundle);
    }

    /** Any sequence of operations answers as the plain map does, and keeps the tree an AVL tree. */
    method Replay(ops: seq<StoreSpec.Op>) returns (replies: seq<StoreSpec.Reply>)
      requires Valid() && StoreSpec.NeverFull(Abstract(), ops)
      modifies this
      ensures Valid() && H(tree) <= 22
      ensures (Abstract(), replies) == StoreSpec.Run(old(Abstract()), ops)
    {
      replies := [];
      ghost var start := Abstract();
      for i := 0 to |ops|
        invariant Valid() && (Abstract(), replies) == StoreSpec.Run(start, ops[..i])
        invariant StoreSpec.NeverFull(start, ops)
      {
        StoreSpec.NeverFullPrefix(start, ops, i + 1);
        assert ops[..i + 1][..i] == ops[..i];
        match ops[i] {
          case Add(b) =>
            var id := Add(b);
            replies := replies + [StoreSpec.Id(id)];
          case Get(id) =>
            var b := Get(id);
            replies := replies + [StoreSpec.Found(b)];
          case Contains(id) =>
            var yes := Contains(id);
            replies := replies + [StoreSpec.Known(yes)];
          case Delete(id) =>
            var yes := Delete(id);
            replies := replies + [StoreSpec.Known(yes)];
        }
      }
      assert ops[..|ops|] == ops;
      SortedSize(InOrder(tree), StoreSpec.ID_RANGE - 1);
      HeightBound(tree);
    }
  }
}
