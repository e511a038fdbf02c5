/** One layer of the tree: B+tree nodes in memory, and what makes them a search tree.
  Sources: masstree_struct.hh (leaf, internode, reach_leaf), ksearch.hh (upper bound). */
module TreeModel {
  import opened Options
  import Slots

  type Ref = nat
  type Content = Slots.Slot
  /** An 8-byte key slice, compared as an unsigned integer. */
  type Ikey = nat

  const LIMIT := 0x1_0000_0000_0000_0000
  const WIDTH := 14
  const INTERNODE_WIDTH := 15

  /** A leaf entry.  `len` is the key length within the slice, 9 standing for a longer key. */
  datatype Entry = Entry(ikey: Ikey, len: nat, value: Content)

  /** A leaf keeps its entries in key order; `hasPrev` says that its `prev_` is not null and
      `bound` is the ikey in slot 0, which a leaf with a `prev_` never reuses for another ikey.
      An internode's first child may be null after a removal. */
  datatype Node =
    | Leaf(parent: Option<Ref>, entries: seq<Entry>, hasPrev: bool, bound: Ikey)
    | Inner(parent: Option<Ref>, level: nat, keys: seq<Ikey>, child: seq<Option<Ref>>)
  {
    function Height(): nat { if Leaf? then 0 else level }
  }

  /** `nodes` is the memory.  `lo` and `hi` are auxiliary: node `r` serves the slices from
      `lo[r]` up to but not including `hi[r]`. */
  datatype Tree = Tree(nodes: map<Ref, Node>, root: Ref, lo: map<Ref, Ikey>, hi: map<Ref, nat>)

  // ----- searching an internode

  ghost predicate Sorted(keys: seq<Ikey>) {
    forall i, j :: 0 <= i < j < |keys| ==> keys[i] < keys[j]
  }

  /** `bound_type::upper`: the number of keys that are not above `k`. */
  function Upper(keys: seq<Ikey>, k: Ikey): (i: nat)
    ensures i <= |keys|
    ensures forall j :: 0 <= j < i ==> keys[j] <= k
    ensures i < |keys| ==> keys[i] > k
  {
    if keys == [] || keys[0] > k then 0 else 1 + Upper(keys[1..], k)
  }

  /** `key_upper_bound`, the binary search. */
  method UpperBound(keys: seq<Ikey>, k: Ikey) returns (i: nat)
    requires Sorted(keys)
    ensures i == Upper(keys, k)
  {
    var l, r := 0, |keys|;
    while l < r
      invariant l <= r <= |keys|
      invariant forall j :: 0 <= j < l ==> keys[j] <= k
      invariant forall j :: r <= j < |keys| ==> k < keys[j]
    {
      var m := (l + r) / 2;
      if k < keys[m] {
        r := m;
      } else if k == keys[m] {
        UpperIs(keys, k, m + 1);
        return m + 1;
      } else {
        l := m + 1;
      }
    }
    UpperIs(keys, k, l);
    return l;
  }

  lemma UpperIs(keys: seq<Ikey>, k: Ikey, i: nat)
    requires Sorted(keys) && i <= |keys|
    requires i > 0 ==> keys[i - 1] <= k
    requires i < |keys| ==> k < keys[i]
    ensures Upper(keys, k) == i
  {
  }

  /** The range of child `i` of an internode with keys `keys` that serves [l, h). */
  function From(keys: seq<Ikey>, l: Ikey, i: nat): Ikey
    requires i <= |keys|
  {
    if i == 0 then l else keys[i - 1]
  }

  function Till(keys: seq<Ikey>, h: nat, i: nat): nat
    requires i <= |keys|
  {
    if i == |keys| then h else keys[i]
  }

  // ----- validity, node by node

  ghost predicate Ordered(es: seq<Entry>) {
    forall i, j :: 0 <= i < j < |es| ==> es[i].ikey < es[j].ikey || (es[i].ikey == es[j].ikey && es[i].len < es[j].len)
  }

  ghost predicate LeafOk(n: Node, l: Ikey, h: nat)
    requires n.Leaf?
  {
    && Ordered(n.entries)
    && (forall e :: e in n.entries ==> l <= e.ikey < h && e.len <= 9)
    && (n.hasPrev <==> l != 0) && (n.hasPrev ==> n.bound == l)
  }

  /** The first child is null exactly when its range is empty, never at the left edge. */
  ghost predicate InnerOk(n: Node, l: Ikey, h: nat)
    requires n.Inner?
  {
    && |n.child| == |n.keys| + 1
    && Sorted(n.keys)
    && (forall i :: 0 <= i < |n.keys| ==> l <= n.keys[i] < h)
    && (forall i :: 0 < i < |n.child| ==> n.child[i].Some?)
    && (n.child[0] == None <==> n.keys != [] && n.keys[0] == l)
    && (l == 0 ==> n.child[0].Some?)
  }

  /** Child `i` of `r` is a lower node that points back and serves its part of the range.
      `view` is the upper bound that the parent expects. */
  ghost predicate ChildOk(t: Tree, view: map<Ref, nat>, r: Ref, i: nat)
    requires r in t.nodes && r in t.lo && r in t.hi && r in view && t.nodes[r].Inner?
    requires |t.nodes[r].child| == |t.nodes[r].keys| + 1 && i < |t.nodes[r].child|
    requires t.nodes[r].child[i].Some?
  {
    var n, c := t.nodes[r], t.nodes[r].child[i].value;
    && c in t.nodes && c in t.lo && c in view
    && t.nodes[c].parent == Some(r)
    && t.nodes[c].Height() < n.level
    && t.lo[c] == From(n.keys, t.lo[r], i)
    && view[c] == Till(n.keys, t.hi[r], i)
  }

  ghost predicate NodeOk(t: Tree, view: map<Ref, nat>, r: Ref)
    requires r in t.nodes && r in t.lo && r in t.hi && r in view
  {
    var n := t.nodes[r];
    && t.lo[r] < t.hi[r] <= LIMIT
    && (n.Leaf? ==> LeafOk(n, t.lo[r], t.hi[r]))
    && (n.Inner? ==>
          && InnerOk(n, t.lo[r], t.hi[r])
          && forall i :: 0 <= i < |n.child| && n.child[i].Some? ==> ChildOk(t, view, r, i))
  }

  /** A node other than the root is a child of its parent. */
  ghost predicate ParentOk(t: Tree, view: map<Ref, nat>, r: Ref)
    requires r in t.nodes && r in t.lo && r in view
  {
    if r == t.root then
      t.nodes[r].parent == None && t.lo[r] == 0 && view[r] == LIMIT
    else
      && t.nodes[r].parent.Some? && t.nodes[r].parent.value in t.nodes
      && var p := t.nodes[t.nodes[r].parent.value];
      p.Inner? && Some(r) in p.child
  }

  ghost predicate Domains(t: Tree, view: map<Ref, nat>) {
    t.lo.Keys == t.hi.Keys == view.Keys == t.nodes.Keys && t.root in t.nodes
  }

  ghost predicate Valid(t: Tree) {
    && Domains(t, t.hi)
    && forall r {:trigger NodeOk(t, t.hi, r)} {:trigger ParentOk(t, t.hi, r)} ::
         r in t.nodes ==> NodeOk(t, t.hi, r) && ParentOk(t, t.hi, r)
  }

  /** No node holds more than its arrays have room for. */
  ghost predicate Fits(nodes: map<Ref, Node>) {
    forall r :: r in nodes ==>
      if nodes[r].Leaf? then |nodes[r].entries| <= WIDTH else |nodes[r].keys| <= INTERNODE_WIDTH
  }

  lemma ValidNode(t: Tree, r: Ref)
    requires Valid(t) && r in t.nodes
    ensures Domains(t, t.hi) && NodeOk(t, t.hi, r) && ParentOk(t, t.hi, r)
  {
  }

  lemma IsValid(u: Tree)
    requires Domains(u, u.hi)
    requires forall r {:trigger NodeOk(u, u.hi, r)} {:trigger ParentOk(u, u.hi, r)} ::
      r in u.nodes ==> NodeOk(u, u.hi, r) && ParentOk(u, u.hi, r)
    ensures Valid(u)
  {
  }

  predicate Serves(t: Tree, r: Ref, k: Ikey) {
    r in t.nodes && r in t.lo && r in t.hi && t.lo[r] <= k < t.hi[r]
  }

  // ----- framing

  /** Equal but for the parent pointer. */
  predicate SameBody(a: Node, b: Node) {
    a.(parent := None) == b.(parent := None)
  }

  /** All that a parent looks at in its child. */
  ghost predicate ChildKept(t: Tree, view: map<Ref, nat>, u: Tree, view': map<Ref, nat>, d: Ref) {
    && d in t.nodes && d in t.lo && d in view && d in u.nodes && d in u.lo && d in view'
    && u.nodes[d].parent == t.nodes[d].parent && u.nodes[d].Height() == t.nodes[d].Height()
    && u.lo[d] == t.lo[d] && view'[d] == view[d]
  }

  lemma NodeKept(t: Tree, view: map<Ref, nat>, u: Tree, view': map<Ref, nat>, r: Ref)
    requires r in t.nodes && r in t.lo && r in t.hi && r in view && NodeOk(t, view, r)
    requires r in u.nodes && r in u.lo && r in u.hi && r in view'
    requires SameBody(t.nodes[r], u.nodes[r]) && u.lo[r] == t.lo[r] && u.hi[r] == t.hi[r]
    requires forall d :: d in t.nodes && t.nodes[d].parent == Some(r) ==> ChildKept(t, view, u, view', d)
    ensures NodeOk(u, view', r)
  {
    var n := u.nodes[r];
    if n.Inner? {
      forall i | 0 <= i < |n.child| && n.child[i].Some?
        ensures ChildOk(u, view', r, i)
      {
        assert ChildOk(t, view, r, i);
      }
    }
  }

  lemma ParentKept(t: Tree, view: map<Ref, nat>, u: Tree, view': map<Ref, nat>, r: Ref)
    requires r in t.nodes && r in t.lo && r in view && ParentOk(t, view, r)
    requires r in u.nodes && r in u.lo && r in view'
    requires u.nodes[r].parent == t.nodes[r].parent && u.lo[r] == t.lo[r] && view'[r] == view[r]
    requires (u.root == r) == (t.root == r)
    requires
      forall q :: q in t.nodes && t.nodes[r].parent == Some(q) && t.nodes[q].Inner? && Some(r) in t.nodes[q].child ==>
        q in u.nodes && u.nodes[q].Inner? && Some(r) in u.nodes[q].child
    ensures ParentOk(u, view', r)
  {
  }

  /** A node stands at one place only among the children of a node. */
  lemma OnePlace(t: Tree, view: map<Ref, nat>, p: Ref, d: Ref, i: nat, j: nat)
    requires p in t.nodes && p in t.lo && p in t.hi && p in view && NodeOk(t, view, p) && t.nodes[p].Inner?
    requires d in t.lo && d in view && t.lo[d] < view[d]
    requires i < |t.nodes[p].child| && t.nodes[p].child[i] == Some(d)
    requires j < |t.nodes[p].child| && t.nodes[p].child[j] == Some(d)
    ensures i == j
  {
    assert ChildOk(t, view, p, i) && ChildOk(t, view, p, j);
  }

  // ----- going down and up

  /** The child that `reach_leaf` goes to is not null and serves the key. */
  lemma ChildServes(t: Tree, r: Ref, k: Ikey)
    requires Valid(t) && Serves(t, r, k) && t.nodes[r].Inner?
    ensures
      var n := t.nodes[r];
      && |n.child| == |n.keys| + 1
      && var c := n.child[Upper(n.keys, k)];
      && c.Some? && Serves(t, c.value, k) && t.nodes[c.value].Height() < n.level
      && t.nodes[c.value].parent == Some(r)
  {
    var n := t.nodes[r];
    assert NodeOk(t, t.hi, r);
    var i := Upper(n.keys, k);
    assert n.child[i].Some?;
    assert ChildOk(t, t.hi, r, i);
  }

  /** A node's parent serves all that the node serves, and looks for it in the node. */
  lemma ParentServes(t: Tree, r: Ref, k: Ikey)
    requires Valid(t) && Serves(t, r, k) && r != t.root
    ensures
      && t.nodes[r].parent.Some?
      && var q := t.nodes[r].parent.value;
      && Serves(t, q, k) && t.nodes[q].Inner? && t.nodes[r].Height() < t.nodes[q].level
      && t.lo[q] <= t.lo[r] && t.hi[r] <= t.hi[q]
      && |t.nodes[q].child| == |t.nodes[q].keys| + 1
      && t.nodes[q].child[Upper(t.nodes[q].keys, k)] == Some(r)
      && Upper(t.nodes[q].keys, k) == Upper(t.nodes[q].keys, t.lo[r])
  {
    assert ParentOk(t, t.hi, r) && NodeOk(t, t.hi, r);
    var q := t.nodes[r].parent.value;
    var n := t.nodes[q];
    assert NodeOk(t, t.hi, q);
    var i :| 0 <= i < |n.child| && n.child[i] == Some(r);
    assert ChildOk(t, t.hi, q, i);
    UpperIs(n.keys, k, i);
    UpperIs(n.keys, t.lo[r], i);
  }

  /** The nodes taller than `r`: fewer and fewer while climbing. */
  ghost function Taller(t: Tree, r: Ref): set<Ref>
    requires r in t.nodes
  {
    set q | q in t.nodes && t.nodes[q].Height() > t.nodes[r].Height()
  }

  lemma TallerShrinks(t: Tree, r: Ref, q: Ref)
    requires r in t.nodes && q in t.nodes && t.nodes[r].Height() < t.nodes[q].Height()
    ensures Taller(t, q) < Taller(t, r)
  {
    assert q in Taller(t, r) && q !in Taller(t, q);
  }

  lemma RootIsTallest(t: Tree, r: Ref, k: Ikey)
    requires Valid(t) && Serves(t, r, k) && r != t.root
    ensures t.nodes[r].Height() < t.nodes[t.root].Height()
    decreases Taller(t, r)
  {
    hide Valid;
    ParentServes(t, r, k);
    var q := t.nodes[r].parent.value;
    TallerShrinks(t, r, q);
    if q != t.root {
      RootIsTallest(t, q, k);
    }
  }

  /** Two nodes of the same height never serve the same key. */
  lemma SameHeightSame(t: Tree, a: Ref, b: Ref, k: Ikey)
    requires Valid(t) && Serves(t, a, k) && Serves(t, b, k) && t.nodes[a].Height() == t.nodes[b].Height()
    ensures a == b
    decreases Taller(t, a)
  {
    hide Valid;
    if a == t.root {
      if b != t.root {
        RootIsTallest(t, b, k);
      }
    } else if b == t.root {
      RootIsTallest(t, a, k);
    } else {
      ParentServes(t, a, k);
      ParentServes(t, b, k);
      var pa, pb := t.nodes[a].parent.value, t.nodes[b].parent.value;
      TallerShrinks(t, a, pa);
      if t.nodes[pa].Height() < t.nodes[pb].Height() {
        LowerIsInside(t, pa, pb, k);
      } else if t.nodes[pb].Height() < t.nodes[pa].Height() {
        TallerShrinks(t, a, pb);
        LowerIsInside(t, pb, pa, k);
      } else {
        SameHeightSame(t, pa, pb, k);
      }
    }
  }

  /** Of two nodes that serve the same key the lower one lies inside the child to which the
      higher one sends the key. */
  lemma LowerIsInside(t: Tree, n: Ref, q: Ref, k: Ikey)
    requires Valid(t) && Serves(t, n, k) && Serves(t, q, k) && t.nodes[n].Height() < t.nodes[q].Height()
    ensures
      && t.nodes[q].Inner? && |t.nodes[q].child| == |t.nodes[q].keys| + 1
      && var c := t.nodes[q].child[Upper(t.nodes[q].keys, k)];
      && c.Some? && Serves(t, c.value, k)
      && t.lo[c.value] <= t.lo[n] && t.hi[n] <= t.hi[c.value]
      && t.nodes[n].Height() <= t.nodes[c.value].Height()
      && (t.nodes[n].Height() == t.nodes[c.value].Height() ==> n == c.value)
    decreases Taller(t, n)
  {
    hide Valid;
    ChildServes(t, q, k);
    if n == t.root {
      RootIsTallest(t, q, k);
    } else {
      ParentServes(t, n, k);
      var p := t.nodes[n].parent.value;
      TallerShrinks(t, n, p);
      TallerShrinks(t, n, q);
      if t.nodes[p].Height() < t.nodes[q].Height() {
        LowerIsInside(t, p, q, k);
      } else if t.nodes[q].Height() < t.nodes[p].Height() {
        LowerIsInside(t, q, p, k);
      } else {
        SameHeightSame(t, p, q, k);
      }
    }
  }

  // ----- reaching a leaf

  /** `reach_leaf`: the leaf responsible for `k`, from a node that serves it. */
  ghost function Reach(t: Tree, r: Ref, k: Ikey): (leaf: Ref)
    requires Valid(t) && Serves(t, r, k)
    ensures Serves(t, leaf, k) && t.nodes[leaf].Leaf?
    decreases t.nodes[r].Height()
  {
    ChildServesIfInner(t, r, k);
    if t.nodes[r].Leaf? then r else Reach(t, t.nodes[r].child[Upper(t.nodes[r].keys, k)].value, k)
  }

  lemma ChildServesIfInner(t: Tree, r: Ref, k: Ikey)
    requires Valid(t) && Serves(t, r, k)
    ensures t.nodes[r].Inner? ==>
      var n := t.nodes[r];
      && |n.child| == |n.keys| + 1
      && var c := n.child[Upper(n.keys, k)];
      c.Some? && Serves(t, c.value, k) && t.nodes[c.value].Height() < n.level
  {
    if t.nodes[r].Inner? {
      ChildServes(t, r, k);
    }
  }

  /** Any leaf that serves a key is the one that every search for it ends in. */
  lemma ReachIsUnique(t: Tree, r: Ref, leaf: Ref, k: Ikey)
    requires Valid(t) && Serves(t, r, k) && Serves(t, leaf, k) && t.nodes[leaf].Leaf?
    ensures Reach(t, r, k) == leaf
  {
    SameHeightSame(t, Reach(t, r, k), leaf, k);
  }

  lemma RootServesAll(t: Tree, k: Ikey)
    requires Valid(t) && k < LIMIT
    ensures Serves(t, t.root, k)
  {
    assert ParentOk(t, t.hi, t.root);
  }

  // ----- the map that the layer stands for

  function Lookup(es: seq<Entry>, k: Ikey, len: nat): Option<Content> {
    if es == [] then None
    else if es[0].ikey == k && es[0].len == len then Some(es[0].value)
    else Lookup(es[1..], k, len)
  }

  /** The value stored under a slice and length. */
  ghost function Get(t: Tree, k: Ikey, len: nat): Option<Content>
    requires Valid(t) && k < LIMIT
  {
    RootServesAll(t, k);
    Lookup(t.nodes[Reach(t, t.root, k)].entries, k, len)
  }

  lemma GetAt(t: Tree, leaf: Ref, k: Ikey, len: nat)
    requires Valid(t) && k < LIMIT && Serves(t, leaf, k) && t.nodes[leaf].Leaf?
    ensures Get(t, k, len) == Lookup(t.nodes[leaf].entries, k, len)
  {
    RootServesAll(t, k);
    ReachIsUnique(t, t.root, leaf, k);
  }
}
