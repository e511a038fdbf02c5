/** What the stores of the split loop do to the tree.
  Source: masstree_split.hh (internode::split_into, make_split). */
module SplitStores {
  import opened Options
  import opened TreeModel
  import opened LeafEntries
  import opened TreeSplit

  /** The leaves of `t` are the same in `u`. */
  ghost predicate SameLeaves(t: Tree, u: Tree) {
    forall r :: r in t.nodes && t.nodes[r].Leaf? ==>
      && r in u.nodes && u.nodes[r].Leaf? && u.nodes[r].entries == t.nodes[r].entries
      && r in t.lo && r in t.hi && r in u.lo && r in u.hi && u.lo[r] == t.lo[r] && u.hi[r] == t.hi[r]
  }

  ghost predicate Below(nodes: map<Ref, Node>, free: Ref) {
    forall r :: r in nodes ==> r < free
  }

  lemma NotYet(nodes: map<Ref, Node>, free: Ref)
    requires Below(nodes, free)
    ensures free !in nodes
  {
  }

  ghost function TallerThan(nodes: map<Ref, Node>, height: nat): set<Ref> {
    set r | r in nodes && nodes[r].Height() > height
  }

  ghost function Reparented(nodes: map<Ref, Node>, kids: seq<Option<Ref>>, q: Ref): map<Ref, Node> {
    map r | r in nodes :: if Some(r) in kids then nodes[r].(parent := Some(q)) else nodes[r]
  }

  lemma SameLeavesJoin(t: Tree, u: Tree, v: Tree)
    requires SameLeaves(t, u) && SameLeaves(u, v)
    ensures SameLeaves(t, v)
  {
  }

  /** The new sibling is not yet anybody's child, and children are other nodes than parents. */
  lemma ChildrenOfParent(t: Tree, n: Ref, c: Ref, x: Ikey, q: Ref, i: nat)
    requires Pending(t, n, c, x) && q in t.nodes && t.nodes[q].Inner? && i < |t.nodes[q].child|
    requires t.nodes[q].child[i].Some?
    ensures var d := t.nodes[q].child[i].value; d in t.nodes && d != c && d != q
  {
    hide Pending;
    PendingNode(t, n, c, x, q);
    PendingHalves(t, n, c, x);
    assert ChildOk(t, View(t, n, c), q, i);
  }

  /** Only the leftmost child can be null. */
  lemma ChildrenAreThere(t: Tree, n: Ref, c: Ref, x: Ikey, q: Ref, kp: nat)
    requires Pending(t, n, c, x) && q in t.nodes && t.nodes[q].Inner? && kp < |t.nodes[q].child| && q != c
    ensures forall d :: d in AddChild(t.nodes[q].child, kp, c)[1..] ==> d.Some? && d.value in t.nodes && d.value != q
    ensures forall i :: 0 <= i < |t.nodes[q].child| ==> t.nodes[q].child[i] != Some(c)
  {
    hide Pending;
    PendingNode(t, n, c, x, q);
    PendingHalves(t, n, c, x);
    var cs := AddChild(t.nodes[q].child, kp, c);
    forall i | 0 <= i < |t.nodes[q].child|
      ensures t.nodes[q].child[i] != Some(c)
      ensures t.nodes[q].child[i].Some? ==> t.nodes[q].child[i].value in t.nodes && t.nodes[q].child[i].value != q
    {
      if t.nodes[q].child[i].Some? {
        ChildrenOfParent(t, n, c, x, q, i);
      }
    }
    forall i | 1 <= i < |cs|
      ensures cs[i].Some? && cs[i].value in t.nodes && cs[i].value != q
    {
      assert cs[i] == if i <= kp then t.nodes[q].child[i] else if i == kp + 1 then Some(c) else t.nodes[q].child[i - 1];
    }
  }

  /** Adding to the left half gives the left half of the result. */
  lemma AddLeft(keys: seq<Ikey>, child: seq<Option<Ref>>, kp: nat, x: Ikey, c: Ref, mid: nat)
    requires |child| == |keys| + 1 && kp < mid <= |keys|
    requires forall i :: 0 <= i < |child| ==> child[i] != Some(c)
    ensures AddKey(keys[..mid - 1], kp, x) == AddKey(keys, kp, x)[..mid]
    ensures AddChild(child[..mid], kp, c) == AddChild(child, kp, c)[..mid + 1]
    ensures Some(c) !in AddChild(child, kp, c)[mid + 1..]
  {
    var right := AddChild(child, kp, c)[mid + 1..];
    assert forall i :: 0 <= i < |right| ==> right[i] == child[mid + i];
  }

  /** The parent of `n` with the new child in it: one key too many for a full parent. */
  ghost function WithChild(t: Tree, q: Ref, kp: nat, x: Ikey, c: Ref): Tree
    requires q in t.nodes && c in t.nodes && t.nodes[q].Inner? && |t.nodes[q].child| == |t.nodes[q].keys| + 1
    requires kp <= |t.nodes[q].keys|
  {
    var n := t.nodes[q];
    t.(nodes := t.nodes[c := t.nodes[c].(parent := Some(q))]
                       [q := n.(keys := AddKey(n.keys, kp, x), child := AddChild(n.child, kp, c))])
  }

  /** Memory after splitting the full internode `q`, whose new child is `c`. */
  ghost predicate SplitNodes(t: Tree, q: Ref, kp: nat, x: Ikey, c: Ref, nr: Ref, mid: nat, nodes: map<Ref, Node>)
    requires q in t.nodes && c in t.nodes && t.nodes[q].Inner? && |t.nodes[q].child| == |t.nodes[q].keys| + 1
    requires kp <= |t.nodes[q].keys| && mid <= |t.nodes[q].keys|
  {
    var n := t.nodes[q];
    var ks, cs := AddKey(n.keys, kp, x), AddChild(n.child, kp, c);
    && nr !in t.nodes
    && nodes.Keys == t.nodes.Keys + {nr}
    && nodes[nr] == Inner(None, n.level, ks[mid + 1..], cs[mid + 1..])
    && nodes[q] == n.(keys := ks[..mid], child := cs[..mid + 1])
    && forall r :: r in t.nodes && r != q ==>
         nodes[r] == if Some(r) in cs[mid + 1..] then t.nodes[r].(parent := Some(nr))
           else if r == c then t.nodes[r].(parent := Some(q)) else t.nodes[r]
  }

  lemma SplitCuts(t: Tree, c: Ref, x: Ikey, q: Ref, kp: nat, nr: Ref, mid: nat, u: Tree)
    requires q in t.nodes && c in t.nodes && q != c && t.nodes[q].Inner? && |t.nodes[q].child| == |t.nodes[q].keys| + 1
    requires kp <= |t.nodes[q].keys| && 0 < mid <= |t.nodes[q].keys|
    requires SplitNodes(t, q, kp, x, c, nr, mid, u.nodes)
    requires q in t.lo && q in t.hi && u.root == t.root
    requires var x' := AddKey(t.nodes[q].keys, kp, x)[mid];
      u.lo == t.lo[nr := x'] && u.hi == t.hi[nr := t.hi[q]][q := x']
    ensures Cut(WithChild(t, q, kp, x, c), q, nr, AddKey(t.nodes[q].keys, kp, x)[mid], u)
  {
    var n, v := t.nodes[q], WithChild(t, q, kp, x, c);
    var ks, cs := AddKey(n.keys, kp, x), AddChild(n.child, kp, c);
    assert |ks| == |n.keys| + 1 && |cs| == |ks| + 1;
    assert v.nodes[q].keys == ks && v.nodes[q].child == cs;
    hide AddKey, AddChild;
    assert CutAt(v, q, nr, ks[mid], u);
    assert InnerCut(v, q, nr, ks[mid], u);
  }

  /** Splitting a full parent is adding the child and then cutting the parent. */
  lemma SplitIsAddThenCut(t: Tree, n: Ref, c: Ref, x: Ikey, q: Ref, nr: Ref, mid: nat, u: Tree)
    requires Pending(t, n, c, x) && t.nodes[n].parent == Some(q) && q in t.nodes && t.nodes[q].Inner?
    requires |t.nodes[q].child| == |t.nodes[q].keys| + 1 && 0 < mid <= |t.nodes[q].keys|
    requires SplitNodes(t, q, Upper(t.nodes[q].keys, x), x, c, nr, mid, u.nodes)
    requires q in t.hi && u.root == t.root
    requires var x' := AddKey(t.nodes[q].keys, Upper(t.nodes[q].keys, x), x)[mid];
      u.lo == t.lo[nr := x'] && u.hi == t.hi[nr := t.hi[q]][q := x']
    ensures Pending(u, q, nr, AddKey(t.nodes[q].keys, Upper(t.nodes[q].keys, x), x)[mid])
  {
    hide Pending, Upper, AddChild, SplitNodes, Cut, Valid;
    PendingParent(t, n, c, x);
    PendingHalves(t, n, c, x);
    var kp := Upper(t.nodes[q].keys, x);
    var v := WithChild(t, q, kp, x, c);
    AddedIsValid(t, n, c, x, v);
    SplitCuts(t, c, x, q, kp, nr, mid, u);
    CutIsPending(v, q, nr, AddKey(t.nodes[q].keys, kp, x)[mid], u);
  }

  function Linked(nodes: map<Ref, Node>, parent: Option<Ref>, x: Ikey, nn: Ref): map<Ref, Node> {
    if parent.Some? && parent.value in nodes && nodes[parent.value].Inner?
       && |nodes[parent.value].child| == |nodes[parent.value].keys| + 1 then
      var p := nodes[parent.value];
      nodes[parent.value := p.(child := p.child[Upper(p.keys, x) := Some(nn)])]
    else nodes
  }

  function Pointed(nodes: map<Ref, Node>, r: Ref, q: Ref): map<Ref, Node> {
    if r in nodes then nodes[r := nodes[r].(parent := Some(q))] else nodes
  }

  /** The stores of the loop for a new level. */
  function LevelStores(nodes: map<Ref, Node>, n: Ref, c: Ref, x: Ikey, nn: Ref, height: nat): map<Ref, Node>
    requires n in nodes
  {
    var parent := nodes[n].parent;
    var made := nodes[nn := Inner(parent, height + 1, [x], [Some(n), Some(c)])];
    Pointed(Linked(Pointed(made, c, nn), parent, x, nn), n, nn)
  }

  lemma StoresRaise(t: Tree, n: Ref, c: Ref, x: Ikey, nn: Ref, root: Ref)
    requires Pending(t, n, c, x) && nn !in t.nodes
    requires t.nodes[n].parent == None ||
      (t.nodes[n].parent.value in t.nodes && t.nodes[t.nodes[n].parent.value].Inner? &&
       t.nodes[t.nodes[n].parent.value].level > t.nodes[n].Height() + 1)
    requires root == if t.nodes[n].parent == None then nn else t.root
    ensures n in t.lo && c in t.hi
    ensures Raised(t, n, c, x, nn, Tree(LevelStores(t.nodes, n, c, x, nn, t.nodes[n].Height()), root,
                                        t.lo[nn := t.lo[n]], t.hi[nn := t.hi[c]]))
  {
    hide Pending, Upper;
    PendingHalves(t, n, c, x);
    PendingParent(t, n, c, x);
  }

  ghost predicate CanSplit(nodes: map<Ref, Node>, p: Ref, nr: Ref, kp: nat, mid: nat) {
    && p in nodes && nodes[p].Inner? && nr in nodes && nodes[nr].Inner? && nr != p
    && |nodes[p].child| == |nodes[p].keys| + 1 && kp <= |nodes[p].keys| && 0 < mid <= |nodes[p].keys|
  }

  ghost function LeftPart(n: Node, kp: nat, ka: Ikey, value: Ref, mid: nat): Node
    requires n.Inner? && |n.child| == |n.keys| + 1 && kp <= |n.keys| && 0 < mid <= |n.keys|
  {
    if kp < mid then n.(keys := n.keys[..mid - 1], child := n.child[..mid])
    else n.(keys := AddKey(n.keys, kp, ka)[..mid], child := AddChild(n.child, kp, value)[..mid + 1])
  }

  /** Memory after `internode::split_into`. */
  ghost function SplitMemory(nodes: map<Ref, Node>, p: Ref, nr: Ref, kp: nat, ka: Ikey, value: Ref, mid: nat): map<Ref, Node>
    requires CanSplit(nodes, p, nr, kp, mid)
  {
    var ks, cs := AddKey(nodes[p].keys, kp, ka), AddChild(nodes[p].child, kp, value);
    Reparented(nodes[nr := nodes[nr].(keys := ks[mid + 1..], child := cs[mid + 1..])], cs[mid + 1..], nr)
      [p := LeftPart(nodes[p], kp, ka, value, mid)]
  }

  /** The stores of the loop for a full parent. */
  ghost function ParentStores(nodes: map<Ref, Node>, p: Ref, nr: Ref, kp: nat, ka: Ikey, value: Ref, mid: nat): map<Ref, Node>
    requires CanSplit(nodes, p, nr, kp, mid)
  {
    var halved := SplitMemory(nodes, p, nr, kp, ka, value, mid);
    var left := halved[p];
    if kp < mid then
      Pointed(halved, value, p)[p := left.(keys := AddKey(left.keys, kp, ka), child := AddChild(left.child, kp, value))]
    else halved
  }

  lemma RightChildrenMove(t: Tree, n: Ref, q: Ref, kp: nat, x: Ikey, c: Ref, nr: Ref, mid: nat)
    requires Pending(t, n, c, x) && nr !in t.nodes && q != c
    requires q in t.nodes && t.nodes[q].Inner? && |t.nodes[q].child| == |t.nodes[q].keys| + 1
    requires kp <= |t.nodes[q].keys| && 0 < mid <= |t.nodes[q].keys|
    ensures c in t.nodes
    ensures var right := AddChild(t.nodes[q].child, kp, c)[mid + 1..];
      Some(q) !in right && Some(nr) !in right && (Some(c) in right <==> mid <= kp)
  {
    hide Pending;
    PendingHalves(t, n, c, x);
    ChildrenAreThere(t, n, c, x, q, kp);
    var p := t.nodes[q];
    var cs := AddChild(p.child, kp, c);
    var right := cs[mid + 1..];
    forall i | 0 <= i < |right|
      ensures right[i] != Some(q) && right[i] != Some(nr)
    {
      assert right[i] == cs[1..][mid + i];
    }
    if kp < mid {
      AddLeft(p.keys, p.child, kp, x, c, mid);
    } else {
      assert right[kp - mid] == Some(c);
    }
  }

  /** They leave memory as in `SplitNodes`. */
  lemma StoresSplit(t: Tree, n: Ref, q: Ref, kp: nat, x: Ikey, c: Ref, nr: Ref, mid: nat, made: map<Ref, Node>)
    requires Pending(t, n, c, x) && nr !in t.nodes && q != c
    requires q in t.nodes && t.nodes[q].Inner? && |t.nodes[q].child| == |t.nodes[q].keys| + 1
    requires kp <= |t.nodes[q].keys| && 0 < mid <= |t.nodes[q].keys|
    requires made == t.nodes[nr := Inner(None, t.nodes[q].level, [], [None])]
    ensures c in t.nodes && SplitNodes(t, q, kp, x, c, nr, mid, ParentStores(made, q, nr, kp, x, c, mid))
  {
    hide Pending;
    RightChildrenMove(t, n, q, kp, x, c, nr, mid);
    ChildrenAreThere(t, n, c, x, q, kp);
    var p := t.nodes[q];
    if kp < mid {
      AddLeft(p.keys, p.child, kp, x, c, mid);
    }
    hide AddKey, AddChild;
  }

  /** What a raise does to a node that was there. */
  lemma RaisedNodeKept(t: Tree, n: Ref, c: Ref, x: Ikey, nn: Ref, u: Tree, r: Ref)
    requires Raised(t, n, c, x, nn, u) && r in t.nodes
    ensures r in u.nodes && r != nn && u.nodes[r].Leaf? == t.nodes[r].Leaf?
    ensures if t.nodes[r].Leaf? then u.nodes[r].entries == t.nodes[r].entries else u.nodes[r].keys == t.nodes[r].keys
    ensures r in t.lo && r in t.hi ==> r in u.lo && r in u.hi && u.lo[r] == t.lo[r] && u.hi[r] == t.hi[r]
  {
    hide Upper;
  }

  lemma RaisedKeeps(t: Tree, n: Ref, c: Ref, x: Ikey, nn: Ref, u: Tree)
    requires Halves(t, n, c, x) && Raised(t, n, c, x, nn, u) && Fits(t.nodes) && Below(t.nodes, nn)
    requires t.lo.Keys == t.nodes.Keys && t.hi.Keys == t.nodes.Keys
    ensures SameLeaves(t, u) && Fits(u.nodes) && Below(u.nodes, nn + 1)
  {
    assert u.nodes.Keys == t.nodes.Keys + {nn} && u.nodes[nn].Inner? && |u.nodes[nn].keys| == 1;
    forall r | r in t.nodes
      ensures r in u.nodes && r != nn && u.nodes[r].Leaf? == t.nodes[r].Leaf?
      ensures if t.nodes[r].Leaf? then u.nodes[r].entries == t.nodes[r].entries else u.nodes[r].keys == t.nodes[r].keys
      ensures r in u.lo && r in u.hi && u.lo[r] == t.lo[r] && u.hi[r] == t.hi[r]
    {
      RaisedNodeKept(t, n, c, x, nn, u, r);
    }
    hide Raised, Halves;
  }

  lemma AddedKeeps(t: Tree, n: Ref, c: Ref, x: Ikey, u: Tree)
    requires Added(t, n, c, x, u) && Fits(t.nodes)
    requires t.nodes[n].parent.Some? && |t.nodes[t.nodes[n].parent.value].keys| < INTERNODE_WIDTH
    requires t.lo.Keys == t.nodes.Keys && t.hi.Keys == t.nodes.Keys
    ensures SameLeaves(t, u) && Fits(u.nodes)
  {
    hide Upper;
  }

  lemma SplitKeepsHeights(t: Tree, q: Ref, kp: nat, x: Ikey, c: Ref, nr: Ref, mid: nat, nodes: map<Ref, Node>)
    requires q in t.nodes && c in t.nodes && t.nodes[q].Inner? && |t.nodes[q].child| == |t.nodes[q].keys| + 1
    requires kp <= |t.nodes[q].keys| && 0 < mid <= |t.nodes[q].keys|
    requires SplitNodes(t, q, kp, x, c, nr, mid, nodes)
    ensures q in nodes && nodes[q].Height() == t.nodes[q].Height()
    ensures TallerThan(nodes, t.nodes[q].Height()) <= TallerThan(t.nodes, t.nodes[q].Height())
  {
    hide AddKey, AddChild;
  }

  lemma SplitKeepsFit(t: Tree, q: Ref, kp: nat, x: Ikey, c: Ref, nr: Ref, mid: nat, nodes: map<Ref, Node>)
    requires q in t.nodes && c in t.nodes && t.nodes[q].Inner? && |t.nodes[q].child| == |t.nodes[q].keys| + 1
    requires kp <= |t.nodes[q].keys| && 0 < mid <= |t.nodes[q].keys|
    requires SplitNodes(t, q, kp, x, c, nr, mid, nodes) && Fits(t.nodes) && Below(t.nodes, nr)
    ensures Fits(nodes) && Below(nodes, nr + 1)
  {
    hide AddChild;
  }

  lemma SplitKeeps(t: Tree, q: Ref, kp: nat, x: Ikey, c: Ref, nr: Ref, mid: nat, x': Ikey, u: Tree)
    requires q in t.nodes && c in t.nodes && t.nodes[q].Inner? && |t.nodes[q].child| == |t.nodes[q].keys| + 1
    requires kp <= |t.nodes[q].keys| && 0 < mid <= |t.nodes[q].keys|
    requires SplitNodes(t, q, kp, x, c, nr, mid, u.nodes) && Fits(t.nodes) && Below(t.nodes, nr)
    requires t.lo.Keys == t.nodes.Keys && t.hi.Keys == t.nodes.Keys && q in t.hi
    requires u.lo == t.lo[nr := x'] && u.hi == t.hi[nr := t.hi[q]][q := x']
    ensures SameLeaves(t, u) && Fits(u.nodes) && Below(u.nodes, nr + 1)
    ensures q in u.nodes && u.nodes[q].Height() == t.nodes[q].Height()
    ensures TallerThan(u.nodes, t.nodes[q].Height()) <= TallerThan(t.nodes, t.nodes[q].Height())
  {
    SplitKeepsHeights(t, q, kp, x, c, nr, mid, u.nodes);
    SplitKeepsFit(t, q, kp, x, c, nr, mid, u.nodes);
    hide Fits, Below, TallerThan, AddKey, AddChild;
  }

  // ----- how full internodes are

  /** No internode has gone, and each has at least 7 keys or, if it was there, no fewer than it had. */
  ghost predicate Filled(before: map<Ref, Node>, after: map<Ref, Node>) {
    && (forall r :: r in before ==> r in after)
    && (forall r :: r in after && after[r].Inner? && |after[r].keys| < 7 ==>
          r in before && before[r].Inner? && |before[r].keys| <= |after[r].keys|)
  }

  /** The same, but for a new level with its one key. */
  ghost predicate FilledBelowNew(before: map<Ref, Node>, after: map<Ref, Node>) {
    && (forall r :: r in before ==> r in after)
    && (forall r :: r in after && after[r].Inner? && |after[r].keys| < 7 ==>
          if r in before then before[r].Inner? && |before[r].keys| <= |after[r].keys| else |after[r].keys| == 1)
  }

  /** What a split leaves, unless the new entry went alone. */
  ghost predicate FilledUnless(alone: bool, before: map<Ref, Node>, after: map<Ref, Node>) {
    !alone ==> FilledBelowNew(before, after)
  }

  lemma FilledEnds(a: map<Ref, Node>, b: map<Ref, Node>, c: map<Ref, Node>, alone: bool)
    requires Filled(a, b) && FilledUnless(alone, b, c)
    ensures FilledUnless(alone, a, c)
  {
  }

  lemma FilledLoosely(a: map<Ref, Node>, b: map<Ref, Node>, alone: bool, last: bool)
    requires FilledUnless(alone, a, b) && (alone ==> last)
    ensures FilledUnless(last, a, b)
  {
  }

  lemma FilledJoin(a: map<Ref, Node>, b: map<Ref, Node>, c: map<Ref, Node>)
    requires Filled(a, b)
    ensures Filled(b, c) ==> Filled(a, c)
    ensures FilledBelowNew(b, c) ==> FilledBelowNew(a, c)
  {
  }

  lemma FilledAtFirst(nodes: map<Ref, Node>)
    ensures Filled(nodes, nodes)
  {
  }

  lemma FilledLast(a: map<Ref, Node>, b: map<Ref, Node>, c: map<Ref, Node>)
    requires Filled(a, b) && Filled(b, c)
    ensures FilledBelowNew(a, c)
  {
  }

  lemma FullIs15(nodes: map<Ref, Node>, q: Ref)
    requires Fits(nodes) && q in nodes && nodes[q].Inner? && |nodes[q].keys| >= INTERNODE_WIDTH
    ensures |nodes[q].keys| == 15
  {
  }

  lemma RaisedNodes(t: Tree, n: Ref, c: Ref, x: Ikey, nn: Ref, u: Tree)
    requires Raised(t, n, c, x, nn, u)
    ensures u.nodes.Keys == t.nodes.Keys + {nn}
  {
  }

  lemma RaisedFilled(t: Tree, n: Ref, c: Ref, x: Ikey, nn: Ref, u: Tree)
    requires Raised(t, n, c, x, nn, u) && nn !in t.nodes && u.nodes.Keys == t.nodes.Keys + {nn}
    ensures FilledBelowNew(t.nodes, u.nodes)
  {
    assert u.nodes[nn].Inner? && |u.nodes[nn].keys| == 1;
    forall r | r in t.nodes
      ensures r in u.nodes && u.nodes[r].Leaf? == t.nodes[r].Leaf? && (t.nodes[r].Inner? ==> u.nodes[r].keys == t.nodes[r].keys)
    {
      RaisedNodeKept(t, n, c, x, nn, u, r);
    }
    hide Raised;
  }

  lemma AddedFilled(t: Tree, n: Ref, c: Ref, x: Ikey, u: Tree)
    requires Added(t, n, c, x, u) && u.nodes.Keys == t.nodes.Keys
    ensures Filled(t.nodes, u.nodes)
  {
    hide Upper;
  }

  /** A split in the middle leaves 8 keys on the left and 7 on the right. */
  lemma SplitFilled(t: Tree, q: Ref, kp: nat, x: Ikey, c: Ref, nr: Ref, u: map<Ref, Node>)
    requires q in t.nodes && c in t.nodes && t.nodes[q].Inner? && |t.nodes[q].child| == |t.nodes[q].keys| + 1
    requires kp <= |t.nodes[q].keys| == 15
    requires SplitNodes(t, q, kp, x, c, nr, 8, u) && nr !in t.nodes
    ensures Filled(t.nodes, u)
    ensures q in u && nr in u && u[q].Inner? && u[nr].Inner? && |u[q].keys| == 8 && |u[nr].keys| == 7
  {
  }

  // ----- the leaves before and after

  /** Other entries within the range of a leaf. */
  function WithEntries(t: Tree, leaf: Ref, es: seq<Entry>): Tree
    requires leaf in t.nodes && t.nodes[leaf].Leaf?
  {
    t.(nodes := t.nodes[leaf := t.nodes[leaf].(entries := es)])
  }

  lemma EntriesReplaced(t: Tree, leaf: Ref, es: seq<Entry>)
    requires Valid(t) && leaf in t.nodes && t.nodes[leaf].Leaf? && leaf in t.lo && leaf in t.hi
    requires LeafOk(t.nodes[leaf].(entries := es), t.lo[leaf], t.hi[leaf])
    ensures Valid(WithEntries(t, leaf, es))
  {
    hide Valid, NodeOk, ParentOk;
    var u := WithEntries(t, leaf, es);
    forall r | r in u.nodes
      ensures Domains(u, u.hi) && NodeOk(u, u.hi, r) && ParentOk(u, u.hi, r)
    {
      EntriesReplacedNode(t, leaf, es, r);
    }
    EntriesReplacedNode(t, leaf, es, leaf);
    assert Valid(u) by { IsValid(u); }
  }

  lemma EntriesReplacedNode(t: Tree, leaf: Ref, es: seq<Entry>, r: Ref)
    requires Valid(t) && leaf in t.nodes && t.nodes[leaf].Leaf? && leaf in t.lo && leaf in t.hi
    requires LeafOk(t.nodes[leaf].(entries := es), t.lo[leaf], t.hi[leaf]) && r in t.nodes
    ensures var u := WithEntries(t, leaf, es); Domains(u, u.hi) && NodeOk(u, u.hi, r) && ParentOk(u, u.hi, r)
  {
    hide Valid;
    var u := WithEntries(t, leaf, es);
    ValidNode(t, r);
    ValidNode(t, leaf);
    if r != leaf {
      NodeKept(t, t.hi, u, u.hi, r);
    }
    ParentKept(t, t.hi, u, u.hi, r);
  }

  lemma GetReplaced(t: Tree, leaf: Ref, es: seq<Entry>, k: Ikey, len: nat)
    requires Valid(t) && Serves(t, leaf, k) && k < LIMIT && t.nodes[leaf].Leaf?
    requires LeafOk(t.nodes[leaf].(entries := es), t.lo[leaf], t.hi[leaf])
    ensures Valid(WithEntries(t, leaf, es)) && Get(WithEntries(t, leaf, es), k, len) == Lookup(es, k, len)
  {
    hide Valid;
    EntriesReplaced(t, leaf, es);
    GetAt(WithEntries(t, leaf, es), leaf, k, len);
  }

  lemma GetElsewhere(t: Tree, leaf: Ref, es: seq<Entry>, k: Ikey, len: nat)
    requires Valid(t) && leaf in t.nodes && t.nodes[leaf].Leaf? && leaf in t.lo && leaf in t.hi
    requires !Serves(t, leaf, k) && k < LIMIT
    requires LeafOk(t.nodes[leaf].(entries := es), t.lo[leaf], t.hi[leaf])
    ensures Valid(WithEntries(t, leaf, es)) && Get(WithEntries(t, leaf, es), k, len) == Get(t, k, len)
  {
    hide Valid;
    EntriesReplaced(t, leaf, es);
    RootServesAll(t, k);
    var other := Reach(t, t.root, k);
    GetAt(t, other, k, len);
    GetAt(WithEntries(t, leaf, es), other, k, len);
  }

  /** Cutting a leaf and any change above the leaves keep every lookup. */
  lemma GetAfterSplit(t: Tree, n: Ref, c: Ref, x: Ikey, u: Tree, v: Tree, k: Ikey, len: nat)
    requires Valid(t) && CutAt(t, n, c, x, u) && LeafCut(t, n, c, x, u) && Valid(v) && SameLeaves(u, v) && k < LIMIT
    requires u.nodes[n].entries + u.nodes[c].entries == t.nodes[n].entries
    ensures Get(v, k, len) == Get(t, k, len)
  {
    hide Valid;
    RootServesAll(t, k);
    ValidNode(t, n);
    var leaf := Reach(t, t.root, k);
    GetAt(t, leaf, k, len);
    if leaf != n {
      ValidNode(t, leaf);
      GetAt(v, leaf, k, len);
    } else {
      var l, r := u.nodes[n].entries, u.nodes[c].entries;
      assert (l + r)[..|l|] == l && (l + r)[|l|..] == r;
      LookupInHalves(l + r, |l|, x, k, len);
      GetAt(v, if k < x then n else c, k, len);
    }
  }

  /** Memory after a leaf is cut before entry `mid` of the result of an insertion. */
  function LeafSplitNodes(nodes: map<Ref, Node>, n: Ref, p: nat, x: Ikey, mid: nat, c: Ref): map<Ref, Node>
    requires n in nodes && nodes[n].Leaf? && p <= |nodes[n].entries| && 0 < mid <= |nodes[n].entries|
  {
    var es := nodes[n].entries;
    nodes[c := Leaf(None, es[if p < mid then mid - 1 else mid..], true, x)][n := nodes[n].(entries := LeftEntries(es, p, mid))]
  }

  function LeafSplit(t: Tree, n: Ref, p: nat, e: Entry, mid: nat, c: Ref): Tree
    requires n in t.nodes && t.nodes[n].Leaf? && n in t.hi && p <= |t.nodes[n].entries| && 0 < mid <= |t.nodes[n].entries|
  {
    var x := AfterInsert(t.nodes[n].entries, p, e)[mid].ikey;
    Tree(LeafSplitNodes(t.nodes, n, p, x, mid, c), t.root, t.lo[c := x], t.hi[c := t.hi[n]][n := x])
  }

  lemma LeafSplitCuts(t: Tree, n: Ref, p: nat, e: Entry, mid: nat, c: Ref)
    requires Valid(t) && Serves(t, n, e.ikey) && t.nodes[n].Leaf? && c !in t.nodes
    requires p <= |t.nodes[n].entries| && 0 < mid <= |t.nodes[n].entries|
    requires Ordered(AfterInsert(t.nodes[n].entries, p, e)) && Boundary(AfterInsert(t.nodes[n].entries, p, e), mid)
    ensures var x, u := AfterInsert(t.nodes[n].entries, p, e)[mid].ikey, LeafSplit(t, n, p, e, mid, c);
      CutAt(t, n, c, x, u) && LeafCut(t, n, c, x, u)
  {
    hide Valid, AfterInsert, LeftEntries;
    ValidNode(t, n);
    var leaf := t.nodes[n];
    HalvesAreOk(leaf, t.lo[n], t.hi[n], p, e, mid);
    hide LeafOk;
  }

  lemma LeafSplitKeeps(t: Tree, n: Ref, p: nat, e: Entry, mid: nat, c: Ref)
    requires n in t.nodes && t.nodes[n].Leaf? && n in t.hi && p <= |t.nodes[n].entries| && 0 < mid <= |t.nodes[n].entries|
    requires Fits(t.nodes) && Below(t.nodes, c)
    ensures var u := LeafSplit(t, n, p, e, mid, c);
      && Fits(u.nodes) && Below(u.nodes, c + 1)
      && u.nodes[n].entries + u.nodes[c].entries == t.nodes[n].entries
  {
    hide AfterInsert;
    var es := t.nodes[n].entries;
    assert LeftEntries(es, p, mid) + es[if p < mid then mid - 1 else mid..] == es;
  }

  lemma LeafSplitFilled(t: Tree, n: Ref, p: nat, e: Entry, mid: nat, c: Ref)
    requires n in t.nodes && t.nodes[n].Leaf? && n in t.hi && p <= |t.nodes[n].entries| && 0 < mid <= |t.nodes[n].entries|
    ensures Filled(t.nodes, LeafSplit(t, n, p, e, mid, c).nodes)
  {
    hide AfterInsert, LeftEntries;
  }

  lemma LeafSplitFacts(t: Tree, n: Ref, p: nat, e: Entry, mid: nat, c: Ref)
    requires Valid(t) && n in t.nodes && Serves(t, n, e.ikey) && t.nodes[n].Leaf? && n in t.hi && Below(t.nodes, c) && Fits(t.nodes)
    requires p <= |t.nodes[n].entries| && 0 < mid <= |t.nodes[n].entries|
    requires Ordered(AfterInsert(t.nodes[n].entries, p, e)) && Boundary(AfterInsert(t.nodes[n].entries, p, e), mid)
    ensures
      var x, u := AfterInsert(t.nodes[n].entries, p, e)[mid].ikey, LeafSplit(t, n, p, e, mid, c);
      && CutAt(t, n, c, x, u) && LeafCut(t, n, c, x, u) && Filled(t.nodes, u.nodes) && Fits(u.nodes) && Below(u.nodes, c + 1)
      && n in u.nodes && u.nodes[n].Leaf? && c in u.nodes && u.nodes[c].Leaf?
      && u.nodes[n].entries + u.nodes[c].entries == t.nodes[n].entries
  {
    NotYet(t.nodes, c);
    LeafSplitCuts(t, n, p, e, mid, c);
    LeafSplitKeeps(t, n, p, e, mid, c);
    LeafSplitFilled(t, n, p, e, mid, c);
    hide Valid, Below, Ordered, CutAt, LeafCut, Fits, AfterInsert, Filled, LeftEntries, Serves, Boundary;
  }

  lemma SameLeavesAtFirst(t: Tree)
    requires t.lo.Keys == t.nodes.Keys && t.hi.Keys == t.nodes.Keys
    ensures SameLeaves(t, t)
  {
  }

  lemma KeysAreSorted(t: Tree, n: Ref, c: Ref, x: Ikey, q: Ref)
    requires Pending(t, n, c, x) && q in t.nodes && t.nodes[q].Inner? && Fits(t.nodes)
    ensures Sorted(t.nodes[q].keys) && |t.nodes[q].keys| <= INTERNODE_WIDTH
  {
    hide Pending;
    PendingNode(t, n, c, x, q);
  }

  /** One level up there are fewer taller nodes. */
  lemma FewerTaller(nodes: map<Ref, Node>, q: Ref, height: nat)
    requires q in nodes && nodes[q].Height() == height + 1
    ensures TallerThan(nodes, height + 1) < TallerThan(nodes, height)
  {
    assert q in TallerThan(nodes, height) && q !in TallerThan(nodes, height + 1);
  }

  /** A leaf with a new entry is in order and its lengths are possible ones. */
  lemma LeafIsOk(t: Tree, n: Ref, p: nat, e: Entry)
    requires Valid(t) && Fits(t.nodes) && n in t.nodes && t.nodes[n].Leaf? && e.len <= 9
    requires Place(t.nodes[n].entries, p, e)
    ensures Ordered(t.nodes[n].entries) && Ordered(AfterInsert(t.nodes[n].entries, p, e))
    ensures |t.nodes[n].entries| <= WIDTH
    ensures forall a :: a in AfterInsert(t.nodes[n].entries, p, e) ==> a.len <= 9
  {
    hide Valid;
    ValidNode(t, n);
    InsertKeepsOrder(t.nodes[n].entries, p, e);
    LengthsKept(t.nodes[n].entries, p, e, t.nodes[n], t.lo[n], t.hi[n]);
  }

  /** After the split and any change above it, the half to which the new entry belongs
      serves the entry's key. */
  lemma LeavesServe(t: Tree, n: Ref, p: nat, e: Entry, mid: nat, c: Ref, v: Tree)
    requires n in t.nodes && t.nodes[n].Leaf? && Serves(t, n, e.ikey) && c !in t.nodes
    requires p <= |t.nodes[n].entries| && 0 < mid <= |t.nodes[n].entries|
    requires SameLeaves(LeafSplit(t, n, p, e, mid, c), v)
    requires e.ikey < AfterInsert(t.nodes[n].entries, p, e)[mid].ikey <==> p < mid
    ensures
      var leaf := if p < mid then n else c;
      && leaf in v.nodes && v.nodes[leaf].Leaf? && Serves(v, leaf, e.ikey)
      && v.nodes[leaf].entries ==
           if p < mid then LeftEntries(t.nodes[n].entries, p, mid) else t.nodes[n].entries[mid..]
  {
    var u := LeafSplit(t, n, p, e, mid, c);
    assert n in u.nodes && u.nodes[n].Leaf? && c in u.nodes && u.nodes[c].Leaf?;
  }

  lemma LeafIsOrdered(t: Tree, n: Ref)
    requires Valid(t) && n in t.nodes && t.nodes[n].Leaf?
    ensures Ordered(t.nodes[n].entries)
  {
    ValidNode(t, n);
  }

  // ----- no leaf but the first is empty

  /** Every leaf with a leaf before it holds something, except perhaps those named. */
  ghost predicate Packed(nodes: map<Ref, Node>, except: set<Ref>) {
    forall r :: r in nodes && nodes[r].Leaf? && nodes[r].hasPrev && r !in except ==> nodes[r].entries != []
  }

  lemma PackedHalf(es: seq<Entry>, p: nat, mid: nat)
    requires p <= |es| && 0 < mid <= |es|
    ensures if p < mid then es[mid - 1..] != [] else LeftEntries(es, p, mid) != []
  {
  }

  /** After a split and any change above the leaves, only the half to which the new entry goes may be empty. */
  lemma SplitIsPacked(t: Tree, n: Ref, p: nat, e: Entry, mid: nat, c: Ref, v: Tree)
    requires Valid(t) && Packed(t.nodes, {}) && n in t.nodes && t.nodes[n].Leaf? && n in t.hi && c !in t.nodes
    requires p <= |t.nodes[n].entries| && 0 < mid <= |t.nodes[n].entries|
    requires
      var x, u := AfterInsert(t.nodes[n].entries, p, e)[mid].ikey, LeafSplit(t, n, p, e, mid, c);
      CutAt(t, n, c, x, u) && LeafCut(t, n, c, x, u) && SameLeaves(u, v)
    requires Valid(v)
    ensures Packed(v.nodes, {if p < mid then n else c})
  {
    hide Valid, Packed;
    forall r | r in v.nodes && v.nodes[r].Leaf? && v.nodes[r].hasPrev && r != (if p < mid then n else c)
      ensures v.nodes[r].entries != []
    {
      LeafAfterSplit(t, n, p, e, mid, c, v, r);
      PackedHalf(t.nodes[n].entries, p, mid);
    }
    assert Packed(v.nodes, {if p < mid then n else c}) by { PackedIs(v.nodes, if p < mid then n else c); }
  }

  /** What a leaf split has done when the levels above have been told: no lookup has changed, and the leaf that the
      entry belongs to has one half of the entries and may be empty. */
  ghost predicate Divided(t: Tree, n: Ref, p: nat, e: Entry, mid: nat, c: Ref, v: Tree) {
    && SameMap(t, v)
    && n in t.nodes && t.nodes[n].Leaf? && p <= |t.nodes[n].entries| && 0 < mid <= |t.nodes[n].entries|
    && var leaf := if p < mid then n else c;
    && leaf in v.nodes && v.nodes[leaf].Leaf? && Serves(v, leaf, e.ikey)
    && v.nodes[leaf].entries == (if p < mid then LeftEntries(t.nodes[n].entries, p, mid) else t.nodes[n].entries[mid..])
    && Place(v.nodes[leaf].entries, if p < mid then p else p - mid, e)
    && (Packed(t.nodes, {}) ==> Packed(v.nodes, {leaf}))
  }

  lemma SplitEnds(t: Tree, n: Ref, p: nat, e: Entry, mid: nat, c: Ref, v: Tree)
    requires Valid(t) && Valid(v) && n in t.nodes && Serves(t, n, e.ikey) && t.nodes[n].Leaf? && n in t.hi && c !in t.nodes
    requires p <= |t.nodes[n].entries| && 0 < mid <= |t.nodes[n].entries|
    requires
      var x, u := AfterInsert(t.nodes[n].entries, p, e)[mid].ikey, LeafSplit(t, n, p, e, mid, c);
      && CutAt(t, n, c, x, u) && LeafCut(t, n, c, x, u) && SameLeaves(u, v)
      && n in u.nodes && u.nodes[n].Leaf? && c in u.nodes && u.nodes[c].Leaf?
      && u.nodes[n].entries + u.nodes[c].entries == t.nodes[n].entries && (e.ikey < x <==> p < mid)
    requires
      var es := t.nodes[n].entries;
      if p < mid then Place(LeftEntries(es, p, mid), p, e) else Place(es[mid..], p - mid, e)
    ensures Divided(t, n, p, e, mid, c, v)
  {
    hide Place, Valid, Packed, SameMap, CutAt, LeafCut, LeafSplit, SameLeaves, AfterInsert, LeftEntries, Serves;
    SplitKeepsMap(t, n, c, AfterInsert(t.nodes[n].entries, p, e)[mid].ikey, LeafSplit(t, n, p, e, mid, c), v);
    LeavesServe(t, n, p, e, mid, c, v);
    if Packed(t.nodes, {}) {
      SplitIsPacked(t, n, p, e, mid, c, v);
    }
  }

  lemma PackedIs(nodes: map<Ref, Node>, r0: Ref)
    requires forall r :: r in nodes && nodes[r].Leaf? && nodes[r].hasPrev && r != r0 ==> nodes[r].entries != []
    ensures Packed(nodes, {r0})
  {
  }

  /** A leaf of the tree after the split is one of the halves, or a leaf from before. */
  lemma LeafAfterSplit(t: Tree, n: Ref, p: nat, e: Entry, mid: nat, c: Ref, v: Tree, r: Ref)
    requires Valid(t) && Packed(t.nodes, {}) && n in t.nodes && t.nodes[n].Leaf? && n in t.hi && c !in t.nodes
    requires p <= |t.nodes[n].entries| && 0 < mid <= |t.nodes[n].entries|
    requires
      var x, u := AfterInsert(t.nodes[n].entries, p, e)[mid].ikey, LeafSplit(t, n, p, e, mid, c);
      CutAt(t, n, c, x, u) && LeafCut(t, n, c, x, u) && SameLeaves(u, v)
    requires Valid(v) && r in v.nodes && v.nodes[r].Leaf? && v.nodes[r].hasPrev
    ensures r == n ==> v.nodes[r].entries == LeftEntries(t.nodes[n].entries, p, mid)
    ensures r == c ==> v.nodes[r].entries == t.nodes[n].entries[if p < mid then mid - 1 else mid..]
    ensures r != n && r != c ==> v.nodes[r].entries != []
  {
    hide Valid, AfterInsert;
    var x, u := AfterInsert(t.nodes[n].entries, p, e)[mid].ikey, LeafSplit(t, n, p, e, mid, c);
    ValidNode(v, r);
    var k := v.lo[r];
    RootServesAll(t, k);
    var a := Reach(t, t.root, k);
    ValidNode(t, a);
    ValidNode(t, n);
    var b := if a != n then a else if k < x then n else c;
    assert b in u.nodes && u.nodes[b].Leaf? && Serves(v, b, k);
    RootServesAll(v, k);
    ReachIsUnique(v, v.root, b, k);
    ReachIsUnique(v, v.root, r, k);
    assert a != n ==> t.nodes[a].hasPrev;
  }

  // ----- the layer as a map

  ghost predicate SameMap(t: Tree, u: Tree) {
    && Valid(t) && Valid(u)
    && forall k: Ikey, len: nat :: k < LIMIT ==> Get(u, k, len) == Get(t, k, len)
  }

  /** `u` maps one key to `v` (or to nothing) and every other key as `t` does. */
  ghost predicate MapWith(t: Tree, k0: Ikey, len0: nat, v: Option<Content>, u: Tree) {
    && Valid(t) && Valid(u)
    && forall k: Ikey, len: nat :: k < LIMIT ==>
         Get(u, k, len) == if k == k0 && len == len0 then v else Get(t, k, len)
  }

  lemma SplitKeepsMap(t: Tree, n: Ref, c: Ref, x: Ikey, u: Tree, v: Tree)
    requires Valid(t) && CutAt(t, n, c, x, u) && LeafCut(t, n, c, x, u) && Valid(v) && SameLeaves(u, v)
    requires u.nodes[n].entries + u.nodes[c].entries == t.nodes[n].entries
    ensures SameMap(t, v)
  {
    hide Valid, CutAt, LeafCut, SameLeaves;
    forall k: Ikey, len: nat | k < LIMIT
      ensures Get(v, k, len) == Get(t, k, len)
    {
      GetAfterSplit(t, n, c, x, u, v, k, len);
    }
  }

  /** A leaf that changes the lookup of one key changes the map at that key. */
  lemma LeafChangesMap(t: Tree, leaf: Ref, es: seq<Entry>, k0: Ikey, len0: nat, v: Option<Content>)
    requires Valid(t) && Serves(t, leaf, k0) && t.nodes[leaf].Leaf?
    requires LeafOk(t.nodes[leaf].(entries := es), t.lo[leaf], t.hi[leaf])
    requires LookupWith(t.nodes[leaf].entries, k0, len0, v, es)
    ensures MapWith(t, k0, len0, v, WithEntries(t, leaf, es))
  {
    hide Valid;
    var u := WithEntries(t, leaf, es);
    EntriesReplaced(t, leaf, es);
    forall k: Ikey, len: nat | k < LIMIT
      ensures Get(u, k, len) == if k == k0 && len == len0 then v else Get(t, k, len)
    {
      if Serves(t, leaf, k) {
        GetReplaced(t, leaf, es, k, len);
        GetAt(t, leaf, k, len);
      } else {
        GetElsewhere(t, leaf, es, k, len);
      }
    }
  }

  lemma MapWithAfterSame(t: Tree, s: Tree, k0: Ikey, len0: nat, v: Option<Content>, u: Tree)
    requires SameMap(t, s) && MapWith(s, k0, len0, v, u)
    ensures MapWith(t, k0, len0, v, u)
  {
    hide Valid;
  }
}
