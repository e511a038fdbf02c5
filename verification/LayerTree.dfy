/** One layer as an object: putting a key with splits up to the root.
  Sources: masstree_insert.hh, masstree_split.hh. */
module LayerTree {
  import opened Options
  import opened TreeModel
  import opened LeafEntries
  import opened TreeSplit
  import opened SplitStores
  import opened TreeRemove
  import opened RemoveStores

  class Layer {
    var nodes: map<Ref, Node>
    var root: Ref
    var free: Ref
    ghost var lo: map<Ref, Ikey>
    ghost var hi: map<Ref, nat>

    ghost function Shape(): Tree
      reads this
    {
      Tree(nodes, root, lo, hi)
    }

    ghost predicate Sound()
      reads this
    {
      Valid(Shape()) && Fits(nodes) && Below(nodes, free)
    }

    /** The value stored under a slice and length. */
    ghost function Value(k: Ikey, len: nat): Option<Content>
      requires Sound() && k < LIMIT
      reads this
    {
      Get(Shape(), k, len)
    }

    /** A layer starts as one empty leaf. */
    constructor ()
      ensures Sound() && nodes == map[root := Leaf(None, [], false, 0)] && Packed(nodes, {})
    {
      nodes := map[0 := Leaf(None, [], false, 0)];
      root, free := 0, 1;
      lo, hi := map[0 := 0], map[0 := LIMIT];
      new;
      assert NodeOk(Shape(), hi, 0) && ParentOk(Shape(), hi, 0);
    }

    /** `reach_leaf`: goes down without meeting a null child. */
    method FindLeaf(k: Ikey) returns (leaf: Ref)
      requires Sound() && k < LIMIT
      ensures leaf in nodes && nodes[leaf].Leaf? && Serves(Shape(), leaf, k)
    {
      hide Valid, Fits, Below, Upper;
      RootServesAll(Shape(), k);
      leaf := root;
      while nodes[leaf].Inner?
        invariant Serves(Shape(), leaf, k)
        decreases nodes[leaf].Height()
      {
        ChildServes(Shape(), leaf, k);
        ValidNode(Shape(), leaf);
        var i := UpperBound(nodes[leaf].keys, k);
        leaf := nodes[leaf].child[i].value;
      }
    }

    /** `find`: the value under a slice and length. */
    method Find(k: Ikey, len: nat) returns (value: Option<Content>)
      requires Sound() && k < LIMIT
      ensures value == Value(k, len)
    {
      hide Valid, Fits, Below;
      var leaf := FindLeaf(k);
      LeafIsOrdered(Shape(), leaf);
      GetAt(Shape(), leaf, k, len);
      var es := nodes[leaf].entries;
      var at, found := Lower(es, k, len);
      value := if found then Some(es[at].value) else None;
      LookupIs(es, k, len, at, found);
    }

    method Make(node: Node) returns (r: Ref)
      modifies this`nodes, this`free
      ensures r == old(free) && nodes == old(nodes)[r := node] && free == r + 1
    {
      r := free;
      nodes := nodes[r := node];
      free := free + 1;
    }

    ghost method SetBounds(u: Tree)
      modifies this`lo, this`hi
      ensures lo == u.lo && hi == u.hi && nodes == old(nodes) && root == old(root) && free == old(free)
    {
      lo, hi := u.lo, u.hi;
    }

    method SetParent(r: Ref, q: Ref)
      requires r in nodes
      modifies this`nodes
      ensures nodes == old(nodes)[r := old(nodes[r]).(parent := Some(q))]
    {
      nodes := nodes[r := nodes[r].(parent := Some(q))];
    }

    /** The loop of `internode::split_into` over the children that move. */
    method SetParents(kids: seq<Option<Ref>>, q: Ref)
      requires forall i :: 0 <= i < |kids| ==> kids[i].Some? && kids[i].value in nodes
      modifies this`nodes
      ensures nodes == Reparented(old(nodes), kids, q)
    {
      var i := 0;
      while i < |kids|
        invariant i <= |kids|
        invariant nodes.Keys == old(nodes).Keys
        invariant forall r :: r in nodes ==>
          nodes[r] == if Some(r) in kids[..i] then old(nodes)[r].(parent := Some(q)) else old(nodes)[r]
      {
        SetParent(kids[i].value, q);
        assert kids[..i + 1] == kids[..i] + [kids[i]];
        i := i + 1;
      }
      assert kids[..i] == kids;
    }

    /** `internode::split_into`: the full node `p` keeps the keys before the middle one, `nr`
        gets those after it.  A new child that belongs left of the middle is left to the
        caller, who then learns where (`at >= 0`). */
    method SplitInto(p: Ref, nr: Ref, kp: nat, ka: Ikey, value: Ref, mid: nat) returns (splitIkey: Ikey, at: int)
      requires CanSplit(nodes, p, nr, kp, mid)
      requires forall d :: d in AddChild(nodes[p].child, kp, value)[1..] ==> d.Some? && d.value in nodes
      modifies this`nodes
      ensures splitIkey == AddKey(old(nodes[p]).keys, kp, ka)[mid] && at == (if kp < mid then kp else -1)
      ensures nodes == SplitMemory(old(nodes), p, nr, kp, ka, value, mid)
    {
      var n := nodes[p];
      var keys, child;
      splitIkey, keys, child := RightHalf(n.keys, n.child, kp, ka, value, mid);
      nodes := nodes[nr := nodes[nr].(keys := keys, child := child)];
      assert forall i :: 0 <= i < |child| ==> child[i] in AddChild(n.child, kp, value)[1..];
      SetParents(child, nr);
      if kp < mid {
        nodes := nodes[p := n.(keys := n.keys[..mid - 1], child := n.child[..mid])];
        at := kp;
      } else {
        nodes := nodes[p := n.(keys := n.keys[..mid], child := n.child[..mid + 1])];
        assert n.keys[..mid] == AddKey(n.keys, kp, ka)[..mid];
        assert n.child[..mid + 1] == AddChild(n.child, kp, value)[..mid + 1];
        at := -1;
      }
    }

    /** The stores of the loop for a new level. */
    method StoreLevel(n: Ref, child: Ref, x: Ikey, height: nat) returns (nn: Ref)
      requires n in nodes && child in nodes && n != child && free !in nodes
      requires nodes[n].parent.Some? ==>
        && nodes[n].parent.value in nodes && nodes[n].parent.value !in {n, child}
        && var p := nodes[nodes[n].parent.value];
        p.Inner? && |p.child| == |p.keys| + 1
      modifies this`nodes, this`root, this`free
      ensures nn == old(free) && free == nn + 1
      ensures root == if old(nodes[n]).parent == None then nn else old(root)
      ensures nodes == LevelStores(old(nodes), n, child, x, nn, height)
    {
      var parent := nodes[n].parent;
      nn := Make(Inner(parent, height + 1, [x], [Some(n), Some(child)]));
      SetParent(child, nn);
      if parent == None {
        root := nn;
      } else {
        var p := nodes[parent.value];
        nodes := nodes[parent.value := p.(child := p.child[Upper(p.keys, x) := Some(nn)])];
      }
      SetParent(n, nn);
    }

    /** The split ends in a new internode above `n` and `child`, as a new root or in a gap. */
    method AddLevel(n: Ref, child: Ref, x: Ikey, height: nat)
      requires Pending(Shape(), n, child, x) && Fits(nodes) && Below(nodes, free) && height == nodes[n].Height()
      requires nodes[n].parent == None ||
        (nodes[n].parent.value in nodes && nodes[nodes[n].parent.value].Inner? &&
         nodes[nodes[n].parent.value].level > height + 1)
      modifies this
      ensures Sound() && SameLeaves(old(Shape()), Shape())
      ensures FilledBelowNew(old(nodes), nodes)
    {
      ghost var t := Shape();
      hide Pending, Valid, Upper, Fits, Below, SameLeaves, LevelStores, Raised, FilledBelowNew;
      assert free !in nodes by { NotYet(nodes, free); }
      PendingHalves(t, n, child, x);
      PendingParent(t, n, child, x);
      var nn := StoreLevel(n, child, x, height);
      lo, hi := lo[nn := lo[n]], hi[nn := hi[child]];
      StoresRaise(t, n, child, x, nn, root);
      RaisedKeeps(t, n, child, x, nn, Shape());
      RaisedNodes(t, n, child, x, nn, Shape());
      RaisedFilled(t, n, child, x, nn, Shape());
      RaisedIsValid(t, n, child, x, nn, Shape());
    }

    /** The parent has room for the new child. */
    method AddToParent(q: Ref, kp: nat, n: Ref, child: Ref, x: Ikey)
      requires Pending(Shape(), n, child, x) && Fits(nodes) && Below(nodes, free) && nodes[n].parent == Some(q)
      requires q in nodes && nodes[q].Inner? && kp == Upper(nodes[q].keys, x)
      requires |nodes[q].child| == |nodes[q].keys| + 1 && |nodes[q].keys| < INTERNODE_WIDTH
      modifies this`nodes
      ensures Sound() && SameLeaves(old(Shape()), Shape())
      ensures Filled(old(nodes), nodes)
    {
      ghost var t := Shape();
      hide Pending, Valid, Upper, Fits, SameLeaves, Filled;
      PendingHalves(t, n, child, x);
      PendingParent(t, n, child, x);
      var p := nodes[q];
      SetParent(child, q);
      nodes := nodes[q := p.(keys := AddKey(p.keys, kp, x), child := AddChild(p.child, kp, child))];
      assert Added(t, n, child, x, Shape());
      AddedKeeps(t, n, child, x, Shape());
      AddedFilled(t, n, child, x, Shape());
      AddedIsValid(t, n, child, x, Shape());
    }

    /** The stores of the loop for a full parent. */
    method StoreSplit(q: Ref, kp: nat, child: Ref, x: Ikey, mid: nat) returns (next: Ref, splitIkey: Ikey)
      requires free !in nodes && child in nodes && child != q && CanSplit(nodes[free := Inner(None, 0, [], [])], q, free, kp, mid)
      requires forall d :: d in AddChild(nodes[q].child, kp, child)[1..] ==> d.Some? && d.value in nodes
      modifies this`nodes, this`free
      ensures next == old(free) && free == next + 1 && q in old(nodes)
      ensures nodes == ParentStores(old(nodes)[next := Inner(None, old(nodes[q].level), [], [None])], q, next, kp, x, child, mid)
      ensures splitIkey == AddKey(old(nodes[q].keys), kp, x)[mid]
    {
      next := Make(Inner(None, nodes[q].level, [], [None]));
      var at;
      splitIkey, at := SplitInto(q, next, kp, x, child, mid);
      if at >= 0 {
        var p := nodes[q];
        SetParent(child, q);
        nodes := nodes[q := p.(keys := AddKey(p.keys, at, x), child := AddChild(p.child, at, child))];
      }
    }

    /** The full parent is split and has a new sibling itself. */
    method SplitParent(q: Ref, kp: nat, n: Ref, child: Ref, x: Ikey, mid: nat) returns (next: Ref, splitIkey: Ikey)
      requires Pending(Shape(), n, child, x) && Fits(nodes) && Below(nodes, free) && nodes[n].parent == Some(q)
      requires q in nodes && nodes[q].Inner? && kp == Upper(nodes[q].keys, x)
      requires |nodes[q].child| == |nodes[q].keys| + 1 && 0 < mid <= |nodes[q].keys|
      modifies this
      ensures Pending(Shape(), q, next, splitIkey) && Fits(nodes) && Below(nodes, free)
      ensures SameLeaves(old(Shape()), Shape())
      ensures q in nodes && nodes[q].Height() == old(nodes[q]).Height()
      ensures TallerThan(nodes, nodes[q].Height()) <= TallerThan(old(nodes), nodes[q].Height())
      ensures old(|nodes[q].keys|) == 15 && mid == 8 ==> Filled(old(nodes), nodes)
    {
      ghost var t := Shape();
      hide Pending, Valid, Upper, Fits, Below, SameLeaves, TallerThan, ParentStores, SplitNodes, Filled;
      assert free !in nodes by { NotYet(nodes, free); }
      PendingHalves(t, n, child, x);
      PendingParent(t, n, child, x);
      ChildrenAreThere(t, n, child, x, q, kp);
      next, splitIkey := StoreSplit(q, kp, child, x, mid);
      lo, hi := lo[next := splitIkey], hi[next := hi[q]][q := splitIkey];
      StoresSplit(t, n, q, kp, x, child, next, mid, t.nodes[next := Inner(None, t.nodes[q].level, [], [None])]);
      SplitKeeps(t, q, kp, x, child, next, mid, splitIkey, Shape());
      if |t.nodes[q].keys| == 15 && mid == 8 {
        SplitFilled(t, q, kp, x, child, next, nodes);
      }
      SplitIsAddThenCut(t, n, child, x, q, next, mid, Shape());
    }

    /** `leaf::split_into`, with the old leaf cut back as well: which entries stay and which
        move.  The new entry is in neither half yet.  The split type is 0 if it belongs left,
        1 if right, 2 if it will be alone in the new leaf. */
    method SplitLeaf(n: Ref, p: nat, e: Entry, hasNext: bool) returns (child: Ref, x: Ikey, splitType: nat, mid: nat)
      requires n in nodes && nodes[n].Leaf? && free !in nodes
      requires WIDTH - 1 <= |nodes[n].entries| <= WIDTH && p <= |nodes[n].entries|
      requires Ordered(AfterInsert(nodes[n].entries, p, e))
      requires forall a :: a in AfterInsert(nodes[n].entries, p, e) ==> a.len <= 9
      modifies this`nodes, this`free
      ensures
        var leaf := old(nodes[n]);
        && 0 < mid <= |leaf.entries| && p <= |leaf.entries|
        && Nearest(AfterInsert(leaf.entries, p, e), DefaultMid(|leaf.entries|, p, leaf.hasPrev, hasNext), mid)
        && Boundary(AfterInsert(leaf.entries, p, e), mid) && x == AfterInsert(leaf.entries, p, e)[mid].ikey
        && splitType == (if p < mid then 0 else if mid == |leaf.entries| then 2 else 1)
      ensures nodes == LeafSplitNodes(old(nodes), n, p, x, mid, child)
      ensures child == old(free) && free == child + 1 && root == old(root)
    {
      hide Ordered;
      var es := nodes[n].entries;
      mid := SplitPoint(es, p, e, nodes[n].hasPrev, hasNext);
      x := IkeyAfterInsert(es, mid, e, p);
      var right := RightEntries(es, p, mid);
      splitType := if p < mid then 0 else if mid == |es| then 2 else 1;
      child := Make(Leaf(None, right, true, x));
      nodes := nodes[n := nodes[n].(entries := LeftEntries(es, p, mid))];
    }

    /** The loop of `make_split`: tells the parents about the new sibling, splitting full
        ones, until one has room or a new level is made.  Full internodes are cut in the middle
        unless the leaf's new entry went alone. */
    method Ascend(n0: Ref, child0: Ref, x0: Ikey, splitType: nat)
      requires Pending(Shape(), n0, child0, x0) && Fits(nodes) && Below(nodes, free) && nodes[n0].Leaf?
      modifies this
      ensures Sound() && SameLeaves(old(Shape()), Shape())
      ensures FilledUnless(splitType == 2, old(nodes), nodes)
    {
      hide Pending, Valid, Fits, Below, SameLeaves, TallerThan, Filled, FilledBelowNew;
      var n, child, x, height, pending := n0, child0, x0, 0, true;
      PendingHalves(Shape(), n, child, x);
      assert SameLeaves(Shape(), Shape()) by { SameLeavesAtFirst(Shape()); }
      assert Filled(nodes, nodes) by { FilledAtFirst(nodes); }
      while pending
        invariant Fits(nodes) && Below(nodes, free) && SameLeaves(old(Shape()), Shape())
        invariant pending ==> Pending(Shape(), n, child, x) && n in nodes && height == nodes[n].Height()
        invariant !pending ==> Sound()
        invariant splitType != 2 ==> if pending then Filled(old(nodes), nodes) else FilledBelowNew(old(nodes), nodes)
        decreases pending, TallerThan(nodes, height)
      {
        ghost var t := Shape();
        PendingParent(t, n, child, x);
        var parent := nodes[n].parent;
        if parent == None || nodes[parent.value].level > height + 1 {
          AddLevel(n, child, x, height);
          pending := false;
          if splitType != 2 {
            FilledJoin(old(nodes), t.nodes, nodes);
          }
        } else {
          var q := parent.value;
          KeysAreSorted(t, n, child, x, q);
          var kp := UpperBound(nodes[q].keys, x);
          if |nodes[q].keys| >= INTERNODE_WIDTH {
            var mid := if splitType == 2 then INTERNODE_WIDTH else (INTERNODE_WIDTH + 1) / 2;
            var next, splitIkey := SplitParent(q, kp, n, child, x, mid);
            FewerTaller(t.nodes, q, height);
            if splitType != 2 {
              FullIs15(t.nodes, q);
              FilledJoin(old(nodes), t.nodes, nodes);
            }
            n, child, x, height := q, next, splitIkey, height + 1;
          } else {
            AddToParent(q, kp, n, child, x);
            pending := false;
            if splitType != 2 {
              FilledLast(old(nodes), t.nodes, nodes);
            }
          }
        }
        SameLeavesJoin(old(Shape()), t, Shape());
      }
    }

    /** The leaf's split as `make_split` starts it: the new sibling has no parent yet. */
    method StartSplit(n: Ref, p: nat, e: Entry, hasNext: bool) returns (child: Ref, x: Ikey, splitType: nat, mid: nat)
      requires Sound() && n in nodes && nodes[n].Leaf? && WIDTH - 1 <= |nodes[n].entries|
      requires Serves(Shape(), n, e.ikey) && Place(nodes[n].entries, p, e) && e.len <= 9
      modifies this
      ensures n in old(nodes) && old(nodes[n]).Leaf? && p <= |old(nodes[n].entries)| && 0 < mid <= |old(nodes[n].entries)|
      ensures x == AfterInsert(old(nodes[n].entries), p, e)[mid].ikey && (e.ikey < x <==> p < mid)
      ensures splitType == 0 <==> p < mid
      ensures splitType == 2 ==> p == |old(nodes[n].entries)|
      ensures n in nodes && nodes[n].Leaf? && child in nodes && nodes[child].Leaf? && Filled(old(nodes), nodes)
      ensures n in old(hi) && child !in old(nodes) && Shape() == LeafSplit(old(Shape()), n, p, e, mid, child)
      ensures CutAt(old(Shape()), n, child, x, Shape()) && LeafCut(old(Shape()), n, child, x, Shape())
      ensures nodes[n].entries + nodes[child].entries == old(nodes[n].entries)
      ensures Fits(nodes) && Below(nodes, free)
      ensures if p < mid then Place(LeftEntries(old(nodes[n].entries), p, mid), p, e)
              else Place(old(nodes[n].entries)[mid..], p - mid, e)
    {
      ghost var t, es := Shape(), nodes[n].entries;
      hide Valid, Below, Ordered, LeafOk, Place, CutAt, LeafCut, LeftEntries, Fits, Nearest, Boundary, AfterInsert, DefaultMid, LeafSplitNodes, Filled, Serves;
      assert free !in nodes by { NotYet(nodes, free); }
      LeafIsOk(t, n, p, e);
      child, x, splitType, mid := SplitLeaf(n, p, e, hasNext);
      ghost var u := LeafSplit(t, n, p, e, mid, child);
      SetBounds(u);
      assert Shape() == u;
      LeafSplitFacts(t, n, p, e, mid, child);
      PlaceInHalf(es, p, e, mid);
    }

    /** The split without the choice of the leaf: the new sibling is in the tree. */
    method Divide(n: Ref, p: nat, e: Entry, hasNext: bool) returns (child: Ref, splitType: nat, mid: nat)
      requires Sound() && n in nodes && nodes[n].Leaf? && Serves(Shape(), n, e.ikey)
      requires WIDTH - 1 <= |nodes[n].entries| && Place(nodes[n].entries, p, e) && e.len <= 9
      modifies this
      ensures Sound() && Divided(old(Shape()), n, p, e, mid, child, Shape()) && |old(nodes[n].entries)| <= WIDTH
      ensures splitType == 0 <==> p < mid
      ensures FilledUnless(splitType == 2, old(nodes), nodes) && (splitType == 2 ==> p == |old(nodes[n].entries)|)
    {
      ghost var t, es := Shape(), nodes[n].entries;
      hide Valid, Below, AfterInsert, LeafCut, LeafSplit, Place, SameLeaves, Divided, Pending, CutAt, Packed, LeftEntries, Serves;
      hide Filled, FilledUnless, Fits, LeafOk, Ordered;
      assert |es| <= WIDTH by { LeafIsOk(t, n, p, e); }
      var x;
      child, x, splitType, mid := StartSplit(n, p, e, hasNext);
      ghost var u := Shape();
      CutIsPending(t, n, child, x, u);
      Ascend(n, child, x, splitType);
      FilledEnds(t.nodes, u.nodes, nodes, splitType == 2);
      SplitEnds(t, n, p, e, mid, child, Shape());
    }

    /** `make_split`: the leaf that the entry belongs to now has room for it. */
    method MakeSplit(n: Ref, p: nat, e: Entry, hasNext: bool) returns (leaf: Ref, at: nat)
      requires Sound() && n in nodes && nodes[n].Leaf? && Serves(Shape(), n, e.ikey)
      requires WIDTH - 1 <= |nodes[n].entries| && Place(nodes[n].entries, p, e) && e.len <= 9
      modifies this
      ensures Sound() && SameMap(old(Shape()), Shape())
      ensures leaf in nodes && nodes[leaf].Leaf? && Serves(Shape(), leaf, e.ikey)
      ensures Place(nodes[leaf].entries, at, e) && |nodes[leaf].entries| < WIDTH
      ensures Packed(old(nodes), {}) ==> Packed(nodes, {leaf})
      ensures FilledUnless(p == |old(nodes[n].entries)|, old(nodes), nodes)
    {
      hide Valid, Place, SameMap, Packed, FilledUnless, Serves, Fits, Below;
      var child, splitType, mid := Divide(n, p, e, hasNext);
      FilledLoosely(old(nodes), nodes, splitType == 2, p == |old(nodes[n].entries)|);
      if splitType == 0 {
        leaf, at := n, p;
      } else {
        leaf, at := child, p - mid;
      }
    }

    /** `finish_insert`. */
    method FinishInsert(leaf: Ref, at: nat, e: Entry)
      requires Sound() && leaf in nodes && nodes[leaf].Leaf? && Serves(Shape(), leaf, e.ikey)
      requires Place(nodes[leaf].entries, at, e) && |nodes[leaf].entries| < WIDTH && e.len <= 9
      modifies this`nodes
      ensures Sound() && MapWith(old(Shape()), e.ikey, e.len, Some(e.value), Shape())
      ensures Packed(old(nodes), {leaf}) ==> Packed(nodes, {})
    {
      hide Valid, MapWith, LeafOk;
      ghost var t := Shape();
      ValidNode(t, leaf);
      var es := AfterInsert(nodes[leaf].entries, at, e);
      InsertIsOk(nodes[leaf], lo[leaf], hi[leaf], at, e);
      nodes := nodes[leaf := nodes[leaf].(entries := es)];
      EntriesReplaced(t, leaf, es);
      LeafChangesMap(t, leaf, es, e.ikey, e.len, Some(e.value));
    }

    /** Puts a value under a slice and length.  `slotUsable` says whether the only free slot
        of a leaf with one free slot may be taken, `hasNext` whether a leaf follows. */
    method Put(e: Entry, slotUsable: bool, hasNext: bool)
      requires Sound() && e.ikey < LIMIT && e.len <= 9
      modifies this
      ensures Sound() && MapWith(old(Shape()), e.ikey, e.len, Some(e.value), Shape())
      ensures Packed(old(nodes), {}) ==> Packed(nodes, {})
    {
      hide Valid, MapWith, SameMap, LeafOk;
      ghost var t := Shape();
      var leaf := FindLeaf(e.ikey);
      ValidNode(t, leaf);
      assert Ordered(nodes[leaf].entries) by { LeafIsOrdered(t, leaf); }
      var at, found := Lower(nodes[leaf].entries, e.ikey, e.len);
      if found {
        var es := nodes[leaf].entries[at := nodes[leaf].entries[at].(value := e.value)];
        UpdateIsOk(nodes[leaf], lo[leaf], hi[leaf], at, e.value);
        nodes := nodes[leaf := nodes[leaf].(entries := es)];
        EntriesReplaced(t, leaf, es);
        LeafChangesMap(t, leaf, es, e.ikey, e.len, Some(e.value));
      } else if |nodes[leaf].entries| < (if slotUsable then WIDTH else WIDTH - 1) {
        FinishInsert(leaf, at, e);
      } else {
        leaf, at := MakeSplit(leaf, at, e, hasNext);
        ghost var s := Shape();
        FinishInsert(leaf, at, e);
        MapWithAfterSame(t, s, e.ikey, e.len, Some(e.value), Shape());
      }
    }

    /** `redirect`: from the parent of `p` upwards, separators at the lower end of `p` become
        `y`, until a node has something to the left. */
    method Redirect(p: Ref, ikey: Ikey, y: Ikey, ghost w: Tree)
      requires Valid(w) && p in w.nodes && Serves(w, p, ikey) && w.lo[p] != 0
      requires p in nodes && nodes.Keys <= w.nodes.Keys && nodes[p].parent == w.nodes[p].parent
      requires forall r :: r in w.nodes && w.nodes[p].Height() < w.nodes[r].Height() ==> r in nodes && nodes[r] == w.nodes[r]
      modifies this`nodes
      ensures Redirected(old(nodes), w, p, w.lo[p], y, nodes) && nodes.Keys == old(nodes.Keys)
    {
      hide Valid, Upper, MovedNode, RedirectedTo, Redirected, Taller;
      ghost var before, x := nodes, w.lo[p];
      RangeInside(w, p);
      NothingRedirected(before, w, p, x, y);
      var n, again := p, true;
      while again
        invariant Serves(w, n, ikey) && Serves(w, n, x) && w.nodes[p].Height() <= w.nodes[n].Height()
        invariant again <==> w.lo[n] == x
        invariant nodes.Keys == before.Keys && n in nodes && nodes[n].parent == w.nodes[n].parent
        invariant RedirectedTo(before, w, p, n, x, y, nodes)
        decreases again, Taller(w, n)
      {
        RedirectStep(w, n, ikey, y);
        ghost var m, at := n, nodes;
        n := nodes[n].parent.value;
        assert n in nodes && nodes[n] == w.nodes[n] by { NotYetRedirected(before, w, p, m, n, x, y, nodes); }
        var kp := UpperBound(nodes[n].keys, ikey);
        if kp > 0 {
          nodes := nodes[n := nodes[n].(keys := nodes[n].keys[kp - 1 := y])];
        }
        assert nodes == at[n := MovedNode(w.nodes[n], x, y)];
        RedirectSkips(before, w, p, m, n, x, y, at, nodes);
        TallerShrinks(w, m, n);
        again := kp == 0 || (kp == 1 && nodes[n].child[0] == None);
      }
      RedirectStops(before, w, p, n, x, y, nodes);
    }

    /** The replacement takes the place of the dead node `n`. */
    method Replace(n: Ref, p: Ref, kp: nat, c: Ref, ikey: Ikey, ghost w: Tree) returns (ikey': Ikey, ghost u: Tree)
      requires Valid(w) && Thin(w, n, p, kp, c) && Memory(w, n, nodes) && root == w.root && p != n && Serves(w, p, ikey)
      modifies this
      ensures Settled(u, p, ikey', nodes) && SameMap(w, u)
      ensures root == u.root == w.root && lo == u.lo && hi == u.hi && free == old(free)
      ensures p in old(nodes) && old(nodes[p]).Inner? && c in old(nodes) && kp < |old(nodes[p]).child|
      ensures nodes == SplicedNodes(old(nodes), n, p, kp, c) - {n}
    {
      hide Valid, Settled, SameMap, Redirected, Spliced, Memory;
      SettledBySplice(w, n, p, kp, c, ikey, nodes);
      u := Spliced(w, n, p, kp, c);
      assert u.root == w.root by { SplicedRoot(w, n, p, kp, c); }
      nodes := nodes[p := nodes[p].(child := nodes[p].child[kp := Some(c)])];
      SetParent(c, p);
      nodes := nodes - {n};
      SetBounds(u);
      ikey' := ikey;
      assert Valid(u) && p in u.nodes && p in nodes && nodes == u.nodes && nodes[p].Inner? && |nodes[p].child| == |nodes[p].keys| + 1 by {
        SettledParts(u, p, ikey, nodes);
      }
      if kp <= 1 && |nodes[p].keys| > 0 && nodes[p].child[0] == None {
        NullChildStarts(u, p);
        ghost var at := nodes;
        SettledParts(u, p, ikey, nodes);
        Redirect(p, ikey, nodes[p].keys[0], u);
        RedirectIsIdle(u, p, nodes);
        ikey' := nodes[p].keys[0];
        SettledAlso(u, p, ikey, ikey', nodes);
      }
    }

    /** The dead leaf `n` goes from its parent, and its range to the left. */
    method Drop(n: Ref, p: Ref, kp: nat, ikey: Ikey, ghost w: Tree) returns (ikey': Ikey, ghost u: Tree)
      requires Valid(w) && EmptyChild(w, n, p, kp) && Memory(w, n, nodes) && root == w.root && p != n
      requires ikey == w.lo[n] && Serves(w, p, ikey)
      modifies this
      ensures Settled(u, p, ikey', nodes) && SameMap(w, u)
      ensures root == u.root == w.root && lo == u.lo && hi == u.hi && free == old(free)
      ensures nodes.Keys == old(nodes.Keys) - {n}
      ensures Fits(old(nodes)) ==> Fits(nodes)
      ensures LeavesKept(old(nodes), nodes)
    {
      hide Valid, Settled, SameMap, Redirected, Fits, WithoutChild, LeavesMatch, LeavesKept;
      ghost var start := nodes;
      WhenRedirected(w, n, p, kp);
      nodes := nodes[p := WithoutChild(nodes[p], kp)] - {n};
      ghost var before := nodes;
      assert Dropped(w, n, p, kp, before);
      ikey' := ikey;
      if kp <= 1 && |nodes[p].keys| > 0 && nodes[p].child[0] == None {
        ikey' := nodes[p].keys[0];
        Redirect(p, ikey, ikey', w);
        SettledByRedirect(w, n, p, kp, before, nodes);
        u := Collapsed(w, n, p, kp);
      } else if w.lo[p] < w.lo[n] {
        SettledWithoutRedirect(w, n, p, kp, nodes);
        u := Collapsed(w, n, p, kp);
      } else {
        SettledEmpty(w, n, p, kp, nodes);
        u := Emptied(w, n, p);
      }
      SetBounds(u);
      DropFits(w, n, p, kp, start, before, nodes);
      DropKeepsLeaves(w, n, p, kp, start, before, nodes);
    }

    /** The body of the loop of `remove_leaf` up to the release of `n`: its parent gets the
        replacement, or loses the child and gives the range to the left. */
    method Detach(n: Ref, replacement: Option<Ref>, ikey: Ikey, ghost w: Tree)
      returns (p: Ref, ikey': Ikey, ghost u: Tree)
      requires Head(w, n, replacement, ikey, nodes) && root == w.root
      modifies this
      ensures Settled(u, p, ikey', nodes) && SameMap(w, u)
      ensures root == u.root == w.root && lo == u.lo && hi == u.hi && free == old(free)
      ensures n in old(nodes) && nodes.Keys == old(nodes.Keys) - {n}
      ensures Fits(old(nodes)) ==> Fits(nodes)
      ensures LeavesKept(old(nodes), nodes)
    {
      hide Valid, Settled, SameMap, Upper, EmptyChild, Thin, Fits, LeavesKept;
      ghost var start := nodes;
      HeadParent(w, n, replacement, ikey, nodes);
      p := nodes[n].parent.value;
      var kp := UpperBound(nodes[p].keys, ikey);
      if replacement.Some? {
        ikey', u := Replace(n, p, kp, replacement.value, ikey, w);
        SpliceFits(start, n, p, kp, replacement.value, nodes);
        SpliceKeepsLeaves(start, n, p, kp, replacement.value, nodes);
      } else {
        ikey', u := Drop(n, p, kp, ikey, w);
      }
    }

    /** `remove_leaf`: an empty leaf leaves the tree, unless it is the first one.  Thin parents
        go with it.  No lookup changes. */
    method RemoveLeaf(leaf: Ref) returns (removed: bool)
      requires Sound() && leaf in nodes && nodes[leaf].Leaf? && nodes[leaf].entries == []
      modifies this
      ensures Sound() && SameMap(old(Shape()), Shape())
      ensures removed == old(nodes[leaf].hasPrev)
      ensures LeavesKept(old(nodes), nodes)
      ensures if removed then leaf !in nodes && nodes.Keys < old(nodes.Keys) else nodes == old(nodes) && root == old(root)
    {
      hide Valid, SameMap, Head, Settled, Fits, Thinned;
      ghost var t := Shape();
      SameMapAtFirst(t);
      assert LeavesKept(nodes, nodes);
      hide LeavesKept;
      if !nodes[leaf].hasPrev {
        return false;
      }
      var ikey, n, replacement := nodes[leaf].bound, leaf, None;
      ghost var w := t;
      HeadAtFirst(t, leaf);
      while true
        invariant Head(w, n, replacement, ikey, nodes) && SameMap(t, w)
        invariant n in nodes && root == w.root && lo == w.lo && hi == w.hi && Fits(nodes) && Below(nodes, free)
        invariant LeavesKept(t.nodes, nodes)
        invariant nodes.Keys <= t.nodes.Keys && (n == leaf || leaf !in nodes)
        decreases nodes.Keys
      {
        ghost var keys, start := nodes.Keys, nodes;
        var p;
        ghost var u;
        p, ikey, u := Detach(n, replacement, ikey, w);
        SameMapJoin(t, w, u);
        LeavesKeptJoin(t.nodes, start, nodes);
        SettledParts(u, p, ikey, nodes);
        if |nodes[p].keys| > (if nodes[p].child[0] == None then 1 else 0) || p == root {
          SettledIsDone(u, p, ikey, nodes);
          return true;
        }
        ghost var before := nodes;
        replacement := nodes[p].child[|nodes[p].keys|];
        nodes := nodes[p := nodes[p].(child := nodes[p].child[|nodes[p].keys| := None])];
        n := p;
        NextHead(u, p, ikey, before, nodes);
        NextFits(before, p, nodes);
        NextKeepsLeaves(before, p, nodes);
        LeavesKeptJoin(t.nodes, before, nodes);
        w := if before == u.nodes then Thinned(u, p) else u;
        SameMapJoin(t, u, w);
      }
    }

    /** `finish_remove`: takes a key out; a leaf left empty is removed. */
    method Remove(k: Ikey, len: nat) returns (found: bool)
      requires Sound() && k < LIMIT
      modifies this
      ensures Sound() && MapWith(old(Shape()), k, len, None, Shape())
      ensures found == old(Value(k, len)).Some?
      ensures Packed(old(nodes), {}) ==> Packed(nodes, {})
    {
      hide Valid, MapWith, SameMap, LeafOk, Fits;
      ghost var t := Shape();
      var leaf := FindLeaf(k);
      ValidNode(t, leaf);
      LeafIsOrdered(t, leaf);
      GetAt(t, leaf, k, len);
      var at;
      at, found := Lower(nodes[leaf].entries, k, len);
      LookupIs(nodes[leaf].entries, k, len, at, found);
      if !found {
        NothingRemoved(t, k, len);
        return;
      }
      var es := nodes[leaf].entries[..at] + nodes[leaf].entries[at + 1..];
      RemoveIsOk(nodes[leaf], lo[leaf], hi[leaf], at);
      nodes := nodes[leaf := nodes[leaf].(entries := es)];
      EntriesReplaced(t, leaf, es);
      LeafChangesMap(t, leaf, es, k, len, None);
      ReplacedFits(t.nodes, leaf, es);
      ghost var s := Shape();
      if es == [] {
        var removed := RemoveLeaf(leaf);
        MapWithBeforeSame(t, k, len, None, s, Shape());
      }
    }
  }

  /** The three cases of `internode::split_into`, copying from the old arrays. */
  method RightHalf(keys: seq<Ikey>, child: seq<Option<Ref>>, kp: nat, ka: Ikey, value: Ref, mid: nat)
    returns (splitIkey: Ikey, rightKeys: seq<Ikey>, rightChild: seq<Option<Ref>>)
    requires |child| == |keys| + 1 && kp <= |keys| && 0 < mid <= |keys|
    ensures splitIkey == AddKey(keys, kp, ka)[mid]
    ensures rightKeys == AddKey(keys, kp, ka)[mid + 1..] && rightChild == AddChild(child, kp, value)[mid + 1..]
  {
    if kp < mid {
      rightChild := [child[mid]] + child[mid + 1..];
      rightKeys := keys[mid..];
      splitIkey := keys[mid - 1];
    } else if kp == mid {
      rightChild := [Some(value)] + child[mid + 1..];
      rightKeys := keys[mid..];
      splitIkey := ka;
    } else {
      rightChild := [child[mid + 1]] + child[mid + 2..kp + 1] + [Some(value)] + child[kp + 1..];
      rightKeys := keys[mid + 1..kp] + [ka] + keys[kp..];
      splitIkey := keys[mid];
    }
  }
}
