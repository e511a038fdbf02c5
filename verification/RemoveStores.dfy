/** What the stores of `remove_leaf` and `redirect` do to the tree, and to its contents.
  Source: masstree_remove.hh. */
module RemoveStores {
  import opened Options
  import opened TreeModel
  import opened LeafEntries
  import opened TreeRemove
  import opened SplitStores

  // ----- contents

  ghost predicate Kept(w: Tree, u: Tree, r: Ref) {
    && r in w.nodes && r in u.nodes && w.nodes[r].Leaf? && u.nodes[r].Leaf? && u.nodes[r].entries == w.nodes[r].entries
    && r in w.lo && r in w.hi && r in u.lo && r in u.hi && u.lo[r] <= w.lo[r] && w.hi[r] <= u.hi[r]
  }

  /** The leaves that hold anything are the same, and serve at least what they did. */
  ghost predicate LeavesMatch(w: Tree, u: Tree) {
    && (forall r :: r in w.nodes && w.nodes[r].Leaf? && w.nodes[r].entries != [] ==> Kept(w, u, r))
    && (forall r :: r in u.nodes && u.nodes[r].Leaf? && u.nodes[r].entries != [] ==> Kept(w, u, r))
  }

  lemma MatchKeepsGet(w: Tree, u: Tree, k: Ikey, len: nat)
    requires Valid(w) && Valid(u) && LeavesMatch(w, u) && k < LIMIT
    ensures Get(u, k, len) == Get(w, k, len)
  {
    hide Valid;
    RootServesAll(w, k);
    RootServesAll(u, k);
    var a, b := Reach(w, w.root, k), Reach(u, u.root, k);
    GetAt(w, a, k, len);
    GetAt(u, b, k, len);
    if w.nodes[a].entries != [] {
      GetAt(u, a, k, len);
    } else if u.nodes[b].entries != [] {
      if Serves(w, b, k) {
        GetAt(w, b, k, len);
      } else {
        ValidNode(w, b);
        LookupMisses(u.nodes[b].entries, k, len);
      }
    }
  }

  lemma MatchKeepsMap(w: Tree, u: Tree)
    requires Valid(w) && Valid(u) && LeavesMatch(w, u)
    ensures SameMap(w, u)
  {
    hide Valid, LeavesMatch;
    forall k: Ikey, len: nat | k < LIMIT
      ensures Get(u, k, len) == Get(w, k, len)
    {
      MatchKeepsGet(w, u, k, len);
    }
  }

  lemma SameMapJoin(t: Tree, u: Tree, v: Tree)
    requires SameMap(t, u) && SameMap(u, v)
    ensures SameMap(t, v)
  {
    hide Valid;
  }

  lemma CollapsedMatches(w: Tree, n: Ref, p: Ref, kp: nat)
    requires Valid(w) && EmptyChild(w, n, p, kp) && NotAlone(w, n, p)
    ensures LeavesMatch(w, Collapsed(w, n, p, kp))
  {
    hide Valid;
    forall r | r in w.nodes && w.nodes[r].Leaf? && r != n
      ensures Kept(w, Collapsed(w, n, p, kp), r)
    {
      CollapsedLeaf(w, n, p, kp, r);
    }
  }

  lemma EmptiedMatches(w: Tree, n: Ref, p: Ref, kp: nat)
    requires Valid(w) && EmptyChild(w, n, p, kp)
    ensures LeavesMatch(w, Emptied(w, n, p))
  {
    hide Valid;
    ValidNode(w, n);
  }

  lemma SplicedMatches(w: Tree, n: Ref, p: Ref, kp: nat, c: Ref)
    requires Valid(w) && Thin(w, n, p, kp, c)
    ensures LeavesMatch(w, Spliced(w, n, p, kp, c))
  {
    hide Valid;
    ValidNode(w, n);
  }

  lemma ThinnedMatches(w: Tree, p: Ref)
    requires Valid(w) && p in w.nodes && w.nodes[p].Inner? && |w.nodes[p].child| == |w.nodes[p].keys| + 1
    ensures LeavesMatch(w, Thinned(w, p))
  {
    hide Valid;
    ValidNode(w, p);
  }

  /** The slices of the removed leaf now belong to the leaf that ended where it started. */
  lemma RangeGoesLeft(w: Tree, n: Ref, p: Ref, kp: nat, k: Ikey)
    requires Valid(w) && EmptyChild(w, n, p, kp) && NotAlone(w, n, p) && w.lo[n] <= k < w.hi[n]
    ensures
      var u := Collapsed(w, n, p, kp);
      && Valid(u) && Serves(u, u.root, k)
      && var left := Reach(u, u.root, k);
      && left in w.nodes && w.nodes[left].Leaf? && left in w.lo && left in w.hi
      && w.hi[left] == w.lo[n] && u.nodes[left] == w.nodes[left]
  {
    hide Valid, ChildOk;
    var u := Collapsed(w, n, p, kp);
    CollapsedIsValid(w, n, p, kp);
    RangeInside(w, n);
    RootServesAll(u, k);
    var left := Reach(u, u.root, k);
    assert left != p && w.nodes[left].Leaf?;
    CollapsedLeaf(w, n, p, kp, left);
    if w.hi[left] != w.lo[n] {
      SameHeightSame(w, left, n, k);
    }
  }

  // ----- which separators are rewritten

  /** A separator `x` in an internode is where one of its children starts. */
  lemma KeyStartsChild(w: Tree, r: Ref, i: nat)
    requires Valid(w) && r in w.nodes && w.nodes[r].Inner? && i < |w.nodes[r].keys|
    ensures |w.nodes[r].child| == |w.nodes[r].keys| + 1 && w.nodes[r].child[i + 1].Some?
    ensures var c := w.nodes[r].child[i + 1].value;
      && c in w.nodes && c in w.lo && c in w.hi && w.lo[c] == w.nodes[r].keys[i] && w.nodes[c].parent == Some(r)
      && Serves(w, r, w.lo[c]) && Serves(w, c, w.lo[c])
      && Upper(w.nodes[r].keys, w.lo[c]) == i + 1
  {
    hide Valid;
    ValidNode(w, r);
    assert ChildOk(w, w.hi, r, i + 1);
    ValidNode(w, w.nodes[r].child[i + 1].value);
    UpperIs(w.nodes[r].keys, w.nodes[r].keys[i], i + 1);
  }

  /** Between a node and its parent nobody else has the node's lower bound as a separator. */
  lemma NoKeyBetween(w: Tree, m: Ref, q: Ref, r: Ref)
    requires Valid(w) && m in w.nodes && m in w.lo && m in w.hi && m != w.root && w.nodes[m].parent == Some(q)
    requires r in w.nodes && w.nodes[r].Inner? && r != q && q in w.nodes
    requires w.nodes[m].Height() < w.nodes[r].Height() <= w.nodes[q].Height()
    ensures w.lo[m] !in w.nodes[r].keys
  {
    hide Valid, Upper;
    var x := w.lo[m];
    RangeInside(w, m);
    ParentServes(w, m, x);
    forall i | 0 <= i < |w.nodes[r].keys|
      ensures w.nodes[r].keys[i] != x
    {
      KeyStartsChild(w, r, i);
      if w.nodes[r].keys[i] == x {
        if w.nodes[r].Height() < w.nodes[q].Height() {
          LowerIsInside(w, r, q, x);
        } else {
          SameHeightSame(w, r, q, x);
        }
      }
    }
  }

  /** Nobody above a node that starts before `x` and serves it has `x` as a separator. */
  lemma NoKeyAbove(w: Tree, m: Ref, x: Ikey, r: Ref)
    requires Valid(w) && Serves(w, m, x) && w.lo[m] < x
    requires r in w.nodes && w.nodes[r].Inner? && w.nodes[m].Height() < w.nodes[r].Height()
    ensures x !in w.nodes[r].keys
  {
    hide Valid, Upper;
    forall i | 0 <= i < |w.nodes[r].keys|
      ensures w.nodes[r].keys[i] != x
    {
      KeyStartsChild(w, r, i);
      if w.nodes[r].keys[i] == x {
        LowerIsInside(w, m, r, x);
      }
    }
  }

  /** Nor does anybody else at or below the parent, or at all if the parent starts earlier. */
  lemma NoKeyElsewhere(w: Tree, n: Ref, p: Ref, kp: nat, r: Ref)
    requires Valid(w) && EmptyChild(w, n, p, kp) && r in w.nodes && w.nodes[r].Inner? && r != p
    requires w.lo[p] < w.lo[n] || w.nodes[r].level <= w.nodes[p].level
    ensures w.lo[n] !in w.nodes[r].keys
  {
    hide Valid, Upper;
    forall i | 0 <= i < |w.nodes[r].keys|
      ensures w.nodes[r].keys[i] != w.lo[n]
    {
      KeyStartsChild(w, r, i);
      if w.nodes[r].keys[i] == w.lo[n] {
        var c := w.nodes[r].child[i + 1].value;
        OthersAreAbove(w, n, p, kp, r);
        OthersAreAbove(w, n, p, kp, c);
      }
    }
  }

  lemma MovedIsSame(q: Node, x: nat, y: nat)
    requires q.Inner? ==> x !in q.keys || x == y
    ensures MovedNode(q, x, y) == q
  {
    if q.Inner? {
      assert forall i :: 0 <= i < |q.keys| ==> Moved(q.keys[i], x, y) == q.keys[i];
      assert MovedKeys(q.keys, x, y) == q.keys;
    }
  }

  /** Writing the one separator is moving all of them. */
  lemma MovedIsOneStore(keys: seq<Ikey>, i: nat, x: Ikey, y: Ikey)
    requires Sorted(keys) && i < |keys| && keys[i] == x
    ensures MovedKeys(keys, x, y) == keys[i := y]
  {
  }

  /** Memory after `redirect` from `p`: the bound is rewritten in all nodes above `p`. */
  ghost predicate Redirected(before: map<Ref, Node>, w: Tree, p: Ref, x: Ikey, y: Ikey, after: map<Ref, Node>)
    requires p in w.nodes
  {
    && after.Keys == before.Keys
    && forall r :: r in before ==>
         after[r] == if r in w.nodes && w.nodes[p].Height() < w.nodes[r].Height() then MovedNode(w.nodes[r], x, y) else before[r]
  }

  /** Memory `nodes` is tree `w`, but for the dead node `n` that is still in it. */
  ghost predicate Memory(w: Tree, n: Ref, nodes: map<Ref, Node>) {
    && n in w.nodes && nodes.Keys == w.nodes.Keys && nodes[n].parent == w.nodes[n].parent
    && forall r :: r in nodes && r != n ==> nodes[r] == w.nodes[r]
  }

  /** The dead leaf is gone from memory, and its parent has lost the child. */
  ghost predicate Dropped(w: Tree, n: Ref, p: Ref, kp: nat, nodes: map<Ref, Node>)
    requires EmptyChild(w, n, p, kp)
  {
    && nodes.Keys == w.nodes.Keys - {n} && p in nodes && nodes[p] == WithoutChild(w.nodes[p], kp)
    && forall r :: r in nodes && r != p ==> nodes[r] == w.nodes[r]
  }

  lemma CollapsedWithoutRedirect(w: Tree, n: Ref, p: Ref, kp: nat, nodes: map<Ref, Node>)
    requires Valid(w) && EmptyChild(w, n, p, kp) && w.lo[p] < w.lo[n] && Dropped(w, n, p, kp, nodes)
    ensures nodes == Collapsed(w, n, p, kp).nodes
  {
    hide Valid, WithoutChild, MovedNode;
    forall r | r in w.nodes && r != p
      ensures MovedNode(w.nodes[r], w.lo[n], w.hi[n]) == w.nodes[r]
    {
      if w.nodes[r].Inner? {
        NoKeyElsewhere(w, n, p, kp, r);
      }
      MovedIsSame(w.nodes[r], w.lo[n], w.hi[n]);
    }
  }

  lemma CollapsedByRedirect(w: Tree, n: Ref, p: Ref, kp: nat, before: map<Ref, Node>, nodes: map<Ref, Node>)
    requires Valid(w) && EmptyChild(w, n, p, kp) && Dropped(w, n, p, kp, before)
    requires Redirected(before, w, p, w.lo[n], w.hi[n], nodes)
    ensures nodes == Collapsed(w, n, p, kp).nodes
  {
    hide Valid, WithoutChild, MovedNode;
    forall r | r in w.nodes && r != p && w.nodes[r].Height() <= w.nodes[p].Height()
      ensures MovedNode(w.nodes[r], w.lo[n], w.hi[n]) == w.nodes[r]
    {
      if w.nodes[r].Inner? {
        NoKeyElsewhere(w, n, p, kp, r);
      }
      MovedIsSame(w.nodes[r], w.lo[n], w.hi[n]);
    }
  }

  lemma EmptiedMemory(w: Tree, n: Ref, p: Ref, kp: nat, nodes: map<Ref, Node>)
    requires EmptyChild(w, n, p, kp) && Dropped(w, n, p, kp, nodes) && p != n
    ensures Memory(Emptied(w, n, p), p, nodes)
  {
  }

  /** When the parent is redirected: its first child is null and a key is left. */
  lemma WhenRedirected(w: Tree, n: Ref, p: Ref, kp: nat)
    requires Valid(w) && EmptyChild(w, n, p, kp)
    ensures
      var q := WithoutChild(w.nodes[p], kp);
      && (kp <= 1 && q.keys != [] && q.child[0] == None <==> w.lo[p] == w.lo[n] && w.hi[n] < w.hi[p])
      && (w.lo[p] == w.lo[n] && w.hi[n] < w.hi[p] ==> q.keys[0] == w.hi[n])
      && (w.lo[p] == w.lo[n] && w.hi[n] == w.hi[p] ==> q.keys == [] && q.child == [None] && p != w.root)
  {
    hide Valid;
    ValidNode(w, p);
    ValidNode(w, w.root);
  }

  // ----- the loop of `redirect`

  /** The bound has been rewritten in the nodes above `p` that are no taller than `m`. */
  ghost predicate RedirectedTo(before: map<Ref, Node>, w: Tree, p: Ref, m: Ref, x: Ikey, y: Ikey, after: map<Ref, Node>)
    requires p in w.nodes && m in w.nodes
  {
    && after.Keys == before.Keys
    && forall r :: r in before ==>
         after[r] == if r in w.nodes && w.nodes[p].Height() < w.nodes[r].Height() <= w.nodes[m].Height()
                     then MovedNode(w.nodes[r], x, y) else before[r]
  }

  /** One step up: the separator before the child is the bound, if there is one, and the
      parent starts at the bound itself exactly when the loop goes on. */
  lemma RedirectStep(w: Tree, m: Ref, ikey: Ikey, y: Ikey)
    requires Valid(w) && Serves(w, m, ikey) && w.lo[m] != 0
    ensures m != w.root && w.nodes[m].parent.Some? && w.nodes[m].parent.value in w.nodes
    ensures w.nodes[w.nodes[m].parent.value].Inner?
    ensures
      var q := w.nodes[m].parent.value;
      var keys, child, kp, x := w.nodes[q].keys, w.nodes[q].child, Upper(w.nodes[q].keys, ikey), w.lo[m];
      && w.nodes[q].Inner? && Serves(w, q, ikey) && Serves(w, q, x) && w.nodes[m].Height() < w.nodes[q].Height()
      && Sorted(keys) && child != []
      && MovedNode(w.nodes[q], x, y) == w.nodes[q].(keys := if kp > 0 then keys[kp - 1 := y] else keys)
      && w.lo[q] <= x && (w.lo[q] == x <==> kp == 0 || (kp == 1 && child[0] == None))
  {
    hide Valid;
    ValidNode(w, m);
    ValidNode(w, w.root);
    ParentServes(w, m, ikey);
    var q, x := w.nodes[m].parent.value, w.lo[m];
    var keys, kp := w.nodes[q].keys, Upper(w.nodes[q].keys, ikey);
    ValidNode(w, q);
    assert ChildOk(w, w.hi, q, kp);
    if kp > 0 {
      MovedIsOneStore(keys, kp - 1, x, y);
    } else {
      MovedIsSame(w.nodes[q], x, y);
    }
  }

  /** Nodes of heights between a node and its parent do not know the bound. */
  lemma RedirectSkips(before: map<Ref, Node>, w: Tree, p: Ref, m: Ref, q: Ref, x: Ikey, y: Ikey,
                      at: map<Ref, Node>, after: map<Ref, Node>)
    requires Valid(w) && p in w.nodes && m in w.nodes && m in w.lo && m in w.hi && w.lo[m] == x && m != w.root
    requires q in w.nodes && w.nodes[m].parent == Some(q) && w.nodes[p].Height() <= w.nodes[m].Height() < w.nodes[q].Height()
    requires RedirectedTo(before, w, p, m, x, y, at) && before.Keys <= w.nodes.Keys
    requires forall r :: r in w.nodes && w.nodes[p].Height() < w.nodes[r].Height() ==> r in before && before[r] == w.nodes[r]
    requires after == at[q := MovedNode(w.nodes[q], x, y)]
    ensures RedirectedTo(before, w, p, q, x, y, after)
  {
    hide Valid, MovedNode;
    forall r | r in w.nodes && r != q && w.nodes[m].Height() < w.nodes[r].Height() <= w.nodes[q].Height()
      ensures MovedNode(w.nodes[r], x, y) == w.nodes[r]
    {
      if w.nodes[r].Inner? {
        NoKeyBetween(w, m, q, r);
      }
      MovedIsSame(w.nodes[r], x, y);
    }
  }

  /** Above the node where the loop stops nobody knows the bound. */
  lemma RedirectStops(before: map<Ref, Node>, w: Tree, p: Ref, m: Ref, x: Ikey, y: Ikey, after: map<Ref, Node>)
    requires Valid(w) && p in w.nodes && Serves(w, m, x) && w.lo[m] < x && w.nodes[p].Height() <= w.nodes[m].Height()
    requires RedirectedTo(before, w, p, m, x, y, after) && before.Keys <= w.nodes.Keys
    requires forall r :: r in w.nodes && w.nodes[p].Height() < w.nodes[r].Height() ==> r in before && before[r] == w.nodes[r]
    ensures Redirected(before, w, p, x, y, after)
  {
    hide Valid, MovedNode;
    forall r | r in w.nodes && w.nodes[m].Height() < w.nodes[r].Height()
      ensures MovedNode(w.nodes[r], x, y) == w.nodes[r]
    {
      if w.nodes[r].Inner? {
        NoKeyAbove(w, m, x, r);
      }
      MovedIsSame(w.nodes[r], x, y);
    }
  }

  lemma NothingRedirected(before: map<Ref, Node>, w: Tree, p: Ref, x: Ikey, y: Ikey)
    requires p in w.nodes
    ensures RedirectedTo(before, w, p, p, x, y, before)
  {
  }

  lemma NotYetRedirected(before: map<Ref, Node>, w: Tree, p: Ref, m: Ref, q: Ref, x: Ikey, y: Ikey, at: map<Ref, Node>)
    requires p in w.nodes && m in w.nodes && q in w.nodes && w.nodes[p].Height() <= w.nodes[m].Height() < w.nodes[q].Height()
    requires RedirectedTo(before, w, p, m, x, y, at) && before.Keys <= w.nodes.Keys
    requires forall r :: r in w.nodes && w.nodes[p].Height() < w.nodes[r].Height() ==> r in before && before[r] == w.nodes[r]
    ensures q in at && at[q] == w.nodes[q]
  {
  }

  // ----- the loop of `remove_leaf`

  /** At the head of the loop: node `n` is to go, with `replacement` in its place.  The tree
      `w` is what memory would be if `n` were an empty leaf, or led to the replacement only. */
  ghost predicate Head(w: Tree, n: Ref, replacement: Option<Ref>, ikey: Ikey, nodes: map<Ref, Node>) {
    && Valid(w) && Memory(w, n, nodes) && n != w.root && Serves(w, n, ikey)
    && if replacement == None then w.nodes[n].Leaf? && w.nodes[n].entries == [] && ikey == w.lo[n] && ikey != 0
       else w.nodes[n].Inner? && w.nodes[n].keys == [] && w.nodes[n].child == [replacement]
  }

  /** After the stores for `n`: either the tree is in order again, or its parent `p` is left
      with nothing at all. */
  ghost predicate Settled(u: Tree, p: Ref, ikey: Ikey, nodes: map<Ref, Node>) {
    && Valid(u) && p in u.nodes && p in nodes && Serves(u, p, ikey)
    && nodes[p].Inner? && |nodes[p].child| == |nodes[p].keys| + 1
    && (nodes == u.nodes ||
        (&& Head(u, p, None, ikey, nodes) && nodes[p].keys == [] && nodes[p].child == [None]))
  }

  lemma HeadParent(w: Tree, n: Ref, replacement: Option<Ref>, ikey: Ikey, nodes: map<Ref, Node>)
    requires Head(w, n, replacement, ikey, nodes)
    ensures nodes[n].parent.Some?
    ensures
      var p := nodes[n].parent.value;
      && p in nodes && p != n && p in w.nodes && nodes[p] == w.nodes[p] && nodes[p].Inner?
      && Sorted(nodes[p].keys) && |nodes[p].child| == |nodes[p].keys| + 1
      && var kp := Upper(nodes[p].keys, ikey);
      && nodes[p].child[kp] == Some(n) && p in w.lo && p in w.hi
      && w.lo[p] <= w.lo[n] && w.hi[n] <= w.hi[p] && Serves(w, p, ikey)
      && (replacement == None ==> EmptyChild(w, n, p, kp))
      && (replacement.Some? ==> Thin(w, n, p, kp, replacement.value))
  {
    hide Valid;
    ValidNode(w, n);
    ParentServes(w, n, ikey);
    var p := nodes[n].parent.value;
    ValidNode(w, p);
    var kp := Upper(nodes[p].keys, ikey);
    assert ChildOk(w, w.hi, p, kp);
    if replacement.Some? {
      assert ChildOk(w, w.hi, n, 0);
    }
  }

  /** Without a redirect: the parent starts before the leaf. */
  lemma SettledWithoutRedirect(w: Tree, n: Ref, p: Ref, kp: nat, nodes: map<Ref, Node>)
    requires Valid(w) && EmptyChild(w, n, p, kp) && w.lo[p] < w.lo[n] && Dropped(w, n, p, kp, nodes)
    ensures Settled(Collapsed(w, n, p, kp), p, w.lo[n], nodes) && SameMap(w, Collapsed(w, n, p, kp))
  {
    hide Valid, SameMap, LeavesMatch, Dropped, Head;
    CollapsedIsValid(w, n, p, kp);
    CollapsedMatches(w, n, p, kp);
    MatchKeepsMap(w, Collapsed(w, n, p, kp));
    CollapsedWithoutRedirect(w, n, p, kp, nodes);
    ValidNode(w, n);
    CollapsedServes(w, n, p, kp, w.lo[n]);
  }

  lemma CollapsedServes(w: Tree, n: Ref, p: Ref, kp: nat, k: Ikey)
    requires EmptyChild(w, n, p, kp) && p != n
    requires Moved(w.lo[p], w.lo[n], w.hi[n]) <= k < w.hi[p]
    ensures Serves(Collapsed(w, n, p, kp), p, k)
    ensures Collapsed(w, n, p, kp).nodes[p] == WithoutChild(w.nodes[p], kp)
  {
  }

  lemma SettledByRedirect(w: Tree, n: Ref, p: Ref, kp: nat, before: map<Ref, Node>, nodes: map<Ref, Node>)
    requires Valid(w) && EmptyChild(w, n, p, kp) && w.lo[p] == w.lo[n] && w.hi[n] < w.hi[p] && Dropped(w, n, p, kp, before)
    requires Redirected(before, w, p, w.lo[n], w.hi[n], nodes)
    ensures Settled(Collapsed(w, n, p, kp), p, w.hi[n], nodes) && SameMap(w, Collapsed(w, n, p, kp))
  {
    hide Valid, SameMap, LeavesMatch, Dropped, Head, Redirected;
    CollapsedIsValid(w, n, p, kp);
    CollapsedMatches(w, n, p, kp);
    MatchKeepsMap(w, Collapsed(w, n, p, kp));
    CollapsedByRedirect(w, n, p, kp, before, nodes);
    ValidNode(w, n);
    CollapsedServes(w, n, p, kp, w.hi[n]);
  }

  lemma SettledEmpty(w: Tree, n: Ref, p: Ref, kp: nat, nodes: map<Ref, Node>)
    requires Valid(w) && EmptyChild(w, n, p, kp) && w.lo[p] == w.lo[n] && w.hi[n] == w.hi[p] && p != n
    requires Dropped(w, n, p, kp, nodes)
    ensures Settled(Emptied(w, n, p), p, w.lo[n], nodes) && SameMap(w, Emptied(w, n, p))
  {
    hide Valid, SameMap, LeavesMatch;
    EmptiedIsValid(w, n, p, kp);
    EmptiedMatches(w, n, p, kp);
    MatchKeepsMap(w, Emptied(w, n, p));
    EmptiedMemory(w, n, p, kp, nodes);
    WhenRedirected(w, n, p, kp);
  }

  /** Memory with the replacement in the place of the thin node. */
  ghost function SplicedNodes(nodes: map<Ref, Node>, n: Ref, p: Ref, kp: nat, c: Ref): map<Ref, Node>
    requires p in nodes && c in nodes && nodes[p].Inner? && kp < |nodes[p].child|
  {
    var linked := nodes[p := nodes[p].(child := nodes[p].child[kp := Some(c)])];
    linked[c := linked[c].(parent := Some(p))]
  }

  lemma SettledBySplice(w: Tree, n: Ref, p: Ref, kp: nat, c: Ref, ikey: Ikey, nodes: map<Ref, Node>)
    requires Valid(w) && Thin(w, n, p, kp, c) && Memory(w, n, nodes) && p != n && Serves(w, p, ikey)
    ensures c in nodes && p in nodes && nodes[p].Inner? && kp < |nodes[p].child|
    ensures SplicedNodes(nodes, n, p, kp, c) - {n} == Spliced(w, n, p, kp, c).nodes
    ensures Settled(Spliced(w, n, p, kp, c), p, ikey, SplicedNodes(nodes, n, p, kp, c) - {n})
    ensures SameMap(w, Spliced(w, n, p, kp, c))
  {
    hide Valid, SameMap, LeavesMatch, Head;
    ThinChild(w, n, p, kp, c);
    SplicedIsValid(w, n, p, kp, c);
    SplicedMatches(w, n, p, kp, c);
    MatchKeepsMap(w, Spliced(w, n, p, kp, c));
  }

  /** When the replacement stands beside a null child, redirecting changes nothing. */
  lemma RedirectIsIdle(u: Tree, p: Ref, nodes: map<Ref, Node>)
    requires p in u.nodes && p in u.lo && Redirected(u.nodes, u, p, u.lo[p], u.lo[p], nodes)
    ensures nodes == u.nodes
  {
    forall r | r in u.nodes
      ensures nodes[r] == u.nodes[r]
    {
      MovedIsSame(u.nodes[r], u.lo[p], u.lo[p]);
    }
  }

  lemma NullChildStarts(u: Tree, p: Ref)
    requires Valid(u) && p in u.nodes && u.nodes[p].Inner? && u.nodes[p].keys != [] && u.nodes[p].child != []
    requires u.nodes[p].child[0] == None
    ensures p in u.lo && u.lo[p] == u.nodes[p].keys[0] && u.lo[p] != 0 && Serves(u, p, u.lo[p])
  {
    ValidNode(u, p);
  }

  /** A thin parent is the next node to go. */
  lemma NextHead(u: Tree, p: Ref, ikey: Ikey, nodes: map<Ref, Node>, after: map<Ref, Node>)
    requires Settled(u, p, ikey, nodes) && p != u.root
    requires |nodes[p].keys| <= (if nodes[p].child[0] == None then 1 else 0)
    requires after == nodes[p := nodes[p].(child := nodes[p].child[|nodes[p].keys| := None])]
    ensures
      var w := if nodes == u.nodes then Thinned(u, p) else u;
      Head(w, p, nodes[p].child[|nodes[p].keys|], ikey, after) && SameMap(u, w)
      && w.root == u.root && w.lo == u.lo && w.hi == u.hi
  {
    hide Valid, SameMap, LeavesMatch;
    if nodes == u.nodes {
      ThinnedIsValid(u, p);
      ThinnedMatches(u, p);
      MatchKeepsMap(u, Thinned(u, p));
    } else {
      SameMapAtFirst(u);
    }
  }

  lemma SameMapAtFirst(u: Tree)
    requires Valid(u)
    ensures SameMap(u, u)
  {
  }

  lemma SplicedRoot(w: Tree, n: Ref, p: Ref, kp: nat, c: Ref)
    requires Thin(w, n, p, kp, c)
    ensures Spliced(w, n, p, kp, c).root == w.root
  {
  }

  lemma SettledParts(u: Tree, p: Ref, ikey: Ikey, nodes: map<Ref, Node>)
    requires Settled(u, p, ikey, nodes)
    ensures Valid(u) && p in u.nodes && p in nodes && Serves(u, p, ikey)
    ensures nodes[p].Inner? && |nodes[p].child| == |nodes[p].keys| + 1
  {
  }

  lemma SettledAlso(u: Tree, p: Ref, ikey: Ikey, ikey': Ikey, nodes: map<Ref, Node>)
    requires Settled(u, p, ikey, nodes) && nodes == u.nodes && Serves(u, p, ikey')
    ensures Settled(u, p, ikey', nodes)
  {
  }

  /** No leaf is new, and the entries of those that are left are as before. */
  ghost predicate LeavesKept(before: map<Ref, Node>, after: map<Ref, Node>) {
    forall r :: r in after && after[r].Leaf? ==>
      r in before && before[r].Leaf? && after[r].entries == before[r].entries && after[r].hasPrev == before[r].hasPrev
  }

  lemma LeavesKeptJoin(a: map<Ref, Node>, b: map<Ref, Node>, c: map<Ref, Node>)
    requires LeavesKept(a, b) && LeavesKept(b, c)
    ensures LeavesKept(a, c)
  {
  }

  lemma DropKeepsLeaves(w: Tree, n: Ref, p: Ref, kp: nat, start: map<Ref, Node>, before: map<Ref, Node>, nodes: map<Ref, Node>)
    requires EmptyChild(w, n, p, kp) && Memory(w, n, start) && p != n && Dropped(w, n, p, kp, before)
    requires nodes == before || Redirected(before, w, p, w.lo[n], w.hi[n], nodes)
    ensures LeavesKept(start, nodes)
  {
    forall r | r in nodes && nodes[r].Leaf?
      ensures r in start && start[r].Leaf? && nodes[r].entries == start[r].entries && nodes[r].hasPrev == start[r].hasPrev
    {
      assert r in start && (r != p ==> w.nodes[r] == start[r]);
    }
  }

  lemma SpliceKeepsLeaves(start: map<Ref, Node>, n: Ref, p: Ref, kp: nat, c: Ref, nodes: map<Ref, Node>)
    requires p in start && c in start && start[p].Inner? && kp < |start[p].child| && p != n
    requires n in start && nodes == SplicedNodes(start, n, p, kp, c) - {n}
    ensures LeavesKept(start, nodes)
  {
  }

  lemma NextKeepsLeaves(before: map<Ref, Node>, p: Ref, nodes: map<Ref, Node>)
    requires p in before && before[p].Inner? && |before[p].child| == |before[p].keys| + 1
    requires nodes == before[p := before[p].(child := before[p].child[|before[p].keys| := None])]
    ensures LeavesKept(before, nodes)
  {
  }

  lemma DropFits(w: Tree, n: Ref, p: Ref, kp: nat, start: map<Ref, Node>, before: map<Ref, Node>, nodes: map<Ref, Node>)
    requires EmptyChild(w, n, p, kp) && Memory(w, n, start) && p != n && Dropped(w, n, p, kp, before)
    requires nodes == before || Redirected(before, w, p, w.lo[n], w.hi[n], nodes)
    ensures Fits(start) ==> Fits(nodes)
  {
    if Fits(start) {
      forall r | r in nodes
        ensures if nodes[r].Leaf? then |nodes[r].entries| <= WIDTH else |nodes[r].keys| <= INTERNODE_WIDTH
      {
        assert r in start && (r != p ==> w.nodes[r] == start[r]);
      }
    }
  }

  lemma SpliceFits(start: map<Ref, Node>, n: Ref, p: Ref, kp: nat, c: Ref, nodes: map<Ref, Node>)
    requires p in start && c in start && start[p].Inner? && kp < |start[p].child| && p != n
    requires n in start && nodes == SplicedNodes(start, n, p, kp, c) - {n}
    ensures nodes.Keys == start.Keys - {n} && (Fits(start) ==> Fits(nodes))
  {
  }

  lemma HeadAtFirst(t: Tree, leaf: Ref)
    requires Valid(t) && leaf in t.nodes && t.nodes[leaf].Leaf? && t.nodes[leaf].entries == [] && t.nodes[leaf].hasPrev
    ensures Head(t, leaf, None, t.nodes[leaf].bound, t.nodes)
  {
    hide Valid;
    ValidNode(t, leaf);
    ValidNode(t, t.root);
  }

  /** A parent with something left, or the root, is in order. */
  lemma SettledIsDone(u: Tree, p: Ref, ikey: Ikey, nodes: map<Ref, Node>)
    requires Settled(u, p, ikey, nodes)
    requires |nodes[p].keys| > (if nodes[p].child[0] == None then 1 else 0) || p == u.root
    ensures nodes == u.nodes
  {
  }

  lemma NextFits(before: map<Ref, Node>, p: Ref, nodes: map<Ref, Node>)
    requires Fits(before) && p in before && before[p].Inner? && |before[p].child| == |before[p].keys| + 1
    requires nodes == before[p := before[p].(child := before[p].child[|before[p].keys| := None])]
    ensures Fits(nodes)
  {
  }

  lemma ReplacedFits(nodes: map<Ref, Node>, leaf: Ref, es: seq<Entry>)
    requires leaf in nodes && nodes[leaf].Leaf? && |es| <= |nodes[leaf].entries|
    ensures Fits(nodes) ==> Fits(nodes[leaf := nodes[leaf].(entries := es)])
  {
  }

  lemma NothingRemoved(t: Tree, k: Ikey, len: nat)
    requires Valid(t) && k < LIMIT && Get(t, k, len) == None
    ensures MapWith(t, k, len, None, t)
  {
    hide Valid;
  }

  lemma MapWithBeforeSame(t: Tree, k0: Ikey, len0: nat, v: Option<Content>, s: Tree, u: Tree)
    requires MapWith(t, k0, len0, v, s) && SameMap(s, u)
    ensures MapWith(t, k0, len0, v, u)
  {
    hide Valid;
  }
}
