/** Splitting a full leaf and carrying the split up the tree.
  Source: masstree_split.hh. */
module TreeSplit {
  import opened Options
  import opened TreeModel

  // ----- a tree in the middle of a split

  /** What parents still believe: `n` reaches as far as its new sibling `c` does. */
  ghost function View(t: Tree, n: Ref, c: Ref): map<Ref, nat>
    requires c in t.hi
  {
    t.hi[n := t.hi[c]]
  }

  ghost predicate Halves(t: Tree, n: Ref, c: Ref, x: Ikey) {
    && n in t.nodes && c in t.nodes && n != c && c != t.root
    && n in t.lo && n in t.hi && c in t.lo && c in t.hi
    && t.hi[n] == x == t.lo[c] && t.lo[n] < x < t.hi[c]
    && t.nodes[c].parent == None
    && t.nodes[c].Height() == t.nodes[n].Height()
  }

  /** `n` has been cut at `x`; its right part `c` is not yet known to any parent. */
  ghost predicate Pending(t: Tree, n: Ref, c: Ref, x: Ikey) {
    && Halves(t, n, c, x)
    && Domains(t, View(t, n, c))
    && (forall r {:trigger NodeOk(t, View(t, n, c), r)} :: r in t.nodes ==> NodeOk(t, View(t, n, c), r))
    && (forall r {:trigger ParentOk(t, View(t, n, c), r)} :: r in t.nodes && r != c ==> ParentOk(t, View(t, n, c), r))
  }

  /** The parent of `n` sends `x` to `n`. */
  lemma PendingParent(t: Tree, n: Ref, c: Ref, x: Ikey)
    requires Pending(t, n, c, x)
    ensures n == t.root <==> t.nodes[n].parent == None
    ensures n == t.root ==> t.lo[n] == 0 && t.hi[c] == LIMIT
    ensures n != t.root ==>
      var q := t.nodes[n].parent.value;
      && q in t.nodes && t.nodes[q].Inner? && q != n && q != c && t.nodes[n].Height() < t.nodes[q].level
      && |t.nodes[q].child| == |t.nodes[q].keys| + 1
      && t.nodes[q].child[Upper(t.nodes[q].keys, x)] == Some(n)
  {
    assert ParentOk(t, View(t, n, c), n);
    if n != t.root {
      var q := t.nodes[n].parent.value;
      assert NodeOk(t, View(t, n, c), q);
      var i :| 0 <= i < |t.nodes[q].child| && t.nodes[q].child[i] == Some(n);
      assert ChildOk(t, View(t, n, c), q, i);
      UpperIs(t.nodes[q].keys, x, i);
    }
  }

  // ----- a new level, or a missing one

  /** `u` is `t` with a new internode `nn` in the place of `n`, above `n` and `c`. */
  ghost predicate Raised(t: Tree, n: Ref, c: Ref, x: Ikey, nn: Ref, u: Tree) {
    && n in t.nodes && c in t.nodes && n in t.lo && c in t.hi
    && nn !in t.nodes
    && u.nodes.Keys == t.nodes.Keys + {nn}
    && u.lo == t.lo[nn := t.lo[n]] && u.hi == t.hi[nn := t.hi[c]]
    && u.nodes[nn] == Inner(t.nodes[n].parent, t.nodes[n].Height() + 1, [x], [Some(n), Some(c)])
    && u.nodes[n] == t.nodes[n].(parent := Some(nn)) && u.nodes[c] == t.nodes[c].(parent := Some(nn))
    && (forall r :: r in t.nodes && r != n && r != c && Some(r) != t.nodes[n].parent ==> u.nodes[r] == t.nodes[r])
    && if t.nodes[n].parent == None then u.root == nn else
      && u.root == t.root
      && var p := t.nodes[n].parent.value;
      && p in t.nodes && t.nodes[p].Inner? && t.nodes[p].level > t.nodes[n].Height() + 1
      && |t.nodes[p].child| == |t.nodes[p].keys| + 1
      && u.nodes[p] == t.nodes[p].(child := t.nodes[p].child[Upper(t.nodes[p].keys, x) := Some(nn)])
  }

  lemma RaisedNew(t: Tree, n: Ref, c: Ref, x: Ikey, nn: Ref, u: Tree)
    requires Halves(t, n, c, x) && t.hi[c] <= LIMIT && Raised(t, n, c, x, nn, u)
    ensures nn in u.lo && nn in u.hi && NodeOk(u, u.hi, nn)
  {
    var kids := u.nodes[nn].child;
    assert kids[0].value == n && kids[1].value == c;
    assert u.nodes[n].Height() == t.nodes[n].Height() && u.nodes[c].Height() == t.nodes[c].Height();
    assert ChildOk(u, u.hi, nn, 0);
    assert ChildOk(u, u.hi, nn, 1);
  }

  lemma RaisedParent(t: Tree, n: Ref, c: Ref, x: Ikey, nn: Ref, u: Tree)
    requires Pending(t, n, c, x) && Raised(t, n, c, x, nn, u) && n != t.root
    ensures t.nodes[n].parent.Some? && NodeOk(u, u.hi, t.nodes[n].parent.value)
  {
    hide Pending, Upper;
    PendingParent(t, n, c, x);
    var q, view := t.nodes[n].parent.value, View(t, n, c);
    assert NodeOk(t, view, q) && NodeOk(t, view, n) by { PendingNode(t, n, c, x, q); PendingNode(t, n, c, x, n); }
    var kp := Upper(t.nodes[q].keys, x);
    assert ChildOk(t, view, q, kp);
    forall i | 0 <= i < |u.nodes[q].child| && u.nodes[q].child[i].Some?
      ensures ChildOk(u, u.hi, q, i)
    {
      if t.nodes[q].child[i] == Some(n) {
        OnePlace(t, view, q, n, kp, i);
      }
      if i != kp {
        assert ChildOk(t, view, q, i);
      }
    }
  }

  lemma PendingHalves(t: Tree, n: Ref, c: Ref, x: Ikey)
    requires Pending(t, n, c, x)
    ensures Halves(t, n, c, x) && t.hi[c] <= LIMIT && Domains(t, View(t, n, c))
  {
    assert NodeOk(t, View(t, n, c), c);
  }

  lemma PendingNode(t: Tree, n: Ref, c: Ref, x: Ikey, r: Ref)
    requires Pending(t, n, c, x) && r in t.nodes
    ensures Domains(t, View(t, n, c)) && NodeOk(t, View(t, n, c), r)
    ensures r != c ==> ParentOk(t, View(t, n, c), r)
  {
  }

  lemma RaisedNode(t: Tree, n: Ref, c: Ref, x: Ikey, nn: Ref, u: Tree, r: Ref)
    requires Pending(t, n, c, x) && Raised(t, n, c, x, nn, u) && r in u.nodes
    ensures Domains(u, u.hi) && NodeOk(u, u.hi, r)
  {
    hide Pending, NodeOk, Upper;
    PendingHalves(t, n, c, x);
    PendingParent(t, n, c, x);
    if r == nn {
      RaisedNew(t, n, c, x, nn, u);
    } else if Some(r) == t.nodes[n].parent {
      RaisedParent(t, n, c, x, nn, u);
    } else {
      PendingNode(t, n, c, x, r);
      NodeKept(t, View(t, n, c), u, u.hi, r);
    }
  }

  lemma RaisedPointsUp(t: Tree, n: Ref, c: Ref, x: Ikey, nn: Ref, u: Tree, r: Ref)
    requires Pending(t, n, c, x) && Raised(t, n, c, x, nn, u) && r in u.nodes
    ensures Domains(u, u.hi) && ParentOk(u, u.hi, r)
  {
    hide Pending, NodeOk, Upper, ParentOk;
    PendingHalves(t, n, c, x);
    PendingParent(t, n, c, x);
    if r == nn || r == n || r == c {
      RaisedThree(t, n, c, x, nn, u, r);
    } else {
      PendingNode(t, n, c, x, r);
      forall q | q in t.nodes && t.nodes[r].parent == Some(q) && t.nodes[q].Inner? && Some(r) in t.nodes[q].child
        ensures q in u.nodes && u.nodes[q].Inner? && Some(r) in u.nodes[q].child
      {
        var i :| 0 <= i < |t.nodes[q].child| && t.nodes[q].child[i] == Some(r);
        assert u.nodes[q].child[i] == Some(r);
      }
      ParentKept(t, View(t, n, c), u, u.hi, r);
    }
  }

  lemma RaisedThree(t: Tree, n: Ref, c: Ref, x: Ikey, nn: Ref, u: Tree, r: Ref)
    requires Pending(t, n, c, x) && Raised(t, n, c, x, nn, u) && r in {nn, n, c}
    ensures r in u.nodes && r in u.lo && r in u.hi && ParentOk(u, u.hi, r)
  {
    hide Pending, NodeOk, Upper;
    PendingHalves(t, n, c, x);
    PendingParent(t, n, c, x);
    if r == nn {
      if n != t.root {
        var q := t.nodes[n].parent.value;
        assert u.nodes[q].child[Upper(t.nodes[q].keys, x)] == Some(nn);
      }
    } else {
      assert u.nodes[nn].child[0] == Some(n) && u.nodes[nn].child[1] == Some(c);
    }
  }

  /** A new root or a new internode in a gap between levels ends the split. */
  lemma RaisedIsValid(t: Tree, n: Ref, c: Ref, x: Ikey, nn: Ref, u: Tree)
    requires Pending(t, n, c, x) && Raised(t, n, c, x, nn, u)
    ensures Valid(u)
  {
    forall r | r in u.nodes
      ensures Domains(u, u.hi) && NodeOk(u, u.hi, r) && ParentOk(u, u.hi, r)
    {
      RaisedNode(t, n, c, x, nn, u, r);
      RaisedPointsUp(t, n, c, x, nn, u, r);
    }
    RaisedNode(t, n, c, x, nn, u, nn);
  }

  // ----- a new child of the parent

  /** `shift_up` and `assign`: key `x` and child `c` right after child `kp`. */
  function AddKey(keys: seq<Ikey>, kp: nat, x: Ikey): seq<Ikey>
    requires kp <= |keys|
  {
    keys[..kp] + [x] + keys[kp..]
  }

  function AddChild(child: seq<Option<Ref>>, kp: nat, c: Ref): seq<Option<Ref>>
    requires kp < |child|
  {
    child[..kp + 1] + [Some(c)] + child[kp + 1..]
  }

  /** `u` is `t` with `c` made the right neighbour of `n` in the parent of `n`. */
  ghost predicate Added(t: Tree, n: Ref, c: Ref, x: Ikey, u: Tree) {
    && n in t.nodes && c in t.nodes && t.nodes[n].parent.Some?
    && u.nodes.Keys == t.nodes.Keys && u.lo == t.lo && u.hi == t.hi && u.root == t.root
    && var q := t.nodes[n].parent.value;
    && q in t.nodes && t.nodes[q].Inner? && |t.nodes[q].child| == |t.nodes[q].keys| + 1
    && var kp := Upper(t.nodes[q].keys, x);
    && u.nodes[q] == t.nodes[q].(keys := AddKey(t.nodes[q].keys, kp, x), child := AddChild(t.nodes[q].child, kp, c))
    && u.nodes[c] == t.nodes[c].(parent := Some(q))
    && forall r :: r in t.nodes && r != q && r != c ==> u.nodes[r] == t.nodes[r]
  }

  /** The keys stay sorted, within the range, and keep off its lower end. */
  lemma AddedKeys(p: Node, kp: nat, x: Ikey, n: Ref, c: Ref, l: Ikey, h: nat)
    requires p.Inner? && InnerOk(p, l, h) && kp < |p.child| && p.child[kp] == Some(n)
    requires From(p.keys, l, kp) < x < Till(p.keys, h, kp)
    requires l < h
    ensures InnerOk(p.(keys := AddKey(p.keys, kp, x), child := AddChild(p.child, kp, c)), l, h)
  {
    var ks := AddKey(p.keys, kp, x);
    forall i, j | 0 <= i < j < |ks|
      ensures ks[i] < ks[j]
    {
      assert ks[i] == if i < kp then p.keys[i] else if i == kp then x else p.keys[i - 1];
      assert ks[j] == if j < kp then p.keys[j] else if j == kp then x else p.keys[j - 1];
    }
  }

  lemma AddedParent(t: Tree, n: Ref, c: Ref, x: Ikey, u: Tree)
    requires Pending(t, n, c, x) && n != t.root && Added(t, n, c, x, u)
    ensures t.nodes[n].parent.value in u.hi && NodeOk(u, u.hi, t.nodes[n].parent.value)
  {
    hide Pending, Upper, InnerOk;
    PendingParent(t, n, c, x);
    PendingHalves(t, n, c, x);
    var q, view := t.nodes[n].parent.value, View(t, n, c);
    PendingNode(t, n, c, x, q);
    var p, kp := t.nodes[q], Upper(t.nodes[q].keys, x);
    assert ChildOk(t, view, q, kp);
    AddedKeys(p, kp, x, n, c, t.lo[q], t.hi[q]);
    forall i | 0 <= i < |u.nodes[q].child| && u.nodes[q].child[i].Some?
      ensures ChildOk(u, u.hi, q, i)
    {
      AddedChild(t, n, c, x, u, i);
    }
  }

  lemma AddedChild(t: Tree, n: Ref, c: Ref, x: Ikey, u: Tree, i: nat)
    requires Pending(t, n, c, x) && n != t.root && Added(t, n, c, x, u)
    requires var q := t.nodes[n].parent.value; i < |u.nodes[q].child| && u.nodes[q].child[i].Some?
    ensures var q := t.nodes[n].parent.value; q in u.lo && q in u.hi && ChildOk(u, u.hi, q, i)
  {
    hide Pending, Upper, InnerOk;
    PendingParent(t, n, c, x);
    PendingHalves(t, n, c, x);
    var q, view := t.nodes[n].parent.value, View(t, n, c);
    PendingNode(t, n, c, x, q);
    var kp := Upper(t.nodes[q].keys, x);
    assert ChildOk(t, view, q, kp);
    if i != kp + 1 {
      var j := if i <= kp then i else i - 1;
      assert u.nodes[q].child[i] == t.nodes[q].child[j];
      assert ChildOk(t, view, q, j);
      if t.nodes[q].child[j] == Some(n) {
        OnePlace(t, view, q, n, kp, j);
      }
    }
  }

  lemma AddedNode(t: Tree, n: Ref, c: Ref, x: Ikey, u: Tree, r: Ref)
    requires Pending(t, n, c, x) && n != t.root && Added(t, n, c, x, u) && r in u.nodes
    ensures Domains(u, u.hi) && NodeOk(u, u.hi, r)
  {
    hide Pending, NodeOk, Upper;
    PendingHalves(t, n, c, x);
    if Some(r) == t.nodes[n].parent {
      AddedParent(t, n, c, x, u);
    } else {
      PendingNode(t, n, c, x, r);
      NodeKept(t, View(t, n, c), u, u.hi, r);
    }
  }

  lemma AddedPointsUp(t: Tree, n: Ref, c: Ref, x: Ikey, u: Tree, r: Ref)
    requires Pending(t, n, c, x) && n != t.root && Added(t, n, c, x, u) && r in u.nodes
    ensures Domains(u, u.hi) && ParentOk(u, u.hi, r)
  {
    hide Pending, NodeOk, Upper;
    PendingHalves(t, n, c, x);
    PendingParent(t, n, c, x);
    var q := t.nodes[n].parent.value;
    var kp, cs := Upper(t.nodes[q].keys, x), u.nodes[q].child;
    if r == c {
      assert cs[kp + 1] == Some(c);
    } else {
      PendingNode(t, n, c, x, r);
      forall s | s in t.nodes && t.nodes[r].parent == Some(s) && t.nodes[s].Inner? && Some(r) in t.nodes[s].child
        ensures s in u.nodes && u.nodes[s].Inner? && Some(r) in u.nodes[s].child
      {
        var i :| 0 <= i < |t.nodes[s].child| && t.nodes[s].child[i] == Some(r);
        if s == q {
          assert cs[if i <= kp then i else i + 1] == Some(r);
        }
      }
      if r != n {
        ParentKept(t, View(t, n, c), u, u.hi, r);
      }
    }
  }

  /** The tree is again a search tree, though the parent may now hold one key too many. */
  lemma AddedIsValid(t: Tree, n: Ref, c: Ref, x: Ikey, u: Tree)
    requires Pending(t, n, c, x) && n != t.root && Added(t, n, c, x, u)
    ensures Valid(u)
  {
    hide Pending, NodeOk, ParentOk;
    AddedNode(t, n, c, x, u, n);
    forall r | r in u.nodes
      ensures Domains(u, u.hi) && NodeOk(u, u.hi, r) && ParentOk(u, u.hi, r)
    {
      AddedNode(t, n, c, x, u, r);
      AddedPointsUp(t, n, c, x, u, r);
    }
  }

  // ----- cutting a node in two

  /** `u` is `t` with node `n` cut at `x` into `n` and a new node `c`; children of the
      right part belong to `c`. */
  ghost predicate CutAt(t: Tree, n: Ref, c: Ref, x: Ikey, u: Tree) {
    && n in t.nodes && c !in t.nodes && n in t.lo && n in t.hi
    && u.nodes.Keys == t.nodes.Keys + {c} && u.root == t.root
    && u.lo == t.lo[c := x] && u.hi == t.hi[c := t.hi[n]][n := x]
    && u.nodes[c].parent == None && u.nodes[n].parent == t.nodes[n].parent
    && u.nodes[c].Height() == u.nodes[n].Height() == t.nodes[n].Height()
    && forall r :: r in t.nodes && r != n ==>
         u.nodes[r] == if u.nodes[c].Inner? && Some(r) in u.nodes[c].child then t.nodes[r].(parent := Some(c)) else t.nodes[r]
  }

  ghost predicate LeafCut(t: Tree, n: Ref, c: Ref, x: Ikey, u: Tree)
    requires CutAt(t, n, c, x, u)
  {
    && u.nodes[n].Leaf? && u.nodes[c].Leaf? && t.nodes[n].Leaf?
    && t.lo[n] < x < t.hi[n]
    && LeafOk(u.nodes[n], t.lo[n], x) && LeafOk(u.nodes[c], x, t.hi[n])
  }

  ghost predicate InnerCut(t: Tree, n: Ref, c: Ref, x: Ikey, u: Tree)
    requires CutAt(t, n, c, x, u)
  {
    && t.nodes[n].Inner? && u.nodes[n].Inner? && u.nodes[c].Inner?
    && |t.nodes[n].child| == |t.nodes[n].keys| + 1
    && var mid := |u.nodes[n].keys|;
    && 0 < mid < |t.nodes[n].keys| && x == t.nodes[n].keys[mid]
    && u.nodes[n].keys == t.nodes[n].keys[..mid] && u.nodes[n].child == t.nodes[n].child[..mid + 1]
    && u.nodes[c].keys == t.nodes[n].keys[mid + 1..] && u.nodes[c].child == t.nodes[n].child[mid + 1..]
  }

  ghost predicate Cut(t: Tree, n: Ref, c: Ref, x: Ikey, u: Tree) {
    CutAt(t, n, c, x, u) && (LeafCut(t, n, c, x, u) || InnerCut(t, n, c, x, u))
  }

  lemma CutHalves(t: Tree, n: Ref, c: Ref, x: Ikey, u: Tree)
    requires Valid(t) && Cut(t, n, c, x, u)
    ensures Halves(u, n, c, x) && Domains(u, View(u, n, c)) && u.hi[c] == t.hi[n] <= LIMIT
  {
    hide Valid;
    ValidNode(t, n);
  }

  /** The children that moved were children of `n`. */
  lemma MovedWere(t: Tree, n: Ref, c: Ref, x: Ikey, u: Tree, d: Ref)
    requires Valid(t) && Cut(t, n, c, x, u) && u.nodes[c].Inner? && Some(d) in u.nodes[c].child
    ensures d in t.nodes && t.nodes[d].parent == Some(n) && d != n && d != c
    ensures Some(d) !in u.nodes[n].child
    ensures u.nodes[d].parent == Some(c)
  {
    hide Valid, LeafOk;
    ValidNode(t, n);
    var mid := |u.nodes[n].keys|;
    var i :| 0 <= i < |u.nodes[c].child| && u.nodes[c].child[i] == Some(d);
    assert t.nodes[n].child[mid + 1 + i] == Some(d);
    assert ChildOk(t, t.hi, n, mid + 1 + i);
    ValidNode(t, d);
    forall j | 0 <= j < |u.nodes[n].child|
      ensures u.nodes[n].child[j] != Some(d)
    {
      assert u.nodes[n].child[j] == t.nodes[n].child[j];
      if u.nodes[n].child[j].Some? {
        assert ChildOk(t, t.hi, n, j);
      }
    }
  }

  lemma CutKeys(p: Node, left: Node, right: Node, l: Ikey, h: nat)
    requires p.Inner? && left.Inner? && right.Inner? && InnerOk(p, l, h) && 0 < |left.keys| < |p.keys|
    requires var mid := |left.keys|; left.keys == p.keys[..mid] && left.child == p.child[..mid + 1]
    requires var mid := |left.keys|; right.keys == p.keys[mid + 1..] && right.child == p.child[mid + 1..]
    ensures InnerOk(left, l, p.keys[|left.keys|]) && InnerOk(right, p.keys[|left.keys|], h)
  {
  }

  lemma CutLeftChild(t: Tree, n: Ref, c: Ref, x: Ikey, u: Tree, i: nat)
    requires Valid(t) && Cut(t, n, c, x, u) && t.nodes[n].Inner?
    requires u.nodes[n].Inner? && i < |u.nodes[n].child| && u.nodes[n].child[i].Some?
    ensures n in u.lo && n in u.hi && n in View(u, n, c)
    ensures |u.nodes[n].child| == |u.nodes[n].keys| + 1 && ChildOk(u, View(u, n, c), n, i)
  {
    hide Valid, InnerOk, LeafOk;
    ValidNode(t, n);
    assert u.nodes[n].child[i] == t.nodes[n].child[i];
    assert ChildOk(t, t.hi, n, i);
    var d := u.nodes[n].child[i].value;
    assert Some(d) in u.nodes[n].child;
    if Some(d) in u.nodes[c].child {
      MovedWere(t, n, c, x, u, d);
    }
  }

  lemma CutRightChild(t: Tree, n: Ref, c: Ref, x: Ikey, u: Tree, i: nat)
    requires Valid(t) && Cut(t, n, c, x, u) && t.nodes[n].Inner?
    requires u.nodes[c].Inner? && i < |u.nodes[c].child| && u.nodes[c].child[i].Some?
    ensures c in u.lo && c in u.hi && c in View(u, n, c)
    ensures |u.nodes[c].child| == |u.nodes[c].keys| + 1 && ChildOk(u, View(u, n, c), c, i)
  {
    hide Valid, InnerOk, LeafOk;
    ValidNode(t, n);
    var mid := |u.nodes[n].keys|;
    assert u.nodes[c].child[i] == t.nodes[n].child[mid + 1 + i];
    assert ChildOk(t, t.hi, n, mid + 1 + i);
    assert Some(u.nodes[c].child[i].value) in u.nodes[c].child;
    MovedWere(t, n, c, x, u, u.nodes[c].child[i].value);
  }

  lemma CutBoth(t: Tree, n: Ref, c: Ref, x: Ikey, u: Tree)
    requires Valid(t) && Cut(t, n, c, x, u)
    ensures Domains(u, View(u, n, c)) && NodeOk(u, View(u, n, c), n) && NodeOk(u, View(u, n, c), c)
  {
    hide Valid, InnerOk, LeafOk, ChildOk;
    ValidNode(t, n);
    CutHalves(t, n, c, x, u);
    if t.nodes[n].Inner? {
      CutKeys(t.nodes[n], u.nodes[n], u.nodes[c], t.lo[n], t.hi[n]);
      forall i | 0 <= i < |u.nodes[n].child| && u.nodes[n].child[i].Some?
        ensures ChildOk(u, View(u, n, c), n, i)
      {
        CutLeftChild(t, n, c, x, u, i);
      }
      forall i | 0 <= i < |u.nodes[c].child| && u.nodes[c].child[i].Some?
        ensures ChildOk(u, View(u, n, c), c, i)
      {
        CutRightChild(t, n, c, x, u, i);
      }
    }
  }

  lemma CutOther(t: Tree, n: Ref, c: Ref, x: Ikey, u: Tree, r: Ref)
    requires Valid(t) && Cut(t, n, c, x, u) && r in t.nodes && r != n
    ensures Domains(u, View(u, n, c)) && NodeOk(u, View(u, n, c), r)
  {
    hide Valid, LeafCut, InnerCut, NodeOk;
    ValidNode(t, r);
    CutHalves(t, n, c, x, u);
    forall d | d in t.nodes && t.nodes[d].parent == Some(r)
      ensures ChildKept(t, t.hi, u, View(u, n, c), d)
    {
      if u.nodes[c].Inner? && Some(d) in u.nodes[c].child {
        MovedWere(t, n, c, x, u, d);
      }
    }
    NodeKept(t, t.hi, u, View(u, n, c), r);
  }

  lemma CutPointsUp(t: Tree, n: Ref, c: Ref, x: Ikey, u: Tree, r: Ref)
    requires Valid(t) && Cut(t, n, c, x, u) && r in t.nodes
    ensures Domains(u, View(u, n, c)) && ParentOk(u, View(u, n, c), r)
  {
    hide Valid, LeafCut, NodeOk;
    ValidNode(t, r);
    CutHalves(t, n, c, x, u);
    if u.nodes[c].Inner? && Some(r) in u.nodes[c].child {
      MovedWere(t, n, c, x, u, r);
      ValidRoot(t);
    } else {
      forall q | q in t.nodes && t.nodes[r].parent == Some(q) && t.nodes[q].Inner? && Some(r) in t.nodes[q].child
        ensures q in u.nodes && u.nodes[q].Inner? && Some(r) in u.nodes[q].child
      {
        CutKeepsChild(t, n, c, x, u, q, r);
      }
      ParentKept(t, t.hi, u, View(u, n, c), r);
    }
  }

  lemma ValidRoot(t: Tree)
    requires Valid(t)
    ensures t.root in t.nodes && t.nodes[t.root].parent == None
  {
    ValidNode(t, t.root);
  }

  lemma CutKeepsChild(t: Tree, n: Ref, c: Ref, x: Ikey, u: Tree, q: Ref, r: Ref)
    requires Valid(t) && Cut(t, n, c, x, u) && q in t.nodes && t.nodes[q].Inner? && Some(r) in t.nodes[q].child
    ensures u.nodes[q].Inner?
    ensures Some(r) in u.nodes[q].child || (u.nodes[c].Inner? && Some(r) in u.nodes[c].child)
  {
    hide Valid, NodeOk, LeafOk;
    if q == n {
      var i :| 0 <= i < |t.nodes[q].child| && t.nodes[q].child[i] == Some(r);
      var mid := |u.nodes[n].keys|;
      if i <= mid {
        assert u.nodes[n].child[i] == Some(r);
      } else {
        assert u.nodes[c].child[i - mid - 1] == Some(r);
      }
    }
  }

  /** A cut node is one half of a split whose other half still looks for its parent. */
  lemma CutIsPending(t: Tree, n: Ref, c: Ref, x: Ikey, u: Tree)
    requires Valid(t) && Cut(t, n, c, x, u)
    ensures Pending(u, n, c, x)
  {
    hide Valid, NodeOk, ParentOk, LeafCut, InnerCut;
    CutHalves(t, n, c, x, u);
    CutBoth(t, n, c, x, u);
    forall r | r in t.nodes
      ensures NodeOk(u, View(u, n, c), r) && ParentOk(u, View(u, n, c), r)
    {
      if r != n {
        CutOther(t, n, c, x, u, r);
      }
      CutPointsUp(t, n, c, x, u, r);
    }
  }
}
