/** Taking an empty leaf out of the tree, collapsing chains and rewriting separators.
  Source: masstree_remove.hh (remove_leaf, redirect). */
module TreeRemove {
  import opened Options
  import opened TreeModel

  // ----- the range of the leaf goes to its left neighbour

  /** The bound `x` between the leaf and its left neighbour becomes `y`. */
  function Moved(b: nat, x: nat, y: nat): nat {
    if b == x then y else b
  }

  function MovedKeys(keys: seq<Ikey>, x: nat, y: nat): (moved: seq<Ikey>)
    ensures |moved| == |keys|
    ensures forall i :: 0 <= i < |keys| ==> moved[i] == Moved(keys[i], x, y)
  {
    seq(|keys|, i requires 0 <= i < |keys| => Moved(keys[i], x, y))
  }

  function MovedNode(n: Node, x: nat, y: nat): Node {
    if n.Inner? then n.(keys := MovedKeys(n.keys, x, y)) else n
  }

  /** `remove_leaf` on the parent: the child at `kp` goes, together with the key before it;
      the leftmost child only becomes null. */
  function WithoutChild(p: Node, kp: nat): (q: Node)
    requires p.Inner? && |p.child| == |p.keys| + 1 && kp <= |p.keys|
    ensures q.Inner? && q.parent == p.parent && q.level == p.level && |q.child| == |q.keys| + 1
  {
    if kp == 0 then p.(child := p.child[0 := None])
    else p.(keys := p.keys[..kp - 1] + p.keys[kp..], child := p.child[..kp] + p.child[kp + 1..])
  }

  ghost function MovedBounds(m: map<Ref, nat>, n: Ref, x: nat, y: nat): map<Ref, nat> {
    map r | r in m && r != n :: Moved(m[r], x, y)
  }

  /** Leaf `n` is empty, and child `kp` of `p`. */
  ghost predicate EmptyChild(w: Tree, n: Ref, p: Ref, kp: nat) {
    && n in w.nodes && w.nodes[n].Leaf? && w.nodes[n].entries == [] && n != w.root
    && n in w.lo && n in w.hi && w.lo[n] != 0
    && w.nodes[n].parent == Some(p) && p in w.nodes && p in w.lo && p in w.hi
    && w.nodes[p].Inner? && |w.nodes[p].child| == |w.nodes[p].keys| + 1
    && kp <= |w.nodes[p].keys| && w.nodes[p].child[kp] == Some(n)
    && From(w.nodes[p].keys, w.lo[p], kp) == w.lo[n] && Till(w.nodes[p].keys, w.hi[p], kp) == w.hi[n]
    && w.lo[p] <= w.lo[n] < w.hi[n] <= w.hi[p]
  }

  /** The parent serves more than the leaf alone. */
  ghost predicate NotAlone(w: Tree, n: Ref, p: Ref)
    requires n in w.lo && n in w.hi && p in w.lo && p in w.hi
  {
    w.lo[p] < w.lo[n] || w.hi[n] < w.hi[p]
  }

  /** The tree without `n`: its range now belongs to the left, everywhere. */
  ghost function Collapsed(w: Tree, n: Ref, p: Ref, kp: nat): Tree
    requires EmptyChild(w, n, p, kp)
  {
    var x, y := w.lo[n], w.hi[n];
    Tree(map r | r in w.nodes && r != n :: if r == p then WithoutChild(w.nodes[p], kp) else MovedNode(w.nodes[r], x, y),
         w.root, MovedBounds(w.lo, n, x, y), MovedBounds(w.hi, n, x, y))
  }

  // ----- who else knows the bound

  /** All other nodes that serve the leaf's slices lie around the parent. */
  lemma OthersAreAbove(w: Tree, n: Ref, p: Ref, kp: nat, r: Ref)
    requires Valid(w) && EmptyChild(w, n, p, kp) && r != n && Serves(w, r, w.lo[n])
    ensures w.nodes[r].Inner? && w.lo[r] <= w.lo[p] && w.hi[p] <= w.hi[r]
    ensures w.nodes[p].level <= w.nodes[r].level && (w.nodes[p].level == w.nodes[r].level ==> r == p)
  {
    hide Valid, Upper;
    var x := w.lo[n];
    ParentServes(w, n, x);
    if w.nodes[r].Height() < w.nodes[p].Height() {
      LowerIsInside(w, r, p, x);
    } else if w.nodes[p].Height() < w.nodes[r].Height() {
      LowerIsInside(w, p, r, x);
      ChildServes(w, r, x);
      var c := w.nodes[r].child[Upper(w.nodes[r].keys, x)].value;
      ChildInside(w, r, c, x);
    } else {
      SameHeightSame(w, p, r, x);
    }
  }

  lemma ChildInside(w: Tree, r: Ref, c: Ref, k: Ikey)
    requires Valid(w) && Serves(w, c, k) && w.nodes[c].parent == Some(r)
    ensures r in w.lo && r in w.hi && w.lo[r] <= w.lo[c] && w.hi[c] <= w.hi[r]
  {
    hide Valid, Upper;
    ValidNode(w, c);
    ParentServes(w, c, k);
  }

  /** Another node that starts where the leaf starts ends after it. */
  lemma StartsThereEndsLater(w: Tree, n: Ref, p: Ref, kp: nat, r: Ref)
    requires Valid(w) && EmptyChild(w, n, p, kp) && NotAlone(w, n, p)
    requires r != n && r in w.nodes && r in w.lo && w.lo[r] == w.lo[n]
    ensures r in w.hi && w.hi[n] < w.hi[r] && w.nodes[r].Inner?
  {
    hide Valid;
    ValidNode(w, r);
    OthersAreAbove(w, n, p, kp, r);
  }

  /** The keys of an internode stay sorted and within its range. */
  lemma MovedKeysOk(q: Node, l: Ikey, h: nat, x: nat, y: nat)
    requires q.Inner? && InnerOk(q, l, h) && l < h && x < y && x != 0
    requires l == x ==> y < h
    requires l == x && q.child[0].Some? ==> y < Till(q.keys, h, 0)
    requires forall i :: 0 <= i < |q.keys| && q.keys[i] == x ==> y < Till(q.keys, h, i + 1)
    ensures InnerOk(MovedNode(q, x, y), Moved(l, x, y), Moved(h, x, y))
    ensures Moved(l, x, y) < Moved(h, x, y)
  {
    var ks := MovedKeys(q.keys, x, y);
    forall i, j | 0 <= i < j < |ks|
      ensures ks[i] < ks[j]
    {
      if q.keys[i] == x {
        assert q.keys[i + 1] <= q.keys[j];
      }
    }
    forall i | 0 <= i < |ks|
      ensures Moved(l, x, y) <= ks[i] < Moved(h, x, y)
    {
      if q.keys[i] == x {
        assert i + 1 < |ks| ==> q.keys[i + 1] < h;
      }
      if l == x {
        assert q.keys[0] <= q.keys[i];
      }
    }
  }

  lemma WithoutChildKeys(q: Node, l: Ikey, h: nat, kp: nat)
    requires q.Inner? && InnerOk(q, l, h) && 0 < kp <= |q.keys|
    ensures
      var o := WithoutChild(q, kp);
      && o.Inner? && (forall i, j :: 0 <= i < j < |o.keys| ==> o.keys[i] < o.keys[j])
      && (forall i :: 0 < i < |o.child| ==> o.child[i].Some?)
  {
    var o := WithoutChild(q, kp);
    forall i, j | 0 <= i < j < |o.keys|
      ensures o.keys[i] < o.keys[j]
    {
      assert o.keys[i] == q.keys[if i < kp - 1 then i else i + 1];
      assert o.keys[j] == q.keys[if j < kp - 1 then j else j + 1];
    }
    forall i | 0 < i < |o.child|
      ensures o.child[i].Some?
    {
      assert o.child[i] == q.child[if i < kp then i else i + 1];
    }
  }

  /** So do those of the parent that loses the leaf. */
  lemma WithoutChildOk(q: Node, l: Ikey, h: nat, kp: nat, x: nat, y: nat)
    requires q.Inner? && InnerOk(q, l, h) && kp <= |q.keys| && q.child[kp].Some?
    requires From(q.keys, l, kp) == x && Till(q.keys, h, kp) == y && x < y && x != 0
    requires l < x || y < h
    ensures InnerOk(WithoutChild(q, kp), Moved(l, x, y), h) && Moved(l, x, y) < h
  {
    if kp > 0 {
      WithoutChildKeys(q, l, h, kp);
    }
  }

  // ----- the result is a search tree

  lemma RangeInside(w: Tree, n: Ref)
    requires Valid(w) && n in w.nodes
    ensures n in w.lo && n in w.hi && w.lo[n] < w.hi[n] <= LIMIT
  {
    ValidNode(w, n);
  }

  lemma CollapsedOtherChild(w: Tree, n: Ref, p: Ref, kp: nat, r: Ref, i: nat)
    requires Valid(w) && EmptyChild(w, n, p, kp) && r in w.nodes && r != n && r != p
    requires w.nodes[r].Inner? && |w.nodes[r].child| == |w.nodes[r].keys| + 1
    requires i < |w.nodes[r].child| && w.nodes[r].child[i].Some?
    ensures var u := Collapsed(w, n, p, kp); r in u.lo && r in u.hi && ChildOk(u, u.hi, r, i)
  {
    hide Valid, WithoutChild, InnerOk, LeafOk;
    ValidNode(w, r);
    assert ChildOk(w, w.hi, r, i);
  }

  lemma CollapsedLeaf(w: Tree, n: Ref, p: Ref, kp: nat, r: Ref)
    requires Valid(w) && EmptyChild(w, n, p, kp) && NotAlone(w, n, p) && r in w.nodes && r != n && w.nodes[r].Leaf?
    ensures var x, y := w.lo[n], w.hi[n];
      && r in w.lo && r in w.hi && Moved(w.lo[r], x, y) == w.lo[r] && w.hi[r] <= Moved(w.hi[r], x, y) <= LIMIT
      && LeafOk(w.nodes[r], w.lo[r], Moved(w.hi[r], x, y))
  {
    hide Valid;
    ValidNode(w, r);
    RangeInside(w, n);
    if w.lo[r] == w.lo[n] {
      StartsThereEndsLater(w, n, p, kp, r);
    }
  }

  lemma CollapsedOther(w: Tree, n: Ref, p: Ref, kp: nat, r: Ref)
    requires Valid(w) && EmptyChild(w, n, p, kp) && NotAlone(w, n, p) && r in w.nodes && r != n && r != p
    ensures var u := Collapsed(w, n, p, kp); Domains(u, u.hi) && NodeOk(u, u.hi, r)
  {
    hide Valid, WithoutChild, InnerOk, LeafOk, ChildOk;
    var u := Collapsed(w, n, p, kp);
    ValidNode(w, r);
    RangeInside(w, n);
    if w.nodes[r].Leaf? {
      CollapsedLeaf(w, n, p, kp, r);
    } else {
      CollapsedKeys(w, n, p, kp, r);
      ShapeOf(w.nodes[r], w.lo[r], w.hi[r]);
      forall i | 0 <= i < |u.nodes[r].child| && u.nodes[r].child[i].Some?
        ensures ChildOk(u, u.hi, r, i)
      {
        CollapsedOtherChild(w, n, p, kp, r, i);
      }
    }
  }

  lemma CollapsedKeys(w: Tree, n: Ref, p: Ref, kp: nat, r: Ref)
    requires Valid(w) && EmptyChild(w, n, p, kp) && NotAlone(w, n, p) && r in w.nodes && r != n && r != p
    requires w.nodes[r].Inner? && r in w.lo && r in w.hi
    ensures var x, y := w.lo[n], w.hi[n];
      && InnerOk(MovedNode(w.nodes[r], x, y), Moved(w.lo[r], x, y), Moved(w.hi[r], x, y))
      && Moved(w.lo[r], x, y) < Moved(w.hi[r], x, y)
  {
    hide Valid, InnerOk;
    var q, x := w.nodes[r], w.lo[n];
    ValidNode(w, r);
    if w.lo[r] == x {
      StartsThereEndsLater(w, n, p, kp, r);
    }
    assert |q.child| == |q.keys| + 1 && forall i :: 0 < i < |q.child| ==> q.child[i].Some? by { ShapeOf(q, w.lo[r], w.hi[r]); }
    forall i | 0 <= i <= |q.keys| && q.child[i].Some? && From(q.keys, w.lo[r], i) == x
      ensures w.hi[n] < Till(q.keys, w.hi[r], i)
    {
      assert ChildOk(w, w.hi, r, i);
      StartsThereEndsLater(w, n, p, kp, q.child[i].value);
    }
    forall i | 0 <= i < |q.keys| && q.keys[i] == x
      ensures w.hi[n] < Till(q.keys, w.hi[r], i + 1)
    {
      assert From(q.keys, w.lo[r], i + 1) == x;
    }
    assert q.child[0].Some? && w.lo[r] == x ==> From(q.keys, w.lo[r], 0) == x;
    MovedKeysOk(q, w.lo[r], w.hi[r], x, w.hi[n]);
  }

  lemma ShapeOf(q: Node, l: Ikey, h: nat)
    requires q.Inner? && InnerOk(q, l, h)
    ensures |q.child| == |q.keys| + 1 && forall i :: 0 < i < |q.child| ==> q.child[i].Some?
  {
  }

  lemma CollapsedParent(w: Tree, n: Ref, p: Ref, kp: nat)
    requires Valid(w) && EmptyChild(w, n, p, kp) && NotAlone(w, n, p)
    ensures var u := Collapsed(w, n, p, kp); Domains(u, u.hi) && p != n && NodeOk(u, u.hi, p)
  {
    hide Valid, InnerOk;
    var u, x, y, q := Collapsed(w, n, p, kp), w.lo[n], w.hi[n], w.nodes[p];
    ValidNode(w, p);
    ValidNode(w, w.root);
    WithoutChildOk(q, w.lo[p], w.hi[p], kp, x, y);
    forall i | 0 <= i < |u.nodes[p].child| && u.nodes[p].child[i].Some?
      ensures ChildOk(u, u.hi, p, i)
    {
      CollapsedParentChild(w, n, p, kp, i);
    }
  }

  lemma CollapsedParentChild(w: Tree, n: Ref, p: Ref, kp: nat, i: nat)
    requires Valid(w) && EmptyChild(w, n, p, kp) && NotAlone(w, n, p) && p != n
    requires var q := WithoutChild(w.nodes[p], kp); i < |q.child| && q.child[i].Some? && |q.child| == |q.keys| + 1
    ensures var u := Collapsed(w, n, p, kp); p in u.lo && p in u.hi && ChildOk(u, u.hi, p, i)
  {
    hide Valid, InnerOk;
    var u, x, y, q := Collapsed(w, n, p, kp), w.lo[n], w.hi[n], w.nodes[p];
    ValidNode(w, p);
    var j := if kp == 0 || i < kp then i else i + 1;
    assert u.nodes[p].child[i] == q.child[j];
    assert ChildOk(w, w.hi, p, j);
    assert j != kp;
    if q.child[j] == Some(n) {
      OnePlace(w, w.hi, p, n, kp, j);
    }
    MovedAround(q, w.lo[p], w.hi[p], kp, x, y, i);
  }

  /** The ranges of the parent's other children, after the change. */
  lemma MovedAround(q: Node, l: Ikey, h: nat, kp: nat, x: nat, y: nat, i: nat)
    requires q.Inner? && InnerOk(q, l, h) && kp <= |q.keys|
    requires From(q.keys, l, kp) == x && Till(q.keys, h, kp) == y && x < y <= h
    requires i < |WithoutChild(q, kp).child| && (kp == 0 ==> i > 0)
    ensures
      var o, j := WithoutChild(q, kp), if kp == 0 || i < kp then i else i + 1;
      && i <= |o.keys| && j <= |q.keys|
      && From(o.keys, Moved(l, x, y), i) == Moved(From(q.keys, l, j), x, y)
      && Till(o.keys, h, i) == Moved(Till(q.keys, h, j), x, y)
  {
    var o := WithoutChild(q, kp);
    if kp > 0 {
      assert forall m :: 0 <= m < |o.keys| ==> o.keys[m] == q.keys[if m < kp - 1 then m else m + 1];
    }
  }

  lemma CollapsedPointsUp(w: Tree, n: Ref, p: Ref, kp: nat, r: Ref)
    requires Valid(w) && EmptyChild(w, n, p, kp) && r in w.nodes && r != n
    ensures var u := Collapsed(w, n, p, kp); Domains(u, u.hi) && ParentOk(u, u.hi, r)
  {
    hide Valid, NodeOk;
    var u := Collapsed(w, n, p, kp);
    ValidNode(w, r);
    ValidNode(w, n);
    RangeInside(w, n);
    if r != w.root {
      var a := w.nodes[r].parent.value;
      if a == p {
        var j :| 0 <= j < |w.nodes[p].child| && w.nodes[p].child[j] == Some(r);
        assert WithoutChild(w.nodes[p], kp).child[if kp == 0 || j < kp then j else j - 1] == Some(r);
      } else {
        assert MovedNode(w.nodes[a], w.lo[n], w.hi[n]).child == w.nodes[a].child;
      }
    }
  }

  /** Removing an empty leaf and rewriting the bounds leaves a search tree. */
  lemma CollapsedIsValid(w: Tree, n: Ref, p: Ref, kp: nat)
    requires Valid(w) && EmptyChild(w, n, p, kp) && NotAlone(w, n, p)
    ensures Valid(Collapsed(w, n, p, kp))
  {
    hide Valid, NodeOk, ParentOk;
    var u := Collapsed(w, n, p, kp);
    CollapsedParent(w, n, p, kp);
    forall r | r in u.nodes
      ensures NodeOk(u, u.hi, r) && ParentOk(u, u.hi, r)
    {
      if r != p {
        CollapsedOther(w, n, p, kp, r);
      }
      CollapsedPointsUp(w, n, p, kp, r);
    }
    IsValid(u);
  }

  // ----- the other steps of the loop

  ghost function Less(m: map<Ref, nat>, n: Ref): map<Ref, nat> {
    map r | r in m && r != n :: m[r]
  }

  /** A parent that served nothing but the leaf is the next to go, as an empty leaf. */
  ghost function Emptied(w: Tree, n: Ref, p: Ref): Tree
    requires n in w.lo && n in w.nodes && p in w.nodes
  {
    Tree(map r | r in w.nodes && r != n :: if r == p then Leaf(w.nodes[p].parent, [], true, w.lo[n]) else w.nodes[r],
         w.root, Less(w.lo, n), Less(w.hi, n))
  }

  lemma EmptiedNode(w: Tree, n: Ref, p: Ref, kp: nat, r: Ref)
    requires Valid(w) && EmptyChild(w, n, p, kp) && !NotAlone(w, n, p) && r in w.nodes && r != n
    ensures var u := Emptied(w, n, p); Domains(u, u.hi) && NodeOk(u, u.hi, r) && ParentOk(u, u.hi, r)
  {
    hide Valid;
    var u := Emptied(w, n, p);
    ValidNode(w, r);
    ValidNode(w, n);
    RangeInside(w, p);
    if r != p {
      OnlyChild(w, n, p, kp, r);
      if w.nodes[r].Inner? {
        forall i | 0 <= i < |w.nodes[r].child| && w.nodes[r].child[i].Some?
          ensures ChildOk(u, u.hi, r, i)
        {
          assert ChildOk(w, w.hi, r, i);
        }
      }
    }
  }

  /** The children of a parent share its range, so there is no other one here. */
  lemma OnlyChild(w: Tree, n: Ref, p: Ref, kp: nat, r: Ref)
    requires Valid(w) && EmptyChild(w, n, p, kp) && !NotAlone(w, n, p) && r in w.nodes && r != n
    ensures w.nodes[r].parent != Some(p) || r == w.root
  {
    hide Valid, Upper;
    ValidNode(w, r);
    ValidNode(w, n);
    if w.nodes[r].parent == Some(p) && r != w.root {
      ParentServes(w, r, w.lo[r]);
      ParentServes(w, n, w.lo[r]);
    }
  }

  lemma EmptiedIsValid(w: Tree, n: Ref, p: Ref, kp: nat)
    requires Valid(w) && EmptyChild(w, n, p, kp) && !NotAlone(w, n, p)
    ensures Valid(Emptied(w, n, p))
  {
    hide Valid, NodeOk, ParentOk;
    var u := Emptied(w, n, p);
    ValidNode(w, n);
    EmptiedNode(w, n, p, kp, w.root);
    forall r | r in u.nodes
      ensures NodeOk(u, u.hi, r) && ParentOk(u, u.hi, r)
    {
      EmptiedNode(w, n, p, kp, r);
    }
    IsValid(u);
  }

  /** A node with one child and no key. */
  ghost predicate Thin(w: Tree, n: Ref, p: Ref, kp: nat, c: Ref) {
    && n in w.nodes && n != w.root && w.nodes[n].Inner? && w.nodes[n].keys == [] && w.nodes[n].child == [Some(c)]
    && w.nodes[n].parent == Some(p) && p in w.nodes && w.nodes[p].Inner?
    && kp < |w.nodes[p].child| && w.nodes[p].child[kp] == Some(n) && c in w.nodes
  }

  /** Its child takes its place. */
  ghost function Spliced(w: Tree, n: Ref, p: Ref, kp: nat, c: Ref): Tree
    requires Thin(w, n, p, kp, c)
  {
    Tree(map r | r in w.nodes && r != n ::
           if r == p then w.nodes[p].(child := w.nodes[p].child[kp := Some(c)])
           else if r == c then w.nodes[c].(parent := Some(p)) else w.nodes[r],
         w.root, Less(w.lo, n), Less(w.hi, n))
  }

  /** The thin node and its child serve the same range. */
  lemma ThinChild(w: Tree, n: Ref, p: Ref, kp: nat, c: Ref)
    requires Valid(w) && Thin(w, n, p, kp, c)
    ensures p in w.lo && p in w.hi && n in w.lo && n in w.hi && c in w.lo && c in w.hi
    ensures w.lo[c] == w.lo[n] && w.hi[c] == w.hi[n] && w.nodes[c].parent == Some(n)
    ensures w.nodes[c].Height() < w.nodes[n].level < w.nodes[p].level && c != w.root
    ensures |w.nodes[p].child| == |w.nodes[p].keys| + 1 && ChildOk(w, w.hi, p, kp)
  {
    hide Valid;
    ValidNode(w, n);
    ValidNode(w, p);
    assert ChildOk(w, w.hi, n, 0) && ChildOk(w, w.hi, p, kp);
    ValidNode(w, c);
  }

  lemma SplicedNode(w: Tree, n: Ref, p: Ref, kp: nat, c: Ref, r: Ref)
    requires Valid(w) && Thin(w, n, p, kp, c) && r in w.nodes && r != n
    ensures var u := Spliced(w, n, p, kp, c); Domains(u, u.hi) && NodeOk(u, u.hi, r)
  {
    hide Valid;
    var u := Spliced(w, n, p, kp, c);
    ThinChild(w, n, p, kp, c);
    ValidNode(w, n);
    ValidNode(w, r);
    if w.nodes[r].Inner? {
      forall i | 0 <= i < |u.nodes[r].child| && u.nodes[r].child[i].Some?
        ensures ChildOk(u, u.hi, r, i)
      {
        SplicedChild(w, n, p, kp, c, u, r, i);
      }
    }
  }

  lemma SplicedChild(w: Tree, n: Ref, p: Ref, kp: nat, c: Ref, u: Tree, r: Ref, i: nat)
    requires Valid(w) && Thin(w, n, p, kp, c) && r in w.nodes && r != n && w.nodes[r].Inner?
    requires |w.nodes[r].child| == |w.nodes[r].keys| + 1
    requires u == Spliced(w, n, p, kp, c) && r in u.nodes && u.nodes[r].Inner?
    requires i < |u.nodes[r].child| && u.nodes[r].child[i].Some? && |u.nodes[r].child| == |u.nodes[r].keys| + 1
    ensures r in u.lo && r in u.hi && ChildOk(u, u.hi, r, i)
  {
    hide Valid, LeafOk, InnerOk;
    ThinChild(w, n, p, kp, c);
    ValidNode(w, r);
    RangeInside(w, n);
    if w.nodes[r].child[i].Some? {
      assert ChildOk(w, w.hi, r, i);
      if w.nodes[r].child[i] == Some(n) {
        OnePlace(w, w.hi, r, n, kp, i);
      }
    }
  }

  lemma SplicedPointsUp(w: Tree, n: Ref, p: Ref, kp: nat, c: Ref, r: Ref)
    requires Valid(w) && Thin(w, n, p, kp, c) && r in w.nodes && r != n
    ensures var u := Spliced(w, n, p, kp, c); Domains(u, u.hi) && ParentOk(u, u.hi, r)
  {
    hide Valid, NodeOk;
    var u := Spliced(w, n, p, kp, c);
    ThinChild(w, n, p, kp, c);
    ValidNode(w, n);
    ValidNode(w, r);
    if r == c {
      assert u.nodes[p].child[kp] == Some(c);
    } else if r != w.root {
      var a := w.nodes[r].parent.value;
      var j :| 0 <= j < |w.nodes[a].child| && w.nodes[a].child[j] == Some(r);
      assert a != n ==> u.nodes[a].child[j] == Some(r);
    }
  }

  lemma SplicedIsValid(w: Tree, n: Ref, p: Ref, kp: nat, c: Ref)
    requires Valid(w) && Thin(w, n, p, kp, c)
    ensures Valid(Spliced(w, n, p, kp, c))
  {
    hide Valid, NodeOk, ParentOk;
    var u := Spliced(w, n, p, kp, c);
    ThinChild(w, n, p, kp, c);
    SplicedNode(w, n, p, kp, c, c);
    forall r | r in u.nodes
      ensures NodeOk(u, u.hi, r) && ParentOk(u, u.hi, r)
    {
      SplicedNode(w, n, p, kp, c, r);
      SplicedPointsUp(w, n, p, kp, c, r);
    }
    IsValid(u);
  }

  /** Dropping a null first child, with the key after it. */
  ghost function Thinned(w: Tree, p: Ref): Tree
    requires p in w.nodes && w.nodes[p].Inner? && |w.nodes[p].child| == |w.nodes[p].keys| + 1
  {
    var q := w.nodes[p];
    w.(nodes := w.nodes[p := Inner(q.parent, q.level, [], [q.child[|q.keys|]])])
  }

  lemma ThinnedIsValid(w: Tree, p: Ref)
    requires Valid(w) && p in w.nodes && w.nodes[p].Inner? && |w.nodes[p].child| == |w.nodes[p].keys| + 1
    requires p != w.root && |w.nodes[p].keys| <= (if w.nodes[p].child[0] == None then 1 else 0)
    ensures Valid(Thinned(w, p))
    ensures w.nodes[p].child[|w.nodes[p].keys|].Some?
  {
    hide Valid;
    var u, q := Thinned(w, p), w.nodes[p];
    ValidNode(w, p);
    assert q.child[|q.keys|].Some? && ChildOk(w, w.hi, p, |q.keys|);
    forall r | r in u.nodes
      ensures NodeOk(u, u.hi, r) && ParentOk(u, u.hi, r)
    {
      ValidNode(w, r);
      ThinnedNode(w, p, r);
    }
    IsValid(u);
  }

  lemma ThinnedNode(w: Tree, p: Ref, r: Ref)
    requires Valid(w) && p in w.nodes && w.nodes[p].Inner? && |w.nodes[p].child| == |w.nodes[p].keys| + 1
    requires p != w.root && |w.nodes[p].keys| <= (if w.nodes[p].child[0] == None then 1 else 0)
    requires r in w.nodes
    ensures var u := Thinned(w, p); Domains(u, u.hi) && NodeOk(u, u.hi, r) && ParentOk(u, u.hi, r)
  {
    hide Valid;
    var u, q := Thinned(w, p), w.nodes[p];
    ValidNode(w, p);
    ValidNode(w, r);
    assert ChildOk(w, w.hi, p, |q.keys|);
    if r == p {
      assert ChildOk(u, u.hi, p, 0);
    } else {
      NodeKept(w, w.hi, u, u.hi, r);
    }
    if r != w.root && w.nodes[r].parent == Some(p) {
      assert u.nodes[p].child[0] == Some(r);
    }
  }
}
