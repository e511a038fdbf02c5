/** The ordered entries of one leaf: searching, adding, and where to cut a full leaf.
  Sources: masstree_split.hh (ikey_after_insert, split_into), ksearch.hh (lower bound). */
module LeafEntries {
  import opened Options
  import opened TreeModel

  predicate Before(a: Entry, k: Ikey, len: nat) {
    a.ikey < k || (a.ikey == k && a.len < len)
  }

  predicate After(a: Entry, k: Ikey, len: nat) {
    k < a.ikey || (a.ikey == k && len < a.len)
  }

  /** `lower`: the entry's place, or the place where it belongs. */
  method Lower(es: seq<Entry>, k: Ikey, len: nat) returns (i: nat, found: bool)
    requires Ordered(es)
    ensures i <= |es|
    ensures found ==> i < |es| && es[i].ikey == k && es[i].len == len
    ensures forall j :: 0 <= j < i ==> Before(es[j], k, len)
    ensures forall j :: (if found then i + 1 else i) <= j < |es| ==> After(es[j], k, len)
  {
    var l, r := 0, |es|;
    while l < r
      invariant l <= r <= |es|
      invariant forall j :: 0 <= j < l ==> Before(es[j], k, len)
      invariant forall j :: r <= j < |es| ==> After(es[j], k, len)
    {
      var m := (l + r) / 2;
      if After(es[m], k, len) {
        r := m;
      } else if Before(es[m], k, len) {
        l := m + 1;
      } else {
        return m, true;
      }
    }
    return l, false;
  }

  /** The entries once `e` stands at place `p`. */
  function AfterInsert(es: seq<Entry>, p: nat, e: Entry): (after: seq<Entry>)
    requires p <= |es|
    ensures |after| == |es| + 1 && after[p] == e
  {
    es[..p] + [e] + es[p..]
  }

  /** `ikey_after_insert`, without building the sequence. */
  function IkeyAfterInsert(es: seq<Entry>, i: nat, e: Entry, p: nat): (k: Ikey)
    requires p <= |es| && i <= |es|
    ensures k == AfterInsert(es, p, e)[i].ikey
  {
    if i < p then es[i].ikey else if i == p then e.ikey else es[i - 1].ikey
  }

  lemma InsertKeepsOrder(es: seq<Entry>, p: nat, e: Entry)
    requires Ordered(es) && p <= |es|
    requires forall j :: 0 <= j < p ==> Before(es[j], e.ikey, e.len)
    requires forall j :: p <= j < |es| ==> After(es[j], e.ikey, e.len)
    ensures Ordered(AfterInsert(es, p, e))
  {
    var after := AfterInsert(es, p, e);
    forall i, j | 0 <= i < j < |after|
      ensures Before(after[i], after[j].ikey, after[j].len)
    {
      assert after[i] == if i < p then es[i] else if i == p then e else es[i - 1];
      assert after[j] == if j < p then es[j] else if j == p then e else es[j - 1];
    }
  }

  // ----- what a lookup finds

  lemma {:induction false} LookupJoin(a: seq<Entry>, b: seq<Entry>, k: Ikey, len: nat)
    ensures Lookup(a + b, k, len) == if Lookup(a, k, len).Some? then Lookup(a, k, len) else Lookup(b, k, len)
  {
    if a == [] {
      assert a + b == b;
    } else {
      assert (a + b)[1..] == a[1..] + b;
      LookupJoin(a[1..], b, k, len);
    }
  }

  lemma {:induction false} LookupMisses(es: seq<Entry>, k: Ikey, len: nat)
    requires forall e :: e in es ==> e.ikey != k || e.len != len
    ensures Lookup(es, k, len) == None
  {
    if es != [] {
      LookupMisses(es[1..], k, len);
    }
  }

  lemma LookupIs(es: seq<Entry>, k: Ikey, len: nat, at: nat, found: bool)
    requires at <= |es| && (found ==> at < |es| && es[at].ikey == k && es[at].len == len)
    requires forall j :: 0 <= j < at ==> Before(es[j], k, len)
    requires forall j :: (if found then at + 1 else at) <= j < |es| ==> After(es[j], k, len)
    ensures Lookup(es, k, len) == if found then Some(es[at].value) else None
  {
    if found {
      assert es == es[..at] + es[at..];
      LookupJoin(es[..at], es[at..], k, len);
      LookupMisses(es[..at], k, len);
    } else {
      LookupMisses(es, k, len);
    }
  }

  /** Adding an entry changes the lookup of its own key only. */
  lemma LookupAfterInsert(es: seq<Entry>, p: nat, e: Entry, k: Ikey, len: nat)
    requires p <= |es|
    requires forall j :: 0 <= j < p ==> Before(es[j], e.ikey, e.len)
    ensures Lookup(AfterInsert(es, p, e), k, len) ==
      if k == e.ikey && len == e.len then Some(e.value) else Lookup(es, k, len)
  {
    LookupJoin(es[..p] + [e], es[p..], k, len);
    LookupJoin(es[..p], [e], k, len);
    LookupJoin(es[..p], es[p..], k, len);
    assert es[..p] + es[p..] == es;
    if k == e.ikey && len == e.len {
      LookupMisses(es[..p], k, len);
    }
  }

  /** Overwriting a value changes the lookup of its own key only. */
  lemma LookupAfterUpdate(es: seq<Entry>, p: nat, v: Content, k: Ikey, len: nat)
    requires p < |es|
    requires forall j :: 0 <= j < p ==> Before(es[j], es[p].ikey, es[p].len)
    ensures Lookup(es[p := es[p].(value := v)], k, len) ==
      if k == es[p].ikey && len == es[p].len then Some(v) else Lookup(es, k, len)
  {
    var e := es[p].(value := v);
    assert es[p := e] == AfterInsert(es[..p] + es[p + 1..], p, e);
    LookupAfterInsert(es[..p] + es[p + 1..], p, e, k, len);
    assert es == AfterInsert(es[..p] + es[p + 1..], p, es[p]);
    LookupAfterInsert(es[..p] + es[p + 1..], p, es[p], k, len);
  }

  /** Taking an entry out makes its own key unknown and changes nothing else. */
  lemma LookupAfterRemove(es: seq<Entry>, p: nat, k: Ikey, len: nat)
    requires p < |es| && Ordered(es)
    ensures Lookup(es[..p] + es[p + 1..], k, len) ==
      if k == es[p].ikey && len == es[p].len then None else Lookup(es, k, len)
  {
    var rest := es[..p] + es[p + 1..];
    if k == es[p].ikey && len == es[p].len {
      forall e | e in rest
        ensures e.ikey != k || e.len != len
      {
        var i :| 0 <= i < |rest| && rest[i] == e;
        assert e == if i < p then es[i] else es[i + 1];
      }
      LookupMisses(rest, k, len);
    } else {
      assert es == AfterInsert(rest, p, es[p]);
      LookupAfterInsert(rest, p, es[p], k, len);
    }
  }

  // ----- where to cut

  /** Slices share an ikey at most ten times: lengths 0 to 8, and one longer key. */
  lemma {:induction false} LengthsGrow(es: seq<Entry>, k: Ikey, i: nat)
    requires Ordered(es) && i < |es| && forall j :: 0 <= j <= i ==> es[j].ikey == k
    ensures es[i].len >= i
  {
    if i > 0 {
      LengthsGrow(es, k, i - 1);
    }
  }

  ghost predicate Boundary(after: seq<Entry>, b: int) {
    0 < b < |after| && after[b - 1].ikey != after[b].ikey
  }

  function DefaultMid(size: nat, p: nat, hasPrev: bool, hasNext: bool): nat {
    if p == 0 && !hasPrev then 1 else if p == size && !hasNext then size else WIDTH / 2 + 1
  }

  function Distance(a: int, b: int): nat { if a < b then b - a else a - b }

  ghost predicate AllAre(after: seq<Entry>, k: Ikey, low: int, high: int) {
    forall j :: low < j < high && 0 <= j < |after| ==> after[j].ikey == k
  }

  ghost predicate Nearest(after: seq<Entry>, start: nat, mid: nat) {
    && Boundary(after, mid)
    && forall b :: Boundary(after, b) ==> Distance(mid, start) <= Distance(b, start)
  }

  lemma NotAll(after: seq<Entry>, k: Ikey, low: int, high: int)
    requires |after| > 10 && Ordered(after) && forall a :: a in after ==> a.len <= 9
    requires low < 0 && |after| <= high
    ensures !AllAre(after, k, low, high)
  {
    assert after[|after| - 1] in after;
    if AllAre(after, k, low, high) {
      LengthsGrow(after, k, |after| - 1);
    }
  }

  lemma AllAreAround(after: seq<Entry>, k: Ikey, low: int, high: int)
    requires AllAre(after, k, low, high)
    requires 0 <= low < |after| ==> after[low].ikey == k
    requires 0 <= high < |after| ==> after[high].ikey == k
    ensures AllAre(after, k, low - 1, high + 1)
  {
  }

  lemma FirstFound(after: seq<Entry>, k: Ikey, start: nat, d: nat, mid: nat)
    requires AllAre(after, k, start - 1 - d, start + d) && (mid == start + d || mid == start - d)
    requires 0 < mid < |after| && d > 0
    requires if mid == start + d then after[mid].ikey != k else after[mid - 1].ikey != k
    ensures Nearest(after, start, mid)
  {
  }

  /** Looks to both sides of `start`, one step further each time, for another ikey. */
  method Search(es: seq<Entry>, p: nat, e: Entry, start: nat) returns (mid: nat)
    requires 10 <= |es| && p <= |es| && 0 < start <= |es| && !Boundary(AfterInsert(es, p, e), start)
    requires Ordered(AfterInsert(es, p, e)) && forall a :: a in AfterInsert(es, p, e) ==> a.len <= 9
    ensures 0 < mid <= |es| && Nearest(AfterInsert(es, p, e), start, mid)
  {
    ghost var after := AfterInsert(es, p, e);
    var width := |es|;
    assert |after| == width + 1;
    var midIkey := IkeyAfterInsert(es, start, e, p);
    assert AllAre(after, midIkey, start - 2, start + 1);
    hide AfterInsert, Ordered, Nearest, IkeyAfterInsert, AllAre, Boundary;
    var midl, midr := start - 2, start + 1;
    while true
      invariant midl == start + start - 1 - midr && start < midr
      invariant AllAre(after, midIkey, midl, midr)
      decreases if midr <= width then width - midr + 1 else 0, midl
    {
      if midr <= width && midIkey != IkeyAfterInsert(es, midr, e, p) {
        FirstFound(after, midIkey, start, midr - start, midr);
        return midr;
      } else if midl >= 0 && midIkey != IkeyAfterInsert(es, midl, e, p) {
        FirstFound(after, midIkey, start, midr - start, midl + 1);
        return midl + 1;
      }
      if midl < 0 && midr > width {
        NotAll(after, midIkey, midl, midr);
      }
      AllAreAround(after, midIkey, midl, midr);
      midl, midr := midl - 1, midr + 1;
    }
  }

  lemma NearestItself(after: seq<Entry>, start: nat)
    requires Boundary(after, start)
    ensures Nearest(after, start, start)
  {
  }

  /** The cut of `leaf::split_into`: never between two entries with the same ikey, and as
      near to the default place as possible. */
  method SplitPoint(es: seq<Entry>, p: nat, e: Entry, hasPrev: bool, hasNext: bool) returns (mid: nat)
    requires WIDTH - 1 <= |es| <= WIDTH && p <= |es|
    requires Ordered(AfterInsert(es, p, e)) && forall a :: a in AfterInsert(es, p, e) ==> a.len <= 9
    ensures 0 < mid <= |es|
    ensures Nearest(AfterInsert(es, p, e), DefaultMid(|es|, p, hasPrev, hasNext), mid)
  {
    hide AfterInsert, Ordered, Nearest, IkeyAfterInsert;
    var width := |es|;
    mid := WIDTH / 2 + 1;
    if p == 0 && !hasPrev {
      mid := 1;
    } else if p == width && !hasNext {
      mid := width;
    }
    if IkeyAfterInsert(es, mid, e, p) == IkeyAfterInsert(es, mid - 1, e, p) {
      mid := Search(es, p, e, mid);
    } else {
      NearestItself(AfterInsert(es, p, e), mid);
    }
  }

  /** When no two neighbours share a slice, 8 entries of the 14 or 15 stay, the new one counted; at the left end of a
      layer only a new first entry stays, and at the right end only a new last one goes. */
  lemma EvenSplit(es: seq<Entry>, p: nat, e: Entry, hasPrev: bool, hasNext: bool, mid: nat)
    requires 13 <= |es| <= 14 && p <= |es|
    requires var after := AfterInsert(es, p, e); forall i :: 0 < i < |after| ==> after[i - 1].ikey != after[i].ikey
    requires Nearest(AfterInsert(es, p, e), DefaultMid(|es|, p, hasPrev, hasNext), mid)
    ensures
      var staying, going := mid, |AfterInsert(es, p, e)| - mid;
      if p == 0 && !hasPrev then staying == 1 && AfterInsert(es, p, e)[0] == e
      else if p == |es| && !hasNext then going == 1 && AfterInsert(es, p, e)[mid] == e
      else staying == 8 && 6 <= going <= 7
  {
    var start := DefaultMid(|es|, p, hasPrev, hasNext);
    assert Boundary(AfterInsert(es, p, e), start);
  }

  // ----- the two halves

  /** The copying loop of `leaf::split_into`: the entries from the cut on, without the new one. */
  method RightEntries(es: seq<Entry>, p: nat, mid: nat) returns (right: seq<Entry>)
    requires p <= |es| && 0 < mid <= |es|
    ensures right == es[if p < mid then mid - 1 else mid..]
  {
    right := [];
    ghost var start := if p < mid then mid - 1 else mid;
    var from := if p < mid then mid - 1 else mid;
    for x := mid to |es| + 1
      invariant from == start + (x - mid) - (if mid <= p < x then 1 else 0)
      invariant start <= from <= |es| && right == es[start..from]
    {
      if x != p {
        right := right + [es[from]];
        from := from + 1;
      }
    }
  }

  function LeftEntries(es: seq<Entry>, p: nat, mid: nat): seq<Entry>
    requires p <= |es| && 0 < mid <= |es|
  {
    es[..if p < mid then mid - 1 else mid]
  }

  /** Adding the new entry to its half gives that half of the result. */
  lemma HalvesAfterInsert(es: seq<Entry>, p: nat, e: Entry, mid: nat)
    requires p <= |es| && 0 < mid <= |es|
    ensures
      var after := AfterInsert(es, p, e);
      if p < mid then
        AfterInsert(LeftEntries(es, p, mid), p, e) == after[..mid] && es[mid - 1..] == after[mid..]
      else
        LeftEntries(es, p, mid) == after[..mid] && AfterInsert(es[mid..], p - mid, e) == after[mid..]
  {
  }

  /** Every entry left of a boundary is below the split ikey, every other one is not. */
  lemma SplitIkeyDivides(after: seq<Entry>, mid: nat)
    requires Ordered(after) && Boundary(after, mid)
    ensures forall a :: a in after[..mid] ==> a.ikey < after[mid].ikey
    ensures forall a :: a in after[mid..] ==> after[mid].ikey <= a.ikey
  {
    forall i | 0 <= i < mid
      ensures after[i].ikey < after[mid].ikey
    {
      assert after[i].ikey <= after[mid - 1].ikey;
    }
  }

  /** A lookup goes to the left half for keys below the split ikey, else to the right one. */
  lemma LookupInHalves(es: seq<Entry>, cut: nat, x: Ikey, k: Ikey, len: nat)
    requires cut <= |es|
    requires forall a :: a in es[..cut] ==> a.ikey < x
    requires forall a :: a in es[cut..] ==> x <= a.ikey
    ensures Lookup(es, k, len) == Lookup(if k < x then es[..cut] else es[cut..], k, len)
  {
    assert es == es[..cut] + es[cut..];
    LookupJoin(es[..cut], es[cut..], k, len);
    LookupMisses(if k < x then es[cut..] else es[..cut], k, len);
  }

  lemma PartIsOk(n: Node, l: Ikey, h: nat, from: nat, till: nat, l': Ikey, h': nat, parent: Option<Ref>, hasPrev: bool, bound: Ikey)
    requires n.Leaf? && LeafOk(n, l, h) && from <= till <= |n.entries|
    requires forall a :: a in n.entries[from..till] ==> l' <= a.ikey < h'
    requires (hasPrev <==> l' != 0) && (hasPrev ==> bound == l')
    ensures LeafOk(Leaf(parent, n.entries[from..till], hasPrev, bound), l', h')
  {
  }

  /** The old entries of either half are within that half of the result. */
  lemma HalvesWithin(es: seq<Entry>, p: nat, e: Entry, mid: nat, a: Entry)
    requires p <= |es| && 0 < mid <= |es|
    ensures a in LeftEntries(es, p, mid) ==> a in AfterInsert(es, p, e)[..mid]
    ensures a in es[if p < mid then mid - 1 else mid..] ==> a in AfterInsert(es, p, e)[mid..]
  {
    HalvesAfterInsert(es, p, e, mid);
    if p < mid {
      assert forall b :: b in LeftEntries(es, p, mid) ==> b in AfterInsert(LeftEntries(es, p, mid), p, e);
    } else {
      assert forall b :: b in es[mid..] ==> b in AfterInsert(es[mid..], p - mid, e);
    }
  }

  lemma CutIsInside(es: seq<Entry>, p: nat, e: Entry, mid: nat, l: Ikey, h: nat)
    requires p <= |es| && 0 < mid <= |es| && l <= e.ikey < h && forall a :: a in es ==> l <= a.ikey < h
    requires Ordered(AfterInsert(es, p, e)) && Boundary(AfterInsert(es, p, e), mid)
    ensures l < AfterInsert(es, p, e)[mid].ikey < h
  {
    var after := AfterInsert(es, p, e);
    assert after[mid - 1] == if mid - 1 < p then es[mid - 1] else if mid - 1 == p then e else es[mid - 2];
    assert after[mid] == if mid < p then es[mid] else if mid == p then e else es[mid - 1];
  }

  /** Both halves, without the new entry, are leaves of their parts of the range. */
  lemma HalvesAreOk(n: Node, l: Ikey, h: nat, p: nat, e: Entry, mid: nat)
    requires n.Leaf? && LeafOk(n, l, h) && p <= |n.entries| && 0 < mid <= |n.entries|
    requires l <= e.ikey < h
    requires Ordered(AfterInsert(n.entries, p, e)) && Boundary(AfterInsert(n.entries, p, e), mid)
    ensures
      var x := AfterInsert(n.entries, p, e)[mid].ikey;
      && l < x < h
      && LeafOk(n.(entries := LeftEntries(n.entries, p, mid)), l, x)
      && LeafOk(Leaf(None, n.entries[if p < mid then mid - 1 else mid..], true, x), x, h)
  {
    var es := n.entries;
    var x := AfterInsert(es, p, e)[mid].ikey;
    var cut := if p < mid then mid - 1 else mid;
    SplitIkeyDivides(AfterInsert(es, p, e), mid);
    CutIsInside(es, p, e, mid, l, h);
    assert es[0..cut] == LeftEntries(es, p, mid) && es[cut..|es|] == es[cut..];
    forall a | a in es
      ensures a in es[0..cut] ==> a.ikey < x
      ensures a in es[cut..|es|] ==> x <= a.ikey
    {
      HalvesWithin(es, p, e, mid, a);
    }
    hide AfterInsert, LeftEntries, Ordered;
    PartIsOk(n, l, h, 0, cut, l, x, n.parent, n.hasPrev, n.bound);
    PartIsOk(n, l, h, cut, |es|, x, h, None, true, x);
  }

  lemma LengthsKept(es: seq<Entry>, p: nat, e: Entry, n: Node, l: Ikey, h: nat)
    requires p <= |es| && e.len <= 9 && n.Leaf? && n.entries == es && LeafOk(n, l, h)
    ensures forall a :: a in AfterInsert(es, p, e) ==> a.len <= 9
  {
    forall a | a in AfterInsert(es, p, e)
      ensures a == e || a in es
    {
    }
  }

  /** `e` is not among the entries and belongs at `at`. */
  ghost predicate Place(es: seq<Entry>, at: nat, e: Entry) {
    && at <= |es|
    && (forall j :: 0 <= j < at ==> Before(es[j], e.ikey, e.len))
    && (forall j :: at <= j < |es| ==> After(es[j], e.ikey, e.len))
  }

  /** The half that the new entry belongs to, and its place there. */
  lemma PlaceInHalf(es: seq<Entry>, p: nat, e: Entry, mid: nat)
    requires Ordered(es) && Place(es, p, e) && 0 < mid <= |es|
    requires Boundary(AfterInsert(es, p, e), mid)
    ensures var x := AfterInsert(es, p, e)[mid].ikey; e.ikey < x <==> p < mid
    ensures if p < mid then Place(LeftEntries(es, p, mid), p, e) else Place(es[mid..], p - mid, e)
  {
    var after := AfterInsert(es, p, e);
    InsertKeepsOrder(es, p, e);
    SplitIkeyDivides(after, mid);
    if p < mid {
      assert after[..mid][p] == e;
    } else {
      assert after[mid..][p - mid] == e;
    }
  }

  /** `after` finds `v` under one key (or nothing), and what `es` finds under every other. */
  ghost predicate LookupWith(es: seq<Entry>, k0: Ikey, len0: nat, v: Option<Content>, after: seq<Entry>) {
    forall k, len :: Lookup(after, k, len) == if k == k0 && len == len0 then v else Lookup(es, k, len)
  }

  lemma InsertIsOk(n: Node, l: Ikey, h: nat, at: nat, e: Entry)
    requires n.Leaf? && LeafOk(n, l, h) && Place(n.entries, at, e) && l <= e.ikey < h && e.len <= 9
    ensures LeafOk(n.(entries := AfterInsert(n.entries, at, e)), l, h)
    ensures LookupWith(n.entries, e.ikey, e.len, Some(e.value), AfterInsert(n.entries, at, e))
  {
    InsertKeepsOrder(n.entries, at, e);
    forall k, len
      ensures Lookup(AfterInsert(n.entries, at, e), k, len) ==
        if k == e.ikey && len == e.len then Some(e.value) else Lookup(n.entries, k, len)
    {
      LookupAfterInsert(n.entries, at, e, k, len);
    }
  }

  lemma UpdateIsOk(n: Node, l: Ikey, h: nat, at: nat, v: Content)
    requires n.Leaf? && LeafOk(n, l, h) && at < |n.entries|
    ensures var es := n.entries[at := n.entries[at].(value := v)];
      && LeafOk(n.(entries := es), l, h)
      && LookupWith(n.entries, n.entries[at].ikey, n.entries[at].len, Some(v), es)
  {
    var es := n.entries[at := n.entries[at].(value := v)];
    forall k, len
      ensures Lookup(es, k, len) ==
        if k == n.entries[at].ikey && len == n.entries[at].len then Some(v) else Lookup(n.entries, k, len)
    {
      LookupAfterUpdate(n.entries, at, v, k, len);
    }
  }

  lemma RemoveIsOk(n: Node, l: Ikey, h: nat, at: nat)
    requires n.Leaf? && LeafOk(n, l, h) && at < |n.entries|
    ensures var es := n.entries[..at] + n.entries[at + 1..];
      && LeafOk(n.(entries := es), l, h)
      && LookupWith(n.entries, n.entries[at].ikey, n.entries[at].len, None, es)
  {
    var es := n.entries[..at] + n.entries[at + 1..];
    forall k, len
      ensures Lookup(es, k, len) ==
        if k == n.entries[at].ikey && len == n.entries[at].len then None else Lookup(n.entries, k, len)
    {
      LookupAfterRemove(n.entries, at, k, len);
    }
  }
}
