/** The doubly linked list of leaves under concurrent splits and unlinks: btree_leaflink.hh.

  The low bit of a leaf's `next_` is a mark that locks the link.  Any number of threads run
  `link_split` and `unlink`, one shared-memory access at a time. */
module LeafLink {
  import opened Options

  type Node = nat
  type Thread = nat

  /** `next_`: null, or a node with the mark bit. */
  datatype Link = Null | To(node: Node, marked: bool)

  /** What a thread does next, with its local variables. */
  datatype Pc =
    | SplitPrev(n: Node, nr: Node)
    | SplitRead(n: Node, nr: Node)
    | SplitCas(n: Node, nr: Node, seen: Node)
    | SplitNext(n: Node, nr: Node, succ: Option<Node>)
    | SplitBack(n: Node, nr: Node, succ: Option<Node>)
    | SplitPublish(n: Node, nr: Node, succ: Option<Node>)
    | UnlinkRead(n: Node)
    | UnlinkCas(n: Node, seen: Node)
    | UnlinkPrev(n: Node, succ: Option<Node>)
    | UnlinkPrevCas(n: Node, succ: Option<Node>, p: Node)
    | UnlinkBack(n: Node, succ: Option<Node>, p: Node)
    | UnlinkPublish(n: Node, succ: Option<Node>, p: Node)

  /** `next` and `prev` are the fields of all leaves made so far.  `list` and `dead` are
      history variables: the leaves linked and not unlinked, in order, and those unlinked. */
  datatype Memory = Memory(next: map<Node, Link>, prev: map<Node, Option<Node>>, list: seq<Node>, dead: set<Node>)

  datatype State = State(m: Memory, pc: map<Thread, Pc>)

  datatype Step =
    | BeginSplit(t: Thread, n: Node, nr: Node, link: Link, back: Option<Node>)
    | BeginUnlink(t: Thread, n: Node)
    | Advance(t: Thread)

  // ----- the abstract list

  ghost predicate Distinct(l: seq<Node>) {
    forall i, j :: 0 <= i < j < |l| ==> l[i] != l[j]
  }

  ghost function IndexOf(l: seq<Node>, a: Node): (i: nat)
    requires a in l
    ensures i < |l| && l[i] == a
  {
    var i :| 0 <= i < |l| && l[i] == a;
    i
  }

  ghost function Succ(l: seq<Node>, a: Node): Option<Node>
    requires a in l
  {
    if IndexOf(l, a) + 1 < |l| then Some(l[IndexOf(l, a) + 1]) else None
  }

  ghost function Pred(l: seq<Node>, a: Node): Option<Node>
    requires a in l
  {
    if IndexOf(l, a) > 0 then Some(l[IndexOf(l, a) - 1]) else None
  }

  ghost function InsertAfter(l: seq<Node>, a: Node, x: Node): seq<Node>
    requires a in l
  {
    l[..IndexOf(l, a) + 1] + [x] + l[IndexOf(l, a) + 1..]
  }

  ghost function Remove(l: seq<Node>, a: Node): seq<Node>
    requires a in l
  {
    l[..IndexOf(l, a)] + l[IndexOf(l, a) + 1..]
  }

  lemma AtIndex(l: seq<Node>, i: nat)
    requires Distinct(l) && i < |l|
    ensures IndexOf(l, l[i]) == i
    ensures Succ(l, l[i]) == if i + 1 < |l| then Some(l[i + 1]) else None
    ensures Pred(l, l[i]) == if i > 0 then Some(l[i - 1]) else None
  {
  }

  lemma SuccPred(l: seq<Node>, a: Node)
    requires Distinct(l) && a in l
    ensures Succ(l, a).Some? ==> Succ(l, a).value in l && Pred(l, Succ(l, a).value) == Some(a)
    ensures Pred(l, a).Some? ==> Pred(l, a).value in l && Succ(l, Pred(l, a).value) == Some(a)
    ensures Succ(l, a) != Some(a) && Pred(l, a) != Some(a)
  {
    var i := IndexOf(l, a);
    if i + 1 < |l| {
      AtIndex(l, i + 1);
    }
    if i > 0 {
      AtIndex(l, i - 1);
    }
  }

  lemma InsertShape(l: seq<Node>, a: Node, x: Node)
    requires Distinct(l) && a in l && x !in l
    ensures
      var i, l' := IndexOf(l, a), InsertAfter(l, a, x);
      && Distinct(l') && |l'| == |l| + 1 && l'[i + 1] == x
      && forall j :: 0 <= j < |l| ==> l'[if j <= i then j else j + 1] == l[j]
    ensures forall y :: y in InsertAfter(l, a, x) <==> y in l || y == x
  {
    var i, l' := IndexOf(l, a), InsertAfter(l, a, x);
    assert forall j :: 0 <= j < |l'| ==> l'[j] == if j <= i then l[j] else if j == i + 1 then x else l[j - 1];
    assert forall j :: 0 <= j < |l| ==> l'[if j <= i then j else j + 1] == l[j];
  }

  lemma InsertAt(l: seq<Node>, a: Node, x: Node, y: Node)
    requires Distinct(l) && a in l && x !in l && y in l
    ensures y in InsertAfter(l, a, x)
    ensures Succ(InsertAfter(l, a, x), y) == if y == a then Some(x) else Succ(l, y)
    ensures Pred(InsertAfter(l, a, x), y) == if Succ(l, a) == Some(y) then Some(x) else Pred(l, y)
  {
    InsertShape(l, a, x);
    var i, j, l' := IndexOf(l, a), IndexOf(l, y), InsertAfter(l, a, x);
    AtIndex(l, i);
    AtIndex(l, j);
    hide InsertAfter, Succ, Pred;
    if j <= i {
      assert l'[j] == y && (j < i ==> l'[j + 1] == l[j + 1]) && (j > 0 ==> l'[j - 1] == l[j - 1]);
      AtIndex(l', j);
    } else {
      assert l'[j + 1] == y && (j + 1 < |l| ==> l'[j + 2] == l[j + 1]) && (j > i + 1 ==> l'[j] == l[j - 1]);
      AtIndex(l', j + 1);
    }
  }

  /** `l'` is `l` with `x` after `a`. */
  ghost predicate Inserted(l: seq<Node>, l': seq<Node>, a: Node, x: Node) {
    && Distinct(l') && a in l && x !in l
    && (forall y :: y in l' <==> y in l || y == x)
    && (forall y :: y in l ==> Succ(l', y) == if y == a then Some(x) else Succ(l, y))
    && (forall y :: y in l ==> Pred(l', y) == if Succ(l, a) == Some(y) then Some(x) else Pred(l, y))
    && Succ(l', x) == Succ(l, a) && Pred(l', x) == Some(a)
  }

  lemma InsertFacts(l: seq<Node>, a: Node, x: Node)
    requires Distinct(l) && a in l && x !in l
    ensures Inserted(l, InsertAfter(l, a, x), a, x)
  {
    InsertShape(l, a, x);
    AtIndex(InsertAfter(l, a, x), IndexOf(l, a) + 1);
    forall y | y in l
      ensures y in InsertAfter(l, a, x)
      ensures Succ(InsertAfter(l, a, x), y) == (if y == a then Some(x) else Succ(l, y))
      ensures Pred(InsertAfter(l, a, x), y) == if Succ(l, a) == Some(y) then Some(x) else Pred(l, y)
    {
      InsertAt(l, a, x, y);
    }
  }

  lemma RemoveShape(l: seq<Node>, a: Node)
    requires Distinct(l) && a in l
    ensures
      var i, l' := IndexOf(l, a), Remove(l, a);
      && Distinct(l') && |l'| == |l| - 1
      && forall j :: 0 <= j < |l'| ==> l'[j] == l[if j < i then j else j + 1]
    ensures forall y :: y in Remove(l, a) <==> y in l && y != a
  {
    var i, l' := IndexOf(l, a), Remove(l, a);
    forall y | y in l && y != a
      ensures y in l'
    {
      var j := IndexOf(l, y);
      assert l'[if j < i then j else j - 1] == y;
    }
  }

  lemma RemoveAt(l: seq<Node>, a: Node, y: Node)
    requires Distinct(l) && a in l && y in l && y != a
    ensures y in Remove(l, a)
    ensures Succ(Remove(l, a), y) == if Succ(l, y) == Some(a) then Succ(l, a) else Succ(l, y)
    ensures Pred(Remove(l, a), y) == if Pred(l, y) == Some(a) then Pred(l, a) else Pred(l, y)
  {
    RemoveShape(l, a);
    var i, j, l' := IndexOf(l, a), IndexOf(l, y), Remove(l, a);
    assert l'[if j < i then j else j - 1] == y;
    AtIndex(l', if j < i then j else j - 1);
  }

  /** `l'` is `l` without `a`, which stood between `p` and the rest. */
  ghost predicate Removed(l: seq<Node>, l': seq<Node>, a: Node) {
    && Distinct(l') && a in l
    && (forall y :: y in l' <==> y in l && y != a)
    && (forall y :: y in l' ==> Succ(l', y) == if Succ(l, y) == Some(a) then Succ(l, a) else Succ(l, y))
    && (forall y :: y in l' ==> Pred(l', y) == if Pred(l, y) == Some(a) then Pred(l, a) else Pred(l, y))
  }

  lemma RemoveFacts(l: seq<Node>, a: Node)
    requires Distinct(l) && a in l
    ensures Removed(l, Remove(l, a), a)
  {
    RemoveShape(l, a);
    forall y | y in l && y != a
      ensures y in Remove(l, a)
      ensures Succ(Remove(l, a), y) == (if Succ(l, y) == Some(a) then Succ(l, a) else Succ(l, y))
      ensures Pred(Remove(l, a), y) == if Pred(l, y) == Some(a) then Pred(l, a) else Pred(l, y)
    {
      RemoveAt(l, a, y);
    }
  }

  // ----- the protocol

  function Free(succ: Option<Node>): Link {
    if succ.Some? then To(succ.value, false) else Null
  }

  function Locked(succ: Option<Node>): Link {
    if succ.Some? then To(succ.value, true) else Null
  }

  /** Nodes whose lock the caller of the operation holds. */
  function Busy(c: Pc): set<Node> {
    if c.SplitPrev? || c.SplitRead? || c.SplitCas? || c.SplitNext? || c.SplitBack? || c.SplitPublish?
    then {c.n, c.nr} else {c.n}
  }

  /** The new leaf until it is inserted. */
  function Pending(c: Pc): set<Node> {
    if c.SplitPrev? || c.SplitRead? || c.SplitCas? || c.SplitNext? || c.SplitBack? then {c.nr} else {}
  }

  /** Nodes whose `next_` the thread has locked. */
  function Owned(c: Pc): set<Node> {
    if c.SplitNext? || c.SplitBack? || c.SplitPublish? || c.UnlinkPrev? || c.UnlinkPrevCas? then {c.n}
    else if c.UnlinkBack? then {c.n, c.p}
    else if c.UnlinkPublish? then {c.p}
    else {}
  }

  ghost predicate CanStep(s: State, step: Step) {
    match step
    case BeginSplit(t, n, nr, _, _) =>
      t !in s.pc && n in s.m.list && nr !in s.m.next && (forall u :: u in s.pc ==> n !in Busy(s.pc[u]))
    case BeginUnlink(t, n) =>
      t !in s.pc && n in s.m.list && n in s.m.prev && s.m.prev[n].Some? && (forall u :: u in s.pc ==> n !in Busy(s.pc[u]))
    case Advance(t) => t in s.pc
  }

  /** One access of a thread at `c`: the memory and where the thread goes, if anywhere.
      A node that is missing from the maps is never reached. */
  ghost function Access(m: Memory, c: Pc): (Memory, Option<Pc>) {
    match c
    case SplitPrev(n, nr) => (m.(prev := m.prev[nr := Some(n)]), Some(SplitRead(n, nr)))
    case SplitRead(n, nr) =>
      if n !in m.next then (m, Some(c))
      else if m.next[n] == Null then (m, Some(SplitNext(n, nr, None)))
      else if m.next[n].marked then (m, Some(c))
      else (m, Some(SplitCas(n, nr, m.next[n].node)))
    case SplitCas(n, nr, seen) =>
      if n in m.next && m.next[n] == To(seen, false)
      then (m.(next := m.next[n := To(seen, true)]), Some(SplitNext(n, nr, Some(seen))))
      else (m, Some(SplitRead(n, nr)))
    case SplitNext(n, nr, succ) => (m.(next := m.next[nr := Free(succ)]), Some(SplitBack(n, nr, succ)))
    case SplitBack(n, nr, succ) =>
      (m.(prev := if succ.Some? then m.prev[succ.value := Some(nr)] else m.prev,
          list := if n in m.list then InsertAfter(m.list, n, nr) else m.list),
       Some(SplitPublish(n, nr, succ)))
    case SplitPublish(n, nr, _) => (m.(next := m.next[n := To(nr, false)]), None)
    case UnlinkRead(n) =>
      if n !in m.next then (m, Some(c))
      else if m.next[n] == Null then (m, Some(UnlinkPrev(n, None)))
      else if m.next[n].marked then (m, Some(c))
      else (m, Some(UnlinkCas(n, m.next[n].node)))
    case UnlinkCas(n, seen) =>
      if n in m.next && m.next[n] == To(seen, false)
      then (m.(next := m.next[n := To(seen, true)]), Some(UnlinkPrev(n, Some(seen))))
      else (m, Some(UnlinkRead(n)))
    case UnlinkPrev(n, succ) =>
      if n in m.prev && m.prev[n].Some? then (m, Some(UnlinkPrevCas(n, succ, m.prev[n].value))) else (m, Some(c))
    case UnlinkPrevCas(n, succ, p) =>
      if p in m.next && m.next[p] == To(n, false)
      then (m.(next := m.next[p := To(n, true)]), Some(UnlinkBack(n, succ, p)))
      else (m, Some(UnlinkPrev(n, succ)))
    case UnlinkBack(n, succ, p) =>
      (m.(prev := if succ.Some? then m.prev[succ.value := Some(p)] else m.prev,
          list := if n in m.list then Remove(m.list, n) else m.list,
          dead := m.dead + {n}),
       Some(UnlinkPublish(n, succ, p)))
    case UnlinkPublish(n, succ, p) => (m.(next := m.next[p := Free(succ)]), None)
  }

  ghost function Next(s: State, step: Step): State
    requires CanStep(s, step)
  {
    match step
    case BeginSplit(t, n, nr, link, back) =>
      State(s.m.(next := s.m.next[nr := link], prev := s.m.prev[nr := back]), s.pc[t := SplitPrev(n, nr)])
    case BeginUnlink(t, n) => s.(pc := s.pc[t := UnlinkRead(n)])
    case Advance(t) =>
      var (m, c) := Access(s.m, s.pc[t]);
      State(m, if c.Some? then s.pc[t := c.value] else s.pc - {t})
  }

  // ----- the invariant

  ghost predicate Shape(m: Memory) {
    && Distinct(m.list) && m.list != []
    && m.next.Keys == m.prev.Keys
    && (forall x :: x in m.list ==> x in m.next)
    && (forall x :: x in m.dead ==> x in m.next && x !in m.list)
  }

  /** What a thread may rely on at each point of its operation. */
  ghost predicate PcOk(m: Memory, c: Pc)
    requires Shape(m)
  {
    match c
    case SplitPrev(n, nr) => n in m.list && nr in m.next
    case SplitRead(n, nr) => n in m.list && nr in m.next && m.prev[nr] == Some(n)
    case SplitCas(n, nr, _) => n in m.list && nr in m.next && m.prev[nr] == Some(n)
    case SplitNext(n, nr, succ) => nr in m.next && m.prev[nr] == Some(n) && HasLocked(m, n, succ)
    case SplitBack(n, nr, succ) =>
      nr in m.next && m.prev[nr] == Some(n) && HasLocked(m, n, succ) && m.next[nr] == Free(succ)
    case SplitPublish(n, nr, succ) =>
      n in m.list && nr in m.list && Succ(m.list, n) == Some(nr) && m.next[n] == Locked(succ)
    case UnlinkRead(n) => n in m.list && m.prev[n].Some?
    case UnlinkCas(n, _) => n in m.list && m.prev[n].Some?
    case UnlinkPrev(n, succ) => HasLocked(m, n, succ) && m.prev[n].Some?
    case UnlinkPrevCas(n, succ, p) => HasLocked(m, n, succ) && m.prev[n].Some? && (p in m.list || p in m.dead)
    case UnlinkBack(n, succ, p) => HasLocked(m, n, succ) && HasLocked(m, p, Some(n))
    case UnlinkPublish(n, succ, p) =>
      n in m.dead && p in m.list && Succ(m.list, p) == succ && m.next[p] == To(n, true)
  }

  ghost predicate HasLocked(m: Memory, n: Node, succ: Option<Node>)
    requires Shape(m)
  {
    n in m.list && Succ(m.list, n) == succ && m.next[n] == Locked(succ)
  }

  ghost predicate IsPending(s: State, x: Node) { exists t :: t in s.pc && x in Pending(s.pc[t]) }

  ghost predicate IsOwned(s: State, x: Node) { exists t :: t in s.pc && x in Owned(s.pc[t]) }

  /** Every leaf is linked, dead, or the new leaf of one running split. */
  ghost predicate Placed(s: State) {
    && (forall x {:trigger IsPending(s, x)} :: x in s.m.next ==> x in s.m.list || x in s.m.dead || IsPending(s, x))
    && (forall t, x :: t in s.pc && x in Pending(s.pc[t]) ==> x in s.m.next && x !in s.m.list && x !in s.m.dead)
  }

  /** `prev` is exact at every access; `next` wherever no thread owns it; and dead leaves
      keep a mark that makes every compare-and-swap on them fail. */
  ghost predicate Links(s: State)
    requires Shape(s.m)
  {
    && (forall x {:trigger s.m.prev[x]} :: x in s.m.list ==> s.m.prev[x] == Pred(s.m.list, x))
    && (forall x {:trigger s.m.next[x]} :: x in s.m.list && !IsOwned(s, x) ==> s.m.next[x] == Free(Succ(s.m.list, x)))
    && (forall x {:trigger s.m.next[x]} :: x in s.m.dead ==> s.m.next[x] == Null || s.m.next[x].marked)
  }

  ghost predicate Threads(s: State)
    requires Shape(s.m)
  {
    && (forall t {:trigger PcOk(s.m, s.pc[t])} :: t in s.pc ==> PcOk(s.m, s.pc[t]))
    && (forall t, u :: t in s.pc && u in s.pc && t != u ==>
          Busy(s.pc[t]) !! Busy(s.pc[u]) && Owned(s.pc[t]) !! Owned(s.pc[u]))
  }

  ghost predicate Inv(s: State) {
    Shape(s.m) && Placed(s) && Links(s) && Threads(s)
  }

  // ----- what one thread does to the others

  /** The part of memory a thread at `c` relies on is kept. */
  ghost predicate Frame(m: Memory, m': Memory, c: Pc)
    requires Shape(m) && Shape(m')
  {
    && (forall x :: x in m.next ==> x in m'.next)
    && (forall x :: x in m.list || x in m.dead ==> x in m'.list || x in m'.dead)
    && m.dead <= m'.dead
    && (forall x :: x in Busy(c) && x in m.list ==> x in m'.list && (m.prev[x].Some? ==> m'.prev[x].Some?))
    && (forall x :: x in Owned(c) && x in m.list ==> x in m'.list && m'.next[x] == m.next[x] && Succ(m'.list, x) == Succ(m.list, x))
    && (forall x :: x in Pending(c) && x in m.next ==> m'.next[x] == m.next[x] && m'.prev[x] == m.prev[x])
  }

  lemma Stable(m: Memory, m': Memory, c: Pc)
    requires Shape(m) && Shape(m') && PcOk(m, c) && Frame(m, m', c)
    ensures PcOk(m', c)
  {
    hide Succ, Distinct;
  }

  /** An owned link is marked or null, so no compare-and-swap takes it. */
  lemma OwnedIsLocked(m: Memory, c: Pc, x: Node)
    requires Shape(m) && PcOk(m, c) && x in Owned(c)
    ensures x in m.list && (m.next[x] == Null || m.next[x].marked)
    ensures m.next[x] == Null ==> x in Busy(c)
  {
    hide Succ, Distinct;
  }

  ghost predicate OthersSame(s: State, s': State, t: Thread) {
    forall u :: u != t ==> (u in s.pc <==> u in s'.pc) && (u in s.pc ==> s.pc[u] == s'.pc[u])
  }

  lemma OwnedElsewhere(s: State, s': State, t: Thread)
    requires OthersSame(s, s', t)
    ensures forall x :: IsOwned(s, x) && !(t in s.pc && x in Owned(s.pc[t])) ==> IsOwned(s', x)
    ensures forall x :: t in s'.pc && x in Owned(s'.pc[t]) ==> IsOwned(s', x)
    ensures forall x :: IsPending(s, x) && !(t in s.pc && x in Pending(s.pc[t])) ==> IsPending(s', x)
    ensures forall x :: t in s'.pc && x in Pending(s'.pc[t]) ==> IsPending(s', x)
  {
    hide Owned, Pending;
    forall x | IsOwned(s, x) && !(t in s.pc && x in Owned(s.pc[t]))
      ensures IsOwned(s', x)
    {
      var u :| u in s.pc && x in Owned(s.pc[u]);
      assert u in s'.pc && x in Owned(s'.pc[u]);
    }
    forall x | IsPending(s, x) && !(t in s.pc && x in Pending(s.pc[t]))
      ensures IsPending(s', x)
    {
      var u :| u in s.pc && x in Pending(s.pc[u]);
      assert u in s'.pc && x in Pending(s'.pc[u]);
    }
  }

  /** The step of one thread, seen from the invariant: its own new place is right, what others
      rely on is framed, and the links and places are right. */
  lemma StepKeepsInv(s: State, s': State, t: Thread)
    requires Inv(s) && OthersSame(s, s', t) && Shape(s'.m)
    requires forall u :: u in s.pc && u != t ==> Frame(s.m, s'.m, s.pc[u])
    requires t in s'.pc ==> PcOk(s'.m, s'.pc[t])
    requires t in s'.pc ==> forall u :: u in s.pc && u != t ==> Busy(s'.pc[t]) !! Busy(s.pc[u]) && Owned(s'.pc[t]) !! Owned(s.pc[u])
    requires Placed(s') && Links(s')
    ensures Inv(s')
  {
    hide Succ, Distinct, Owned, Busy, Pending, Frame, PcOk;
    forall u | u in s'.pc
      ensures PcOk(s'.m, s'.pc[u])
    {
      if u != t {
        Stable(s.m, s'.m, s.pc[u]);
      }
    }
  }

  // ----- the accesses

  /** A step that leaves memory alone: reading, spinning, a failed compare-and-swap, and taking
      a null link, which needs no mark. */
  lemma SameMemory(s: State, t: Thread, c: Pc)
    requires Inv(s) && t in s.pc && PcOk(s.m, c)
    requires Busy(c) == Busy(s.pc[t]) && Pending(c) == Pending(s.pc[t]) && Owned(s.pc[t]) <= Owned(c)
    requires forall u :: u in s.pc && u != t ==> Owned(c) !! Owned(s.pc[u])
    ensures Inv(s.(pc := s.pc[t := c]))
  {
    hide Succ, Pred, Distinct, PcOk, Busy, Pending, Owned, IsOwned, IsPending;
    var s' := s.(pc := s.pc[t := c]);
    OwnedElsewhere(s, s', t);
    StepKeepsInv(s, s', t);
  }

  /** Nobody owns an unmarked link, nor a null link of a leaf that `t` holds. */
  lemma Unowned(s: State, t: Thread, n: Node)
    requires Inv(s) && t in s.pc && n in s.m.list && n !in Owned(s.pc[t])
    requires s.m.next[n] == Null ==> n in Busy(s.pc[t])
    requires s.m.next[n] == Null || !s.m.next[n].marked
    ensures s.m.next[n] == Free(Succ(s.m.list, n))
    ensures forall u :: u in s.pc ==> n !in Owned(s.pc[u])
  {
    hide Succ, Pred, Distinct, PcOk, Busy, Pending, Owned;
    forall u | u in s.pc && u != t
      ensures n !in Owned(s.pc[u])
    {
      if n in Owned(s.pc[u]) {
        OwnedIsLocked(s.m, s.pc[u], n);
      }
    }
    assert !IsOwned(s, n);
  }

  /** Writing the `next_` of a leaf that the other thread neither owns nor is making. */
  lemma WriteNextFrame(m: Memory, n: Node, link: Link, c: Pc)
    requires Shape(m) && n in m.next && n !in Owned(c) && n !in Pending(c)
    ensures Shape(m.(next := m.next[n := link])) && Frame(m, m.(next := m.next[n := link]), c)
  {
    hide Succ, Distinct, Busy, Owned, Pending;
  }

  /** A successful compare-and-swap that sets the mark of `n`. */
  lemma Marking(s: State, t: Thread, n: Node, c: Pc, s': State)
    requires Inv(s) && t in s.pc && n in s.m.list && n !in Owned(s.pc[t])
    requires s.m.next[n].To? && !s.m.next[n].marked
    requires s' == State(s.m.(next := s.m.next[n := To(s.m.next[n].node, true)]), s.pc[t := c])
    requires Busy(c) == Busy(s.pc[t]) && Pending(c) == Pending(s.pc[t]) && Owned(c) == Owned(s.pc[t]) + {n}
    requires Shape(s'.m) ==> PcOk(s'.m, c)
    ensures Inv(s')
  {
    hide Succ, Pred, Distinct, PcOk, Busy, Pending, Owned, IsOwned, IsPending, Frame;
    Unowned(s, t, n);
    OwnedElsewhere(s, s', t);
    forall u | u in s.pc && u != t
      ensures Shape(s'.m) && Frame(s.m, s'.m, s.pc[u])
    {
      PendingNotLinked(s, u);
      WriteNextFrame(s.m, n, s'.m.next[n], s.pc[u]);
    }
    assert Shape(s'.m) && Placed(s') && Links(s');
    hide Shape, Placed, Links;
    StepKeepsInv(s, s', t);
  }

  lemma PendingNotLinked(s: State, u: Thread)
    requires Placed(s) && u in s.pc
    ensures forall x :: x in Pending(s.pc[u]) ==> x in s.m.next && x !in s.m.list && x !in s.m.dead
  {
  }

  lemma WritePendingFrame(m: Memory, x: Node, link: Link, back: Option<Node>, c: Pc)
    requires Shape(m) && x in m.next && x !in m.list && x !in Owned(c) && x !in Pending(c) && PcOk(m, c)
    ensures Shape(m.(next := m.next[x := link], prev := m.prev[x := back]))
    ensures Frame(m, m.(next := m.next[x := link], prev := m.prev[x := back]), c)
  {
    hide Succ, Distinct, Busy, Owned, Pending, PcOk;
  }

  /** Another thread neither owns nor makes the leaf that `t` is making. */
  lemma PendingIsPrivate(s: State, t: Thread, u: Thread, x: Node)
    requires Inv(s) && t in s.pc && u in s.pc && t != u && x in Pending(s.pc[t])
    ensures x in s.m.next && x !in s.m.list && x !in s.m.dead
    ensures x !in Pending(s.pc[u]) && x !in Owned(s.pc[u])
  {
    hide Succ, Pred, Distinct, IsOwned, IsPending;
    PendingNotLinked(s, t);
    if x in Owned(s.pc[u]) {
      OwnedIsLocked(s.m, s.pc[u], x);
    }
    assert Pending(s.pc[u]) <= Busy(s.pc[u]) && Pending(s.pc[t]) <= Busy(s.pc[t]);
  }

  /** The places of leaves do not change with a thread's place, nor with what links hold. */
  lemma SamePlaces(s: State, s': State, t: Thread)
    requires Placed(s) && OthersSame(s, s', t) && t in s.pc && t in s'.pc
    requires Pending(s'.pc[t]) == Pending(s.pc[t])
    requires s'.m.next.Keys == s.m.next.Keys && s'.m.list == s.m.list && s'.m.dead == s.m.dead
    ensures Placed(s')
  {
    hide Pending;
    OwnedElsewhere(s, s', t);
    hide IsPending;
  }

  lemma WritePendingLinks(s: State, s': State, t: Thread, nr: Node)
    requires Shape(s.m) && Links(s) && OthersSame(s, s', t) && t in s.pc && t in s'.pc
    requires nr in s.m.next && nr !in s.m.list && nr !in s.m.dead
    requires s'.m == s.m.(next := s'.m.next, prev := s'.m.prev) && nr in s'.m.next && nr in s'.m.prev
    requires s'.m.next == s.m.next[nr := s'.m.next[nr]] && s'.m.prev == s.m.prev[nr := s'.m.prev[nr]]
    requires Owned(s'.pc[t]) == Owned(s.pc[t])
    ensures Shape(s'.m) && Links(s')
  {
    OwnedElsewhere(s, s', t);
    hide Succ, Pred, Distinct, Owned, IsOwned, OthersSame;
  }

  /** Stores to the two fields of a new leaf that only its own split can see. */
  lemma WritePending(s: State, t: Thread, nr: Node, link: Link, back: Option<Node>, c: Pc, s': State)
    requires Inv(s) && t in s.pc && nr in Pending(s.pc[t])
    requires s' == State(s.m.(next := s.m.next[nr := link], prev := s.m.prev[nr := back]), s.pc[t := c])
    requires Busy(c) == Busy(s.pc[t]) && Pending(c) == Pending(s.pc[t]) && Owned(c) == Owned(s.pc[t])
    requires Shape(s'.m) ==> PcOk(s'.m, c)
    ensures Inv(s')
  {
    hide Succ, Pred, Distinct, PcOk, Busy, Pending, Owned, Frame, Shape, Placed, Links, Threads;
    PcHolds(s, t);
    PendingNotLinked(s, t);
    SamePlaces(s, s', t);
    WritePendingLinks(s, s', t, nr);
    BusyApart(s, t);
    forall u | u in s.pc && u != t
      ensures Frame(s.m, s'.m, s.pc[u])
    {
      PcHolds(s, u);
      PendingIsPrivate(s, t, u, nr);
      WritePendingFrame(s.m, nr, link, back, s.pc[u]);
    }
    StepKeepsInv(s, s', t);
  }

  /** The last store of an operation: the link that was behind the list catches up. */
  lemma Publishing(s: State, t: Thread, n: Node, s': State)
    requires Inv(s) && t in s.pc && n in s.m.list
    requires s' == State(s.m.(next := s.m.next[n := Free(Succ(s.m.list, n))]), s.pc - {t})
    requires Owned(s.pc[t]) == {n} && Pending(s.pc[t]) == {}
    ensures Inv(s')
  {
    hide Succ, Pred, Distinct, PcOk, Busy, Pending, Owned, IsOwned, IsPending, Frame;
    OwnedElsewhere(s, s', t);
    forall u | u in s.pc && u != t
      ensures Shape(s'.m) && Frame(s.m, s'.m, s.pc[u])
    {
      PendingNotLinked(s, u);
      WriteNextFrame(s.m, n, s'.m.next[n], s.pc[u]);
    }
    assert Shape(s'.m) && Placed(s') && Links(s');
    hide Shape, Placed, Links;
    StepKeepsInv(s, s', t);
  }

  ghost predicate PendingOutside(m: Memory, c: Pc) {
    forall x :: x in Pending(c) ==> x in m.next && x !in m.list && x !in m.dead
  }

  function PointBack(prev: map<Node, Option<Node>>, succ: Option<Node>, x: Node): map<Node, Option<Node>> {
    if succ.Some? then prev[succ.value := Some(x)] else prev
  }

  lemma InsertShapeKept(m: Memory, m': Memory, n: Node, nr: Node)
    requires Shape(m) && n in m.list && nr in m.next && nr !in m.dead
    requires Inserted(m.list, m'.list, n, nr)
    requires m' == m.(prev := PointBack(m.prev, Succ(m.list, n), nr), list := m'.list)
    ensures Shape(m')
  {
    SuccPred(m.list, n);
    hide Succ, Pred, Distinct;
  }

  lemma InsertFrame(m: Memory, m': Memory, n: Node, nr: Node, c: Pc)
    requires Shape(m) && Shape(m') && n in m.list && PcOk(m, c) && PendingOutside(m, c)
    requires n !in Owned(c)
    requires Inserted(m.list, m'.list, n, nr)
    requires m' == m.(prev := PointBack(m.prev, Succ(m.list, n), nr), list := m'.list)
    ensures Frame(m, m', c)
  {
    SuccPred(m.list, n);
    hide Succ, Pred, Distinct, Shape, Busy, Owned, Pending, PcOk;
  }

  lemma InsertedLinks(s: State, s': State, t: Thread, n: Node, nr: Node)
    requires Shape(s.m) && Links(s) && t in s.pc && t in s'.pc && OthersSame(s, s', t)
    requires Owned(s.pc[t]) == Owned(s'.pc[t]) == {n}
    requires Shape(s'.m) && Inserted(s.m.list, s'.m.list, n, nr) && nr in s.m.next
    requires s.m.prev[nr] == Some(n) && s.m.next[nr] == Free(Succ(s.m.list, n))
    requires s'.m == s.m.(prev := PointBack(s.m.prev, Succ(s.m.list, n), nr), list := s'.m.list)
    ensures Links(s')
  {
    SuccPred(s.m.list, n);
    OwnedElsewhere(s, s', t);
    hide Succ, Pred, Distinct, Owned, IsOwned, OthersSame;
  }

  lemma InsertedPlaces(s: State, s': State, t: Thread, nr: Node)
    requires Inv(s) && t in s.pc && t in s'.pc && OthersSame(s, s', t)
    requires Pending(s.pc[t]) == {nr} && Pending(s'.pc[t]) == {}
    requires s'.m.next == s.m.next && s'.m.dead == s.m.dead
    requires exists a :: Inserted(s.m.list, s'.m.list, a, nr)
    ensures Placed(s')
  {
    hide Succ, Pred, Distinct, Owned, IsOwned, Frame, Links, PcOk;
    OwnedElsewhere(s, s', t);
    forall u, x | u in s'.pc && x in Pending(s'.pc[u])
      ensures x in s'.m.next && x !in s'.m.list && x !in s'.m.dead
    {
      assert Pending(s.pc[u]) <= Busy(s.pc[u]) && nr in Busy(s.pc[t]);
    }
  }

  lemma PcHolds(s: State, t: Thread)
    requires Inv(s) && t in s.pc
    ensures Shape(s.m) && PcOk(s.m, s.pc[t])
  {
    hide Shape, Links, Placed, PcOk;
  }

  lemma SplitBackFacts(s: State, t: Thread, n: Node, nr: Node, succ: Option<Node>)
    requires Inv(s) && t in s.pc && s.pc[t] == SplitBack(n, nr, succ)
    ensures n in s.m.list && nr in s.m.next && nr !in s.m.list && nr !in s.m.dead
    ensures Succ(s.m.list, n) == succ && s.m.prev[nr] == Some(n) && s.m.next[nr] == Free(succ)
  {
    hide Threads, Links, Succ, Pred, Distinct;
    PcHolds(s, t);
    PendingNotLinked(s, t);
    assert nr in Pending(s.pc[t]);
  }

  lemma InsertedPc(m: Memory, m': Memory, n: Node, nr: Node, succ: Option<Node>)
    requires Shape(m) && Shape(m') && PcOk(m, SplitBack(n, nr, succ))
    requires Inserted(m.list, m'.list, n, nr) && m'.next == m.next
    ensures PcOk(m', SplitPublish(n, nr, succ))
  {
    hide Succ, Pred, Distinct, Shape;
  }

  /** The store to the successor's `prev_` links the new leaf. */
  lemma Inserting(s: State, t: Thread, s': State, n: Node, nr: Node, succ: Option<Node>)
    requires Inv(s) && t in s.pc && s.pc[t] == SplitBack(n, nr, succ) && n in s.m.list
    requires s'.pc == s.pc[t := SplitPublish(n, nr, succ)]
    requires s'.m == s.m.(prev := PointBack(s.m.prev, succ, nr), list := InsertAfter(s.m.list, n, nr))
    ensures Inv(s')
  {
    hide Threads, Links, Placed, Shape, PcOk, Distinct, Succ, Pred, InsertAfter, Frame, Inserted;
    PcHolds(s, t);
    ShapeDistinct(s.m);
    SplitBackFacts(s, t, n, nr, succ);
    InsertFacts(s.m.list, n, nr);
    InsertShapeKept(s.m, s'.m, n, nr);
    InsertedPc(s.m, s'.m, n, nr, succ);
    InsertedLinks(s, s', t, n, nr);
    InsertedPlaces(s, s', t, nr);
    forall u | u in s.pc && u != t
      ensures Frame(s.m, s'.m, s.pc[u])
    {
      PcHolds(s, u);
      assert PendingOutside(s.m, s.pc[u]) by { PendingNotLinked(s, u); }
      OwnersApart(s, t, u);
      InsertFrame(s.m, s'.m, n, nr, s.pc[u]);
    }
    BusyApart(s, t);
    StepKeepsInv(s, s', t);
  }

  lemma ShapeDistinct(m: Memory)
    requires Shape(m)
    ensures Distinct(m.list)
  {
  }

  lemma OwnersApart(s: State, t: Thread, u: Thread)
    requires Inv(s) && t in s.pc && u in s.pc && t != u
    ensures Busy(s.pc[t]) !! Busy(s.pc[u]) && Owned(s.pc[t]) !! Owned(s.pc[u])
  {
    hide Shape, Links, Placed, PcOk, Busy, Owned;
  }

  lemma BusyApart(s: State, t: Thread)
    requires Inv(s) && t in s.pc
    ensures forall u :: u in s.pc && u != t ==> Busy(s.pc[t]) !! Busy(s.pc[u]) && Owned(s.pc[t]) !! Owned(s.pc[u])
  {
    hide Shape, Links, Placed, PcOk, Busy, Owned;
  }

  lemma RemoveShapeKept(m: Memory, m': Memory, n: Node, p: Node)
    requires Shape(m) && n in m.list && p in m.list && Succ(m.list, p) == Some(n)
    requires Removed(m.list, m'.list, n)
    requires m' == m.(prev := PointBack(m.prev, Succ(m.list, n), p), list := m'.list, dead := m.dead + {n})
    ensures Shape(m') && p in m'.list
  {
    SuccPred(m.list, n);
    SuccPred(m.list, p);
    hide Succ, Pred, Distinct;
  }

  lemma OnlyPred(l: seq<Node>, p: Node, n: Node)
    requires Distinct(l) && p in l && Succ(l, p) == Some(n)
    ensures n in l && Pred(l, n) == Some(p)
    ensures forall y :: y in l && Succ(l, y) == Some(n) ==> y == p
  {
    SuccPred(l, p);
    forall y | y in l && Succ(l, y) == Some(n)
      ensures y == p
    {
      SuccPred(l, y);
    }
  }

  lemma RemoveFrame(m: Memory, m': Memory, n: Node, p: Node, c: Pc)
    requires Shape(m) && Shape(m') && n in m.list && p in m.list && Succ(m.list, p) == Some(n)
    requires n !in Owned(c) && p !in Owned(c) && n !in Busy(c) && PendingOutside(m, c)
    requires Removed(m.list, m'.list, n)
    requires m' == m.(prev := PointBack(m.prev, Succ(m.list, n), p), list := m'.list, dead := m.dead + {n})
    ensures Frame(m, m', c)
  {
    OnlyPred(m.list, p, n);
    SuccPred(m.list, n);
    hide Succ, Pred, Distinct, Shape, Busy, Owned, Pending;
  }

  lemma RemovedLink(s: State, s': State, t: Thread, n: Node, p: Node, x: Node)
    requires Shape(s.m) && Links(s) && t in s.pc && t in s'.pc && OthersSame(s, s', t)
    requires Owned(s.pc[t]) == {n, p} && Owned(s'.pc[t]) == {p}
    requires n in s.m.list && p in s.m.list && Succ(s.m.list, p) == Some(n)
    requires Shape(s'.m) && Removed(s.m.list, s'.m.list, n)
    requires s'.m == s.m.(prev := PointBack(s.m.prev, Succ(s.m.list, n), p), list := s'.m.list, dead := s.m.dead + {n})
    requires x in s'.m.list
    ensures s'.m.prev[x] == Pred(s'.m.list, x)
    ensures !IsOwned(s', x) ==> s'.m.next[x] == Free(Succ(s'.m.list, x))
  {
    OnlyPred(s.m.list, p, n);
    SuccPred(s.m.list, n);
    SuccPred(s.m.list, x);
    OwnedElsewhere(s, s', t);
    hide Succ, Pred, Distinct, Owned, IsOwned, OthersSame;
  }

  lemma RemovedLinks(s: State, s': State, t: Thread, n: Node, p: Node)
    requires Shape(s.m) && Links(s) && t in s.pc && t in s'.pc && OthersSame(s, s', t)
    requires Owned(s.pc[t]) == {n, p} && Owned(s'.pc[t]) == {p}
    requires n in s.m.list && p in s.m.list && Succ(s.m.list, p) == Some(n)
    requires Shape(s'.m) && Removed(s.m.list, s'.m.list, n)
    requires s.m.next[n] == Null || s.m.next[n].marked
    requires s'.m == s.m.(prev := PointBack(s.m.prev, Succ(s.m.list, n), p), list := s'.m.list, dead := s.m.dead + {n})
    ensures Links(s')
  {
    hide Succ, Pred, Distinct, Owned, IsOwned, OthersSame, Removed;
    forall x | x in s'.m.list
      ensures s'.m.prev[x] == Pred(s'.m.list, x)
      ensures !IsOwned(s', x) ==> s'.m.next[x] == Free(Succ(s'.m.list, x))
    {
      RemovedLink(s, s', t, n, p, x);
    }
  }

  lemma UnlinkBackFacts(m: Memory, n: Node, succ: Option<Node>, p: Node)
    requires Shape(m) && PcOk(m, UnlinkBack(n, succ, p))
    ensures n in m.list && p in m.list && p != n
    ensures Succ(m.list, n) == succ && Succ(m.list, p) == Some(n)
    ensures m.next[n] == Null || m.next[n].marked
  {
    SuccPred(m.list, n);
    hide Succ, Pred, Distinct;
  }

  lemma RemovedPc(m: Memory, m': Memory, n: Node, succ: Option<Node>, p: Node)
    requires Shape(m) && Shape(m') && PcOk(m, UnlinkBack(n, succ, p)) && p in m'.list
    requires Removed(m.list, m'.list, n) && m'.next == m.next && m'.dead == m.dead + {n}
    ensures PcOk(m', UnlinkPublish(n, succ, p))
  {
    hide Succ, Pred, Distinct, Shape;
  }

  /** The store to the successor's `prev_` takes the leaf out. */
  lemma Removing(s: State, t: Thread, s': State, n: Node, succ: Option<Node>, p: Node)
    requires Inv(s) && t in s.pc && s.pc[t] == UnlinkBack(n, succ, p) && n in s.m.list
    requires s'.pc == s.pc[t := UnlinkPublish(n, succ, p)]
    requires s'.m == s.m.(prev := PointBack(s.m.prev, succ, p), list := Remove(s.m.list, n), dead := s.m.dead + {n})
    ensures Inv(s')
  {
    hide Threads, Links, Placed, Shape, PcOk, Distinct, Succ, Pred, Remove, Frame, Removed;
    PcHolds(s, t);
    ShapeDistinct(s.m);
    UnlinkBackFacts(s.m, n, succ, p);
    RemoveFacts(s.m.list, n);
    RemoveShapeKept(s.m, s'.m, n, p);
    RemovedPc(s.m, s'.m, n, succ, p);
    RemovedLinks(s, s', t, n, p);
    RemovedPlaces(s, s', t, n);
    forall u | u in s.pc && u != t
      ensures Frame(s.m, s'.m, s.pc[u])
    {
      assert PendingOutside(s.m, s.pc[u]) by { PendingNotLinked(s, u); }
      OwnersApart(s, t, u);
      RemoveFrame(s.m, s'.m, n, p, s.pc[u]);
    }
    BusyApart(s, t);
    StepKeepsInv(s, s', t);
  }

  lemma RemovedPlaces(s: State, s': State, t: Thread, n: Node)
    requires Placed(s) && t in s.pc && t in s'.pc && OthersSame(s, s', t)
    requires Pending(s.pc[t]) == Pending(s'.pc[t]) == {} && n in s.m.list
    requires s'.m.next == s.m.next && s'.m.dead == s.m.dead + {n}
    requires Removed(s.m.list, s'.m.list, n)
    ensures Placed(s')
  {
    hide Pending, IsPending, Succ, Pred, Distinct;
    OwnedElsewhere(s, s', t);
  }

  // ----- every step

  /** The leaves a thread's operation names exist, and one with an unmarked link is linked. */
  lemma PcNodes(s: State, t: Thread)
    requires Inv(s) && t in s.pc
    ensures s.pc[t].n in s.m.next && s.pc[t].n in s.m.prev
    ensures forall x :: x in Pending(s.pc[t]) ==> x in s.m.next && x in s.m.prev && x !in s.m.list
    ensures s.pc[t].UnlinkPrevCas? ==> s.pc[t].p in s.m.next
    ensures s.pc[t].UnlinkPrevCas? && s.m.next[s.pc[t].p].To? && !s.m.next[s.pc[t].p].marked ==> s.pc[t].p in s.m.list
  {
    PcHolds(s, t);
    hide Threads, Succ, Pred, Distinct;
  }

  lemma ReadKeepsInv(s: State, t: Thread)
    requires Inv(s) && t in s.pc && (s.pc[t].SplitRead? || s.pc[t].UnlinkRead?)
    ensures Inv(Next(s, Advance(t)))
  {
    hide Inv, Succ, Distinct, Shape;
    var c, n, s' := s.pc[t], s.pc[t].n, Next(s, Advance(t));
    PcHolds(s, t);
    PcNodes(s, t);
    BusyApart(s, t);
    if s.m.next[n] == Null {
      Unowned(s, t, n);
      SameMemory(s, t, s'.pc[t]);
    } else {
      SameMemory(s, t, s'.pc[t]);
    }
    assert s' == s.(pc := s.pc[t := s'.pc[t]]);
  }

  lemma CasKeepsInv(s: State, t: Thread)
    requires Inv(s) && t in s.pc && (s.pc[t].SplitCas? || s.pc[t].UnlinkCas?)
    ensures Inv(Next(s, Advance(t)))
  {
    hide Inv, Succ, Distinct, Shape;
    var c, n, s' := s.pc[t], s.pc[t].n, Next(s, Advance(t));
    PcHolds(s, t);
    PcNodes(s, t);
    BusyApart(s, t);
    if s.m.next[n] == To(c.seen, false) {
      Unowned(s, t, n);
      Marking(s, t, n, s'.pc[t], s');
    } else {
      SameMemory(s, t, s'.pc[t]);
      assert s' == s.(pc := s.pc[t := s'.pc[t]]);
    }
  }

  lemma PrevCasKeepsInv(s: State, t: Thread)
    requires Inv(s) && t in s.pc && s.pc[t].UnlinkPrevCas?
    ensures Inv(Next(s, Advance(t)))
  {
    hide Inv, Succ, Distinct, Shape;
    var c, n, p, s' := s.pc[t], s.pc[t].n, s.pc[t].p, Next(s, Advance(t));
    PcHolds(s, t);
    PcNodes(s, t);
    BusyApart(s, t);
    if s.m.next[p] == To(n, false) {
      Unowned(s, t, p);
      Marking(s, t, p, s'.pc[t], s');
    } else {
      SameMemory(s, t, s'.pc[t]);
      assert s' == s.(pc := s.pc[t := s'.pc[t]]);
    }
  }

  lemma PrevKeepsInv(s: State, t: Thread)
    requires Inv(s) && t in s.pc && s.pc[t].UnlinkPrev?
    ensures Inv(Next(s, Advance(t)))
  {
    hide Inv, Succ, Distinct, Shape;
    var n, s' := s.pc[t].n, Next(s, Advance(t));
    PcHolds(s, t);
    PcNodes(s, t);
    BusyApart(s, t);
    PrevIsLinked(s, n);
    SameMemory(s, t, s'.pc[t]);
    assert s' == s.(pc := s.pc[t := s'.pc[t]]);
  }

  lemma PrevIsLinked(s: State, n: Node)
    requires Inv(s) && n in s.m.list && s.m.prev[n].Some?
    ensures s.m.prev[n].value in s.m.list
  {
    SuccPred(s.m.list, n);
  }

  lemma StoreKeepsInv(s: State, t: Thread)
    requires Inv(s) && t in s.pc && (s.pc[t].SplitPrev? || s.pc[t].SplitNext? || s.pc[t].SplitPublish? || s.pc[t].UnlinkPublish?)
    ensures Inv(Next(s, Advance(t)))
  {
    hide Inv, Succ, Distinct, Shape;
    var c, s' := s.pc[t], Next(s, Advance(t));
    PcHolds(s, t);
    PcNodes(s, t);
    BusyApart(s, t);
    match c
    case SplitPrev(n, nr) =>
      assert s'.m == s.m.(next := s.m.next[nr := s.m.next[nr]], prev := s.m.prev[nr := Some(n)]);
      WritePending(s, t, nr, s.m.next[nr], Some(n), s'.pc[t], s');
    case SplitNext(n, nr, succ) =>
      assert s'.m == s.m.(next := s.m.next[nr := Free(succ)], prev := s.m.prev[nr := s.m.prev[nr]]);
      WritePending(s, t, nr, Free(succ), s.m.prev[nr], s'.pc[t], s');
    case SplitPublish(n, nr, succ) => Publishing(s, t, n, s');
    case UnlinkPublish(n, succ, p) => Publishing(s, t, p, s');
  }

  lemma AdvanceKeepsInv(s: State, t: Thread)
    requires Inv(s) && t in s.pc
    ensures Inv(Next(s, Advance(t)))
  {
    PcHolds(s, t);
    hide Inv, Shape, Succ;
    match s.pc[t]
    case SplitPrev(_, _) => StoreKeepsInv(s, t);
    case SplitRead(_, _) => ReadKeepsInv(s, t);
    case SplitCas(_, _, _) => CasKeepsInv(s, t);
    case SplitNext(_, _, _) => StoreKeepsInv(s, t);
    case SplitBack(n, nr, succ) => Inserting(s, t, Next(s, Advance(t)), n, nr, succ);
    case SplitPublish(_, _, _) => StoreKeepsInv(s, t);
    case UnlinkRead(_) => ReadKeepsInv(s, t);
    case UnlinkCas(_, _) => CasKeepsInv(s, t);
    case UnlinkPrev(_, _) => PrevKeepsInv(s, t);
    case UnlinkPrevCas(_, _, _) => PrevCasKeepsInv(s, t);
    case UnlinkBack(n, succ, p) => Removing(s, t, Next(s, Advance(t)), n, succ, p);
    case UnlinkPublish(_, _, _) => StoreKeepsInv(s, t);
  }

  lemma BeginSplitKeepsInv(s: State, t: Thread, n: Node, nr: Node, link: Link, back: Option<Node>)
    requires Inv(s) && CanStep(s, BeginSplit(t, n, nr, link, back))
    ensures Inv(Next(s, BeginSplit(t, n, nr, link, back)))
  {
    hide Succ, Pred, Distinct, IsOwned, IsPending, PcOk, Frame;
    var s' := Next(s, BeginSplit(t, n, nr, link, back));
    forall u | u in s.pc
      ensures nr !in Busy(s.pc[u]) && Shape(s'.m) && Frame(s.m, s'.m, s.pc[u])
    {
      NewNodeFrame(s, s'.m, u, nr);
    }
    OwnedElsewhere(s, s', t);
    assert PcOk(s'.m, s'.pc[t]) by { BeginPc(s'.m, n, nr); }
    hide PcOk;
    assert Placed(s') && Links(s');
    hide Shape, Placed, Links;
    StepKeepsInv(s, s', t);
  }

  lemma BeginPc(m: Memory, n: Node, nr: Node)
    requires Shape(m) && n in m.list && nr in m.next
    ensures PcOk(m, SplitPrev(n, nr))
  {
  }

  lemma NewNodeFrame(s: State, m': Memory, u: Thread, nr: Node)
    requires Inv(s) && u in s.pc && nr !in s.m.next
    requires nr in m'.next && nr in m'.prev
    requires m' == s.m.(next := s.m.next[nr := m'.next[nr]], prev := s.m.prev[nr := m'.prev[nr]])
    ensures nr !in Busy(s.pc[u]) && Shape(m') && Frame(s.m, m', s.pc[u])
  {
    hide Inv, Succ, Pred, Distinct;
    PcHolds(s, u);
    PcNodes(s, u);
    OwnedAreLinked(s.m, s.pc[u]);
    BusyExist(s.m, s.pc[u]);
    hide PcOk, Busy, Owned, Pending;
  }

  lemma OwnedAreLinked(m: Memory, c: Pc)
    requires Shape(m) && PcOk(m, c)
    ensures forall x :: x in Owned(c) ==> x in m.list
  {
    hide Succ, Distinct;
  }

  lemma BusyExist(m: Memory, c: Pc)
    requires Shape(m) && PcOk(m, c)
    ensures forall x :: x in Busy(c) ==> x in m.next
  {
    hide Succ, Distinct;
  }

  lemma BeginUnlinkKeepsInv(s: State, t: Thread, n: Node)
    requires Inv(s) && CanStep(s, BeginUnlink(t, n))
    ensures Inv(Next(s, BeginUnlink(t, n)))
  {
    hide Succ, Pred, Distinct, IsOwned, IsPending, Threads, Frame, PcOk;
    var s' := Next(s, BeginUnlink(t, n));
    OwnedElsewhere(s, s', t);
    assert Placed(s') && Links(s');
    hide Placed, Links;
    forall u | u in s.pc
      ensures Frame(s.m, s'.m, s.pc[u])
    {
      SameFrame(s.m, s.pc[u]);
    }
    hide Shape;
    assert PcOk(s'.m, s'.pc[t]) by { UnlinkPc(s.m, n); }
    StepKeepsInv(s, s', t);
  }

  lemma SameFrame(m: Memory, c: Pc)
    requires Shape(m)
    ensures Frame(m, m, c)
  {
  }

  lemma UnlinkPc(m: Memory, n: Node)
    requires Shape(m) && n in m.list && n in m.prev && m.prev[n].Some?
    ensures PcOk(m, UnlinkRead(n))
  {
  }

  lemma NextKeepsInv(s: State, step: Step)
    requires Inv(s) && CanStep(s, step)
    ensures Inv(Next(s, step))
  {
    hide Inv, Next;
    match step
    case BeginSplit(t, n, nr, link, back) => BeginSplitKeepsInv(s, t, n, nr, link, back);
    case BeginUnlink(t, n) => BeginUnlinkKeepsInv(s, t, n);
    case Advance(t) => AdvanceKeepsInv(s, t);
  }

  // ----- the main results

  /** The links are exact inverses and visit precisely the list, in order. */
  ghost predicate Exact(m: Memory) {
    && m.list != [] && Distinct(m.list)
    && (forall x :: x in m.list ==> x in m.next && x in m.prev)
    && m.prev[m.list[0]] == None
    && m.next[m.list[|m.list| - 1]] == Null
    && (forall i :: 0 <= i < |m.list| - 1 ==>
          m.next[m.list[i]] == To(m.list[i + 1], false) && m.prev[m.list[i + 1]] == Some(m.list[i]))
  }

  ghost predicate AllowedRun(s: State, steps: seq<Step>)
    decreases |steps|
  {
    steps != [] ==> CanStep(s, steps[0]) && AllowedRun(Next(s, steps[0]), steps[1..])
  }

  ghost function Run(s: State, steps: seq<Step>): State
    requires AllowedRun(s, steps)
    decreases |steps|
  {
    if steps == [] then s else Run(Next(s, steps[0]), steps[1..])
  }

  lemma {:induction false} RunKeepsInv(s: State, steps: seq<Step>)
    requires Inv(s) && AllowedRun(s, steps)
    ensures Inv(Run(s, steps))
    decreases |steps|
  {
    hide Inv;
    if steps != [] {
      NextKeepsInv(s, steps[0]);
      RunKeepsInv(Next(s, steps[0]), steps[1..]);
    }
  }

  /** A state with no operation running and an exact list of all leaves. */
  ghost predicate Initial(s: State) {
    && s.pc == map[] && s.m.dead == {}
    && Exact(s.m)
    && s.m.next.Keys == s.m.prev.Keys == (set x | x in s.m.list)
  }

  lemma InitialInv(s: State)
    requires Initial(s)
    ensures Inv(s)
  {
    forall x | x in s.m.list
      ensures s.m.prev[x] == Pred(s.m.list, x) && s.m.next[x] == Free(Succ(s.m.list, x))
    {
      AtIndex(s.m.list, IndexOf(s.m.list, x));
    }
  }

  lemma QuietPlaces(s: State)
    requires Shape(s.m) && Placed(s) && s.pc == map[]
    ensures forall x :: x in s.m.next ==> (x in s.m.list <==> x !in s.m.dead)
  {
    forall x | x in s.m.next
      ensures x in s.m.list <==> x !in s.m.dead
    {
      assert !IsPending(s, x);
    }
  }

  lemma QuietAt(s: State, i: nat)
    requires Inv(s) && s.pc == map[] && i < |s.m.list|
    ensures s.m.list[i] in s.m.next && s.m.list[i] in s.m.prev
    ensures s.m.next[s.m.list[i]] == Free(if i + 1 < |s.m.list| then Some(s.m.list[i + 1]) else None)
    ensures s.m.prev[s.m.list[i]] == if i > 0 then Some(s.m.list[i - 1]) else None
  {
    hide Placed, Threads;
    AtIndex(s.m.list, i);
    hide Succ, Pred;
    assert !IsOwned(s, s.m.list[i]);
  }

  lemma ExactIs(m: Memory)
    requires Shape(m)
    requires forall i {:trigger m.list[i]} :: 0 <= i < |m.list| ==>
      && m.next[m.list[i]] == Free(if i + 1 < |m.list| then Some(m.list[i + 1]) else None)
      && m.prev[m.list[i]] == if i > 0 then Some(m.list[i - 1]) else None
    ensures Exact(m)
  {
    hide Distinct;
    forall i | 0 <= i < |m.list| - 1
      ensures m.next[m.list[i]] == To(m.list[i + 1], false) && m.prev[m.list[i + 1]] == Some(m.list[i])
    {
      var x, y := m.list[i], m.list[i + 1];
      assert x in m.list && y in m.list;
    }
  }

  lemma QuietExact(s: State)
    requires Inv(s) && s.pc == map[]
    ensures Exact(s.m)
    ensures forall x :: x in s.m.next ==> (x in s.m.list <==> x !in s.m.dead)
  {
    QuietPlaces(s);
    forall i {:trigger s.m.list[i]} | 0 <= i < |s.m.list|
      ensures s.m.next[s.m.list[i]] == Free(if i + 1 < |s.m.list| then Some(s.m.list[i + 1]) else None)
      ensures s.m.prev[s.m.list[i]] == if i > 0 then Some(s.m.list[i - 1]) else None
    {
      QuietAt(s, i);
    }
    hide Placed, Threads, Links, Distinct, Exact;
    ExactIs(s.m);
  }

  /** In every run of any number of threads: whenever no operation is running, following the
      links visits exactly the leaves made and not unlinked, and `prev` inverts `next`. */
  lemma QuiescentListExact(s: State, steps: seq<Step>)
    requires Initial(s) && AllowedRun(s, steps) && Run(s, steps).pc == map[]
    ensures
      var m := Run(s, steps).m;
      Exact(m) && forall x :: x in m.next ==> (x in m.list <==> x !in m.dead)
  {
    hide Inv, Initial, Exact;
    InitialInv(s);
    RunKeepsInv(s, steps);
    QuietExact(Run(s, steps));
  }

  /** In every reachable state a marked `next_` belongs to a dead leaf or is locked by exactly
      one running operation. */
  lemma MarkHasOneOwner(s: State, steps: seq<Step>, x: Node)
    requires Initial(s) && AllowedRun(s, steps)
    requires var m := Run(s, steps).m; x in m.list && x in m.next && m.next[x].To? && m.next[x].marked
    ensures
      var pc := Run(s, steps).pc;
      && (exists t :: t in pc && x in Owned(pc[t]))
      && (forall t, u :: t in pc && u in pc && x in Owned(pc[t]) && x in Owned(pc[u]) ==> t == u)
  {
    InitialInv(s);
    RunKeepsInv(s, steps);
    OwnerOfMark(Run(s, steps), x);
  }

  lemma OwnerOfMark(s: State, x: Node)
    requires Inv(s) && x in s.m.list && s.m.next[x].To? && s.m.next[x].marked
    ensures exists t :: t in s.pc && x in Owned(s.pc[t])
    ensures forall t, u :: t in s.pc && u in s.pc && x in Owned(s.pc[t]) && x in Owned(s.pc[u]) ==> t == u
  {
    hide Succ, Pred, Distinct, Owned, PcOk;
    assert IsOwned(s, x);
  }

  /** Each split inserts its new leaf right after its leaf, and each unlink removes its leaf,
      at one access; no other access changes the list. */
  lemma OperationsTakeEffectOnce(s: State, t: Thread)
    requires Inv(s) && t in s.pc
    ensures s.pc[t].SplitBack? || s.pc[t].UnlinkBack? ==> s.pc[t].n in s.m.list
    ensures
      var c, l := s.pc[t], Next(s, Advance(t)).m.list;
      l == if c.SplitBack? then InsertAfter(s.m.list, c.n, c.nr)
           else if c.UnlinkBack? then Remove(s.m.list, c.n) else s.m.list
  {
    hide Inv, Shape, Succ, Distinct, InsertAfter, Remove;
    PcHolds(s, t);
  }

  // ----- each operation takes effect exactly once

  /** What a running operation is for. */
  datatype Operation = Insertion(n: Node, nr: Node) | Removal(n: Node)

  function OperationOf(c: Pc): Operation {
    match c
    case SplitPrev(n, nr) => Insertion(n, nr)
    case SplitRead(n, nr) => Insertion(n, nr)
    case SplitCas(n, nr, _) => Insertion(n, nr)
    case SplitNext(n, nr, _) => Insertion(n, nr)
    case SplitBack(n, nr, _) => Insertion(n, nr)
    case SplitPublish(n, nr, _) => Insertion(n, nr)
    case UnlinkRead(n) => Removal(n)
    case UnlinkCas(n, _) => Removal(n)
    case UnlinkPrev(n, _) => Removal(n)
    case UnlinkPrevCas(n, _, _) => Removal(n)
    case UnlinkBack(n, _, _) => Removal(n)
    case UnlinkPublish(n, _, _) => Removal(n)
  }

  /** The operation a step begins. */
  function Begins(step: Step, t: Thread): Option<Operation> {
    match step
    case BeginSplit(u, n, nr, _, _) => if u == t then Some(Insertion(n, nr)) else None
    case BeginUnlink(u, n) => if u == t then Some(Removal(n)) else None
    case Advance(_) => None
  }

  /** A change of the list: what it was and what it became. */
  datatype Change = Change(before: seq<Node>, after: seq<Node>)

  ghost predicate IsEffect(op: Operation, c: Change) {
    op.n in c.before && c.after == if op.Insertion? then InsertAfter(c.before, op.n, op.nr) else Remove(c.before, op.n)
  }

  /** The changes of the list at the steps of thread `t`. */
  ghost function ChangesBy(s: State, steps: seq<Step>, t: Thread): seq<Change>
    requires AllowedRun(s, steps)
    decreases |steps|
  {
    if steps == [] then []
    else
      var s' := Next(s, steps[0]);
      (if steps[0] == Advance(t) && s'.m.list != s.m.list then [Change(s.m.list, s'.m.list)] else []) + ChangesBy(s', steps[1..], t)
  }

  /** Where the operation has not yet changed the list. */
  predicate IsBefore(c: Pc) { !c.SplitPublish? && !c.UnlinkPublish? }

  lemma StepOfOther(s: State, step: Step, t: Thread)
    requires CanStep(s, step) && t in s.pc && step != Advance(t)
    ensures t in Next(s, step).pc && Next(s, step).pc[t] == s.pc[t]
  {
    hide Access;
  }

  lemma AccessMoves(m: Memory, c: Pc)
    ensures
      var next := Access(m, c).1;
      && (next.Some? ==> OperationOf(next.value) == OperationOf(c))
      && (next.Some? && IsBefore(c) ==> (IsBefore(next.value) <==> !c.SplitBack? && !c.UnlinkBack?))
      && (next.None? <==> !IsBefore(c))
  {
    hide InsertAfter, Remove;
  }

  /** One step of the operation: the list changes where the operation passes its point of effect, and only there. */
  lemma OwnStep(s: State, t: Thread)
    requires Inv(s) && t in s.pc
    ensures
      var c, s' := s.pc[t], Next(s, Advance(t));
      && (if IsBefore(c) then t in s'.pc && OperationOf(s'.pc[t]) == OperationOf(c) else t !in s'.pc)
      && (s'.m.list != s.m.list <==> IsBefore(c) && !IsBefore(s'.pc[t]))
      && (s'.m.list != s.m.list ==> IsEffect(OperationOf(c), Change(s.m.list, s'.m.list)))
  {
    OperationsTakeEffectOnce(s, t);
    AccessMoves(s.m, s.pc[t]);
    hide Inv, Access;
    var c := s.pc[t];
    assert c.SplitBack? ==> |InsertAfter(s.m.list, c.n, c.nr)| == |s.m.list| + 1;
    assert c.UnlinkBack? ==> |Remove(s.m.list, c.n)| == |s.m.list| - 1;
  }

  /** A thread that runs no operation changes nothing. */
  lemma {:induction false} IdleChangesNothing(s: State, steps: seq<Step>, t: Thread)
    requires AllowedRun(s, steps) && t !in s.pc && forall i :: 0 <= i < |steps| ==> Begins(steps[i], t).None?
    ensures ChangesBy(s, steps, t) == []
    decreases |steps|
  {
    if steps != [] {
      assert Begins(steps[0], t).None?;
      assert t !in Next(s, steps[0]).pc;
      IdleChangesNothing(Next(s, steps[0]), steps[1..], t);
    }
  }

  /** From any point of an operation to its end. */
  lemma {:induction false} ChangesOnce(s: State, steps: seq<Step>, t: Thread)
    requires Inv(s) && AllowedRun(s, steps) && t in s.pc && t !in Run(s, steps).pc
    requires forall i :: 0 <= i < |steps| ==> Begins(steps[i], t).None?
    ensures
      var cs := ChangesBy(s, steps, t);
      if IsBefore(s.pc[t]) then |cs| == 1 && IsEffect(OperationOf(s.pc[t]), cs[0]) else cs == []
    decreases |steps|
  {
    hide Inv, IsEffect;
    var s' := Next(s, steps[0]);
    NextKeepsInv(s, steps[0]);
    if steps[0] == Advance(t) {
      OwnStep(s, t);
      hide Next;
      if t in s'.pc {
        ChangesOnce(s', steps[1..], t);
      } else {
        IdleChangesNothing(s', steps[1..], t);
      }
    } else {
      StepOfOther(s, steps[0], t);
      hide Next;
      ChangesOnce(s', steps[1..], t);
    }
  }

  lemma {:induction false} RunApart(s: State, a: seq<Step>, b: seq<Step>)
    requires AllowedRun(s, a + b)
    ensures AllowedRun(s, a) && AllowedRun(Run(s, a), b) && Run(s, a + b) == Run(Run(s, a), b)
    decreases |a|
  {
    hide CanStep, Next;
    if a == [] {
      assert a + b == b;
    } else {
      assert (a + b)[0] == a[0] && (a + b)[1..] == a[1..] + b;
      RunApart(Next(s, a[0]), a[1..], b);
    }
  }

  lemma OperationBegun(s: State, begin: Step, t: Thread)
    requires CanStep(s, begin) && Begins(begin, t).Some?
    ensures
      var s' := Next(s, begin);
      t in s'.pc && IsBefore(s'.pc[t]) && OperationOf(s'.pc[t]) == Begins(begin, t).value
  {
  }

  lemma RunFirst(s: State, first: Step, rest: seq<Step>)
    requires AllowedRun(s, [first] + rest)
    ensures CanStep(s, first) && AllowedRun(Next(s, first), rest) && Run(s, [first] + rest) == Run(Next(s, first), rest)
  {
    hide CanStep, Next;
    assert ([first] + rest)[1..] == rest;
  }

  /** In every run: an operation begun after `past`, and at its end after `rest`, has changed the list at exactly one of
      its steps, by its own insertion or removal. */
  lemma EachOperationOnce(s0: State, past: seq<Step>, begin: Step, rest: seq<Step>, t: Thread)
    requires Initial(s0) && AllowedRun(s0, past + ([begin] + rest)) && Begins(begin, t).Some?
    requires forall i :: 0 <= i < |rest| ==> Begins(rest[i], t).None?
    requires t !in Run(s0, past + ([begin] + rest)).pc
    ensures AllowedRun(s0, past) && CanStep(Run(s0, past), begin) && AllowedRun(Next(Run(s0, past), begin), rest)
    ensures
      var cs := ChangesBy(Next(Run(s0, past), begin), rest, t);
      |cs| == 1 && IsEffect(Begins(begin, t).value, cs[0])
  {
    hide Inv, Initial, IsEffect, ChangesBy, Run, AllowedRun, CanStep, Next, Begins;
    InitialInv(s0);
    RunApart(s0, past, [begin] + rest);
    RunKeepsInv(s0, past);
    var s := Run(s0, past);
    RunFirst(s, begin, rest);
    NextKeepsInv(s, begin);
    OperationBegun(s, begin, t);
    ChangesOnce(Next(s, begin), rest, t);
  }

  // ----- every operation can end

  /** The access at which a compare-and-swap of `c` would succeed now. */
  ghost predicate Fresh(m: Memory, c: Pc) {
    match c
    case SplitCas(n, _, seen) => n in m.next && m.next[n] == To(seen, false)
    case UnlinkCas(n, seen) => n in m.next && m.next[n] == To(seen, false)
    case UnlinkPrevCas(n, _, p) => p in m.next && m.next[p] == To(n, false)
    case _ => true
  }

  /** The accesses that a thread still needs when no other thread moves: a compare-and-swap that is bound to fail
      leads back. */
  ghost function AccessesLeft(m: Memory, c: Pc): nat {
    match c
    case SplitPrev(_, _) => 7
    case SplitRead(_, _) => 5
    case SplitCas(_, _, _) => if Fresh(m, c) then 4 else 6
    case SplitNext(_, _, _) => 3
    case SplitBack(_, _, _) => 2
    case SplitPublish(_, _, _) => 1
    case UnlinkRead(_) => 7
    case UnlinkCas(_, _) => if Fresh(m, c) then 6 else 8
    case UnlinkPrev(_, _) => 4
    case UnlinkPrevCas(_, _, _) => if Fresh(m, c) then 3 else 5
    case UnlinkBack(_, _, _) => 2
    case UnlinkPublish(_, _, _) => 1
  }

  /** The leaves whose links the operation has yet to lock. */
  ghost function Wanted(m: Memory, c: Pc): set<Node> {
    if c.SplitPrev? || c.SplitRead? || c.SplitCas? then {c.n}
    else if c.n in m.prev && m.prev[c.n].Some? then
      if c.UnlinkRead? || c.UnlinkCas? then {c.n, m.prev[c.n].value}
      else if c.UnlinkPrev? || c.UnlinkPrevCas? then {m.prev[c.n].value}
      else {}
    else {}
  }

  /** No other thread stands in the way of `t`. */
  ghost predicate Clear(s: State, t: Thread) {
    t in s.pc && forall x :: x in Wanted(s.m, s.pc[t]) ==> !IsOwned(s, x)
  }

  lemma UnownedLink(s: State, n: Node)
    requires Inv(s) && n in s.m.list && !IsOwned(s, n)
    ensures n in s.m.next && s.m.next[n] == Free(Succ(s.m.list, n))
  {
    hide Succ, Pred, Distinct, IsOwned, Placed, Threads;
  }

  lemma PrevLink(s: State, n: Node)
    requires Inv(s) && n in s.m.list && n in s.m.prev && s.m.prev[n].Some?
    ensures
      var p := s.m.prev[n].value;
      p in s.m.list && p != n && Succ(s.m.list, p) == Some(n) && IndexOf(s.m.list, p) + 1 == IndexOf(s.m.list, n)
  {
    hide Placed, Threads;
    SuccPred(s.m.list, n);
    AtIndex(s.m.list, IndexOf(s.m.list, n) - 1);
  }

  /** What a thread that nobody stands in the way of finds. */
  lemma ClearLinks(s: State, t: Thread)
    requires Inv(s) && Clear(s, t)
    ensures
      var c := s.pc[t];
      && c.n in s.m.next && c.n in s.m.prev
      && (c.n in Wanted(s.m, c) ==> s.m.next[c.n] == Null || !s.m.next[c.n].marked)
      && (c.UnlinkRead? || c.UnlinkCas? || c.UnlinkPrev? || c.UnlinkPrevCas? ==>
            s.m.prev[c.n].Some? && s.m.prev[c.n].value != c.n && s.m.prev[c.n].value in s.m.next)
      && (c.UnlinkPrev? || c.UnlinkPrevCas? ==> s.m.next[s.m.prev[c.n].value] == To(c.n, false))
      && forall x :: x in Pending(c) ==> x != c.n
  {
    PcHolds(s, t);
    PcNodes(s, t);
    var c := s.pc[t];
    if c.n in Wanted(s.m, c) {
      UnownedLink(s, c.n);
    }
    if c.UnlinkRead? || c.UnlinkCas? || c.UnlinkPrev? || c.UnlinkPrevCas? {
      PrevLink(s, c.n);
      UnownedLink(s, s.m.prev[c.n].value);
    }
    hide Inv, Shape, Succ, Pred, Distinct, IsOwned;
  }

  /** An access of a thread that nobody stands in the way of brings it nearer to its end. */
  lemma ClearAccess(s: State, t: Thread)
    requires Inv(s) && Clear(s, t)
    ensures var (m, c) := Access(s.m, s.pc[t]); c.Some? ==> AccessesLeft(m, c.value) < AccessesLeft(s.m, s.pc[t])
  {
    ClearLinks(s, t);
    hide Inv, Clear, InsertAfter, Remove;
  }

  lemma WantsNoMore(s: State, t: Thread)
    requires Inv(s) && Clear(s, t)
    ensures var (m, c) := Access(s.m, s.pc[t]); c.Some? ==> Wanted(m, c.value) <= Wanted(s.m, s.pc[t])
  {
    ClearLinks(s, t);
    hide Inv, Clear, InsertAfter, Remove, Free, Pending;
  }

  lemma WantsNotOwn(s: State, t: Thread)
    requires Inv(s) && Clear(s, t)
    ensures var (m, c) := Access(s.m, s.pc[t]); c.Some? ==> Wanted(m, c.value) !! Owned(c.value)
  {
    ClearLinks(s, t);
    hide Inv, Clear, InsertAfter, Remove, Free, Pending;
  }

  lemma ClearStep(s: State, t: Thread)
    requires Inv(s) && Clear(s, t)
    ensures
      var s' := Next(s, Advance(t));
      && s'.pc - {t} == s.pc - {t}
      && (t in s'.pc ==> Clear(s', t) && AccessesLeft(s'.m, s'.pc[t]) < AccessesLeft(s.m, s.pc[t]))
  {
    ClearAccess(s, t);
    WantsNoMore(s, t);
    WantsNotOwn(s, t);
    hide Inv, Access, Wanted, Owned, AccessesLeft;
    var s' := Next(s, Advance(t));
    OwnedElsewhere(s', s, t);
    hide IsOwned;
    if t in s'.pc {
      forall x | x in Wanted(s'.m, s'.pc[t])
        ensures !IsOwned(s', x)
      {
        assert x !in Owned(s'.pc[t]);
      }
    }
  }

  ghost predicate AllAdvance(steps: seq<Step>) { forall i :: 0 <= i < |steps| ==> steps[i].Advance? }

  lemma ClearThreadEnds(s: State, t: Thread) returns (steps: seq<Step>)
    requires Inv(s) && Clear(s, t)
    ensures forall i :: 0 <= i < |steps| ==> steps[i] == Advance(t)
    ensures AllowedRun(s, steps) && Run(s, steps).pc == s.pc - {t}
    decreases AccessesLeft(s.m, s.pc[t])
  {
    ClearStep(s, t);
    NextKeepsInv(s, Advance(t));
    hide Inv, Clear, AccessesLeft, Next;
    var s' := Next(s, Advance(t));
    if t in s'.pc {
      var rest := ClearThreadEnds(s', t);
      steps := [Advance(t)] + rest;
      assert steps[1..] == rest;
    } else {
      steps := [Advance(t)];
      assert steps[1..] == [] && s'.pc - {t} == s'.pc;
    }
  }

  /** The thread has locked the link of its leaf and waits for the link of the leaf before. */
  ghost predicate Waits(s: State, t: Thread) { t in s.pc && (s.pc[t].UnlinkPrev? || s.pc[t].UnlinkPrevCas?) }

  ghost predicate HoldsLocks(s: State, t: Thread) { t in s.pc && Owned(s.pc[t]) != {} && !Waits(s, t) }

  lemma WaitsForLeft(s: State, t: Thread)
    requires Inv(s) && Waits(s, t)
    ensures s.pc[t].n in s.m.list
    ensures forall x :: x in Wanted(s.m, s.pc[t]) ==> x in s.m.list && IndexOf(s.m.list, x) < IndexOf(s.m.list, s.pc[t].n)
  {
    PcHolds(s, t);
    PcNodes(s, t);
    PrevLink(s, s.pc[t].n);
  }

  /** Whoever waits furthest to the left is in nobody's way and has nobody in its own. */
  lemma LeftmostWaiter(s: State, t: Thread) returns (u: Thread)
    requires Inv(s) && Waits(s, t) && forall u :: !HoldsLocks(s, u)
    ensures Clear(s, u)
    decreases (WaitsForLeft(s, t); IndexOf(s.m.list, s.pc[t].n))
  {
    WaitsForLeft(s, t);
    hide Inv, Succ, Distinct, Wanted;
    if Clear(s, t) {
      u := t;
    } else {
      var x :| x in Wanted(s.m, s.pc[t]) && IsOwned(s, x);
      var v :| v in s.pc && x in Owned(s.pc[v]);
      assert !HoldsLocks(s, v);
      WaitsForLeft(s, v);
      u := LeftmostWaiter(s, v);
    }
  }

  /** While an operation runs, some thread has nobody in its way. */
  lemma SomeoneIsClear(s: State) returns (t: Thread)
    requires Inv(s) && s.pc != map[]
    ensures Clear(s, t)
  {
    hide Inv;
    if u :| HoldsLocks(s, u) {
      t := u;
    } else if u :| Waits(s, u) {
      t := LeftmostWaiter(s, u);
    } else {
      t :| t in s.pc;
      forall v | v in s.pc
        ensures Owned(s.pc[v]) == {}
      {
        assert !HoldsLocks(s, v) && !Waits(s, v);
      }
    }
  }

  lemma {:induction false} RunsOn(s: State, a: seq<Step>, b: seq<Step>)
    requires AllowedRun(s, a) && AllowedRun(Run(s, a), b)
    ensures AllowedRun(s, a + b) && Run(s, a + b) == Run(Run(s, a), b)
    decreases |a|
  {
    hide CanStep, Next;
    if a == [] {
      assert a + b == b;
    } else {
      assert (a + b)[0] == a[0] && (a + b)[1..] == a[1..] + b;
      RunsOn(Next(s, a[0]), a[1..], b);
    }
  }

  lemma {:induction false} AllEnd(s: State) returns (steps: seq<Step>)
    requires Inv(s)
    ensures AllAdvance(steps) && AllowedRun(s, steps) && Run(s, steps).pc == map[]
    decreases |s.pc.Keys|
  {
    hide Inv, CanStep, Next;
    if s.pc == map[] {
      steps := [];
    } else {
      var t := SomeoneIsClear(s);
      var first := ClearThreadEnds(s, t);
      RunKeepsInv(s, first);
      var z := Run(s, first);
      assert z.pc.Keys == s.pc.Keys - {t} && t in s.pc.Keys;
      var rest := AllEnd(z);
      RunsOn(s, first, rest);
      steps := first + rest;
    }
  }

  /** No deadlock: from every reachable state the running operations can all be brought to their ends, without any new
      one. */
  lemma EveryOperationCanEnd(s0: State, past: seq<Step>)
    requires Initial(s0) && AllowedRun(s0, past)
    ensures exists rest ::
      var s := Run(s0, past);
      AllAdvance(rest) && AllowedRun(s, rest) && Run(s, rest).pc == map[] && Exact(Run(s, rest).m)
  {
    hide Inv, Initial, Exact;
    InitialInv(s0);
    RunKeepsInv(s0, past);
    var s := Run(s0, past);
    var rest := AllEnd(s);
    RunKeepsInv(s, rest);
    QuietExact(Run(s, rest));
  }

  lemma EndsThere(s: State, t: Thread, steps: seq<Step>)
    requires AllowedRun(s, steps) && t !in s.pc && forall i :: 0 <= i < |steps| ==> steps[i] == Advance(t)
    ensures steps == []
  {
  }

  /** Nobody else runs: the list has taken the operation's effect at its end. */
  lemma {:induction false} AloneTakesEffect(s: State, t: Thread, steps: seq<Step>)
    requires Inv(s) && AllowedRun(s, steps) && t in s.pc && t !in Run(s, steps).pc
    requires forall i :: 0 <= i < |steps| ==> steps[i] == Advance(t)
    ensures
      var c, l := s.pc[t], Run(s, steps).m.list;
      if IsBefore(c) then IsEffect(OperationOf(c), Change(s.m.list, l)) else l == s.m.list
    decreases |steps|
  {
    hide Inv, IsEffect;
    var s' := Next(s, steps[0]);
    NextKeepsInv(s, steps[0]);
    OwnStep(s, t);
    hide Next;
    if t in s'.pc {
      AloneTakesEffect(s', t, steps[1..]);
    } else {
      EndsThere(s', t, steps[1..]);
    }
  }

  /** An operation begun at rest, run by itself. */
  lemma OperationAlone(s: State, t: Thread, begin: Step)
    requires Inv(s) && s.pc == map[] && CanStep(s, begin) && Begins(begin, t).Some?
    ensures exists rest ::
      var s' := Next(s, begin);
      && AllAdvance(rest) && AllowedRun(s', rest) && Run(s', rest).pc == map[] && Exact(Run(s', rest).m)
      && IsEffect(Begins(begin, t).value, Change(s.m.list, Run(s', rest).m.list))
  {
    var s' := Next(s, begin);
    NextKeepsInv(s, begin);
    OperationBegun(s, begin, t);
    assert s'.pc.Keys == {t} && s'.m.list == s.m.list;
    hide Inv, IsEffect, Exact, CanStep, Next, Begins;
    var u := SomeoneIsClear(s');
    var rest := ClearThreadEnds(s', t);
    AloneTakesEffect(s', t, rest);
    RunKeepsInv(s', rest);
    QuietExact(Run(s', rest));
  }

  /** A new leaf can be linked behind any linked leaf, and every linked leaf but the first can be unlinked. */
  lemma SplitAlone(s0: State, past: seq<Step>, t: Thread, n: Node, nr: Node, link: Link, back: Option<Node>)
    requires Initial(s0) && AllowedRun(s0, past) && Run(s0, past).pc == map[]
    requires n in Run(s0, past).m.list && nr !in Run(s0, past).m.next
    ensures CanStep(Run(s0, past), BeginSplit(t, n, nr, link, back))
    ensures exists rest ::
      var s, s' := Run(s0, past), Next(Run(s0, past), BeginSplit(t, n, nr, link, back));
      && AllAdvance(rest) && AllowedRun(s', rest) && Run(s', rest).pc == map[] && Exact(Run(s', rest).m)
      && Run(s', rest).m.list == InsertAfter(s.m.list, n, nr)
  {
    hide Inv, Initial, Exact, InsertAfter;
    InitialInv(s0);
    RunKeepsInv(s0, past);
    var s := Run(s0, past);
    OperationAlone(s, t, BeginSplit(t, n, nr, link, back));
  }

  lemma UnlinkAlone(s0: State, past: seq<Step>, t: Thread, n: Node)
    requires Initial(s0) && AllowedRun(s0, past) && Run(s0, past).pc == map[]
    requires var l := Run(s0, past).m.list; n in l && n != l[0]
    ensures CanStep(Run(s0, past), BeginUnlink(t, n))
    ensures exists rest ::
      var s, s' := Run(s0, past), Next(Run(s0, past), BeginUnlink(t, n));
      && AllAdvance(rest) && AllowedRun(s', rest) && Run(s', rest).pc == map[] && Exact(Run(s', rest).m)
      && Run(s', rest).m.list == Remove(s.m.list, n)
  {
    hide Inv, Initial, Exact, Remove;
    InitialInv(s0);
    RunKeepsInv(s0, past);
    var s := Run(s0, past);
    QuietAt(s, IndexOf(s.m.list, n));
    OperationAlone(s, t, BeginUnlink(t, n));
  }
}
