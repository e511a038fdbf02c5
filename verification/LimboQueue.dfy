/** The queue of retired blocks of one thread: groups of slots in a chain, freed in order.
  Sources: kvthread.hh (limbo_group, record_rcu), kvthread.cc (refill_rcu, clean_until,
  hard_rcu_quiesce).  Epochs do not wrap here. */
module LimboQueue {
  import opened Options

  type Ref = nat
  type Epoch = nat

  const CAPACITY := 253
  const RCU_FREE_COUNT := 128

  /** A slot holds a block, or (null pointer) the epoch of the blocks after it. */
  datatype Element = Marker(epoch: Epoch) | Block(ptr: nat)

  datatype Retired = Retired(ptr: nat, epoch: Epoch)

  datatype Group = Group(head: nat, tail: nat, epoch: Epoch, e: seq<Element>)
  {
    predicate Empty() { head == tail }
  }

  // ----- what a group holds

  /** The blocks in a row of slots, each with the epoch of the marker before it. */
  function Waiting(es: seq<Element>, epoch: Epoch): seq<Retired> {
    if es == [] then []
    else match es[0]
      case Marker(ep) => Waiting(es[1..], ep)
      case Block(ptr) => [Retired(ptr, epoch)] + Waiting(es[1..], epoch)
  }

  function LastEpoch(es: seq<Element>, epoch: Epoch): Epoch {
    if es == [] then epoch
    else LastEpoch(es[1..], if es[0].Marker? then es[0].epoch else epoch)
  }

  /** Markers ascend from `low` on. */
  predicate Ascend(es: seq<Element>, low: Epoch) {
    es == [] || if es[0].Marker? then low <= es[0].epoch && Ascend(es[1..], es[0].epoch) else Ascend(es[1..], low)
  }

  function Slots(g: Group): seq<Element>
    requires g.head <= g.tail <= |g.e|
  {
    g.e[g.head..g.tail]
  }

  /** A group that is not empty starts with a marker and remembers the last one. */
  predicate GroupOk(g: Group) {
    && g.head <= g.tail <= CAPACITY == |g.e|
    && (g.Empty() ==> g.head == 0)
    && (!g.Empty() ==> Slots(g)[0].Marker? && LastEpoch(Slots(g), 0) == g.epoch && Ascend(Slots(g), 0))
  }

  /** `first_epoch`. */
  function FirstEpoch(g: Group): Epoch
    requires GroupOk(g) && !g.Empty()
  {
    g.e[g.head].epoch
  }

  function Held(g: Group): seq<Retired>
    requires GroupOk(g)
  {
    Waiting(Slots(g), 0)
  }

  // ----- appending

  lemma {:induction false} WaitingJoin(a: seq<Element>, b: seq<Element>, epoch: Epoch)
    ensures Waiting(a + b, epoch) == Waiting(a, epoch) + Waiting(b, LastEpoch(a, epoch))
    ensures LastEpoch(a + b, epoch) == LastEpoch(b, LastEpoch(a, epoch))
  {
    if a == [] {
      assert a + b == b;
    } else {
      assert (a + b)[1..] == a[1..] + b;
      WaitingJoin(a[1..], b, if a[0].Marker? then a[0].epoch else epoch);
    }
  }

  lemma {:induction false} AscendJoin(a: seq<Element>, b: seq<Element>, low: Epoch)
    requires Ascend(a, low) && Ascend(b, LastEpoch(a, low))
    ensures Ascend(a + b, low)
  {
    if a == [] {
      assert a + b == b;
    } else {
      assert (a + b)[1..] == a[1..] + b;
      AscendJoin(a[1..], b, if a[0].Marker? then a[0].epoch else low);
    }
  }

  lemma NoElements()
    ensures forall e: Epoch :: Waiting([], e) == [] && LastEpoch([], e) == e && Ascend([], e)
  {
  }

  lemma OneMore(ptr: nat, epoch: Epoch, low: Epoch)
    ensures
      var b, m := [Block(ptr)], [Marker(epoch), Block(ptr)];
      && Waiting(b, epoch) == Waiting(m, low) == [Retired(ptr, epoch)]
      && LastEpoch(b, epoch) == LastEpoch(m, low) == epoch
      && Ascend(b, epoch) && (low <= epoch ==> Ascend(m, low))
  {
    assert [Block(ptr)][1..] == [] && [Marker(epoch), Block(ptr)][1..] == [Block(ptr)];
  }

  lemma SliceGrows(e: seq<Element>, e': seq<Element>, h: nat, tail: nat, more: seq<Element>)
    requires h <= tail && tail + |more| <= |e| == |e'|
    requires forall i :: 0 <= i < tail ==> e'[i] == e[i]
    requires forall i :: 0 <= i < |more| ==> e'[tail + i] == more[i]
    ensures e'[h..tail + |more|] == e[h..tail] + more
  {
    forall i | tail <= i < tail + |more|
      ensures e'[i] == more[i - tail]
    {
      assert e'[tail + (i - tail)] == more[i - tail];
    }
  }

  /** `push_back`: a marker if the group is empty or the epoch is new, then the block. */
  method PushBack(g: Group, ptr: nat, epoch: Epoch) returns (r: Group)
    requires GroupOk(g) && g.tail + 2 <= CAPACITY && (!g.Empty() ==> g.epoch <= epoch)
    ensures GroupOk(r) && !r.Empty() && r.epoch == epoch
    ensures Held(r) == Held(g) + [Retired(ptr, epoch)]
    ensures FirstEpoch(r) == if g.Empty() then epoch else FirstEpoch(g)
  {
    r := g;
    if r.Empty() || r.epoch != epoch {
      r := r.(e := r.e[r.tail := Marker(epoch)], epoch := epoch, tail := r.tail + 1);
    }
    r := r.(e := r.e[r.tail := Block(ptr)], tail := r.tail + 1);
    hide Waiting, Ascend, LastEpoch;
    NoElements();
    ghost var more := if g.Empty() || g.epoch != epoch then [Marker(epoch), Block(ptr)] else [Block(ptr)];
    SliceGrows(g.e, r.e, g.head, g.tail, more);
    WaitingJoin(Slots(g), more, 0);
    OneMore(ptr, epoch, LastEpoch(Slots(g), 0));
    if g.Empty() {
      assert Slots(g) == [];
    } else {
      AscendJoin(Slots(g), more, 0);
    }
  }

  // ----- freeing

  /** How many of the waiting blocks may be freed: in order, not past the bound. */
  function Freeable(ws: seq<Retired>, bound: int, count: nat): (n: nat)
    ensures n <= |ws| && n <= count
  {
    if ws == [] || count == 0 || ws[0].epoch > bound then 0 else 1 + Freeable(ws[1..], bound, count - 1)
  }

  /** Nothing past the bound is freed, and freeing stops only there or at the count. */
  lemma {:induction false} FreeableIs(ws: seq<Retired>, bound: int, count: nat)
    ensures
      var n := Freeable(ws, bound, count);
      && (forall i :: 0 <= i < n ==> ws[i].epoch <= bound)
      && (n < count && n < |ws| ==> ws[n].epoch > bound)
  {
    if ws != [] && count > 0 && ws[0].epoch <= bound {
      FreeableIs(ws[1..], bound, count - 1);
    }
  }

  /** One pass frees nothing retired in or after the active epoch, at most 128 blocks, and all it may within that. */
  lemma OnePassFrees(ws: seq<Retired>, activeEpoch: Epoch)
    ensures
      var n := Freeable(ws, activeEpoch - 1, RCU_FREE_COUNT);
      && n <= 128 && (forall i :: 0 <= i < n ==> ws[i].epoch < activeEpoch)
      && (n == 128 || n == |ws| || ws[n].epoch >= activeEpoch)
  {
    FreeableIs(ws, activeEpoch - 1, RCU_FREE_COUNT);
  }

  lemma {:induction false} NotBefore(es: seq<Element>, low: Epoch)
    requires Ascend(es, low)
    ensures forall i :: 0 <= i < |Waiting(es, low)| ==> low <= Waiting(es, low)[i].epoch
  {
    if es != [] {
      NotBefore(es[1..], if es[0].Marker? then es[0].epoch else low);
    }
  }

  lemma SlotsFrom(e: seq<Element>, h: nat, tail: nat)
    requires h < tail <= |e|
    ensures e[h..tail] == [e[h]] + e[h + 1..tail] && e[h..tail][0] == e[h] && e[h..tail][1..] == e[h + 1..tail]
  {
  }

  /** In the loop of `clean_until`: what was freed and what is still to be looked at. */
  ghost predicate Cleaning(g: Group, bound: int, count: nat, h: nat, epoch: Epoch, freed: seq<Retired>, left: nat)
    requires GroupOk(g)
  {
    && g.head <= h <= g.tail && left > 0 && |freed| + left == count
    && freed + Waiting(g.e[h..g.tail], epoch) == Held(g)
    && |freed| + Freeable(Waiting(g.e[h..g.tail], epoch), bound, left) == Freeable(Held(g), bound, count)
    && (h == g.head && h < g.tail ==> g.e[h].Marker?)
    && (h > g.head ==> epoch <= bound)
    && (!g.Empty() ==> Ascend(g.e[h..g.tail], epoch) && LastEpoch(g.e[h..g.tail], epoch) == g.epoch)
  }

  ghost predicate Cleaned(g: Group, bound: int, count: nat, r: Group, freed: seq<Retired>, left: nat)
    requires GroupOk(g)
  {
    && GroupOk(r) && (!r.Empty() ==> !g.Empty() && r.epoch == g.epoch)
    && var n := Freeable(Held(g), bound, count);
    && n == |freed| == count - left && freed == Held(g)[..n] && Held(r) == Held(g)[n..]
    && (left > 0 && !r.Empty() ==> FirstEpoch(r) > bound)
    && (left == 0 ==> !r.Empty())
  }

  lemma FreedOne(g: Group, bound: int, count: nat, h: nat, epoch: Epoch, freed: seq<Retired>, left: nat)
    requires GroupOk(g) && Cleaning(g, bound, count, h, epoch, freed, left) && h < g.tail && g.e[h].Block?
    ensures left > 1 ==> Cleaning(g, bound, count, h + 1, epoch, freed + [Retired(g.e[h].ptr, epoch)], left - 1)
    ensures left == 1 ==> Cleaned(g, bound, count, g.(head := h, e := g.e[h := Marker(epoch)]), freed + [Retired(g.e[h].ptr, epoch)], 0)
  {
    SlotsFrom(g.e, h, g.tail);
    var one, rest := [Retired(g.e[h].ptr, epoch)], Waiting(g.e[h + 1..g.tail], epoch);
    assert freed + (one + rest) == (freed + one) + rest;
    assert (one + rest)[1..] == rest;
    if left == 1 {
      var r := g.(head := h, e := g.e[h := Marker(epoch)]);
      assert Slots(r) == [Marker(epoch)] + g.e[h + 1..g.tail];
      assert Slots(r)[1..] == g.e[h + 1..g.tail];
    }
  }

  lemma SawMarker(g: Group, bound: int, count: nat, h: nat, epoch: Epoch, freed: seq<Retired>, left: nat)
    requires GroupOk(g) && Cleaning(g, bound, count, h, epoch, freed, left) && h < g.tail && g.e[h].Marker?
    ensures g.e[h].epoch <= bound ==> Cleaning(g, bound, count, h + 1, g.e[h].epoch, freed, left)
    ensures g.e[h].epoch > bound ==> Cleaned(g, bound, count, g.(head := h), freed, left)
  {
    SlotsFrom(g.e, h, g.tail);
    if g.e[h].epoch > bound {
      NotBefore(g.e[h + 1..g.tail], g.e[h].epoch);
      assert Waiting(g.e[h..g.tail], 0) == Waiting(g.e[h + 1..g.tail], g.e[h].epoch);
    }
  }

  lemma CleanedAll(g: Group, bound: int, count: nat, epoch: Epoch, freed: seq<Retired>, left: nat)
    requires GroupOk(g) && Cleaning(g, bound, count, g.tail, epoch, freed, left)
    ensures Cleaned(g, bound, count, g.(head := 0, tail := 0), freed, left)
  {
    assert g.e[g.tail..g.tail] == [];
    assert Slots(g.(head := 0, tail := 0)) == [];
  }

  /** `clean_until`: frees in order, up to `count` blocks, none past the bound. */
  method CleanUntil(g: Group, bound: int, count: nat) returns (r: Group, freed: seq<Retired>, left: nat)
    requires GroupOk(g) && count > 0
    ensures Cleaned(g, bound, count, r, freed, left)
  {
    r, left, freed := g, count, [];
    var epoch := 0;
    hide Freeable;
    assert Cleaning(g, bound, count, g.head, 0, [], count) by { assert [] + Waiting(Slots(g), 0) == Held(g); }
    hide Cleaning, Cleaned, Held;
    while r.head != r.tail
      invariant r == g.(head := r.head) && r.head <= g.tail && Cleaning(g, bound, count, r.head, epoch, freed, left)
      decreases g.tail - r.head
    {
      match r.e[r.head] {
      case Block(ptr) =>
        FreedOne(g, bound, count, r.head, epoch, freed, left);
        CleaningLeft(g, bound, count, r.head, epoch, freed, left);
        freed := freed + [Retired(ptr, epoch)];
        left := left - 1;
        if left == 0 {
          r := r.(e := r.e[r.head := Marker(epoch)]);
          return;
        }
      case Marker(ep) =>
        SawMarker(g, bound, count, r.head, epoch, freed, left);
        epoch := ep;
        if bound - epoch < 0 {
          return;
        }
      }
      r := r.(head := r.head + 1);
    }
    CleanedAll(g, bound, count, epoch, freed, left);
    r := r.(head := 0, tail := 0);
  }

  lemma CleaningLeft(g: Group, bound: int, count: nat, h: nat, epoch: Epoch, freed: seq<Retired>, left: nat)
    requires GroupOk(g) && Cleaning(g, bound, count, h, epoch, freed, left)
    ensures left > 0
  {
  }

  // ----- the chain of groups

  ghost predicate Distinct(order: seq<Ref>) {
    forall i, j :: 0 <= i < j < |order| ==> order[i] != order[j]
  }

  /** The `next_` pointers lead through exactly the groups of `order`. */
  ghost predicate Chain(next: map<Ref, Option<Ref>>, order: seq<Ref>) {
    && Distinct(order)
    && (forall r :: r in next <==> r in order)
    && (forall i :: 0 <= i < |order| ==> order[i] in next && next[order[i]] == if i + 1 < |order| then Some(order[i + 1]) else None)
  }

  /** The order after the emptied groups went from the front to behind the tail. */
  function Turned(order: seq<Ref>, t: nat, m: nat): seq<Ref>
    requires m <= t < |order|
  {
    order[m..t + 1] + order[..m] + order[t + 1..]
  }

  /** Where the group at place `i` of the new order was. */
  function Was(i: nat, t: nat, m: nat): nat
    requires m <= t
  {
    if i <= t - m then i + m else if i <= t then i - (t - m + 1) else i
  }

  lemma TurnedIs(order: seq<Ref>, t: nat, m: nat)
    requires m <= t < |order|
    ensures |Turned(order, t, m)| == |order|
    ensures forall i :: 0 <= i < |order| ==> Was(i, t, m) < |order| && Turned(order, t, m)[i] == order[Was(i, t, m)]
    ensures forall r :: r in Turned(order, t, m) <==> r in order
  {
    var after := Turned(order, t, m);
    forall r | r in order
      ensures r in after
    {
      var i :| 0 <= i < |order| && order[i] == r;
      assert after[if i < m then i + (t - m + 1) else if i <= t then i - m else i] == r;
    }
  }

  lemma ChainAt(next: map<Ref, Option<Ref>>, order: seq<Ref>, i: nat, j: nat)
    requires Chain(next, order) && i < |order| && j < |order|
    ensures order[i] in next && next[order[i]] == if i + 1 < |order| then Some(order[i + 1]) else None
    ensures i != j ==> order[i] != order[j]
  {
    assert i < j ==> order[i] != order[j];
    assert j < i ==> order[j] != order[i];
  }

  /** The two stores that hook the emptied groups behind the tail. */
  function Hooked(next: map<Ref, Option<Ref>>, first: Ref, last: Ref, tail: Ref): map<Ref, Option<Ref>>
    requires tail in next
  {
    next[last := next[tail]][tail := Some(first)]
  }

  lemma WasNext(i: nat, t: nat, m: nat)
    requires 0 < m <= t
    ensures Was(i, t, m) == m - 1 <==> i == t
    ensures Was(i, t, m) == t <==> i == t - m
    ensures Was(i + 1, t, m) == if i == t then t + 1 else if i == t - m then 0 else Was(i, t, m) + 1
  {
  }

  lemma HookedNext(next: map<Ref, Option<Ref>>, order: seq<Ref>, t: nat, m: nat, i: nat)
    requires Chain(next, order) && 0 < m <= t < |order| && i < |order|
    ensures
      var after := Turned(order, t, m);
      && |after| == |order| && order[t] in next && after[i] in Hooked(next, order[0], order[m - 1], order[t])
      && Hooked(next, order[0], order[m - 1], order[t])[after[i]] == if i + 1 < |after| then Some(after[i + 1]) else None
  {
    TurnedIs(order, t, m);
    WasNext(i, t, m);
    var w := Was(i, t, m);
    assert Turned(order, t, m)[i] == order[w] && (i + 1 < |order| ==> Turned(order, t, m)[i + 1] == order[Was(i + 1, t, m)]);
    hide Turned, Chain, Was;
    ChainAt(next, order, w, m - 1);
    ChainAt(next, order, w, t);
    ChainAt(next, order, t, m - 1);
  }

  lemma TurnedApart(order: seq<Ref>, t: nat, m: nat, i: nat, j: nat)
    requires Distinct(order) && m <= t < |order| && i < j < |order|
    ensures |Turned(order, t, m)| == |order| && Turned(order, t, m)[i] != Turned(order, t, m)[j]
  {
    TurnedIs(order, t, m);
    hide Turned;
    var a, b := Was(i, t, m), Was(j, t, m);
    assert a < b || b < a;
  }

  /** Moving the emptied groups from the front to behind the tail keeps a chain. */
  lemma HookedIsChain(next: map<Ref, Option<Ref>>, order: seq<Ref>, t: nat, m: nat)
    requires Chain(next, order) && 0 < m <= t < |order|
    ensures order[t] in next && Chain(Hooked(next, order[0], order[m - 1], order[t]), Turned(order, t, m))
    ensures Hooked(next, order[0], order[m - 1], order[t]).Keys == next.Keys
  {
    ChainAt(next, order, t, m - 1);
    var h, after := Hooked(next, order[0], order[m - 1], order[t]), Turned(order, t, m);
    TurnedIs(order, t, m);
    assert (forall r :: r in h <==> r in after) && Distinct(order) && h.Keys == next.Keys by { HookedKeys(next, order, t, m); }
    hide Turned, Hooked, Was, Chain, Distinct;
    forall i | 0 <= i < |after|
      ensures after[i] in h && h[after[i]] == if i + 1 < |after| then Some(after[i + 1]) else None
    {
      HookedNext(next, order, t, m, i);
    }
    forall i, j | 0 <= i < j < |after|
      ensures after[i] != after[j]
    {
      TurnedApart(order, t, m, i, j);
    }
    IsChain(h, after);
  }

  lemma IsChain(next: map<Ref, Option<Ref>>, order: seq<Ref>)
    requires forall r :: r in next <==> r in order
    requires forall i, j :: 0 <= i < j < |order| ==> order[i] != order[j]
    requires forall i :: 0 <= i < |order| ==> order[i] in next && next[order[i]] == if i + 1 < |order| then Some(order[i + 1]) else None
    ensures Chain(next, order)
  {
  }

  lemma HookedKeys(next: map<Ref, Option<Ref>>, order: seq<Ref>, t: nat, m: nat)
    requires Chain(next, order) && 0 < m <= t < |order| && order[t] in next
    ensures forall r :: r in Hooked(next, order[0], order[m - 1], order[t]) <==> r in Turned(order, t, m)
    ensures Distinct(order) && Hooked(next, order[0], order[m - 1], order[t]).Keys == next.Keys
  {
    TurnedIs(order, t, m);
    hide Turned;
  }

  // ----- what the groups hold together

  ghost predicate GroupsOk(groups: map<Ref, Group>, order: seq<Ref>) {
    && (forall r :: r in groups ==> GroupOk(groups[r]))
    && (forall i :: 0 <= i < |order| ==> order[i] in groups)
  }

  /** Groups up to the tail hold something, unless there is only one; later ones are empty. */
  ghost predicate Filled(groups: map<Ref, Group>, order: seq<Ref>, t: nat) {
    && t < |order| && GroupsOk(groups, order)
    && (forall i :: 0 <= i <= t && t > 0 ==> !groups[order[i]].Empty())
    && (forall i :: t < i < |order| ==> groups[order[i]].Empty())
  }

  /** From group to group epochs do not go back. */
  ghost predicate InOrder(groups: map<Ref, Group>, refs: seq<Ref>)
    requires forall i :: 0 <= i < |refs| ==> refs[i] in groups && GroupOk(groups[refs[i]])
  {
    forall i, j :: 0 <= i < j < |refs| && !groups[refs[j]].Empty() ==>
      groups[refs[i]].epoch <= FirstEpoch(groups[refs[j]])
  }

  /** All that waits, in retire order. */
  ghost function Queue(groups: map<Ref, Group>, refs: seq<Ref>): seq<Retired>
    requires forall i :: 0 <= i < |refs| ==> refs[i] in groups && GroupOk(groups[refs[i]])
  {
    if refs == [] then [] else Held(groups[refs[0]]) + Queue(groups, refs[1..])
  }

  lemma {:induction false} QueueJoin(groups: map<Ref, Group>, a: seq<Ref>, b: seq<Ref>)
    requires forall i :: 0 <= i < |a| ==> a[i] in groups && GroupOk(groups[a[i]])
    requires forall i :: 0 <= i < |b| ==> b[i] in groups && GroupOk(groups[b[i]])
    ensures forall i :: 0 <= i < |a + b| ==> (a + b)[i] in groups && GroupOk(groups[(a + b)[i]])
    ensures Queue(groups, a + b) == Queue(groups, a) + Queue(groups, b)
  {
    if a == [] {
      assert a + b == b;
    } else {
      assert (a + b)[1..] == a[1..] + b;
      hide Held, GroupOk;
      QueueJoin(groups, a[1..], b);
      var x, y, z := Held(groups[a[0]]), Queue(groups, a[1..]), Queue(groups, b);
      assert x + (y + z) == (x + y) + z;
      assert Queue(groups, a + b) == x + Queue(groups, a[1..] + b);
    }
  }

  lemma {:induction false} QueueSame(groups: map<Ref, Group>, groups': map<Ref, Group>, refs: seq<Ref>)
    requires forall i :: 0 <= i < |refs| ==> refs[i] in groups && GroupOk(groups[refs[i]]) && refs[i] in groups' && GroupOk(groups'[refs[i]])
    requires forall i :: 0 <= i < |refs| ==> Held(groups'[refs[i]]) == Held(groups[refs[i]])
    ensures Queue(groups', refs) == Queue(groups, refs)
  {
    if refs != [] {
      QueueSame(groups, groups', refs[1..]);
    }
  }

  lemma {:induction false} EmptyQueue(groups: map<Ref, Group>, refs: seq<Ref>)
    requires forall i :: 0 <= i < |refs| ==> refs[i] in groups && GroupOk(groups[refs[i]]) && groups[refs[i]].Empty()
    ensures Queue(groups, refs) == []
  {
    if refs != [] {
      assert Slots(groups[refs[0]]) == [] && Held(groups[refs[0]]) == [];
      EmptyQueue(groups, refs[1..]);
      assert Queue(groups, refs[1..]) == [];
    }
  }

  lemma HeldNotBefore(g: Group)
    requires GroupOk(g) && !g.Empty()
    ensures forall i :: 0 <= i < |Held(g)| ==> FirstEpoch(g) <= Held(g)[i].epoch
  {
    var es := Slots(g);
    assert es[0] == g.e[g.head] && Held(g) == Waiting(es[1..], es[0].epoch);
    NotBefore(es[1..], es[0].epoch);
  }

  lemma {:induction false} QueueNotBefore(groups: map<Ref, Group>, refs: seq<Ref>, low: Epoch)
    requires forall i :: 0 <= i < |refs| ==> refs[i] in groups && GroupOk(groups[refs[i]])
    requires forall i :: 0 <= i < |refs| && !groups[refs[i]].Empty() ==> low <= FirstEpoch(groups[refs[i]])
    ensures forall i :: 0 <= i < |Queue(groups, refs)| ==> low <= Queue(groups, refs)[i].epoch
  {
    if refs != [] {
      var g := groups[refs[0]];
      if g.Empty() {
        assert Slots(g) == [];
      } else {
        HeldNotBefore(g);
      }
      QueueNotBefore(groups, refs[1..], low);
    }
  }

  lemma {:induction false} FreeableJoin(a: seq<Retired>, b: seq<Retired>, bound: int, count: nat)
    ensures
      var n := Freeable(a, bound, count);
      Freeable(a + b, bound, count) == if n == |a| then |a| + Freeable(b, bound, count - n) else n
  {
    if a == [] {
      assert a + b == b;
    } else if count > 0 && a[0].epoch <= bound {
      assert (a + b)[1..] == a[1..] + b;
      FreeableJoin(a[1..], b, bound, count - 1);
    }
  }

  lemma {:induction false} FirstBeforeLast(es: seq<Element>, low: Epoch)
    requires Ascend(es, low)
    ensures low <= LastEpoch(es, low)
  {
    if es != [] {
      FirstBeforeLast(es[1..], if es[0].Marker? then es[0].epoch else low);
    }
  }

  lemma FirstNotAfterLast(g: Group)
    requires GroupOk(g) && !g.Empty()
    ensures FirstEpoch(g) <= g.epoch
  {
    var es := Slots(g);
    assert es[0] == g.e[g.head];
    FirstBeforeLast(es[1..], es[0].epoch);
  }

  ghost predicate Good(groups: map<Ref, Group>, order: seq<Ref>, t: nat) {
    Distinct(order) && Filled(groups, order, t) && InOrder(groups, order[..t + 1])
  }

  ghost function Pending(groups: map<Ref, Group>, order: seq<Ref>, t: nat): seq<Retired>
    requires Good(groups, order, t)
  {
    Queue(groups, order[..t + 1])
  }

  /** A block put into the tail group comes last. */
  lemma PushedIsGood(groups: map<Ref, Group>, order: seq<Ref>, t: nat, r: Group, ptr: nat, epoch: Epoch)
    requires Distinct(order) && t < |order| && GroupsOk(groups, order)
    requires forall i :: 0 <= i < t ==> !groups[order[i]].Empty()
    requires forall i :: t < i < |order| ==> groups[order[i]].Empty()
    requires InOrder(groups, order[..t + 1])
    requires forall i :: 0 <= i < t ==> groups[order[i]].epoch <= epoch
    requires GroupOk(r) && !r.Empty() && r.epoch == epoch
    requires Held(r) == Held(groups[order[t]]) + [Retired(ptr, epoch)]
    requires !groups[order[t]].Empty() ==> FirstEpoch(r) == FirstEpoch(groups[order[t]])
    requires groups[order[t]].Empty() ==> FirstEpoch(r) == epoch
    ensures Good(groups[order[t] := r], order, t)
    ensures Pending(groups[order[t] := r], order, t) == Queue(groups, order[..t + 1]) + [Retired(ptr, epoch)]
  {
    hide Ascend, Waiting, LastEpoch, Slots;
    assert forall i :: 0 <= i < |order| && i != t ==> order[i] != order[t];
    PushedOrder(groups, order, t, r, epoch);
    PushedQueue(groups, order, t, r);
  }

  lemma PushedOrder(groups: map<Ref, Group>, order: seq<Ref>, t: nat, r: Group, epoch: Epoch)
    requires t < |order| && forall i :: 0 <= i < |order| && i != t ==> order[i] != order[t]
    requires forall i :: 0 <= i <= t ==> order[i] in groups && GroupOk(groups[order[i]])
    requires InOrder(groups, order[..t + 1]) && forall i :: 0 <= i < t ==> groups[order[i]].epoch <= epoch
    requires GroupOk(r) && !r.Empty()
    requires !groups[order[t]].Empty() ==> FirstEpoch(r) == FirstEpoch(groups[order[t]])
    requires groups[order[t]].Empty() ==> FirstEpoch(r) == epoch
    ensures InOrder(groups[order[t] := r], order[..t + 1])
  {
  }

  lemma PushedQueue(groups: map<Ref, Group>, order: seq<Ref>, t: nat, r: Group)
    requires t < |order| && forall i :: 0 <= i < |order| && i != t ==> order[i] != order[t]
    requires forall i :: 0 <= i <= t ==> order[i] in groups && GroupOk(groups[order[i]])
    requires GroupOk(r) && |Held(r)| >= |Held(groups[order[t]])| && Held(r)[..|Held(groups[order[t]])|] == Held(groups[order[t]])
    ensures Queue(groups[order[t] := r], order[..t + 1]) == Queue(groups, order[..t + 1]) + Held(r)[|Held(groups[order[t]])|..]
  {
    var after, init, last := groups[order[t] := r], order[..t], [order[t]];
    assert order[..t + 1] == init + last;
    QueueJoin(groups, init, last);
    QueueJoin(after, init, last);
    QueueSame(groups, after, init);
    assert last[1..] == [];
    assert Queue(groups, last) == Held(groups[order[t]]) && Queue(after, last) == Held(r);
  }

  // ----- quiescing

  /** In the loop of `hard_rcu_quiesce`: the first `m` groups are empty now, the others are as
      before; what was freed, and how many more blocks may be. */
  ghost predicate Emptying(before: map<Ref, Group>, groups: map<Ref, Group>, order: seq<Ref>, t: nat, m: nat, bound: int,
                           freed: seq<Retired>, left: nat)
    requires Good(before, order, t)
  {
    && m <= t && left > 0 && |freed| + left == RCU_FREE_COUNT && Emptied(before, groups, order, m)
    && freed + Queue(before, order[m..t + 1]) == Pending(before, order, t)
    && |freed| + Freeable(Queue(before, order[m..t + 1]), bound, left) == Freeable(Pending(before, order, t), bound, RCU_FREE_COUNT)
  }

  ghost predicate Emptied(before: map<Ref, Group>, groups: map<Ref, Group>, order: seq<Ref>, m: nat) {
    && m <= |order| && GroupsOk(groups, order)
    && (forall i :: 0 <= i < m ==> groups[order[i]].Empty())
    && (forall i :: m <= i < |order| ==> order[i] in before && groups[order[i]] == before[order[i]])
  }

  lemma EmptyingStarts(before: map<Ref, Group>, order: seq<Ref>, t: nat, bound: int)
    requires Good(before, order, t)
    ensures Emptying(before, before, order, t, 0, bound, [], RCU_FREE_COUNT)
  {
    assert order[0..t + 1] == order[..t + 1];
    assert [] + Pending(before, order, t) == Pending(before, order, t);
  }

  /** Nothing may be freed while the first group starts past the bound, or is empty. */
  lemma NothingFreeable(before: map<Ref, Group>, order: seq<Ref>, t: nat, bound: int)
    requires Good(before, order, t)
    requires var g := before[order[0]]; g.Empty() || FirstEpoch(g) > bound
    ensures Freeable(Pending(before, order, t), bound, RCU_FREE_COUNT) == 0
  {
    var refs := order[..t + 1];
    assert refs[0] == order[0];
    if before[order[0]].Empty() {
      EmptyQueue(before, refs);
    } else {
      RestNotBefore(before, refs);
    }
  }

  /** Nothing in the queue is older than the first marker. */
  lemma RestNotBefore(groups: map<Ref, Group>, refs: seq<Ref>)
    requires forall i :: 0 <= i < |refs| ==> refs[i] in groups && GroupOk(groups[refs[i]])
    requires refs != [] && !groups[refs[0]].Empty() && InOrder(groups, refs)
    ensures forall i :: 0 <= i < |Queue(groups, refs)| ==> FirstEpoch(groups[refs[0]]) <= Queue(groups, refs)[i].epoch
  {
    FirstNotAfterLast(groups[refs[0]]);
    QueueNotBefore(groups, refs, FirstEpoch(groups[refs[0]]));
  }

  lemma QueueFirst(groups: map<Ref, Group>, order: seq<Ref>, m: nat, t: nat)
    requires m <= t < |order| && GroupsOk(groups, order)
    ensures forall i :: 0 <= i < |order| ==> order[i] in groups && GroupOk(groups[order[i]])
    ensures Queue(groups, order[m..t + 1]) == Held(groups[order[m]]) + Queue(groups, order[m + 1..t + 1])
  {
    assert order[m..t + 1][1..] == order[m + 1..t + 1];
  }

  lemma NoneLeft(ws: seq<Retired>, bound: int, left: nat)
    ensures left == 0 || (forall i :: 0 <= i < |ws| ==> ws[i].epoch > bound) ==> Freeable(ws, bound, left) == 0
  {
  }

  lemma EmptyHolds(g: Group, bound: int, count: nat, r: Group, freed: seq<Retired>, left: nat)
    requires GroupOk(g) && Cleaned(g, bound, count, r, freed, left) && r.Empty()
    ensures Held(r) == [] && freed == Held(g) && left > 0 && GroupOk(r)
    ensures Freeable(Held(g), bound, count) == |Held(g)| == count - left
  {
    assert Slots(r) == [];
  }

  lemma FreedPart(freed: seq<Retired>, h: seq<Retired>, q: seq<Retired>, all: seq<Retired>, bound: int, left: nat, left': nat)
    requires freed + (h + q) == all && Freeable(h, bound, left) == |h| == left - left'
    ensures (freed + h) + q == all
    ensures |freed| + Freeable(h + q, bound, left) == |freed + h| + Freeable(q, bound, left')
    ensures q == [] ==> freed + h == all && Freeable(q, bound, left') == 0
  {
    FreeableJoin(h, q, bound, left);
    assert q == [] ==> (freed + h) + q == freed + h;
  }

  lemma EmptyingParts(before: map<Ref, Group>, groups: map<Ref, Group>, order: seq<Ref>, t: nat, m: nat, bound: int,
                      freed: seq<Retired>, left: nat)
    requires Good(before, order, t) && Emptying(before, groups, order, t, m, bound, freed, left)
    ensures m <= t < |order| && Distinct(order) && GroupsOk(before, order) && GroupsOk(groups, order)
    ensures groups[order[m]] == before[order[m]] && Emptied(before, groups, order, m)
    ensures left > 0 && |freed| + left == RCU_FREE_COUNT
    ensures freed + Queue(before, order[m..t + 1]) == Pending(before, order, t)
    ensures |freed| + Freeable(Queue(before, order[m..t + 1]), bound, left) == Freeable(Pending(before, order, t), bound, RCU_FREE_COUNT)
  {
    hide Queue, Held, Freeable, InOrder, GroupOk;
  }

  /** One more group was emptied. */
  lemma EmptiedOne(before: map<Ref, Group>, groups: map<Ref, Group>, order: seq<Ref>, t: nat, m: nat, bound: int,
                   freed: seq<Retired>, left: nat, r: Group, more: seq<Retired>, left': nat)
    requires Good(before, order, t) && Emptying(before, groups, order, t, m, bound, freed, left)
    requires Cleaned(groups[order[m]], bound, left, r, more, left') && r.Empty()
    ensures left' > 0
    ensures m < t ==> Emptying(before, groups[order[m] := r], order, t, m + 1, bound, freed + more, left')
    ensures m == t ==>
      && freed + more == Pending(before, order, t) && |freed + more| == Freeable(Pending(before, order, t), bound, RCU_FREE_COUNT)
      && Good(groups[order[m] := r], order, 0) && Pending(groups[order[m] := r], order, 0) == []
  {
    hide Good, Emptying, Cleaned, GroupOk, Emptied, Distinct, Held, Queue, Freeable, GroupsOk;
    EmptyingParts(before, groups, order, t, m, bound, freed, left);
    GroupsAt(groups, order, m);
    EmptyHolds(groups[order[m]], bound, left, r, more, left');
    EmptiedNext(before, groups, order, m, r);
    QueueFirst(before, order, m, t);
    var h, q := Held(groups[order[m]]), Queue(before, order[m + 1..t + 1]);
    FreedPart(freed, h, q, Pending(before, order, t), bound, left, left');
    if m < t {
      EmptyingWhole(before, groups[order[m] := r], order, t, m + 1, bound, freed + more, left');
    } else {
      assert order[m + 1..t + 1] == [];
      NoQueue(before);
      AllEmpty(before, groups[order[m] := r], order, t);
    }
  }

  lemma GroupsAt(groups: map<Ref, Group>, order: seq<Ref>, i: nat)
    requires GroupsOk(groups, order) && i < |order|
    ensures order[i] in groups && GroupOk(groups[order[i]])
  {
  }

  lemma AllEmpty(before: map<Ref, Group>, groups: map<Ref, Group>, order: seq<Ref>, t: nat)
    requires Good(before, order, t) && Emptied(before, groups, order, t + 1)
    ensures Good(groups, order, 0) && Pending(groups, order, 0) == []
  {
    EmptyQueue(groups, order[..1]);
  }

  lemma NoQueue(groups: map<Ref, Group>)
    ensures Queue(groups, []) == []
  {
  }

  lemma EmptyingWhole(before: map<Ref, Group>, groups: map<Ref, Group>, order: seq<Ref>, t: nat, m: nat, bound: int,
                      freed: seq<Retired>, left: nat)
    requires Good(before, order, t) && m <= t && Emptied(before, groups, order, m) && left > 0 && |freed| + left == RCU_FREE_COUNT
    requires freed + Queue(before, order[m..t + 1]) == Pending(before, order, t)
    requires |freed| + Freeable(Queue(before, order[m..t + 1]), bound, left) == Freeable(Pending(before, order, t), bound, RCU_FREE_COUNT)
    ensures Emptying(before, groups, order, t, m, bound, freed, left)
  {
  }

  lemma EmptiedNext(before: map<Ref, Group>, groups: map<Ref, Group>, order: seq<Ref>, m: nat, r: Group)
    requires Emptied(before, groups, order, m) && m < |order| && Distinct(order) && GroupOk(r) && r.Empty()
    ensures Emptied(before, groups[order[m] := r], order, m + 1)
  {
  }

  /** A group was not emptied: the count ran out, or the rest is past the bound. */
  lemma StoppedAt(before: map<Ref, Group>, groups: map<Ref, Group>, order: seq<Ref>, t: nat, m: nat, bound: int,
                  freed: seq<Retired>, left: nat, r: Group, more: seq<Retired>, left': nat)
    requires Good(before, order, t) && Emptying(before, groups, order, t, m, bound, freed, left)
    requires Cleaned(groups[order[m]], bound, left, r, more, left') && !r.Empty()
    ensures |freed + more| == Freeable(Pending(before, order, t), bound, RCU_FREE_COUNT)
    ensures freed + more + (Held(r) + Queue(before, order[m + 1..t + 1])) == Pending(before, order, t)
  {
    hide Ascend, Waiting, LastEpoch, Slots, Freeable;
    QueueFirst(before, order, m, t);
    var h, q := Held(groups[order[m]]), Queue(before, order[m + 1..t + 1]);
    FreeableJoin(h, q, bound, left);
    assert freed + (h + q) == freed + more + (Held(r) + q);
    NoneLeft(q, bound, left');
    if |more| == |h| && left' > 0 {
      FirstNotAfterLast(r);
      forall i | m + 1 <= i <= t
        ensures bound < FirstEpoch(before[order[i]])
      {
        assert order[..t + 1][i] == order[i] && order[..t + 1][m] == order[m];
      }
      QueueNotBefore(before, order[m + 1..t + 1], if bound < 0 then 0 else bound + 1);
    }
  }

  /** The groups behind the emptied ones are again a queue, with the emptied ones in reserve. */
  lemma StoppedIsGood(before: map<Ref, Group>, groups: map<Ref, Group>, order: seq<Ref>, t: nat, m: nat, r: Group)
    requires Good(before, order, t) && m <= t && Emptied(before, groups, order, m)
    requires GroupOk(r) && !r.Empty() && r.epoch == before[order[m]].epoch
    ensures Good(groups[order[m] := r], Turned(order, t, m), t - m)
    ensures Pending(groups[order[m] := r], Turned(order, t, m), t - m) == Held(r) + Queue(before, order[m + 1..t + 1])
  {
    var g, after := groups[order[m] := r], Turned(order, t, m);
    StoppedGroups(before, groups, order, t, m, r);
    assert Distinct(order) && GroupsOk(before, order);
    TurnedFilled(g, order, t, m);
    assert after[..t - m + 1] == order[m..t + 1];
    StoppedOrder(before, g, order, t, m);
    hide Turned, InOrder, Held, GroupOk, GroupsOk, Filled, Distinct, Emptied;
    QueueFirst(g, order, m, t);
    QueueFirst(before, order, m, t);
    QueueSame(before, g, order[m + 1..t + 1]);
  }

  lemma TurnedFilled(g: map<Ref, Group>, order: seq<Ref>, t: nat, m: nat)
    requires m <= t < |order| && Distinct(order) && GroupsOk(g, order)
    requires forall i :: 0 <= i < |order| ==> (g[order[i]].Empty() <==> i < m || i > t)
    ensures Distinct(Turned(order, t, m)) && Filled(g, Turned(order, t, m), t - m)
  {
    var after := Turned(order, t, m);
    TurnedIs(order, t, m);
    hide Turned, GroupOk;
    forall i, j | 0 <= i < j < |after|
      ensures after[i] != after[j]
    {
      TurnedApart(order, t, m, i, j);
    }
    forall i | 0 <= i < |after|
      ensures after[i] in g && (g[after[i]].Empty() <==> i > t - m)
    {
      assert after[i] == order[Was(i, t, m)];
    }
  }

  lemma StoppedGroups(before: map<Ref, Group>, groups: map<Ref, Group>, order: seq<Ref>, t: nat, m: nat, r: Group)
    requires Good(before, order, t) && m <= t && Emptied(before, groups, order, m) && GroupOk(r) && !r.Empty()
    ensures
      var g := groups[order[m] := r];
      && GroupsOk(g, order) && g[order[m]] == r
      && (forall i :: 0 <= i < |order| ==> (g[order[i]].Empty() <==> i < m || i > t))
      && (forall i :: 0 <= i < m ==> g[order[i]].Empty())
      && (forall i :: m < i < |order| ==> g[order[i]] == before[order[i]])
  {
  }

  lemma StoppedOrder(before: map<Ref, Group>, g: map<Ref, Group>, order: seq<Ref>, t: nat, m: nat)
    requires Good(before, order, t) && m <= t && GroupsOk(g, order)
    requires g[order[m]].epoch == before[order[m]].epoch
    requires forall i :: m < i < |order| ==> g[order[i]] == before[order[i]]
    ensures InOrder(g, order[m..t + 1])
  {
    var front := order[m..t + 1];
    forall i, j | 0 <= i < j < |front| && !g[front[j]].Empty()
      ensures g[front[i]].epoch <= FirstEpoch(g[front[j]])
    {
      assert order[..t + 1][m + i] == front[i] && order[..t + 1][m + j] == front[j];
    }
  }

  // ----- the thread's queue

  /** A group follows the tail, and all that follow are empty. */
  ghost predicate Roomy(groups: map<Ref, Group>, next: map<Ref, Option<Ref>>, order: seq<Ref>, t: nat, free: Ref) {
    && Distinct(order) && Chain(next, order) && groups.Keys == next.Keys && GroupsOk(groups, order) && t + 1 < |order|
    && (forall r :: r in groups ==> r < free)
    && (forall i :: t < i < |order| ==> groups[order[i]].Empty() && groups[order[i]].tail == 0)
  }

  /** The groups up to the tail are the same and in the same places. */
  ghost predicate KeptUpTo(groups: map<Ref, Group>, groups': map<Ref, Group>, order: seq<Ref>, order': seq<Ref>, t: nat) {
    && t < |order| && t < |order'| && order'[..t + 1] == order[..t + 1]
    && (forall i :: 0 <= i <= t ==> order'[i] in groups && order'[i] in groups' && groups'[order'[i]] == groups[order'[i]])
  }

  lemma KeptIs(groups: map<Ref, Group>, groups': map<Ref, Group>, order: seq<Ref>, order': seq<Ref>, t: nat)
    requires KeptUpTo(groups, groups', order, order', t)
    ensures t < |order| && t < |order'| && order'[..t + 1] == order[..t + 1] && order'[0] == order[0] && order'[t] == order[t]
    ensures forall i :: 0 <= i <= t ==> order'[i] in groups && order'[i] in groups' && groups'[order'[i]] == groups[order'[i]]
  {
    assert order'[..t + 1][0] == order[..t + 1][0] && order'[..t + 1][t] == order[..t + 1][t];
  }

  lemma SameIsKept(groups: map<Ref, Group>, order: seq<Ref>, t: nat)
    requires Good(groups, order, t)
    ensures KeptUpTo(groups, groups, order, order, t)
  {
  }

  lemma AddedIsKept(groups: map<Ref, Group>, order: seq<Ref>, t: nat, free: Ref)
    requires Good(groups, order, t) && free !in groups
    ensures KeptUpTo(groups, groups[free := Group(0, 0, 0, seq(CAPACITY, _ => Block(0)))], order, order + [free], t)
  {
    assert (order + [free])[..t + 1] == order[..t + 1];
  }

  lemma SoundIsRoomy(groups: map<Ref, Group>, next: map<Ref, Option<Ref>>, order: seq<Ref>, t: nat, free: Ref)
    requires Good(groups, order, t) && Chain(next, order) && groups.Keys == next.Keys && (forall r :: r in groups ==> r < free)
    requires order[t] in next && next[order[t]] != None
    ensures Roomy(groups, next, order, t, free)
  {
    ChainAt(next, order, t, 0);
    EmptyAtZero(groups);
    hide Chain, GroupOk;
  }

  lemma AddedIsRoomy(groups: map<Ref, Group>, next: map<Ref, Option<Ref>>, order: seq<Ref>, t: nat, free: Ref)
    requires Good(groups, order, t) && Chain(next, order) && groups.Keys == next.Keys && (forall r :: r in groups ==> r < free)
    requires order[t] in next && next[order[t]] == None
    ensures
      var groups' := groups[free := Group(0, 0, 0, seq(CAPACITY, _ => Block(0)))];
      Roomy(groups', next[free := None][order[t] := Some(free)], order + [free], t, free + 1)
  {
    ChainGrows(next, order, t, free);
    NewGroupOk();
    EmptyAtZero(groups);
    hide Chain, GroupOk;
  }

  lemma RoomyIs(groups: map<Ref, Group>, next: map<Ref, Option<Ref>>, order: seq<Ref>, t: nat, free: Ref)
    requires Roomy(groups, next, order, t, free)
    ensures Distinct(order) && Chain(next, order) && groups.Keys == next.Keys && GroupsOk(groups, order) && t + 1 < |order|
    ensures order[t] in next && next[order[t]] == Some(order[t + 1])
    ensures forall r :: r in groups ==> r < free
    ensures forall i :: t < i < |order| ==> groups[order[i]].Empty() && groups[order[i]].tail == 0
  {
    ChainAt(next, order, t, 0);
  }

  class Limbo {
    var groups: map<Ref, Group>
    var next: map<Ref, Option<Ref>>
    var limboHead: Ref
    var limboTail: Ref
    var free: Ref
    var performGcEpoch: int
    ghost var order: seq<Ref>
    ghost var t: nat

    /** The groups in chain order, `limboTail` at place `t`. */
    ghost predicate Sound()
      reads this
    {
      && Good(groups, order, t) && Chain(next, order) && groups.Keys == next.Keys
      && limboHead == order[0] && limboTail == order[t] && forall r :: r in groups ==> r < free
    }

    ghost function Waits(): seq<Retired>
      requires Sound()
      reads this
    {
      Pending(groups, order, t)
    }

    constructor ()
      ensures Sound() && Waits() == []
    {
      groups := map[0 := Group(0, 0, 0, seq(CAPACITY, _ => Block(0)))];
      next := map[0 := None];
      limboHead, limboTail, free, performGcEpoch := 0, 0, 1, 0;
      order, t := [0], 0;
      new;
      assert order[..1] == [0] && Slots(groups[0]) == [];
      EmptyQueue(groups, order[..1]);
    }

    /** A new group behind the tail, which is the last one. */
    method Extend()
      requires Sound() && order[t] in next && next[order[t]] == None
      modifies this
      ensures Roomy(groups, next, order, t, free) && t == old(t) && limboHead == old(limboHead) && limboTail == old(limboTail)
      ensures KeptUpTo(old(groups), groups, old(order), order, t)
    {
      AddedIsRoomy(groups, next, order, t, free);
      AddedIsKept(groups, order, t, free);
      hide Roomy, GroupOk, Chain, KeptUpTo;
      var limboSpace := free;
      free := free + 1;
      groups := groups[limboSpace := Group(0, 0, 0, seq(CAPACITY, _ => Block(0)))];
      next := next[limboSpace := None][limboTail := Some(limboSpace)];
      order := order + [limboSpace];
    }

    /** `refill_rcu`: the group behind the tail, a new one if there is none. */
    method Refill()
      requires Sound() && !groups[limboTail].Empty()
      modifies this
      ensures t == old(t) + 1 && Roomy(groups, next, order, old(t), free) && KeptUpTo(old(groups), groups, old(order), order, old(t))
      ensures limboHead == order[0] && limboTail == order[t]
    {
      ghost var groups0, order0 := groups, order;
      SameIsKept(groups, order, t);
      assert Good(groups, order, t) && t < |order| && limboHead == order[0] && limboTail == order[t] && order[t] in next;
      hide Roomy, GroupOk, Chain, KeptUpTo, Good, GroupsOk, Distinct;
      if next[limboTail] == None {
        Extend();
      } else {
        SoundIsRoomy(groups, next, order, t, free);
      }
      KeptIs(groups0, groups, order0, order, t);
      RoomyIs(groups, next, order, t, free);
      limboTail := next[limboTail].value;
      t := t + 1;
    }

    /** The tail group is ready for a block of epoch `epoch`. */
    ghost predicate Ready(epoch: Epoch)
      reads this
    {
      && Distinct(order) && Chain(next, order) && groups.Keys == next.Keys && t < |order| && GroupsOk(groups, order)
      && limboHead == order[0] && limboTail == order[t] && (forall r :: r in groups ==> r < free)
      && (forall i :: 0 <= i < t ==> !groups[order[i]].Empty() && groups[order[i]].epoch <= epoch)
      && (forall i :: t < i < |order| ==> groups[order[i]].Empty())
      && (!groups[order[t]].Empty() ==> groups[order[t]].epoch <= epoch)
      && groups[order[t]].tail + 2 <= CAPACITY && InOrder(groups, order[..t + 1])
    }

    method Append(ptr: nat, epoch: Epoch)
      requires Ready(epoch)
      modifies this`groups
      ensures Sound() && t < |old(order)| && Waits() == old(Queue(groups, order[..t + 1])) + [Retired(ptr, epoch)]
    {
      hide Chain, InOrder, GroupOk, Held, FirstEpoch;
      GroupsAt(groups, order, t);
      var r := PushBack(groups[limboTail], ptr, epoch);
      PushedIsGood(groups, order, t, r, ptr, epoch);
      groups := groups[limboTail := r];
    }

    /** `record_rcu`: a retired block goes to the end of the queue. */
    method Record(ptr: nat, epoch: Epoch)
      requires Sound() && (!groups[limboTail].Empty() ==> groups[limboTail].epoch <= epoch)
      modifies this
      ensures Sound() && Waits() == old(Waits()) + [Retired(ptr, epoch)]
    {
      hide Good, Chain, InOrder, GroupOk, GroupsOk, Held, FirstEpoch, Queue, Pending, Distinct;
      ghost var before, order0 := groups, order;
      GoodParts(groups, order, t);
      TailIsLast(groups, order, t);
      TailFits(groups, order, t);
      PendingIs(groups, order, t);
      ghost var tailEpoch := groups[limboTail].epoch;
      if groups[limboTail].tail + 2 > CAPACITY {
        Refill();
        RefilledQueue(before, order0, groups, order, t);
        RefilledEpochs(before, order0, groups, order, t, epoch);
      }
      Append(ptr, epoch);
    }

    /** `clean_until` on the first group, in the loop of `hard_rcu_quiesce`. */
    method CleanHead(bound: int, left0: nat, freed0: seq<Retired>, ghost before: map<Ref, Group>, ghost m: nat)
      returns (freed: seq<Retired>, left: nat, emptied: bool)
      requires Good(before, order, t) && Emptying(before, groups, order, t, m, bound, freed0, left0)
      requires limboHead == order[m] && groups.Keys == before.Keys
      modifies this`groups
      ensures groups.Keys == before.Keys && |freed| + left == RCU_FREE_COUNT
      ensures emptied && m < t ==> Emptying(before, groups, order, t, m + 1, bound, freed, left)
      ensures emptied && m == t ==> freed == Pending(before, order, t) && Good(groups, order, 0) && Pending(groups, order, 0) == []
      ensures !emptied ==>
        && m <= t && Good(groups, Turned(order, t, m), t - m)
        && freed + Pending(groups, Turned(order, t, m), t - m) == Pending(before, order, t)
      ensures !emptied || m == t ==> |freed| == Freeable(Pending(before, order, t), bound, RCU_FREE_COUNT)
    {
      hide Good, Emptying, Cleaned, Turned, GroupOk, GroupsOk, Emptied, Held, Queue, Pending, Freeable, Distinct;
      EmptyingParts(before, groups, order, t, m, bound, freed0, left0);
      GroupsAt(groups, order, m);
      var r, more;
      r, more, left := CleanUntil(groups[limboHead], bound, left0);
      freed, emptied := freed0 + more, r.Empty();
      if emptied {
        EmptiedOne(before, groups, order, t, m, bound, freed0, left0, r, more, left);
        CleanedCount(groups[limboHead], bound, left0, r, more, left);
      } else {
        StoppedAt(before, groups, order, t, m, bound, freed0, left0, r, more, left);
        CleanedParts(groups[limboHead], bound, left0, r, more, left);
        StoppedIsGood(before, groups, order, t, m, r);
      }
      groups := groups[limboHead := r];
    }

    /** The loop of `hard_rcu_quiesce`: from the first group on, until one is not emptied. */
    method Sweep(bound: int) returns (freed: seq<Retired>, left: nat, emptyHead: Option<Ref>, emptyTail: Ref, all: bool, ghost m: nat)
      requires Good(groups, order, t) && Chain(next, order) && limboHead == order[0] && limboTail == order[t]
      modifies this`groups, this`limboHead
      ensures groups.Keys == old(groups.Keys) && |freed| + left == RCU_FREE_COUNT
      ensures |freed| == Freeable(old(Pending(groups, order, t)), bound, RCU_FREE_COUNT)
      ensures all ==> freed == old(Pending(groups, order, t)) && Good(groups, order, 0) && Pending(groups, order, 0) == []
      ensures all ==> emptyHead == Some(order[0])
      ensures !all ==>
        && m <= t && t < |order| && limboHead == order[m] && Good(groups, Turned(order, t, m), t - m)
        && freed + Pending(groups, Turned(order, t, m), t - m) == old(Pending(groups, order, t))
        && emptyHead == (if m == 0 then None else Some(order[0])) && (m > 0 ==> emptyTail == order[m - 1])
    {
      hide Good, Emptying, Chain, Turned, GroupOk, GroupsOk, Queue, Pending, Freeable, Distinct;
      ghost var before := groups;
      GoodParts(before, order, t);
      emptyHead, emptyTail, left, freed, m := None, 0, RCU_FREE_COUNT, [], 0;
      EmptyingStarts(before, order, t, bound);
      while true
        invariant Emptying(before, groups, order, t, m, bound, freed, left)
        invariant m <= t && limboHead == order[m] && groups.Keys == before.Keys
        invariant emptyHead == (if m == 0 then None else Some(order[0])) && (m > 0 ==> emptyTail == order[m - 1])
        decreases t - m
      {
        var emptied;
        freed, left, emptied := CleanHead(bound, left, freed, before, m);
        if !emptied {
          all := false;
          return;
        }
        if emptyHead == None {
          emptyHead := Some(limboHead);
        }
        emptyTail := limboHead;
        SameIndex(order, m, t);
        if limboHead == limboTail {
          all := true;
          return;
        }
        ChainAt(next, order, m, t);
        limboHead := next[limboHead].value;
        m := m + 1;
      }
    }

    /** `hard_rcu_quiesce`: frees from the front of the queue what may be freed, in order. */
    method Quiesce(activeEpoch: Epoch) returns (freed: seq<Retired>)
      requires Sound()
      modifies this
      ensures Sound()
      ensures
        var n := Freeable(old(Waits()), activeEpoch - 1, RCU_FREE_COUNT);
        freed == old(Waits())[..n] && Waits() == old(Waits())[n..]
      ensures performGcEpoch == if |freed| == RCU_FREE_COUNT then activeEpoch - 1 else activeEpoch
    {
      hide Good, Emptying, Chain, Turned, GroupOk, GroupsOk, Queue, Pending, Hooked, Freeable, Distinct;
      var bound := activeEpoch - 1;
      GoodParts(groups, order, t);
      if groups[limboHead].Empty() || bound - FirstEpoch(groups[limboHead]) < 0 {
        NothingFreeable(groups, order, t, bound);
        freed := [];
        performGcEpoch := bound + 1;
        return;
      }
      var left, emptyHead, emptyTail, all;
      ghost var m;
      freed, left, emptyHead, emptyTail, all, m := Sweep(bound);
      if all {
        limboHead, limboTail := emptyHead.value, emptyHead.value;
        t := 0;
      } else {
        TurnedEnds(order, t, m);
        if emptyHead.Some? {
          HookedIsChain(next, order, t, m);
          next := Hooked(next, emptyHead.value, emptyTail, limboTail);
        }
        order, t := Turned(order, t, m), t - m;
      }
      performGcEpoch := if left == 0 then bound else bound + 1;
    }
  }

  lemma SameIndex(order: seq<Ref>, i: nat, j: nat)
    requires Distinct(order) && i < |order| && j < |order|
    ensures order[i] == order[j] <==> i == j
  {
  }

  lemma TurnedEnds(order: seq<Ref>, t: nat, m: nat)
    requires m <= t < |order|
    ensures |Turned(order, t, m)| == |order| && Turned(order, t, m)[0] == order[m] && Turned(order, t, m)[t - m] == order[t]
    ensures m == 0 ==> Turned(order, t, m) == order
  {
  }

  lemma CleanedCount(g: Group, bound: int, count: nat, r: Group, freed: seq<Retired>, left: nat)
    requires GroupOk(g) && Cleaned(g, bound, count, r, freed, left)
    ensures |freed| == count - left
  {
  }

  lemma RefilledEpochs(before: map<Ref, Group>, order0: seq<Ref>, groups: map<Ref, Group>, order: seq<Ref>, t: nat, epoch: Epoch)
    requires t > 0 && Good(before, order0, t - 1) && t < |order| && order[..t] == order0[..t]
    requires forall i :: 0 <= i < t ==> order[i] in before && order[i] in groups && groups[order[i]] == before[order[i]]
    requires !before[order0[t - 1]].Empty() && before[order0[t - 1]].epoch <= epoch
    ensures forall i :: 0 <= i < t ==> groups[order[i]].epoch <= epoch && !groups[order[i]].Empty()
  {
    TailIsLast(before, order0, t - 1);
    forall i | 0 <= i < t
      ensures groups[order[i]].epoch <= epoch && !groups[order[i]].Empty()
    {
      assert order[..t][i] == order[i] && order0[..t][i] == order0[i];
    }
  }

  lemma GoodParts(groups: map<Ref, Group>, order: seq<Ref>, t: nat)
    requires Good(groups, order, t)
    ensures t < |order| && Distinct(order) && GroupsOk(groups, order) && InOrder(groups, order[..t + 1])
    ensures order[t] in groups && GroupOk(groups[order[t]]) && order[0] in groups && GroupOk(groups[order[0]])
  {
  }

  lemma PendingIs(groups: map<Ref, Group>, order: seq<Ref>, t: nat)
    requires Good(groups, order, t)
    ensures Pending(groups, order, t) == Queue(groups, order[..t + 1])
  {
  }

  lemma TailFits(groups: map<Ref, Group>, order: seq<Ref>, t: nat)
    requires Good(groups, order, t)
    ensures t < |order| && order[t] in groups && (groups[order[t]].tail + 2 > CAPACITY ==> !groups[order[t]].Empty())
    ensures forall i :: 0 <= i < t ==> order[i] in groups && !groups[order[i]].Empty()
    ensures forall i :: t < i < |order| ==> order[i] in groups && groups[order[i]].Empty()
  {
  }

  lemma CleanedParts(g: Group, bound: int, count: nat, r: Group, freed: seq<Retired>, left: nat)
    requires GroupOk(g) && Cleaned(g, bound, count, r, freed, left) && !r.Empty()
    ensures GroupOk(r) && r.epoch == g.epoch && |freed| == count - left
  {
  }

  lemma EmptyAtZero(groups: map<Ref, Group>)
    requires forall r :: r in groups ==> GroupOk(groups[r])
    ensures forall r :: r in groups && groups[r].Empty() ==> groups[r].tail == 0
  {
  }

  lemma NewGroupOk()
    ensures GroupOk(Group(0, 0, 0, seq(CAPACITY, _ => Block(0))))
  {
  }

  lemma ChainGrows(next: map<Ref, Option<Ref>>, order: seq<Ref>, t: nat, r: Ref)
    requires Chain(next, order) && t < |order| && order[t] in next && next[order[t]] == None && r !in next
    ensures t == |order| - 1 && r !in order && Distinct(order + [r])
    ensures Chain(next[r := None][order[t] := Some(r)], order + [r])
  {
    ChainAt(next, order, t, 0);
  }

  /** The last marker of the tail group is the latest of all. */
  lemma TailIsLast(groups: map<Ref, Group>, order: seq<Ref>, t: nat)
    requires Good(groups, order, t)
    ensures forall i :: 0 <= i <= t ==> order[i] in groups
    ensures !groups[order[t]].Empty() ==> forall i :: 0 <= i < t ==> groups[order[i]].epoch <= groups[order[t]].epoch
    ensures groups[order[t]].Empty() ==> t == 0
  {
    if !groups[order[t]].Empty() {
      FirstNotAfterLast(groups[order[t]]);
      forall i | 0 <= i < t
        ensures groups[order[i]].epoch <= groups[order[t]].epoch
      {
        FrontInOrder(groups, order, t, i, t);
      }
    }
  }

  lemma FrontInOrder(groups: map<Ref, Group>, order: seq<Ref>, t: nat, i: nat, j: nat)
    requires Good(groups, order, t) && i < j <= t
    ensures order[i] in groups && order[j] in groups && GroupOk(groups[order[j]]) && !groups[order[j]].Empty()
    ensures groups[order[i]].epoch <= FirstEpoch(groups[order[j]])
  {
    assert order[..t + 1][i] == order[i] && order[..t + 1][j] == order[j];
  }

  /** An empty group more at the end of the queue changes nothing. */
  lemma RefilledQueue(before: map<Ref, Group>, order0: seq<Ref>, groups: map<Ref, Group>, order: seq<Ref>, t: nat)
    requires t > 0 && Good(before, order0, t - 1) && t < |order| && GroupsOk(groups, order) && order[..t] == order0[..t]
    requires groups[order[t]].Empty() && forall i :: 0 <= i < t ==> order[i] in before && groups[order[i]] == before[order[i]]
    ensures InOrder(groups, order[..t + 1])
    ensures Queue(groups, order[..t + 1]) == Pending(before, order0, t - 1)
  {
    assert order[..t + 1] == order[..t] + [order[t]];
    QueueJoin(groups, order[..t], [order[t]]);
    QueueSame(before, groups, order[..t]);
    EmptyQueue(groups, [order[t]]);
  }
}
