/** An object value: items in the order of their insertion, found by a chained hash table whose
  chains are linked through the items.
  Sources: json.cc, json.hh. */
module ObjectJson {
  import opened Options

  type Key = string
  type Value = nat
  type Hash = Key -> nat

  /** `ObjectItem`; `next` is the next item of the chain, -1 at its end, -2 for an erased item. */
  datatype Item = Item(key: Key, value: Value, next: int)

  predicate Live(i: Item) { i.next > -2 }

  function Bucket(h: Hash, key: Key, m: nat): nat
    requires m > 0
  {
    h(key) % m
  }

  // ----- what the table means: live items in order

  function Pair(i: Item): seq<(Key, Value)> { if Live(i) then [(i.key, i.value)] else [] }

  function Contents(items: seq<Item>): seq<(Key, Value)> {
    if items == [] then [] else Contents(items[..|items| - 1]) + Pair(items[|items| - 1])
  }

  predicate Distinct(items: seq<Item>) {
    forall i, j :: 0 <= i < j < |items| && Live(items[i]) && Live(items[j]) ==> items[i].key != items[j].key
  }

  predicate Holds(items: seq<Item>, key: Key, p: int) {
    0 <= p < |items| && Live(items[p]) && items[p].key == key
  }

  // ----- what the chains have to be

  /** The first live item of a bucket from `from` on. */
  function NextIn(items: seq<Item>, h: Hash, m: nat, b: nat, from: nat): (r: int)
    requires m > 0
    ensures r == -1 || (from <= r < |items| && Live(items[r]) && Bucket(h, items[r].key, m) == b)
    ensures forall j :: from <= j < (if r == -1 then |items| else r) ==> !(Live(items[j]) && Bucket(h, items[j].key, m) == b)
    decreases |items| - from
  {
    if from >= |items| then -1
    else if Live(items[from]) && Bucket(h, items[from].key, m) == b then from
    else NextIn(items, h, m, b, from + 1)
  }

  /** Heads and links name the next live item of their bucket, so that chains ascend and miss nothing. */
  ghost predicate Chained(items: seq<Item>, heads: seq<int>, h: Hash) {
    && |heads| > 0
    && (forall b :: 0 <= b < |heads| ==> heads[b] == NextIn(items, h, |heads|, b, 0))
    && (forall i :: 0 <= i < |items| && Live(items[i]) ==>
          items[i].next == NextIn(items, h, |heads|, Bucket(h, items[i].key, |heads|), i + 1))
  }

  /** `NextIn` is determined by which items are live, and their keys. */
  lemma {:induction false} NextInIs(items: seq<Item>, h: Hash, m: nat, b: nat, from: nat, r: int)
    requires m > 0 && (r == -1 || (from <= r < |items| && Live(items[r]) && Bucket(h, items[r].key, m) == b))
    requires forall j :: from <= j < (if r == -1 then |items| else r) ==> !(Live(items[j]) && Bucket(h, items[j].key, m) == b)
    ensures NextIn(items, h, m, b, from) == r
  {
    var n := NextIn(items, h, m, b, from);
    assert r == -1 || n == -1 || n >= r;
  }

  predicate SameLive(a: seq<Item>, c: seq<Item>) {
    |a| == |c| && forall i :: 0 <= i < |a| ==> (Live(a[i]) <==> Live(c[i])) && a[i].key == c[i].key && a[i].value == c[i].value
  }

  lemma SameNextIn(a: seq<Item>, c: seq<Item>, h: Hash, m: nat, b: nat, from: nat)
    requires SameLive(a, c) && m > 0
    ensures NextIn(a, h, m, b, from) == NextIn(c, h, m, b, from)
  {
    NextInIs(c, h, m, b, from, NextIn(a, h, m, b, from));
  }

  lemma {:induction false} SameContents(a: seq<Item>, c: seq<Item>)
    requires SameLive(a, c)
    ensures Contents(a) == Contents(c)
  {
    if a != [] {
      SameContents(a[..|a| - 1], c[..|c| - 1]);
    }
  }

  // ----- insertion

  lemma AppendedNextIn(items: seq<Item>, i: Item, h: Hash, m: nat, b: nat, from: nat)
    requires m > 0 && Live(i) && from <= |items|
    ensures
      var was := NextIn(items, h, m, b, from);
      NextIn(items + [i], h, m, b, from) ==
        if was != -1 then was else if Bucket(h, i.key, m) == b then |items| else -1
  {
    var was := NextIn(items, h, m, b, from);
    var r: int := if was != -1 then was else if Bucket(h, i.key, m) == b then |items| else -1;
    NextInIs(items + [i], h, m, b, from, r);
  }

  lemma AppendedContents(items: seq<Item>, i: Item)
    requires Live(i)
    ensures Contents(items + [i]) == Contents(items) + [(i.key, i.value)]
  {
    assert (items + [i])[..|items|] == items;
  }

  /** A walk along a chain: `prev` is -1 or an item of the bucket, `cur` the item after it, or -1. */
  ghost predicate StandsAt(items: seq<Item>, h: Hash, m: nat, b: nat, prev: int, cur: int) {
    && m > 0 && -1 <= prev < |items| && (prev >= 0 ==> Live(items[prev]) && Bucket(h, items[prev].key, m) == b)
    && cur == NextIn(items, h, m, b, prev + 1)
  }

  lemma StandsFirst(items: seq<Item>, heads: seq<int>, h: Hash, b: nat)
    requires Chained(items, heads, h) && b < |heads|
    ensures -1 <= heads[b] < |items| && StandsAt(items, h, |heads|, b, -1, heads[b])
  {
  }

  /** One step along the chain. */
  lemma StandsIs(items: seq<Item>, heads: seq<int>, h: Hash, b: nat, prev: int, cur: nat)
    requires Chained(items, heads, h) && StandsAt(items, h, |heads|, b, prev, cur)
    ensures -1 <= prev < cur < |items| && Live(items[cur])
    ensures -1 <= items[cur].next < |items| && StandsAt(items, h, |heads|, b, cur, items[cur].next)
  {
  }

  /** Items that the walk passes over belong to other buckets. */
  lemma NotBetween(items: seq<Item>, h: Hash, m: nat, key: Key, prev: int, cur: int)
    requires m > 0 && StandsAt(items, h, m, Bucket(h, key, m), prev, cur)
    ensures forall j :: prev < j && (cur >= 0 ==> j < cur) ==> !Holds(items, key, j)
    ensures -1 <= prev < |items| && cur >= -1
  {
  }

  /** The items of a bucket up to a position. */
  ghost function Crowd(items: seq<Item>, h: Hash, m: nat, b: nat, last: int): set<int>
    requires m > 0
  {
    set i: int | 0 <= i <= last && i < |items| && Live(items[i]) && Bucket(h, items[i].key, m) == b
  }

  lemma CrowdGrows(items: seq<Item>, h: Hash, m: nat, b: nat, prev: int, cur: int)
    requires m > 0 && StandsAt(items, h, m, b, prev, cur)
    ensures cur >= 0 ==> |Crowd(items, h, m, b, cur)| == |Crowd(items, h, m, b, prev)| + 1
    ensures cur < 0 ==> Crowd(items, h, m, b, |items| - 1) == Crowd(items, h, m, b, prev)
  {
    if cur >= 0 {
      assert Crowd(items, h, m, b, cur) == Crowd(items, h, m, b, prev) + {cur};
    }
  }

  lemma CrowdAtFirst(items: seq<Item>, h: Hash, m: nat, b: nat)
    requires m > 0
    ensures Crowd(items, h, m, b, -1) == {}
    ensures items == [] ==> Crowd(items, h, m, b, |items| - 1) == {}
  {
  }

  /** The list after `*b = n_` at the end of the chain and the new item behind all others. */
  function Linked(items: seq<Item>, prev: int, i: Item): seq<Item>
    requires -1 <= prev < |items|
  {
    (if prev >= 0 then items[prev := items[prev].(next := |items|)] else items) + [i]
  }

  function LinkedHeads(heads: seq<int>, prev: int, b: nat, link: int): seq<int>
    requires b < |heads|
  {
    if prev >= 0 then heads else heads[b := link]
  }

  lemma LinkedIsChained(items: seq<Item>, heads: seq<int>, h: Hash, prev: int, i: Item)
    requires Chained(items, heads, h) && i.next == -1 && StandsAt(items, h, |heads|, Bucket(h, i.key, |heads|), prev, -1)
    ensures
      var b := Bucket(h, i.key, |heads|);
      Chained(Linked(items, prev, i), LinkedHeads(heads, prev, b, |items|), h)
  {
    var m, n := |heads|, |items|;
    var b := Bucket(h, i.key, m);
    var after, heads' := Linked(items, prev, i), LinkedHeads(heads, prev, b, n);
    assert SameLive(after, items + [i]);
    forall c | 0 <= c < m
      ensures heads'[c] == NextIn(after, h, m, c, 0)
    {
      SameNextIn(after, items + [i], h, m, c, 0);
      AppendedNextIn(items, i, h, m, c, 0);
      if c == b && prev >= 0 {
        NotEnd(items, h, m, b, prev, 0);
      }
    }
    forall j | 0 <= j < |after| && Live(after[j])
      ensures after[j].next == NextIn(after, h, m, Bucket(h, after[j].key, m), j + 1)
    {
      LinkedLink(items, heads, h, prev, i, j);
    }
    hide NextIn, Bucket, Linked, LinkedHeads;
  }

  lemma LinkedLink(items: seq<Item>, heads: seq<int>, h: Hash, prev: int, i: Item, j: nat)
    requires Chained(items, heads, h) && i.next == -1 && StandsAt(items, h, |heads|, Bucket(h, i.key, |heads|), prev, -1)
    requires j < |Linked(items, prev, i)| && Live(Linked(items, prev, i)[j])
    ensures
      var after := Linked(items, prev, i);
      after[j].next == NextIn(after, h, |heads|, Bucket(h, after[j].key, |heads|), j + 1)
  {
    var m, n, after := |heads|, |items|, Linked(items, prev, i);
    var b, c := Bucket(h, i.key, m), Bucket(h, after[j].key, m);
    LinkedAt(items, prev, i, j);
    SameNextIn(after, items + [i], h, m, c, j + 1);
    hide Linked, SameLive;
    if j == n {
      assert NextIn(items + [i], h, m, c, n + 1) == -1;
    } else {
      AppendedNextIn(items, i, h, m, c, j + 1);
      LinkIs(items, heads, h, j);
      hide Chained;
      if c == b && j != prev {
        BeforeEnd(items, h, m, b, prev, j);
      }
      hide NextIn;
    }
  }

  lemma LinkedAt(items: seq<Item>, prev: int, i: Item, j: nat)
    requires -1 <= prev < |items| && (prev >= 0 ==> Live(items[prev])) && j <= |items|
    ensures |Linked(items, prev, i)| == |items| + 1 && SameLive(Linked(items, prev, i), items + [i])
    ensures Linked(items, prev, i)[j] ==
      if j == |items| then i else if j == prev then items[prev].(next := |items|) else items[j]
  {
  }

  lemma LinkIs(items: seq<Item>, heads: seq<int>, h: Hash, j: nat)
    requires Chained(items, heads, h) && j < |items| && Live(items[j])
    ensures items[j].next == NextIn(items, h, |heads|, Bucket(h, items[j].key, |heads|), j + 1)
  {
    hide NextIn;
  }

  lemma NotEnd(items: seq<Item>, h: Hash, m: nat, b: nat, prev: int, from: nat)
    requires StandsAt(items, h, m, b, prev, -1) && from <= prev
    ensures NextIn(items, h, m, b, from) != -1
  {
  }

  /** Every other live item of the bucket stands before the chain's end. */
  lemma BeforeEnd(items: seq<Item>, h: Hash, m: nat, b: nat, prev: int, j: nat)
    requires StandsAt(items, h, m, b, prev, -1) && j < |items| && Live(items[j]) && Bucket(h, items[j].key, m) == b && j != prev
    ensures j < prev && NextIn(items, h, m, b, j + 1) != -1
  {
    assert j <= prev;
  }

  // ----- erasure

  function Erased(items: seq<Item>, p: nat): seq<Item>
    requires p < |items|
  {
    items[p := items[p].(next := -2)]
  }

  lemma ErasedNextIn(items: seq<Item>, p: nat, h: Hash, m: nat, b: nat, from: nat)
    requires m > 0 && p < |items| && Live(items[p])
    ensures
      var was := NextIn(items, h, m, b, from);
      NextIn(Erased(items, p), h, m, b, from) == if was == p then NextIn(items, h, m, b, p + 1) else was
  {
    var was := NextIn(items, h, m, b, from);
    NextInIs(Erased(items, p), h, m, b, from, if was == p then NextIn(items, h, m, b, p + 1) else was);
  }

  /** The items after `*b = os_[p].next_` and the erasure of item `p`; `prev` is where the link was. */
  function Unlinked(items: seq<Item>, prev: int, p: nat): seq<Item>
    requires -1 <= prev < p < |items|
  {
    Erased(if prev >= 0 then items[prev := items[prev].(next := items[p].next)] else items, p)
  }

  lemma SameUnlinked(items: seq<Item>, prev: int, p: nat)
    requires -1 <= prev < p < |items| && Live(items[p]) && (prev >= 0 ==> Live(items[prev]))
    ensures SameLive(Unlinked(items, prev, p), Erased(items, p))
  {
  }

  lemma UnlinkedHead(items: seq<Item>, heads: seq<int>, h: Hash, b: nat, prev: int, p: nat, c: nat)
    requires Chained(items, heads, h) && b < |heads| && StandsAt(items, h, |heads|, b, prev, p) && c < |heads|
    ensures LinkedHeads(heads, prev, b, items[p].next)[c] == NextIn(Unlinked(items, prev, p), h, |heads|, c, 0)
  {
    SameUnlinked(items, prev, p);
    SameNextIn(Unlinked(items, prev, p), Erased(items, p), h, |heads|, c, 0);
    ErasedNextIn(items, p, h, |heads|, c, 0);
  }

  lemma LinkFacts(items: seq<Item>, heads: seq<int>, h: Hash, b: nat, prev: int, p: nat, j: nat)
    requires Chained(items, heads, h) && b < |heads| && StandsAt(items, h, |heads|, b, prev, p) && p < |items|
    requires j < |items| && Live(items[j]) && j != p
    ensures
      var m := |heads|;
      && items[j].next == NextIn(items, h, m, Bucket(h, items[j].key, m), j + 1) && items[p].next == NextIn(items, h, m, b, p + 1)
      && (items[j].next == p) == (j == prev) && (j == prev ==> Bucket(h, items[j].key, m) == b)
  {
    OnlyLink(items, h, |heads|, b, prev, p, j);
  }

  lemma UnlinkedLink(items: seq<Item>, heads: seq<int>, h: Hash, b: nat, prev: int, p: nat, j: nat)
    requires Chained(items, heads, h) && b < |heads| && StandsAt(items, h, |heads|, b, prev, p) && -1 <= prev < p < |items|
    requires prev >= 0 ==> Live(items[prev])
    requires Live(items[p]) && j < |items| && j != p && Live(items[j])
    ensures
      var after := Unlinked(items, prev, p);
      after[j].next == NextIn(after, h, |heads|, Bucket(h, after[j].key, |heads|), j + 1)
  {
    hide NextIn, Chained, StandsAt, Bucket, SameLive;
    var m := |heads|;
    var c := Bucket(h, items[j].key, m);
    LinkFacts(items, heads, h, b, prev, p, j);
    SameUnlinked(items, prev, p);
    SameNextIn(Unlinked(items, prev, p), Erased(items, p), h, m, c, j + 1);
    ErasedNextIn(items, p, h, m, c, j + 1);
  }

  lemma UnlinkedIsChained(items: seq<Item>, heads: seq<int>, h: Hash, b: nat, prev: int, p: nat)
    requires Chained(items, heads, h) && b < |heads| && StandsAt(items, h, |heads|, b, prev, p)
    ensures Chained(Unlinked(items, prev, p), LinkedHeads(heads, prev, b, items[p].next), h)
  {
    assert -1 <= prev < p < |items| && Live(items[p]) && (prev >= 0 ==> Live(items[prev]));
    hide NextIn, StandsAt;
    var after, heads' := Unlinked(items, prev, p), LinkedHeads(heads, prev, b, items[p].next);
    forall c | 0 <= c < |heads|
      ensures heads'[c] == NextIn(after, h, |heads|, c, 0)
    {
      UnlinkedHead(items, heads, h, b, prev, p, c);
    }
    forall j | 0 <= j < |after| && Live(after[j])
      ensures after[j].next == NextIn(after, h, |heads|, Bucket(h, after[j].key, |heads|), j + 1)
    {
      UnlinkedLink(items, heads, h, b, prev, p, j);
    }
  }

  /** No other item links to `p`. */
  lemma OnlyLink(items: seq<Item>, h: Hash, m: nat, b: nat, prev: int, p: nat, j: nat)
    requires m > 0 && StandsAt(items, h, m, b, prev, p) && j < |items| && Live(items[j]) && j != p
    ensures (NextIn(items, h, m, Bucket(h, items[j].key, m), j + 1) == p) == (j == prev)
  {
  }

  // ----- the abstract table: an insertion-ordered list of keys and values

  function Get(cs: seq<(Key, Value)>, key: Key): Option<Value> {
    if cs == [] then None
    else if cs[|cs| - 1].0 == key then Some(cs[|cs| - 1].1)
    else Get(cs[..|cs| - 1], key)
  }

  function Without(cs: seq<(Key, Value)>, key: Key): seq<(Key, Value)> {
    if cs == [] then []
    else Without(cs[..|cs| - 1], key) + if cs[|cs| - 1].0 == key then [] else [cs[|cs| - 1]]
  }

  /** The list with `key` at the end, unless it was there. */
  function With(cs: seq<(Key, Value)>, key: Key, value: Value): seq<(Key, Value)> {
    if Get(cs, key).Some? then cs else cs + [(key, value)]
  }

  function Initial(items: seq<Item>): seq<Item>
    requires items != []
  {
    items[..|items| - 1]
  }

  lemma SnocIs(cs: seq<(Key, Value)>, i: Item)
    ensures Live(i) ==> (cs + Pair(i))[..|cs|] == cs && (cs + Pair(i))[|cs|] == (i.key, i.value)
    ensures !Live(i) ==> cs + Pair(i) == cs
  {
  }

  /** The table holds a key exactly if the list does, with the value of the one live item. */
  lemma {:induction false} HeldIsListed(items: seq<Item>, key: Key, p: int)
    requires Distinct(items) && (Holds(items, key, p) || (p == -1 && forall j :: !Holds(items, key, j)))
    ensures Get(Contents(items), key) == if p == -1 then None else Some(items[p].value)
  {
    if items != [] {
      var init, last := Initial(items), items[|items| - 1];
      SnocIs(Contents(init), last);
      if p != |items| - 1 {
        assert forall j :: Holds(init, key, j) ==> Holds(items, key, j);
        assert p >= 0 ==> Holds(init, key, p);
        assert Live(last) ==> last.key != key by {
          assert Live(last) && last.key == key ==> Holds(items, key, |items| - 1);
        }
        HeldIsListed(init, key, p);
      }
    }
  }

  lemma {:induction false} WithoutAbsent(cs: seq<(Key, Value)>, key: Key)
    requires Get(cs, key) == None
    ensures Without(cs, key) == cs
  {
    if cs != [] {
      var init, last := cs[..|cs| - 1], cs[|cs| - 1];
      WithoutAbsent(init, key);
      assert cs == init + [last];
    }
  }

  /** What an insertion and an erasure mean for every key. */
  lemma WithGets(cs: seq<(Key, Value)>, key: Key, value: Value, k: Key)
    ensures Get(With(cs, key, value), k) == if k == key && Get(cs, key) == None then Some(value) else Get(cs, k)
    ensures cs <= With(cs, key, value)
  {
    assert (cs + [(key, value)])[..|cs|] == cs;
  }

  lemma {:induction false} WithoutGets(cs: seq<(Key, Value)>, key: Key, k: Key)
    ensures Get(Without(cs, key), k) == if k == key then None else Get(cs, k)
  {
    if cs != [] {
      var init, last := cs[..|cs| - 1], cs[|cs| - 1];
      WithoutGets(init, key, k);
      assert (Without(init, key) + [last])[..|Without(init, key)|] == Without(init, key);
      assert Without(init, key) + [] == Without(init, key);
    }
  }

  /** Erasing an item takes its key out of the list and keeps the order of all others. */
  lemma {:induction false} ErasedContents(items: seq<Item>, p: nat)
    requires Distinct(items) && p < |items| && Live(items[p])
    ensures Contents(Erased(items, p)) == Without(Contents(items), items[p].key)
  {
    var init, last, key := Initial(items), items[|items| - 1], items[p].key;
    SnocIs(Contents(init), last);
    if p == |items| - 1 {
      assert Initial(Erased(items, p)) == init;
      assert forall j :: !Holds(init, key, j);
      HeldIsListed(init, key, -1);
      WithoutAbsent(Contents(init), key);
    } else {
      assert Initial(Erased(items, p)) == Erased(init, p);
      assert Live(last) ==> last.key != key;
      ErasedContents(init, p);
    }
  }

  lemma {:induction false} ErasedCount(items: seq<Item>, p: nat)
    requires p < |items| && Live(items[p])
    ensures |Contents(Erased(items, p))| == |Contents(items)| - 1
  {
    var init := Initial(items);
    if p == |items| - 1 {
      assert Initial(Erased(items, p)) == init;
    } else {
      assert Initial(Erased(items, p)) == Erased(init, p);
      ErasedCount(init, p);
    }
  }

  // ----- rehashing

  /** Heads and links from item `i` on; `was` are the items before. */
  ghost predicate ChainedFrom(was: seq<Item>, items: seq<Item>, heads: seq<int>, h: Hash, i: nat) {
    && SameLive(was, items) && |heads| > 0
    && (forall b :: 0 <= b < |heads| ==> heads[b] == NextIn(was, h, |heads|, b, i))
    && (forall j :: i <= j < |items| && Live(items[j]) ==>
          items[j].next == NextIn(was, h, |heads|, Bucket(h, items[j].key, |heads|), j + 1))
  }

  lemma ChainedNone(items: seq<Item>, heads: seq<int>, h: Hash)
    requires |heads| > 0 && forall b :: 0 <= b < |heads| ==> heads[b] == -1
    ensures ChainedFrom(items, items, heads, h, |items|)
  {
  }

  lemma NextFrom(items: seq<Item>, h: Hash, m: nat, b: nat, i: nat)
    requires m > 0 && i < |items|
    ensures NextIn(items, h, m, b, i) == if Live(items[i]) && Bucket(h, items[i].key, m) == b then i else NextIn(items, h, m, b, i + 1)
  {
  }

  lemma ChainedPast(was: seq<Item>, items: seq<Item>, heads: seq<int>, h: Hash, i: nat)
    requires i < |items| && ChainedFrom(was, items, heads, h, i + 1) && !Live(items[i])
    ensures ChainedFrom(was, items, heads, h, i)
  {
    forall b: nat | b < |heads|
      ensures heads[b] == NextIn(was, h, |heads|, b, i)
    {
      NextFrom(was, h, |heads|, b, i);
    }
    hide NextIn, Bucket;
  }

  lemma ChainedBefore(was: seq<Item>, items: seq<Item>, heads: seq<int>, h: Hash, i: nat)
    requires i < |items| && ChainedFrom(was, items, heads, h, i + 1) && Live(items[i])
    ensures
      var b := Bucket(h, items[i].key, |heads|);
      heads[b] >= -1 && ChainedFrom(was, items[i := items[i].(next := heads[b])], heads[b := i], h, i)
  {
    var m, b := |heads|, Bucket(h, items[i].key, |heads|);
    var items', heads' := items[i := items[i].(next := heads[b])], heads[b := i];
    assert heads[b] == NextIn(was, h, m, b, i + 1);
    forall c: nat | c < m
      ensures heads'[c] == NextIn(was, h, m, c, i)
    {
      NextFrom(was, h, m, c, i);
    }
    hide NextIn, Bucket;
    assert SameLive(was, items');
    forall j | i <= j < |items'| && Live(items'[j])
      ensures items'[j].next == NextIn(was, h, m, Bucket(h, items'[j].key, m), j + 1)
    {
      assert j == i || items'[j] == items[j];
    }
  }

  /** An item put in front of its chain. */
  lemma ChainedStep(was: seq<Item>, items: seq<Item>, heads: seq<int>, h: Hash, i: nat)
    requires i < |items| && ChainedFrom(was, items, heads, h, i + 1)
    ensures |was| == |items| && !Live(items[i]) ==> ChainedFrom(was, items, heads, h, i)
    ensures Live(items[i]) ==>
      var b := Bucket(h, items[i].key, |heads|);
      heads[b] >= -1 && ChainedFrom(was, items[i := items[i].(next := heads[b])], heads[b := i], h, i)
  {
    hide ChainedFrom, NextIn;
    if Live(items[i]) {
      ChainedBefore(was, items, heads, h, i);
    } else {
      ChainedPast(was, items, heads, h, i);
    }
  }

  lemma ChainedAgain(was: seq<Item>, items: seq<Item>, heads: seq<int>, h: Hash)
    requires ChainedFrom(was, items, heads, h, 0)
    ensures SameLive(was, items) && Chained(items, heads, h)
  {
    forall b: nat, from: nat | b < |heads|
      ensures NextIn(was, h, |heads|, b, from) == NextIn(items, h, |heads|, b, from)
    {
      SameNextIn(was, items, h, |heads|, b, from);
    }
  }

  // ----- the object

  /** One live item for each key, all of them counted and in their chains. */
  ghost predicate TableOk(items: seq<Item>, size: nat, heads: seq<int>, h: Hash) {
    && Distinct(items) && size == |Contents(items)|
    && if heads == [] then items == [] else Chained(items, heads, h)
  }

  lemma TableIs(items: seq<Item>, size: nat, heads: seq<int>, h: Hash)
    requires TableOk(items, size, heads, h)
    ensures Distinct(items) && (heads != [] ==> Chained(items, heads, h)) && (heads == [] ==> items == [])
    ensures items == [] && |heads| > 0 && (forall b :: 0 <= b < |heads| ==> heads[b] == -1) ==> Chained(items, heads, h)
  {
  }

  lemma NewTable(heads: seq<int>, h: Hash)
    requires |heads| > 0 && forall b :: 0 <= b < |heads| ==> heads[b] == -1
    ensures TableOk([], 0, heads, h)
  {
  }

  /** The stores of an insertion. */
  lemma LinkedIsOk(items: seq<Item>, size: nat, heads: seq<int>, h: Hash, prev: int, i: Item)
    requires TableOk(items, size, heads, h) && heads != [] && i.next == -1 && forall j :: !Holds(items, i.key, j)
    requires StandsAt(items, h, |heads|, Bucket(h, i.key, |heads|), prev, -1)
    ensures
      var after := Linked(items, prev, i);
      && TableOk(after, size + 1, LinkedHeads(heads, prev, Bucket(h, i.key, |heads|), |items|), h)
      && Contents(after) == Contents(items) + [(i.key, i.value)] && Holds(after, i.key, |items|)
  {
    hide NextIn, Chained, Contents, Distinct;
    assert -1 <= prev < |items| && (prev >= 0 ==> Live(items[prev]));
    hide StandsAt;
    LinkedIsChained(items, heads, h, prev, i);
    LinkedIsDistinct(items, prev, i);
    SameContents(Linked(items, prev, i), items + [i]);
    AppendedContents(items, i);
  }

  lemma LinkedIsDistinct(items: seq<Item>, prev: int, i: Item)
    requires Distinct(items) && -1 <= prev < |items| && i.next == -1 && forall j :: !Holds(items, i.key, j)
    requires prev >= 0 ==> Live(items[prev])
    ensures Distinct(Linked(items, prev, i))
  {
    var after := Linked(items, prev, i);
    forall j, k | 0 <= j < k < |after| && Live(after[j]) && Live(after[k])
      ensures after[j].key != after[k].key
    {
      assert k == |items| ==> !Holds(items, i.key, j);
    }
  }

  /** The stores of an erasure. */
  lemma UnlinkedIsOk(items: seq<Item>, size: nat, heads: seq<int>, h: Hash, b: nat, prev: int, p: nat)
    requires TableOk(items, size, heads, h) && b < |heads| && StandsAt(items, h, |heads|, b, prev, p)
    ensures
      var after := Unlinked(items, prev, p);
      && size > 0 && TableOk(after, size - 1, LinkedHeads(heads, prev, b, items[p].next), h)
      && Contents(after) == Without(Contents(items), items[p].key)
  {
    UnlinkedIsChained(items, heads, h, b, prev, p);
    UnlinkedIsDistinct(items, prev, p);
    SameUnlinked(items, prev, p);
    hide NextIn, Chained, Contents, Distinct;
    SameContents(Unlinked(items, prev, p), Erased(items, p));
    ErasedContents(items, p);
    ErasedCount(items, p);
  }

  lemma UnlinkedIsDistinct(items: seq<Item>, prev: int, p: nat)
    requires Distinct(items) && -1 <= prev < p < |items| && (prev >= 0 ==> Live(items[prev]))
    ensures Distinct(Unlinked(items, prev, p))
  {
  }

  lemma RehashedIsOk(items: seq<Item>, size: nat, heads: seq<int>, h: Hash, items': seq<Item>, heads': seq<int>)
    requires TableOk(items, size, heads, h) && SameLive(items, items') && Chained(items', heads', h)
    ensures TableOk(items', size, heads', h) && Contents(items') == Contents(items)
    ensures forall key, j :: Holds(items, key, j) ==> Holds(items', key, j)
  {
    SameContents(items, items');
  }

  class ObjectJson {
    const hashcode: Hash
    var os: array<Item>
    var n: nat
    var size: nat
    var hash: array<int>

    /** The items, erased ones included. */
    ghost function Items(): seq<Item>
      requires n <= os.Length
      reads this, os
    {
      os[..n]
    }

    ghost predicate Valid()
      reads this, os, hash
    {
      n <= os.Length && TableOk(Items(), size, hash[..], hashcode)
    }

    constructor (hashcode: Hash)
      ensures Valid() && fresh(os) && fresh(hash) && Items() == [] && hash.Length == 0 && this.hashcode == hashcode
    {
      this.hashcode := hashcode;
      os := new Item[0];
      n, size := 0, 0;
      hash := new int[0];
    }

    /** `find`. */
    method Find(key: Key) returns (p: int)
      requires Valid()
      ensures p == -1 || Holds(Items(), key, p)
      ensures Get(Contents(Items()), key) == if p == -1 then None else Some(os[p].value)
    {
      hide NextIn, Chained, Contents, Distinct, TableOk, StandsAt, Get;
      TableIs(Items(), size, hash[..], hashcode);
      if hash.Length != 0 {
        StandsFirst(Items(), hash[..], hashcode, Bucket(hashcode, key, hash.Length));
        var b := Bucket(hashcode, key, hash.Length);
        p := hash[b];
        ghost var prev := -1;
        while p >= 0
          invariant StandsAt(Items(), hashcode, hash.Length, b, prev, p)
          invariant forall j :: 0 <= j <= prev ==> !Holds(Items(), key, j)
          decreases n - prev
        {
          StandsIs(Items(), hash[..], hashcode, b, prev, p);
          if os[p].key == key {
            HeldIsListed(Items(), key, p);
            return;
          }
          NotBetween(Items(), hashcode, hash.Length, key, prev, p);
          prev := p;
          p := os[p].next;
        }
        NotBetween(Items(), hashcode, hash.Length, key, prev, p);
      } else {
        p := -1;
      }
      HeldIsListed(Items(), key, -1);
    }

    /** `grow(false)`: twice the room, the items moved. */
    method Grow()
      requires n == os.Length
      modifies this`os
      ensures fresh(os) && os.Length == (if n > 0 then 2 * n else 8) && Items() == old(Items())
    {
      var capacity := if os.Length > 0 then os.Length * 2 else 8;
      var moved := new Item[capacity](_ => Item("", 0, -2));
      var i := 0;
      while i < n
        invariant i <= n == os.Length < capacity && os == old(os) && moved[..i] == os[..i]
      {
        moved[i] := os[i];
        i := i + 1;
      }
      os := moved;
    }

    /** `rehash`: twice the buckets, the chains built again from the last item to the first. */
    method Rehash()
      requires n <= os.Length && hash.Length > 0
      modifies this`hash, os
      ensures fresh(hash) && hash.Length == 2 * old(hash.Length)
      ensures SameLive(old(Items()), Items()) && Chained(Items(), hash[..], hashcode)
      ensures os[n..] == old(os[n..])
    {
      var m := hash.Length * 2;
      ghost var was := Items();
      hash := new int[m](_ => -1);
      hide ChainedFrom, SameLive, Chained;
      ChainedNone(was, hash[..], hashcode);
      var i := n;
      while i > 0
        invariant 0 <= i <= n <= os.Length && fresh(hash) && hash.Length == m
        invariant os[n..] == old(os[n..]) && ChainedFrom(was, Items(), hash[..], hashcode, i)
      {
        i := i - 1;
        ghost var items, heads := Items(), hash[..];
        ChainedStep(was, items, heads, hashcode, i);
        if Live(os[i]) {
          var b := Bucket(hashcode, os[i].key, m);
          os[i] := os[i].(next := hash[b]);
          hash[b] := i;
          assert Items() == items[i := items[i].(next := heads[b])] && hash[..] == heads[b := i];
        }
      }
      ChainedAgain(was, Items(), hash[..], hashcode);
    }

    /** The walk along a chain to the key or to the end; `prev` is where the last link was found. */
    method Walk(key: Key) returns (prev: int, cur: int, chain: nat)
      requires n <= os.Length && hash.Length > 0 && Chained(Items(), hash[..], hashcode)
      ensures StandsAt(Items(), hashcode, hash.Length, Bucket(hashcode, key, hash.Length), prev, cur)
      ensures if cur < 0 then cur == -1 && forall j :: !Holds(Items(), key, j) else Holds(Items(), key, cur)
      ensures cur < 0 ==> chain == |Crowd(Items(), hashcode, hash.Length, Bucket(hashcode, key, hash.Length), n - 1)|
    {
      hide NextIn, Chained, StandsAt, Crowd;
      var b := Bucket(hashcode, key, hash.Length);
      StandsFirst(Items(), hash[..], hashcode, b);
      CrowdAtFirst(Items(), hashcode, hash.Length, b);
      prev, chain := -1, 0;
      cur := hash[b];
      while cur >= 0 && os[cur].key != key
        invariant cur < n && StandsAt(Items(), hashcode, hash.Length, b, prev, cur)
        invariant forall j :: 0 <= j <= prev ==> !Holds(Items(), key, j)
        invariant chain == |Crowd(Items(), hashcode, hash.Length, b, prev)|
        decreases n - prev
      {
        CrowdGrows(Items(), hashcode, hash.Length, b, prev, cur);
        StandsIs(Items(), hash[..], hashcode, b, prev, cur);
        NotBetween(Items(), hashcode, hash.Length, key, prev, cur);
        prev, cur, chain := cur, os[cur].next, chain + 1;
      }
      if cur < 0 {
        NotBetween(Items(), hashcode, hash.Length, key, prev, cur);
        CrowdGrows(Items(), hashcode, hash.Length, b, prev, cur);
      } else {
        StandsIs(Items(), hash[..], hashcode, b, prev, cur);
      }
    }

    /** The store of a link: in the head of its chain or in the item before. */
    method StoreLink(prev: int, b: nat, link: int)
      requires n <= os.Length && -1 <= prev < n && b < hash.Length
      modifies os, hash
      ensures Items() == if prev >= 0 then old(Items())[prev := old(os[prev]).(next := link)] else old(Items())
      ensures hash[..] == if prev >= 0 then old(hash[..]) else old(hash[..])[b := link]
      ensures os[n..] == old(os[n..])
    {
      if prev >= 0 {
        os[prev] := os[prev].(next := link);
      } else {
        hash[b] := link;
      }
    }

    method Push(i: Item)
      requires n <= os.Length
      modifies this`os, this`n, os
      ensures n == old(n) + 1 <= os.Length && (os == old(os) || fresh(os)) && Items() == old(Items()) + [i]
    {
      if n == os.Length {
        Grow();
      }
      os[n] := i;
      n := n + 1;
    }

    /** A new item at the end of its chain and behind all others. */
    method Append(prev: int, key: Key, value: Value)
      requires Valid() && hash.Length > 0 && StandsAt(Items(), hashcode, hash.Length, Bucket(hashcode, key, hash.Length), prev, -1)
      requires forall j :: !Holds(Items(), key, j)
      modifies this`os, this`n, this`size, os, hash
      ensures Valid() && (os == old(os) || fresh(os)) && n == old(n) + 1
      ensures Contents(Items()) == old(Contents(Items())) + [(key, value)] && Holds(Items(), key, n - 1)
    {
      ghost var items, heads, last := Items(), hash[..], Item(key, value, -1);
      assert -1 <= prev < n;
      hide TableOk, StandsAt, Contents, Holds;
      var b := Bucket(hashcode, key, hash.Length);
      LinkedIsOk(items, size, heads, hashcode, prev, last);
      StoreLink(prev, b, n);
      Push(Item(key, value, -1));
      size := size + 1;
      assert Items() == Linked(items, prev, last) && hash[..] == LinkedHeads(heads, prev, b, |items|);
    }

    /** `find_insert`: the item with the key, a new one behind all others if there is none. */
    method FindInsert(key: Key, value: Value) returns (p: nat)
      requires Valid()
      modifies this, os, hash
      ensures Valid() && (os == old(os) || fresh(os)) && (hash == old(hash) || fresh(hash)) && hash.Length > 0
      ensures Contents(Items()) == With(old(Contents(Items())), key, value) && Holds(Items(), key, p)
      ensures forall k ::
        Get(Contents(Items()), k) == if k == key && Get(old(Contents(Items())), k) == None then Some(value) else Get(old(Contents(Items())), k)
      ensures
        var m := old(hash.Length);
        var full := m > 0 && Get(old(Contents(Items())), key) == None && |Crowd(old(Items()), hashcode, m, Bucket(hashcode, key, m), old(n) - 1)| > 4;
        hash.Length == if m == 0 then 8 else if full then 2 * m else m
    {
      hide TableOk, Contents, NextIn, Chained, SameLive, StandsAt, Distinct, Crowd, Get;
      forall k {
        WithGets(Contents(Items()), key, value, k);
      }
      TableIs(Items(), size, hash[..], hashcode);
      if hash.Length == 0 {
        CrowdAtFirst(Items(), hashcode, 8, Bucket(hashcode, key, 8));
        hash := new int[8](_ => -1);
        TableIs(Items(), size, old(hash[..]), hashcode);
        EmptySize(size, hashcode);
        NewTable(hash[..], hashcode);
      }
      TableIs(Items(), size, hash[..], hashcode);
      var prev, cur, chain := Walk(key);
      HeldIsListed(Items(), key, cur);
      if cur >= 0 {
        return cur;
      }
      Append(prev, key, value);
      p := n - 1;
      if chain > 4 {
        ghost var items, heads := Items(), hash[..];
        Rehash();
        RehashedIsOk(items, size, heads, hashcode, Items(), hash[..]);
      }
    }

    /** `erase`: the item with the key is unlinked; the others keep their places. */
    method Erase(key: Key) returns (count: nat)
      requires Valid() && hash.Length > 0
      modifies this`size, os, hash
      ensures Valid() && Contents(Items()) == Without(old(Contents(Items())), key)
      ensures forall k :: Get(Contents(Items()), k) == if k == key then None else Get(old(Contents(Items())), k)
      ensures count == if Get(old(Contents(Items())), key).Some? then 1 else 0
    {
      hide TableOk, Contents, NextIn, Chained, Distinct, Crowd, Get, Without, SameLive;
      forall k {
        WithoutGets(Contents(Items()), key, k);
      }
      ghost var items, heads := Items(), hash[..];
      TableIs(items, size, heads, hashcode);
      var b := Bucket(hashcode, key, hash.Length);
      var prev, cur, _ := Walk(key);
      HeldIsListed(items, key, cur);
      if cur < 0 {
        WithoutAbsent(Contents(items), key);
        return 0;
      }
      var p: nat := cur;
      UnlinkedIsOk(items, size, heads, hashcode, b, prev, p);
      StoreLink(prev, b, os[p].next);
      os[p] := os[p].(next := -2);
      size := size - 1;
      count := 1;
      assert Items() == Unlinked(items, prev, p) && hash[..] == LinkedHeads(heads, prev, b, items[p].next);
    }
  }

  lemma EmptySize(size: nat, h: Hash)
    requires TableOk([], size, [], h)
    ensures size == 0
  {
  }
}
