/** Keys of any length: a trie whose nodes are layers, each of them a B+tree.
  Sources: masstree_get.hh, masstree_insert.hh (find_insert, make_new_layer). */
module Layers {
  import opened Options
  import opened KeySlices
  import opened Slots
  import LayerTree
  import TreeModel
  import SplitStores

  type Ref = nat

  datatype Spot = Spot(ikey: nat, len: nat)

  /** The map from slice and length to slot that a layer stands for. */
  type SlotMap = map<Spot, Slot>

  function SpotOf(k: Key): Spot { Spot(Ikey(k), SliceLength(k)) }

  /** `assign`: a key without suffix is stored in place. */
  function SlotFor(k: Key, v: Value): Slot {
    if |k| > IKEY_SIZE then Suffix(Rest(k), v) else Plain(v)
  }

  /** How a layer is reached: from layer `owner` by the eight bytes `step`; `prefix` is the way
      from the root. */
  datatype Place = Place(owner: Ref, step: Key, prefix: Key)

  /** The layers in memory, and, as auxiliary state, the place of each. */
  datatype Trie = Trie(layers: map<Ref, SlotMap>, root: Ref, place: map<Ref, Place>)

  /** The value for key `k` in layer `r`. */
  function Lookup(layers: map<Ref, SlotMap>, r: Ref, k: Key): Option<Value>
    decreases |k|
  {
    if r !in layers || SpotOf(k) !in layers[r] then None
    else match layers[r][SpotOf(k)]
      case Plain(v) => Some(v)
      case Suffix(rest, v) => if |k| > IKEY_SIZE && Rest(k) == rest then Some(v) else None
      case LayerAt(l) => if |k| > IKEY_SIZE then Lookup(layers, l, Rest(k)) else None
      case Unlinked => None
  }

  // ----- validity

  ghost predicate SlotOk(t: Trie, r: Ref, s: Spot)
    requires r in t.layers && s in t.layers[r]
  {
    match t.layers[r][s]
    case Plain(_) => s.len <= IKEY_SIZE && (r != t.root ==> s.len > 0)
    case Suffix(rest, _) => s.len == IKEY_SIZE + 1 && rest != []
    case LayerAt(l) =>
      && s.len == IKEY_SIZE + 1 && l in t.layers && l != t.root
      && l in t.place && t.place[l].owner == r && Ikey(t.place[l].step) == s.ikey
    case Unlinked => false
  }

  ghost predicate PlaceOk(t: Trie, r: Ref)
    requires r in t.place
  {
    var w := t.place[r];
    if r == t.root then w.prefix == []
    else
      && w.owner in t.layers && w.owner in t.place && |w.step| == IKEY_SIZE
      && w.prefix == t.place[w.owner].prefix + w.step
      && Spot(Ikey(w.step), IKEY_SIZE + 1) in t.layers[w.owner]
      && t.layers[w.owner][Spot(Ikey(w.step), IKEY_SIZE + 1)] == LayerAt(r)
  }

  ghost predicate Valid(t: Trie) {
    && t.place.Keys == t.layers.Keys && t.root in t.layers
    && (forall r, s {:trigger SlotOk(t, r, s)} :: r in t.layers && s in t.layers[r] ==> SlotOk(t, r, s))
    && (forall r {:trigger PlaceOk(t, r)} :: r in t.layers ==> PlaceOk(t, r))
  }

  /** Both tries store the same, except that `u` stores `v` under `k`. */
  ghost predicate StoresAlso(t: Trie, k: Key, v: Option<Value>, u: Trie) {
    forall key: Key :: Lookup(u.layers, u.root, key) == if key == k then v else Lookup(t.layers, t.root, key)
  }

  ghost predicate StoresSame(t: Trie, u: Trie) {
    forall key: Key :: Lookup(u.layers, u.root, key) == Lookup(t.layers, t.root, key)
  }

  // ----- finding the way

  lemma SpotOfStep(step: Key, x: Key)
    requires |step| == IKEY_SIZE && x != []
    ensures SpotOf(step + x) == Spot(Ikey(step), IKEY_SIZE + 1) && Rest(step + x) == x
  {
    assert (step + x)[..IKEY_SIZE] == step[..IKEY_SIZE];
    SlicePrefix(step + x, step);
  }

  lemma StepOfSpot(k: Key, step: Key)
    requires |k| > IKEY_SIZE && |step| == IKEY_SIZE && Ikey(k) == Ikey(step)
    ensures k == step + Rest(k)
  {
    SlicePrefix(k, k[..IKEY_SIZE]);
    SliceDetermines(k[..IKEY_SIZE], step);
  }

  lemma PlaceIsOk(t: Trie, r: Ref)
    requires Valid(t) && r in t.layers
    ensures r in t.place && PlaceOk(t, r) && t.root in t.layers
    ensures t.root in t.place && t.place[t.root].prefix == []
  {
    assert PlaceOk(t, r) && PlaceOk(t, t.root);
  }

  lemma RootIsOk(t: Trie)
    requires Valid(t)
    ensures t.root in t.layers && t.root in t.place && t.place[t.root].prefix == []
  {
    assert PlaceOk(t, t.root);
  }

  lemma SlotIsOk(t: Trie, r: Ref, s: Spot)
    requires Valid(t) && r in t.layers && s in t.layers[r]
    ensures SlotOk(t, r, s) && t.place.Keys == t.layers.Keys
  {
  }

  /** A layer slot is the way to the rest of the key. */
  lemma OneLayerDown(t: Trie, r: Ref, k: Key)
    requires Valid(t) && r in t.layers && SpotOf(k) in t.layers[r] && t.layers[r][SpotOf(k)].LayerAt?
    ensures
      var l := t.layers[r][SpotOf(k)].layer;
      && |k| > IKEY_SIZE && l in t.layers && r in t.place && l in t.place
      && t.place[l].prefix + Rest(k) == t.place[r].prefix + k && Rest(k) != []
      && Lookup(t.layers, l, Rest(k)) == Lookup(t.layers, r, k)
  {
    hide Valid, Ikey;
    var l := t.layers[r][SpotOf(k)].layer;
    SlotIsOk(t, r, SpotOf(k));
    PlaceIsOk(t, l);
    var step := t.place[l].step;
    StepOfSpot(k, step);
    JoinPrefix(t.place[r].prefix, step, Rest(k));
  }

  lemma JoinPrefix(p: Key, step: Key, x: Key)
    ensures p + step + x == p + (step + x)
  {
  }

  /** From the root, the prefix of a layer leads to the layer. */
  lemma {:induction false} PrefixLeads(t: Trie, r: Ref, x: Key)
    requires Valid(t) && r in t.layers && (x != [] || r == t.root)
    ensures r in t.place && Lookup(t.layers, t.root, t.place[r].prefix + x) == Lookup(t.layers, r, x)
    decreases |t.place[r].prefix|
  {
    hide Valid;
    PlaceIsOk(t, r);
    var w := t.place[r];
    if r == t.root {
      assert w.prefix + x == x;
    } else {
      PrefixLeads(t, w.owner, w.step + x);
      assert w.prefix + x == t.place[w.owner].prefix + (w.step + x);
      SpotOfStep(w.step, x);
    }
  }

  /** Key `key` goes through spot `s` of layer `r`. */
  ghost predicate Through(t: Trie, r: Ref, s: Spot, key: Key)
    requires r in t.place
  {
    var p := t.place[r].prefix;
    |p| <= |key| && key[..|p|] == p && SpotOf(key[|p|..]) == s
  }

  /** `u` is `t` with another slot at spot `s` of layer `r`, and maybe more layers. */
  ghost predicate OneSlot(t: Trie, r: Ref, s: Spot, u: Trie) {
    && r in t.layers && r in u.layers && u.root == t.root
    && (forall q :: q in t.layers && q != r ==> q in u.layers && u.layers[q] == t.layers[q])
    && (forall z :: z != s ==> (z in u.layers[r] <==> z in t.layers[r]))
    && (forall z :: z != s && z in t.layers[r] ==> u.layers[r][z] == t.layers[r][z])
  }

  /** All other keys are where they were. */
  lemma {:induction false} Elsewhere(t: Trie, r: Ref, s: Spot, u: Trie, a: Ref, k: Key)
    requires Valid(t) && OneSlot(t, r, s, u) && a in t.layers && a in t.place && r in t.place
    requires !Through(t, r, s, t.place[a].prefix + k)
    ensures Lookup(u.layers, a, k) == Lookup(t.layers, a, k)
    decreases |k|
  {
    hide Valid;
    var p := t.place[a].prefix;
    assert a == r ==> (p + k)[..|p|] == p && (p + k)[|p|..] == k;
    if SpotOf(k) in t.layers[a] && t.layers[a][SpotOf(k)].LayerAt? && |k| > IKEY_SIZE {
      var l := t.layers[a][SpotOf(k)].layer;
      SlotIsOk(t, a, SpotOf(k));
      PlaceIsOk(t, l);
      StepOfSpot(k, t.place[l].step);
      assert t.place[l].prefix + Rest(k) == p + k;
      Elsewhere(t, r, s, u, l, Rest(k));
    }
  }

  /** After a change of one slot a key is looked up as before, or in that slot. */
  lemma SlotChange(t: Trie, r: Ref, s: Spot, u: Trie, key: Key)
    requires Valid(t) && Valid(u) && OneSlot(t, r, s, u) && u.place[r] == t.place[r] && (s.len > 0 || r == t.root)
    ensures r in t.place
    ensures !Through(t, r, s, key) ==> Lookup(u.layers, u.root, key) == Lookup(t.layers, t.root, key)
    ensures Through(t, r, s, key) ==>
      var x := key[|t.place[r].prefix|..];
      && Lookup(t.layers, t.root, key) == Lookup(t.layers, r, x)
      && Lookup(u.layers, u.root, key) == Lookup(u.layers, r, x)
  {
    hide Valid;
    PlaceIsOk(t, r);
    if Through(t, r, s, key) {
      var p := t.place[r].prefix;
      var x := key[|p|..];
      assert key == p + x;
      PrefixLeads(t, r, x);
      PrefixLeads(u, r, x);
    } else {
      assert t.place[t.root].prefix + key == key;
      Elsewhere(t, r, s, u, t.root, key);
    }
  }

  // ----- storing a key in a slot

  function WithSlot(t: Trie, r: Ref, s: Spot, slot: Slot): Trie
    requires r in t.layers
  {
    t.(layers := t.layers[r := t.layers[r][s := slot]])
  }

  /** The spot is free, or holds the same key. */
  ghost predicate FreeFor(t: Trie, r: Ref, k: Key)
    requires r in t.layers
  {
    SpotOf(k) in t.layers[r] ==>
      (t.layers[r][SpotOf(k)].Plain? && |k| <= IKEY_SIZE) || (t.layers[r][SpotOf(k)].Suffix? && |k| > IKEY_SIZE && t.layers[r][SpotOf(k)].rest == Rest(k))
  }

  lemma OneSlotChanges(t: Trie, r: Ref, s: Spot, slot: Slot)
    requires r in t.layers
    ensures OneSlot(t, r, s, WithSlot(t, r, s, slot))
  {
  }

  lemma StoredIsValid(t: Trie, r: Ref, k: Key, v: Value)
    requires Valid(t) && r in t.layers && (k != [] || r == t.root) && FreeFor(t, r, k)
    ensures Valid(WithSlot(t, r, SpotOf(k), SlotFor(k, v)))
  {
    var u := WithSlot(t, r, SpotOf(k), SlotFor(k, v));
    forall q, s | q in u.layers && s in u.layers[q]
      ensures SlotOk(u, q, s)
    {
      if q != r || s != SpotOf(k) {
        assert SlotOk(t, q, s);
      }
    }
    forall q | q in u.layers
      ensures PlaceOk(u, q)
    {
      assert PlaceOk(t, q);
    }
  }

  /** Storing a key makes it found, and no other key is affected. */
  lemma StoredIsFound(t: Trie, r: Ref, k: Key, v: Value)
    requires Valid(t) && r in t.layers && (k != [] || r == t.root) && FreeFor(t, r, k)
    ensures Valid(WithSlot(t, r, SpotOf(k), SlotFor(k, v))) && r in t.place
    ensures StoresAlso(t, t.place[r].prefix + k, Some(v), WithSlot(t, r, SpotOf(k), SlotFor(k, v)))
  {
    var s, u, p := SpotOf(k), WithSlot(t, r, SpotOf(k), SlotFor(k, v)), t.place[r].prefix;
    StoredIsValid(t, r, k, v);
    hide Valid, Lookup, OneSlot, FreeFor;
    assert OneSlot(t, r, s, u) by { OneSlotChanges(t, r, s, SlotFor(k, v)); }
    assert p == u.place[r].prefix && u.root == t.root;
    forall key: Key
      ensures Lookup(u.layers, u.root, key) == if key == p + k then Some(v) else Lookup(t.layers, t.root, key)
    {
      SlotChange(t, r, s, u, key);
      ThroughSpot(t, r, k, key);
      if Through(t, r, s, key) {
        StoredInSlot(t, r, k, v, key[|p|..]);
      }
    }
  }

  lemma ThroughSpot(t: Trie, r: Ref, k: Key, key: Key)
    requires r in t.place
    ensures key == t.place[r].prefix + k ==> Through(t, r, SpotOf(k), key)
    ensures Through(t, r, SpotOf(k), key) ==> (key[|t.place[r].prefix|..] == k <==> key == t.place[r].prefix + k)
  {
    var p := t.place[r].prefix;
    assert key == p + k ==> key[..|p|] == p && key[|p|..] == k;
    if Through(t, r, SpotOf(k), key) {
      assert key == p + key[|p|..];
    }
  }

  /** Of the keys with the same spot, only the stored one is found there. */
  lemma StoredInSlot(t: Trie, r: Ref, k: Key, v: Value, x: Key)
    requires r in t.layers && FreeFor(t, r, k) && SpotOf(x) == SpotOf(k)
    ensures Lookup(WithSlot(t, r, SpotOf(k), SlotFor(k, v)).layers, r, x) ==
      if x == k then Some(v) else Lookup(t.layers, r, x)
  {
    SliceDetermines(k, x);
    if |k| > IKEY_SIZE {
      assert k == k[..IKEY_SIZE] + Rest(k) && x == x[..IKEY_SIZE] + Rest(x);
    }
  }

  function WithoutSlot(t: Trie, r: Ref, s: Spot): Trie
    requires r in t.layers
  {
    t.(layers := t.layers[r := t.layers[r] - {s}])
  }

  lemma RemovedIsValid(t: Trie, r: Ref, k: Key)
    requires Valid(t) && r in t.layers && FreeFor(t, r, k)
    ensures Valid(WithoutSlot(t, r, SpotOf(k)))
  {
    var u := WithoutSlot(t, r, SpotOf(k));
    forall q, s | q in u.layers && s in u.layers[q]
      ensures SlotOk(u, q, s)
    {
      assert SlotOk(t, q, s);
    }
    forall q | q in u.layers
      ensures PlaceOk(u, q)
    {
      assert PlaceOk(t, q);
    }
  }

  /** Removing a key makes it unknown, and no other key is affected. */
  lemma RemovedIsGone(t: Trie, r: Ref, k: Key)
    requires Valid(t) && r in t.layers && (k != [] || r == t.root) && FreeFor(t, r, k)
    ensures Valid(WithoutSlot(t, r, SpotOf(k))) && r in t.place
    ensures StoresAlso(t, t.place[r].prefix + k, None, WithoutSlot(t, r, SpotOf(k)))
  {
    RemovedIsValid(t, r, k);
    hide Valid, Lookup, WithoutSlot, FreeFor;
    forall key: Key
      ensures Lookup(WithoutSlot(t, r, SpotOf(k)).layers, t.root, key) ==
        if key == t.place[r].prefix + k then None else Lookup(t.layers, t.root, key)
    {
      RemovedKey(t, r, k, key);
    }
    assert WithoutSlot(t, r, SpotOf(k)).root == t.root by { RemovedKey(t, r, k, k); }
  }

  lemma RemovedKey(t: Trie, r: Ref, k: Key, key: Key)
    requires r in t.layers && Valid(t) && Valid(WithoutSlot(t, r, SpotOf(k))) && r in t.place
    requires (k != [] || r == t.root) && FreeFor(t, r, k)
    ensures WithoutSlot(t, r, SpotOf(k)).root == t.root
    ensures Lookup(WithoutSlot(t, r, SpotOf(k)).layers, t.root, key) ==
      if key == t.place[r].prefix + k then None else Lookup(t.layers, t.root, key)
  {
    hide Valid, Lookup, FreeFor;
    SlotChange(t, r, SpotOf(k), WithoutSlot(t, r, SpotOf(k)), key);
    ThroughSpot(t, r, k, key);
    if Through(t, r, SpotOf(k), key) {
      RemovedFromSlot(t, r, k, key[|t.place[r].prefix|..]);
    }
  }

  lemma RemovedFromSlot(t: Trie, r: Ref, k: Key, x: Key)
    requires r in t.layers && FreeFor(t, r, k) && SpotOf(x) == SpotOf(k)
    ensures Lookup(WithoutSlot(t, r, SpotOf(k)).layers, r, x) == if x == k then None else Lookup(t.layers, r, x)
  {
    SliceDetermines(k, x);
    if |k| > IKEY_SIZE {
      assert k == k[..IKEY_SIZE] + Rest(k) && x == x[..IKEY_SIZE] + Rest(x);
    }
  }

  lemma NothingStored(t: Trie, k: Key)
    requires Lookup(t.layers, t.root, k) == None
    ensures StoresAlso(t, k, None, t)
  {
  }

  lemma StoresAlsoAfterSame(t: Trie, u: Trie, k: Key, v: Value, w: Trie)
    requires StoresSame(t, u) && StoresAlso(u, k, Some(v), w)
    ensures StoresAlso(t, k, Some(v), w)
  {
  }

  // ----- moving a suffix into a layer of its own

  /** The slot of key `step + rest` becomes a new layer `nl` that holds `rest` only. */
  function PushedDown(t: Trie, r: Ref, step: Key, rest: Key, v: Value, nl: Ref): Trie
    requires r in t.layers && r in t.place
  {
    Trie(t.layers[nl := map[SpotOf(rest) := SlotFor(rest, v)]]
                 [r := t.layers[r][Spot(Ikey(step), IKEY_SIZE + 1) := LayerAt(nl)]],
         t.root, t.place[nl := Place(r, step, t.place[r].prefix + step)])
  }

  ghost predicate HoldsSuffix(t: Trie, r: Ref, step: Key, rest: Key, v: Value) {
    && r in t.layers && |step| == IKEY_SIZE && Spot(Ikey(step), IKEY_SIZE + 1) in t.layers[r]
    && t.layers[r][Spot(Ikey(step), IKEY_SIZE + 1)] == Suffix(rest, v)
  }

  lemma PushedDownSlots(t: Trie, r: Ref, step: Key, rest: Key, v: Value, nl: Ref, q: Ref, z: Spot)
    requires Valid(t) && HoldsSuffix(t, r, step, rest, v) && nl !in t.layers && r in t.place
    requires var u := PushedDown(t, r, step, rest, v, nl); q in u.layers && z in u.layers[q]
    ensures SlotOk(PushedDown(t, r, step, rest, v, nl), q, z)
  {
    assert SlotOk(t, r, Spot(Ikey(step), IKEY_SIZE + 1)) && rest != [];
    if q in t.layers && z in t.layers[q] {
      assert SlotOk(t, q, z);
    }
  }

  lemma PushedDownPlaces(t: Trie, r: Ref, step: Key, rest: Key, v: Value, nl: Ref, q: Ref)
    requires Valid(t) && HoldsSuffix(t, r, step, rest, v) && nl !in t.layers && r in t.place
    requires q in t.layers || q == nl
    ensures var u := PushedDown(t, r, step, rest, v, nl); q in u.place && PlaceOk(u, q)
  {
    hide Valid;
    PlaceIsOk(t, r);
    if q in t.layers {
      PlaceIsOk(t, q);
    }
  }

  lemma PushedDownIsValid(t: Trie, r: Ref, step: Key, rest: Key, v: Value, nl: Ref)
    requires Valid(t) && HoldsSuffix(t, r, step, rest, v) && nl !in t.layers
    ensures r in t.place && Valid(PushedDown(t, r, step, rest, v, nl))
  {
    hide SlotOk, PlaceOk;
    var u := PushedDown(t, r, step, rest, v, nl);
    forall q, z | q in u.layers && z in u.layers[q]
      ensures SlotOk(u, q, z)
    {
      PushedDownSlots(t, r, step, rest, v, nl, q, z);
    }
    forall q | q in u.layers
      ensures q in u.place && PlaceOk(u, q)
    {
      PushedDownPlaces(t, r, step, rest, v, nl, q);
    }
  }

  /** Nothing that is stored changes. */
  lemma PushedDownStoresSame(t: Trie, r: Ref, step: Key, rest: Key, v: Value, nl: Ref)
    requires Valid(t) && HoldsSuffix(t, r, step, rest, v) && nl !in t.layers
    ensures Valid(PushedDown(t, r, step, rest, v, nl))
    ensures StoresSame(t, PushedDown(t, r, step, rest, v, nl))
  {
    PushedDownIsValid(t, r, step, rest, v, nl);
    var u := PushedDown(t, r, step, rest, v, nl);
    assert u.root == t.root;
    hide Valid, Lookup, PushedDown, HoldsSuffix;
    forall key: Key
      ensures Lookup(u.layers, u.root, key) == Lookup(t.layers, t.root, key)
    {
      PushedDownKey(t, r, step, rest, v, nl, key);
    }
  }

  lemma PushedDownKey(t: Trie, r: Ref, step: Key, rest: Key, v: Value, nl: Ref, key: Key)
    requires Valid(t) && HoldsSuffix(t, r, step, rest, v) && nl !in t.layers && r in t.place
    requires Valid(PushedDown(t, r, step, rest, v, nl))
    ensures Lookup(PushedDown(t, r, step, rest, v, nl).layers, t.root, key) == Lookup(t.layers, t.root, key)
  {
    hide Valid, Lookup;
    SlotChange(t, r, Spot(Ikey(step), IKEY_SIZE + 1), PushedDown(t, r, step, rest, v, nl), key);
    if Through(t, r, Spot(Ikey(step), IKEY_SIZE + 1), key) {
      PushedDownFinds(t, r, step, rest, v, nl, key[|t.place[r].prefix|..]);
    }
  }

  lemma PushedDownFinds(t: Trie, r: Ref, step: Key, rest: Key, v: Value, nl: Ref, x: Key)
    requires r in t.place && HoldsSuffix(t, r, step, rest, v) && nl !in t.layers
    requires SpotOf(x) == Spot(Ikey(step), IKEY_SIZE + 1)
    ensures Lookup(PushedDown(t, r, step, rest, v, nl).layers, r, x) == Lookup(t.layers, r, x)
  {
    var y := Rest(x);
    if SpotOf(y) == SpotOf(rest) {
      SliceDetermines(rest, y);
      if |rest| > IKEY_SIZE {
        assert rest == rest[..IKEY_SIZE] + Rest(rest) && y == y[..IKEY_SIZE] + Rest(y);
      }
    }
  }

  // ----- the twig of layers

  /** In the loop of `make_new_layer`: memory is the trie `w`, which stores the same as `t`,
      but the first slot still holds the suffix and the last one is not linked yet. */
  ghost predicate Twig(t: Trie, n: Ref, k: Key, v: Value, w: Trie, head: Ref, tail: Ref, step: Key, oka: Key, ka: Key,
                       layers: map<Ref, SlotMap>)
  {
    && Valid(w) && StoresSame(t, w) && w.root == t.root
    && n in t.layers && n in w.layers && n in t.place && tail in w.place && n in w.place && w.place[n] == t.place[n]
    && HoldsSuffix(w, tail, step, oka, v) && oka != ka && ka != []
    && w.place[tail].prefix + step + ka == t.place[n].prefix + k
    && if head == n then tail == n && layers == w.layers == t.layers && SpotOf(k) == Spot(Ikey(step), IKEY_SIZE + 1)
       else
         && tail != n && w.layers[n] == t.layers[n][SpotOf(k) := LayerAt(head)]
         && w.layers[tail] == map[Spot(Ikey(step), IKEY_SIZE + 1) := Suffix(oka, v)]
         && layers == w.layers[n := t.layers[n]][tail := map[Spot(Ikey(step), IKEY_SIZE + 1) := Unlinked]]
  }

  lemma TwigStarts(t: Trie, n: Ref, k: Key, v: Value, rest: Key)
    requires Valid(t) && n in t.layers && |k| > IKEY_SIZE && HoldsSuffix(t, n, k[..IKEY_SIZE], rest, v) && Rest(k) != rest
    ensures Twig(t, n, k, v, t, n, n, k[..IKEY_SIZE], rest, Rest(k), t.layers)
    ensures SpotOf(k) == Spot(Ikey(k[..IKEY_SIZE]), IKEY_SIZE + 1)
  {
    hide Valid;
    PlaceIsOk(t, n);
    SlicePrefix(k, k[..IKEY_SIZE]);
    assert t.place[n].prefix + k[..IKEY_SIZE] + Rest(k) == t.place[n].prefix + k;
  }

  /** The stores for one more layer `nl` below the tail. */
  function TwigStores(layers: map<Ref, SlotMap>, n: Ref, head: Ref, tail: Ref, step: Key, nl: Ref, layer: SlotMap): map<Ref, SlotMap>
    requires head != n ==> tail in layers
  {
    var made := layers[nl := layer];
    if head != n then made[tail := made[tail][Spot(Ikey(step), IKEY_SIZE + 1) := LayerAt(nl)]] else made
  }

  lemma JoinStep(p: Key, step: Key, oka: Key, ka: Key)
    requires |oka| > IKEY_SIZE && |ka| > IKEY_SIZE && oka[..IKEY_SIZE] == ka[..IKEY_SIZE]
    ensures p + step + oka[..IKEY_SIZE] + Rest(ka) == p + step + ka
    ensures oka != ka ==> Rest(oka) != Rest(ka)
    ensures SpotOf(oka) == Spot(Ikey(oka[..IKEY_SIZE]), IKEY_SIZE + 1)
  {
    assert ka == ka[..IKEY_SIZE] + Rest(ka) && oka == oka[..IKEY_SIZE] + Rest(oka);
    SlicePrefix(oka, oka[..IKEY_SIZE]);
  }

  lemma StoresSameJoin(t: Trie, u: Trie, w: Trie)
    requires StoresSame(t, u) && StoresSame(u, w)
    ensures StoresSame(t, w)
  {
  }

  /** Memory after the stores for the new layer, whatever the slot in it. */
  lemma TwigMemory(t: Trie, n: Ref, k: Key, v: Value, w: Trie, head: Ref, tail: Ref, step: Key, oka: Key,
                   layers: map<Ref, SlotMap>, nl: Ref, slot: Slot)
    requires n in t.layers && n in w.layers && tail in w.place && HoldsSuffix(w, tail, step, oka, v) && nl !in w.layers
    requires
      if head == n then tail == n && layers == w.layers == t.layers && SpotOf(k) == Spot(Ikey(step), IKEY_SIZE + 1)
      else
        && tail != n && w.layers[n] == t.layers[n][SpotOf(k) := LayerAt(head)]
        && w.layers[tail] == map[Spot(Ikey(step), IKEY_SIZE + 1) := Suffix(oka, v)]
        && layers == w.layers[n := t.layers[n]][tail := map[Spot(Ikey(step), IKEY_SIZE + 1) := Unlinked]]
    ensures tail in layers
    ensures
      var u, head' := PushedDown(w, tail, step, oka, v, nl), if head == n then nl else head;
      var after := TwigStores(layers, n, head, tail, step, nl, map[SpotOf(oka) := slot]);
      && u.layers[n] == t.layers[n][SpotOf(k) := LayerAt(head')]
      && u.layers[nl] == map[SpotOf(oka) := SlotFor(oka, v)]
      && after == u.layers[n := t.layers[n]][nl := map[SpotOf(oka) := slot]]
  {
    var z := Spot(Ikey(step), IKEY_SIZE + 1);
    assert map[z := Unlinked][z := LayerAt(nl)] == map[z := LayerAt(nl)] == map[z := Suffix(oka, v)][z := LayerAt(nl)];
    var u := PushedDown(w, tail, step, oka, v, nl);
    var after := TwigStores(layers, n, head, tail, step, nl, map[SpotOf(oka) := slot]);
    assert head != n ==> after[tail] == u.layers[tail];
  }

  /** The loop goes on: both keys are long and share the slice. */
  lemma TwigGrows(t: Trie, n: Ref, k: Key, v: Value, w: Trie, head: Ref, tail: Ref, step: Key, oka: Key, ka: Key,
                  layers: map<Ref, SlotMap>, nl: Ref)
    requires Twig(t, n, k, v, w, head, tail, step, oka, ka, layers) && Compare(oka, ka) == 0 && nl !in w.layers
    ensures |oka| > IKEY_SIZE && |ka| > IKEY_SIZE && tail in w.layers && tail in w.place && tail in layers
    ensures SpotOf(oka) == Spot(Ikey(oka[..IKEY_SIZE]), IKEY_SIZE + 1) && (head == n <==> tail == n)
    ensures Twig(t, n, k, v, PushedDown(w, tail, step, oka, v, nl), if head == n then nl else head, nl,
                 oka[..IKEY_SIZE], Rest(oka), Rest(ka),
                 TwigStores(layers, n, head, tail, step, nl, map[SpotOf(oka) := Unlinked]))
  {
    hide Valid, StoresSame, Compare;
    CompareZero(oka, ka);
    JoinStep(w.place[tail].prefix, step, oka, ka);
    PushedDownStoresSame(w, tail, step, oka, v, nl);
    var u := PushedDown(w, tail, step, oka, v, nl);
    StoresSameJoin(t, w, u);
    TwigMemory(t, n, k, v, w, head, tail, step, oka, layers, nl, Unlinked);
    assert HoldsSuffix(u, nl, oka[..IKEY_SIZE], Rest(oka), v);
    assert u.place[nl].prefix + oka[..IKEY_SIZE] + Rest(ka) == t.place[n].prefix + k;
  }

  /** The loop ends: the two keys have different spots in the last layer. */
  lemma TwigEnds(t: Trie, n: Ref, k: Key, v: Value, w: Trie, head: Ref, tail: Ref, step: Key, oka: Key, ka: Key,
                 layers: map<Ref, SlotMap>, nl: Ref)
    requires Twig(t, n, k, v, w, head, tail, step, oka, ka, layers) && Compare(oka, ka) != 0 && nl !in w.layers
    ensures tail in w.layers && tail in w.place && tail in layers && n in layers && (head == n <==> tail == n)
    ensures ka != [] && n in t.place
    ensures
      var u := PushedDown(w, tail, step, oka, v, nl);
      var linked := TwigStores(layers, n, head, tail, step, nl, map[SpotOf(oka) := SlotFor(oka, v)]);
      && n in linked
      && u.layers == linked[n := linked[n][SpotOf(k) := LayerAt(if head != n then head else nl)]]
      && Valid(u) && StoresSame(t, u) && u.root == t.root
      && nl in u.layers && nl in u.place
      && SpotOf(ka) !in u.layers[nl] && u.place[nl].prefix + ka == t.place[n].prefix + k
  {
    hide Valid, StoresSame;
    PushedDownStoresSame(w, tail, step, oka, v, nl);
    StoresSameJoin(t, w, PushedDown(w, tail, step, oka, v, nl));
    TwigMemory(t, n, k, v, w, head, tail, step, oka, layers, nl, SlotFor(oka, v));
    PlaceIsOk(w, tail);
    assert SpotOf(ka) != SpotOf(oka);
  }

  // ----- a layer as a map

  ghost predicate InSlice(s: Spot) {
    s.ikey < TreeModel.LIMIT && s.len <= IKEY_SIZE + 1
  }

  lemma SpotInSlice(k: Key)
    ensures InSlice(SpotOf(k))
  {
  }

  /** A layer is a valid tree in which no leaf but the first is empty. */
  ghost predicate LayerOk(layer: LayerTree.Layer)
    reads layer
  {
    layer.Sound() && SplitStores.Packed(layer.nodes, {})
  }

  /** What the B+tree of a layer holds. */
  ghost function MapOf(layer: LayerTree.Layer): SlotMap
    reads layer
  {
    if layer.Sound() then TreeMap(layer.Shape()) else map[]
  }

  ghost function TreeMap(t: TreeModel.Tree): SlotMap
    requires TreeModel.Valid(t)
  {
    var all := set k: nat, len: nat | k < TreeModel.LIMIT && len <= IKEY_SIZE + 1 :: Spot(k, len);
    map s | s in all && TreeModel.Get(t, s.ikey, s.len).Some? :: TreeModel.Get(t, s.ikey, s.len).value
  }

  lemma TreeMapAt(t: TreeModel.Tree, s: Spot)
    requires TreeModel.Valid(t)
    ensures s in TreeMap(t) <==> InSlice(s) && TreeModel.Get(t, s.ikey, s.len).Some?
    ensures s in TreeMap(t) ==> TreeMap(t)[s] == TreeModel.Get(t, s.ikey, s.len).value
  {
    hide TreeModel.Valid, TreeModel.Get;
    if InSlice(s) {
      assert Spot(s.ikey, s.len) == s;
    }
  }

  lemma TreeMapWith(t: TreeModel.Tree, s: Spot, slot: Option<Slot>, u: TreeModel.Tree)
    requires InSlice(s) && SplitStores.MapWith(t, s.ikey, s.len, slot, u)
    ensures TreeMap(u) == if slot.Some? then TreeMap(t)[s := slot.value] else TreeMap(t) - {s}
  {
    hide TreeModel.Valid, TreeModel.Get, TreeMap;
    forall z: Spot
      ensures z in TreeMap(u) <==> if z == s then slot.Some? else z in TreeMap(t)
      ensures z in TreeMap(u) ==> TreeMap(u)[z] == if z == s then slot.value else TreeMap(t)[z]
    {
      TreeMapAt(t, z);
      TreeMapAt(u, z);
    }
  }

  lemma EmptyTreeMap(t: TreeModel.Tree)
    requires TreeModel.Valid(t) && t.nodes == map[t.root := TreeModel.Leaf(None, [], false, 0)]
    ensures TreeMap(t) == map[]
  {
    forall z: Spot
      ensures z !in TreeMap(t)
    {
      TreeMapAt(t, z);
      if InSlice(z) {
        TreeModel.RootServesAll(t, z.ikey);
        TreeModel.GetAt(t, t.root, z.ikey, z.len);
      }
    }
  }

  /** Whether a leaf's only free slot may be taken is not part of this model. */
  method PutSlot(layer: LayerTree.Layer, s: Spot, slot: Slot)
    requires LayerOk(layer) && InSlice(s)
    modifies layer
    ensures LayerOk(layer) && MapOf(layer) == old(MapOf(layer))[s := slot]
  {
    hide TreeModel.Valid, TreeMap, SplitStores.MapWith, SplitStores.Packed;
    ghost var t := layer.Shape();
    var slotUsable: bool, hasNext: bool := *, *;
    layer.Put(TreeModel.Entry(s.ikey, s.len, slot), slotUsable, hasNext);
    TreeMapWith(t, s, Some(slot), layer.Shape());
  }

  method DropSlot(layer: LayerTree.Layer, s: Spot)
    requires LayerOk(layer) && InSlice(s)
    modifies layer
    ensures LayerOk(layer) && MapOf(layer) == old(MapOf(layer)) - {s}
  {
    hide TreeModel.Valid, TreeMap, SplitStores.MapWith, SplitStores.Packed;
    ghost var t := layer.Shape();
    var found := layer.Remove(s.ikey, s.len);
    TreeMapWith(t, s, None, layer.Shape());
  }

  method NewLayer() returns (layer: LayerTree.Layer)
    ensures fresh(layer) && LayerOk(layer) && MapOf(layer) == map[]
  {
    layer := new LayerTree.Layer();
    EmptyTreeMap(layer.Shape());
  }

  lemma EmptyIsValid(t: Trie)
    requires t.layers == map[0 := map[]] && t.root == 0 && t.place == map[0 := Place(0, [], [])]
    ensures Valid(t) && forall k: Key :: Lookup(t.layers, t.root, k) == None
  {
  }

  // ----- the table

  /** The layers of the table are B+trees. */
  class Table {
    var layers: map<Ref, LayerTree.Layer>
    var root: Ref
    var free: Ref
    ghost var place: map<Ref, Place>

    ghost function Maps(): map<Ref, SlotMap>
      reads this`layers, layers.Values
    {
      map r | r in layers :: MapOf(layers[r])
    }

    ghost function State(): Trie
      reads this, layers.Values
    {
      Trie(Maps(), root, place)
    }

    /** Every layer is in order, and no two of them are the same object. */
    ghost predicate Memory()
      reads this`layers, this`free, layers.Values
    {
      && (forall r :: r in layers ==> r < free && LayerOk(layers[r]))
      && (forall r, q :: r in layers && q in layers && r != q ==> layers[r] != layers[q])
    }

    ghost predicate Sound()
      reads this, layers.Values
    {
      Memory() && Valid(State())
    }

    constructor ()
      ensures Sound() && fresh(layers.Values) && forall k: Key :: Lookup(Maps(), root, k) == None
    {
      var layer := NewLayer();
      layers, root, free := map[0 := layer], 0, 1;
      place := map[0 := Place(0, [], [])];
      new;
      hide MapOf, LayerOk, Valid, Lookup, Maps, Memory;
      StartsEmpty();
    }

    lemma StartsEmpty()
      requires layers.Keys == {0} && LayerOk(layers[0]) && MapOf(layers[0]) == map[]
      requires root == 0 && free == 1 && place == map[0 := Place(0, [], [])]
      ensures Sound() && forall k: Key :: Lookup(Maps(), root, k) == None
    {
      hide MapOf, LayerOk, Valid, Lookup;
      assert Maps() == map[0 := map[]];
      EmptyIsValid(State());
    }

    // ----- one slot

    method GetSlot(r: Ref, k: Key) returns (slot: Option<Slot>)
      requires Memory() && r in layers
      ensures slot == if SpotOf(k) in Maps()[r] then Some(Maps()[r][SpotOf(k)]) else None
    {
      slot := layers[r].Find(Ikey(k), SliceLength(k));
      TreeMapAt(layers[r].Shape(), SpotOf(k));
    }

    method SetSlot(r: Ref, s: Spot, slot: Slot)
      requires Memory() && r in layers && InSlice(s)
      modifies layers[r]
      ensures Memory() && Maps() == old(Maps())[r := old(Maps()[r])[s := slot]]
    {
      hide MapOf, LayerOk, InSlice;
      PutSlot(layers[r], s, slot);
    }

    method RemoveSlot(r: Ref, s: Spot)
      requires Memory() && r in layers && InSlice(s)
      modifies layers[r]
      ensures Memory() && Maps() == old(Maps())[r := old(Maps()[r]) - {s}]
    {
      hide MapOf, LayerOk, InSlice;
      DropSlot(layers[r], s);
    }

    /** A new layer with one slot. */
    method AddLayer(s: Spot, slot: Slot) returns (nl: Ref)
      requires Memory() && InSlice(s)
      modifies this`layers, this`free
      ensures Memory() && nl == old(free) && free == nl + 1 && nl in layers && fresh(layers[nl])
      ensures nl !in old(layers) && layers == old(layers)[nl := layers[nl]]
      ensures Maps() == old(Maps())[nl := map[s := slot]]
    {
      hide MapOf, LayerOk, InSlice;
      var layer := NewLayer();
      PutSlot(layer, s, slot);
      nl := free;
      free := free + 1;
      layers := layers[nl := layer];
    }

    // ----- keys

    /** The loop of `find_unlocked` and `find_locked`: down one layer for every eight bytes, to
        the slot that is no layer. */
    method Locate(k: Key) returns (r: Ref, ka: Key, slot: Option<Slot>)
      requires Sound()
      ensures r in layers && r in place && place[r].prefix + ka == k && (ka != [] || r == root)
      ensures slot == if SpotOf(ka) in Maps()[r] then Some(Maps()[r][SpotOf(ka)]) else None
      ensures slot.Some? ==> !slot.value.LayerAt? && SlotOk(State(), r, SpotOf(ka))
      ensures Lookup(Maps(), root, k) == Lookup(Maps(), r, ka)
    {
      hide MapOf, LayerOk, Valid, Memory, Maps, Lookup, SlotOk, SpotOf;
      MapsKeys();
      ghost var t := State();
      r, ka := root, k;
      RootIsOk(t);
      assert place[r].prefix + ka == k;
      while true
        invariant r in layers && r in place && place[r].prefix + ka == k && (ka != [] || r == root)
        invariant Lookup(t.layers, root, k) == Lookup(t.layers, r, ka)
        decreases |ka|
      {
        slot := GetSlot(r, ka);
        if slot == None {
          return;
        }
        SlotIsOk(t, r, SpotOf(ka));
        if !slot.value.LayerAt? {
          return;
        }
        OneLayerDown(t, r, ka);
        r, ka := slot.value.layer, Rest(ka);
      }
    }

    method Find(k: Key) returns (value: Option<Value>)
      requires Sound()
      ensures value == Lookup(Maps(), root, k)
    {
      hide MapOf, LayerOk, Valid;
      var r, ka, slot := Locate(k);
      match slot
      case None => return None;
      case Some(Plain(v)) => return Some(v);
      case Some(Suffix(rest, v)) => return if Rest(ka) == rest then Some(v) else None;
    }

    /** `find_insert` and the store of the value: a new layer where two long keys meet. */
    method Put(k: Key, v: Value)
      requires Sound()
      modifies this, layers.Values
      ensures Sound() && StoresAlso(old(State()), k, Some(v), State())
      ensures fresh(layers.Values - old(layers.Values))
    {
      hide MapOf, LayerOk, Memory, Valid, StoresSame, StoresAlso, Lookup;
      ghost var t := State();
      var r, ka, slot := Locate(k);
      if slot.Some? && slot.value.Suffix? && slot.value.rest != Rest(ka) {
        SlicePrefix(ka, ka[..IKEY_SIZE]);
        var nl, kb := MakeNewLayer(r, ka, slot.value.rest, slot.value.v);
        ghost var u := State();
        Store(nl, kb, v);
        StoresAlsoAfterSame(t, u, k, v, State());
      } else {
        Store(r, ka, v);
      }
    }

    method Store(r: Ref, ka: Key, v: Value)
      requires Sound() && r in layers && r in place && (ka != [] || r == root) && FreeFor(State(), r, ka)
      modifies layers[r]
      ensures Sound() && StoresAlso(old(State()), place[r].prefix + ka, Some(v), State())
    {
      hide MapOf, LayerOk, Valid, StoresAlso;
      ghost var t := State();
      StoredIsFound(t, r, ka, v);
      SetSlot(r, SpotOf(ka), SlotFor(ka, v));
      assert State() == WithSlot(t, r, SpotOf(ka), SlotFor(ka, v));
    }

    /** Removes a key from its layer; layers left empty are for the collector. */
    method Remove(k: Key) returns (found: bool)
      requires Sound()
      modifies layers.Values
      ensures Sound() && StoresAlso(old(State()), k, None, State())
      ensures found == Lookup(old(Maps()), old(root), k).Some?
    {
      hide MapOf, LayerOk, Memory, Valid, StoresAlso;
      var r, ka, slot := Locate(k);
      found := slot.Some? && (slot.value.Suffix? ==> slot.value.rest == Rest(ka));
      if found {
        TakeOut(r, ka);
      } else {
        NothingStored(State(), k);
      }
    }

    method TakeOut(r: Ref, ka: Key)
      requires Sound() && r in layers && r in place && (ka != [] || r == root) && FreeFor(State(), r, ka)
      modifies layers[r]
      ensures Sound() && StoresAlso(old(State()), place[r].prefix + ka, None, State())
    {
      hide MapOf, LayerOk, Memory, Valid, StoresAlso;
      ghost var t := State();
      RemovedIsGone(t, r, ka);
      SpotInSlice(ka);
      RemoveSlot(r, SpotOf(ka));
      assert State() == WithoutSlot(t, r, SpotOf(ka));
    }

    /** One more layer, linked below the tail unless it is the head of the twig. */
    method GrowTwig(n: Ref, twigHead: Ref, twigTail: Ref, step: Key, oka: Key, slot: Slot) returns (nl: Ref)
      requires Memory() && (twigHead != n ==> twigTail in layers)
      modifies this`layers, this`free, layers.Values
      ensures Memory() && nl == old(free) && (twigHead != n ==> twigTail in old(layers))
      ensures Maps() == TwigStores(old(Maps()), n, twigHead, twigTail, step, nl, map[SpotOf(oka) := slot])
      ensures layers.Keys == old(layers.Keys) + {nl} && fresh(layers.Values - old(layers.Values))
    {
      hide MapOf, LayerOk, SpotOf;
      SpotInSlice(oka);
      NotMade();
      nl := AddLayer(SpotOf(oka), slot);
      if twigHead != n {
        SetSlot(twigTail, Spot(Ikey(step), IKEY_SIZE + 1), LayerAt(nl));
      }
    }

    /** The stores after the loop: the last layer, and the old slot as the way to the first. */
    method LinkTwig(n: Ref, k: Key, twigHead: Ref, twigTail: Ref, step: Key, oka: Key, slot: Slot) returns (nl: Ref)
      requires Memory() && n in layers && (twigHead != n ==> twigTail in layers)
      modifies this`layers, this`free, layers.Values
      ensures Memory() && nl == old(free) && (twigHead != n ==> twigTail in old(layers))
      ensures
        var linked := TwigStores(old(Maps()), n, twigHead, twigTail, step, nl, map[SpotOf(oka) := slot]);
        && n in linked
        && Maps() == linked[n := linked[n][SpotOf(k) := LayerAt(if twigHead != n then twigHead else nl)]]
      ensures nl in layers && fresh(layers.Values - old(layers.Values))
    {
      hide MapOf, LayerOk, Memory, TwigStores, SpotOf, InSlice, Maps;
      nl := GrowTwig(n, twigHead, twigTail, step, oka, slot);
      SpotInSlice(k);
      MapsKeys();
      SetSlot(n, SpotOf(k), LayerAt(if twigHead != n then twigHead else nl));
    }

    /** The last layer holds both keys; the old slot now leads to the first layer. */
    method EndTwig(n: Ref, k: Key, v: Value, twigHead: Ref, twigTail: Ref, step: Key, oka: Key, ka: Key,
                   ghost t: Trie, ghost w: Trie)
      returns (nl: Ref)
      requires Memory() && n in layers && w.layers.Keys == layers.Keys && root == t.root
      requires Twig(t, n, k, v, w, twigHead, twigTail, step, oka, ka, Maps()) && Compare(oka, ka) != 0
      modifies this, layers.Values
      ensures Sound() && StoresSame(t, State()) && root == old(root) && fresh(layers.Values - old(layers.Values))
      ensures nl in layers && nl in place && n in t.place && ka != [] && SpotOf(ka) !in Maps()[nl]
      ensures place[nl].prefix + ka == t.place[n].prefix + k
    {
      hide MapOf, LayerOk, Memory, Valid, StoresSame, Twig, Compare, PushedDown, TwigStores, SpotOf, SlotFor, InSlice, Maps;
      NotMade();
      TwigEnds(t, n, k, v, w, twigHead, twigTail, step, oka, ka, Maps(), free);
      ghost var u := PushedDown(w, twigTail, step, oka, v, free);
      nl := LinkTwig(n, k, twigHead, twigTail, step, oka, SlotFor(oka, v));
      SetPlace(u);
      assert State() == u;
    }

    /** `make_new_layer`: layers until the suffix in the slot and the new key part.  Nothing
        that is stored changes, and the new key has a free spot in the last layer. */
    method MakeNewLayer(n: Ref, k: Key, rest: Key, v: Value) returns (nl: Ref, ka: Key)
      requires Sound() && n in layers && |k| > IKEY_SIZE && HoldsSuffix(State(), n, k[..IKEY_SIZE], rest, v) && Rest(k) != rest
      modifies this, layers.Values
      ensures Sound() && StoresSame(old(State()), State()) && root == old(root)
      ensures fresh(layers.Values - old(layers.Values))
      ensures nl in layers && nl in place && n in old(place) && ka != [] && SpotOf(ka) !in Maps()[nl]
      ensures place[nl].prefix + ka == old(place[n]).prefix + k
    {
      hide MapOf, LayerOk, Memory, Valid, StoresSame, Twig, HoldsSuffix, Compare, TwigStores, SpotOf, Lookup, Maps;
      ghost var t, w := State(), State();
      var step := k[..IKEY_SIZE];
      assert Maps().Keys == layers.Keys by { MapsKeys(); }
      TwigStarts(t, n, k, v, rest);
      var twigHead: Ref, twigTail: Ref, oka: Key := n, n, rest;
      ka := Rest(k);
      var kcmp := Compare(oka, ka);
      while kcmp == 0
        invariant Twig(t, n, k, v, w, twigHead, twigTail, step, oka, ka, Maps())
        invariant kcmp == Compare(oka, ka) && |step| == IKEY_SIZE
        invariant w.layers.Keys == layers.Keys && n in layers && root == t.root
        invariant Memory() && fresh(layers.Values - old(layers.Values))
        decreases |oka|
      {
        NotMade();
        TwigGrows(t, n, k, v, w, twigHead, twigTail, step, oka, ka, Maps(), free);
        w := PushedDown(w, twigTail, step, oka, v, free);
        nl := GrowTwig(n, twigHead, twigTail, step, oka, Unlinked);
        if twigHead == n {
          twigHead := nl;
        }
        step := oka[..IKEY_SIZE];
        twigTail, oka, ka := nl, Rest(oka), Rest(ka);
        kcmp := Compare(oka, ka);
      }
      nl := EndTwig(n, k, v, twigHead, twigTail, step, oka, ka, t, w);
    }

    lemma MapsKeys()
      ensures Maps().Keys == layers.Keys
    {
    }

    lemma NotMade()
      requires Memory()
      ensures free !in layers
    {
    }

    ghost method SetPlace(w: Trie)
      modifies this`place
      ensures place == w.place
    {
      place := w.place;
    }
  }
}
