/** Replaying one key's log records in any order: log.cc, `logrecord::apply`.

  Records of a key come from several logs, so a modification may be replayed before the row
  it modifies.  It then waits as a delta marker in a chain in front of the row. */
module Replay {
  import opened Options

  type Column = nat
  type Bytes = nat
  type Columns = map<Column, Bytes>
  /** A change set: columns and their new contents, in order. */
  type Changes = seq<(Column, Bytes)>

  datatype Row = Row(ts: nat, cols: Columns)

  datatype Record =
    | Put(ts: nat, changes: Changes)
    | Replace(ts: nat, whole: Bytes)
    | Modify(ts: nat, prevTs: nat, changes: Changes)

  /** A postponed modification, stamped with the odd timestamp after its own. */
  datatype Marker = Marker(ts: nat, prevTs: nat, changes: Changes)

  /** The value slot: delta markers, newest first, in front of a row. */
  datatype Chain = Chain(markers: seq<Marker>, row: Option<Row>)

  function Overwrite(cols: Columns, changes: Changes): Columns
    decreases |changes|
  {
    if changes == [] then cols
    else Overwrite(cols[changes[0].0 := changes[0].1], changes[1..])
  }

  function Create(changes: Changes, ts: nat): Row { Row(ts, Overwrite(map[], changes)) }
  function CreateOne(whole: Bytes, ts: nat): Row { Row(ts, map[0 := whole]) }
  function Update(row: Row, changes: Changes, ts: nat): Row { Row(ts, Overwrite(row.cols, changes)) }

  /** The row that a record which is not a modification creates. */
  function NewRow(r: Record): Row
    requires !r.Modify?
  {
    if r.Put? then Create(r.changes, r.ts) else CreateOne(r.whole, r.ts)
  }

  /** Writers stamp records with even timestamps, and log a modification only of a row with
      an even one. */
  predicate Loggable(r: Record) {
    r.ts % 2 == 0 && (r.Modify? ==> r.prevTs % 2 == 0)
  }

  // ----- what one call computes

  /** The number of markers newer than `ts` at the front of the chain. */
  function Newer(markers: seq<Marker>, ts: nat): (i: nat)
    ensures i <= |markers|
  {
    if markers == [] || markers[0].ts <= ts then 0 else 1 + Newer(markers[1..], ts)
  }

  /** Merge the oldest markers into the row as long as they fit. */
  function Merge(c: Chain): Chain
    decreases |c.markers|
  {
    if c.markers == [] || c.row == None then c
    else
      var last := c.markers[|c.markers| - 1];
      if last.prevTs != c.row.value.ts then c
      else Merge(Chain(c.markers[..|c.markers| - 1], Some(Update(c.row.value, last.changes, if last.ts == 0 then 0 else last.ts - 1))))
  }

  function Applied(c: Chain, r: Record): Chain {
    var i := Newer(c.markers, r.ts);
    if i < |c.markers| && c.markers[i].ts >= r.ts then c
    else if i == |c.markers| && c.row.Some? && c.row.value.ts >= r.ts then c
    else
      match r
      case Put(ts, changes) => Merge(Chain(c.markers[..i], Some(Create(changes, ts))))
      case Replace(ts, whole) => Merge(Chain(c.markers[..i], Some(CreateOne(whole, ts))))
      case Modify(ts, prevTs, changes) =>
        if i == |c.markers| && c.row.Some? && c.row.value.ts == prevTs
        then Merge(c.(row := Some(Update(c.row.value, changes, ts))))
        else Merge(c.(markers := c.markers[..i] + [Marker(ts + 1, prevTs, changes)] + c.markers[i..]))
  }

  /** The slot as it is updated in place. */
  class Slot {
    var markers: seq<Marker>
    var row: Option<Row>

    ghost function Contents(): Chain
      reads this
    {
      Chain(markers, row)
    }

    ghost predicate Valid()
      reads this
    {
      forall i :: 0 <= i < |markers| ==> markers[i].ts % 2 == 1
    }

    constructor ()
      ensures Valid() && Contents() == Chain([], None)
    {
      markers, row := [], None;
    }

    method Apply(r: Record)
      requires Valid() && Loggable(r)
      modifies this
      ensures Valid() && Contents() == Applied(old(Contents()), r)
    {
      hide Merge;
      var cur := FindPoint(r.ts);
      // out of date
      if cur < |markers| && markers[cur].ts >= r.ts {
        return;
      }
      if cur == |markers| && row.Some? && row.value.ts >= r.ts {
        return;
      }
      if !r.Modify? {
        DropFrom(cur);
      }
      match r {
        case Replace(ts, whole) =>
          row := Some(CreateOne(whole, ts));
        case Put(ts, changes) =>
          row := Some(Create(changes, ts));
        case Modify(ts, prevTs, changes) =>
          if cur == |markers| && row.Some? && row.value.ts == prevTs {
            row := Some(Update(row.value, changes, ts));
          } else {
            markers := markers[..cur] + [Marker(ts + 1, prevTs, changes)] + markers[cur..];
          }
      }
      CleanUp();
    }

    /** Where the change belongs: after the markers that are newer. */
    method FindPoint(ts: nat) returns (cur: nat)
      ensures cur == Newer(markers, ts)
    {
      cur := 0;
      while cur < |markers| && markers[cur].ts > ts
        invariant cur <= |markers|
        invariant Newer(markers, ts) == cur + Newer(markers[cur..], ts)
      {
        cur := cur + 1;
      }
    }

    /** Delete everything from position `cur` of the chain on. */
    method DropFrom(cur: nat)
      requires Valid() && cur <= |markers|
      modifies this
      ensures Valid() && markers == old(markers)[..cur] && row == None
    {
      while cur < |markers|
        invariant cur <= |markers| && markers[..cur] == old(markers)[..cur] && Valid()
        decreases |markers|
      {
        markers := markers[..cur] + markers[cur + 1..];
      }
      row := None;
    }

    method CleanUp()
      requires Valid()
      modifies this
      ensures Valid() && Contents() == Merge(old(Contents()))
    {
      while |markers| > 0
        invariant Valid() && Merge(Contents()) == Merge(old(Contents()))
        decreases |markers|
      {
        var last := |markers| - 1;
        if row.Some? && markers[last].prevTs == row.value.ts {
          row := Some(Update(row.value, markers[last].changes, markers[last].ts - 1));
          markers := markers[..last];
        } else {
          break;
        }
      }
    }
  }

  // ----- a key's history

  /** A key's records in timestamp order: the first creates the row, and each modification
      names the record before it. */
  ghost predicate History(h: seq<Record>) {
    && h != [] && !h[0].Modify?
    && (forall i :: 0 <= i < |h| ==> Loggable(h[i]))
    && (forall i, j :: 0 <= i < j < |h| ==> h[i].ts < h[j].ts)
    && (forall i :: 0 < i < |h| && h[i].Modify? ==> h[i].prevTs == h[i - 1].ts)
  }

  /** The row after the records up to `i`, replayed in timestamp order. */
  function InOrder(h: seq<Record>, i: nat): Row
    requires i < |h|
  {
    match h[i]
    case Put(ts, changes) => Create(changes, ts)
    case Replace(ts, whole) => CreateOne(whole, ts)
    case Modify(ts, _, changes) =>
      if i == 0 then Row(ts, map[]) else Update(InOrder(h, i - 1), changes, ts)
  }

  /** Any record that creates the row can come first, and behind the last record any later one that, if it modifies
      the row, names the last. */
  lemma HistoryGrows(h: seq<Record>, r: Record)
    requires h == [] || History(h)
    requires r.ts % 2 == 0 && (h != [] ==> h[|h| - 1].ts < r.ts)
    requires r.Modify? ==> h != [] && r.prevTs == h[|h| - 1].ts
    ensures History(h + [r])
  {
    assert r.Modify? ==> Loggable(h[|h| - 1]);
  }

  // ----- the chain that a set of records leaves, whatever their order

  /** The newest record of `s` below `n` that is not a modification; `|h|` if there is none. */
  function Base(h: seq<Record>, s: set<nat>, n: nat): (b: nat)
    requires n <= |h|
    ensures b == |h| || (b < n && b in s && !h[b].Modify?)
    ensures forall i :: 0 <= i < n && i in s && (b == |h| || b < i) ==> h[i].Modify?
  {
    if n == 0 then |h|
    else if n - 1 in s && !h[n - 1].Modify? then n - 1
    else Base(h, s, n - 1)
  }

  /** The end of the run of records of `s` that follows `t`. */
  function Extend(s: set<nat>, t: nat, n: nat): (e: nat)
    ensures t <= e && (t < n ==> e < n)
    ensures forall i :: t < i <= e ==> i in s
    ensures e + 1 < n ==> e + 1 !in s
    decreases n - t
  {
    if t + 1 < n && t + 1 in s then Extend(s, t + 1, n) else t
  }

  function MarkerOf(r: Record): Marker
    requires r.Modify?
  {
    Marker(r.ts + 1, r.prevTs, r.changes)
  }

  /** Markers for the modifications of `s` between `lo` and `hi`, newest first. */
  function Waiting(h: seq<Record>, s: set<nat>, lo: nat, hi: nat): (m: seq<Marker>)
    requires hi <= |h|
    decreases hi
  {
    if hi <= lo then []
    else (if hi - 1 in s && h[hi - 1].Modify? then [MarkerOf(h[hi - 1])] else []) + Waiting(h, s, lo, hi - 1)
  }

  /** The chain left by the records of `s`: the newest created row with the run of
      modifications after it applied, and a marker for every later modification. */
  function ChainOf(h: seq<Record>, s: set<nat>): Chain
  {
    var b := Base(h, s, |h|);
    if b == |h| then Chain(Waiting(h, s, 0, |h|), None)
    else
      var e := Extend(s, b, |h|);
      Chain(Waiting(h, s, e + 1, |h|), Some(InOrder(h, e)))
  }

  // ----- adding one record to the set

  lemma {:induction false} WaitingSplit(h: seq<Record>, s: set<nat>, lo: nat, k: nat, hi: nat)
    requires lo <= k <= hi <= |h|
    ensures Waiting(h, s, lo, hi) == Waiting(h, s, k, hi) + Waiting(h, s, lo, k)
    decreases hi
  {
    if hi > k {
      WaitingSplit(h, s, lo, k, hi - 1);
    }
  }

  lemma {:induction false} WaitingSame(h: seq<Record>, s: set<nat>, s': set<nat>, lo: nat, hi: nat)
    requires hi <= |h| && forall i :: lo <= i < hi ==> (i in s <==> i in s')
    ensures Waiting(h, s, lo, hi) == Waiting(h, s', lo, hi)
    decreases hi
  {
    if hi > lo {
      WaitingSame(h, s, s', lo, hi - 1);
    }
  }

  /** All markers above `lo` are newer than the records up to `lo`, those below `hi` older. */
  lemma {:induction false} WaitingTimes(h: seq<Record>, s: set<nat>, lo: nat, hi: nat)
    requires History(h) && hi <= |h|
    ensures forall m :: m in Waiting(h, s, lo, hi) ==>
      exists i :: lo <= i < hi && i in s && h[i].Modify? && m == MarkerOf(h[i])
    decreases hi
  {
    if hi > lo {
      WaitingTimes(h, s, lo, hi - 1);
    }
  }

  lemma {:induction false} NewerSkips(a: seq<Marker>, b: seq<Marker>, ts: nat)
    requires forall m :: m in a ==> m.ts > ts
    requires b != [] ==> b[0].ts <= ts
    ensures Newer(a + b, ts) == |a|
  {
    if a == [] {
      assert a + b == b;
    } else {
      NewerSkips(a[1..], b, ts);
      assert (a + b)[1..] == a[1..] + b;
    }
  }

  lemma MarkerTime(h: seq<Record>, i: nat, k: nat)
    requires History(h) && i < |h| && k < |h| && i != k && h[i].Modify?
    ensures if i < k then MarkerOf(h[i]).ts < h[k].ts else MarkerOf(h[i]).ts > h[k].ts
  {
    assert Loggable(h[i]) && Loggable(h[k]);
  }

  /** The place of record `k` among the markers above `lo`. */
  lemma Point(h: seq<Record>, s: set<nat>, lo: nat, k: nat)
    requires History(h) && lo <= k < |h| && k !in s
    ensures
      var above, below := Waiting(h, s, k + 1, |h|), Waiting(h, s, lo, k);
      && Waiting(h, s, lo, |h|) == above + below
      && Newer(above + below, h[k].ts) == |above|
      && (below != [] ==> below[0].ts < h[k].ts)
  {
    var above, below := Waiting(h, s, k + 1, |h|), Waiting(h, s, lo, k);
    WaitingSplit(h, s, lo, k + 1, |h|);
    assert Waiting(h, s, lo, k + 1) == below;
    hide Waiting, Newer;
    WaitingTimes(h, s, k + 1, |h|);
    WaitingTimes(h, s, lo, k);
    hide History;
    forall m | m in above
      ensures m.ts > h[k].ts
    {
      var i :| k + 1 <= i < |h| && i in s && h[i].Modify? && m == MarkerOf(h[i]);
      MarkerTime(h, i, k);
    }
    if below != [] {
      assert below[0] in below;
      var i :| lo <= i < k && i in s && h[i].Modify? && below[0] == MarkerOf(h[i]);
      MarkerTime(h, i, k);
    }
    NewerSkips(above, below, h[k].ts);
  }

  /** Below the newest record that creates the row, a record changes nothing. */
  lemma {:induction false} BaseStable(h: seq<Record>, s: set<nat>, k: nat, n: nat)
    requires n <= |h| && k < |h|
    ensures
      var b := Base(h, s, n);
      Base(h, s + {k}, n) == if k < n && !h[k].Modify? && (b == |h| || b < k) then k else b
    decreases n
  {
    if n > 0 {
      BaseStable(h, s, k, n - 1);
    }
  }

  lemma {:induction false} ExtendSame(s: set<nat>, s': set<nat>, t: nat, n: nat)
    requires forall i :: t < i <= Extend(s, t, n) + 1 && i < n ==> (i in s <==> i in s')
    ensures Extend(s, t, n) == Extend(s', t, n)
    decreases n - t
  {
    if t + 1 < n && t + 1 in s {
      ExtendSame(s, s', t + 1, n);
    }
  }

  lemma InOrderTime(h: seq<Record>, t: nat)
    requires t < |h|
    ensures InOrder(h, t).ts == h[t].ts
  {
  }

  /** Merging stops at a marker that does not follow the row. */
  lemma MergeStops(h: seq<Record>, s: set<nat>, t: nat)
    requires History(h) && t < |h|
    requires t + 1 < |h| ==> t + 1 !in s
    ensures
      var c := Chain(Waiting(h, s, t + 1, |h|), Some(InOrder(h, t)));
      Merge(c) == c
  {
    var w := Waiting(h, s, t + 1, |h|);
    WaitingTimes(h, s, t + 1, |h|);
    InOrderTime(h, t);
    hide Waiting, InOrder;
    if w != [] {
      var last := w[|w| - 1];
      assert last in w;
      var i :| t + 1 <= i < |h| && i in s && h[i].Modify? && last == MarkerOf(h[i]);
      assert last.prevTs == h[i - 1].ts > h[t].ts;
    }
  }

  lemma MergeOne(w: seq<Marker>, last: Marker, row: Row)
    requires last.prevTs == row.ts && last.ts > 0
    ensures Merge(Chain(w + [last], Some(row))) == Merge(Chain(w, Some(Update(row, last.changes, last.ts - 1))))
  {
    assert (w + [last])[..|w|] == w;
  }

  lemma WaitingLast(h: seq<Record>, s: set<nat>, t: nat)
    requires t < |h| && t in s && h[t].Modify?
    ensures Waiting(h, s, t, |h|) == Waiting(h, s, t + 1, |h|) + [MarkerOf(h[t])]
  {
    WaitingSplit(h, s, t, t + 1, |h|);
    assert Waiting(h, s, t, t) == [];
    assert Waiting(h, s, t, t + 1) == [MarkerOf(h[t])];
  }

  /** Merging applies exactly the run of modifications that follows the row. */
  lemma {:induction false} MergeRun(h: seq<Record>, s: set<nat>, t: nat)
    requires History(h) && t < |h| && forall i :: t < i < |h| && i in s ==> h[i].Modify?
    ensures
      var e := Extend(s, t, |h|);
      Merge(Chain(Waiting(h, s, t + 1, |h|), Some(InOrder(h, t)))) == Chain(Waiting(h, s, e + 1, |h|), Some(InOrder(h, e)))
    decreases |h| - t
  {
    hide Waiting, Merge;
    if t + 1 < |h| && t + 1 in s {
      WaitingLast(h, s, t + 1);
      InOrderTime(h, t);
      MergeOne(Waiting(h, s, t + 2, |h|), MarkerOf(h[t + 1]), InOrder(h, t));
      assert InOrder(h, t + 1) == Update(InOrder(h, t), h[t + 1].changes, h[t + 1].ts);
      MergeRun(h, s, t + 1);
    } else {
      MergeStops(h, s, t);
    }
  }

  // ----- the four ways a record is added

  lemma Earlier(h: seq<Record>, i: nat, j: nat)
    requires History(h) && i < j < |h|
    ensures h[i].ts < h[j].ts
    ensures j == i + 1 && h[j].Modify? ==> h[j].prevTs == h[i].ts
    ensures j > i + 1 && h[j].Modify? ==> h[j].prevTs > h[i].ts
  {
    if j > i + 1 {
      assert h[i].ts < h[j - 1].ts;
    }
  }

  lemma InOrderStep(h: seq<Record>, k: nat)
    requires k < |h|
    ensures !h[k].Modify? ==> InOrder(h, k) == NewRow(h[k])
    ensures h[k].Modify? && k > 0 ==> InOrder(h, k) == Update(InOrder(h, k - 1), h[k].changes, h[k].ts)
  {
  }

  lemma WaitingStep(h: seq<Record>, s: set<nat>, lo: nat, k: nat)
    requires lo <= k < |h|
    ensures Waiting(h, s, lo, k + 1) == (if k in s && h[k].Modify? then [MarkerOf(h[k])] else []) + Waiting(h, s, lo, k)
  {
  }

  /** A record older than the newest creating record changes nothing. */
  lemma AddOld(h: seq<Record>, s: set<nat>, k: nat)
    requires History(h) && k < |h| && k !in s
    requires var b := Base(h, s, |h|); b != |h| && k < b
    ensures Applied(ChainOf(h, s), h[k]) == ChainOf(h, s + {k})
  {
    hide Waiting, InOrder, Base, Extend, Merge, Newer, History;
    var b := Base(h, s, |h|);
    var e := Extend(s, b, |h|);
    BaseStable(h, s, k, |h|);
    ExtendSame(s, s + {k}, b, |h|);
    WaitingSame(h, s, s + {k}, e + 1, |h|);
    AllNewer(h, s, k, e + 1);
    InOrderTime(h, e);
    Earlier(h, k, e);
  }

  /** Every marker above `lo` is newer than a record below. */
  lemma AllNewer(h: seq<Record>, s: set<nat>, k: nat, lo: nat)
    requires History(h) && k < lo <= |h|
    ensures Newer(Waiting(h, s, lo, |h|), h[k].ts) == |Waiting(h, s, lo, |h|)|
  {
    hide Waiting, Newer, History;
    var w := Waiting(h, s, lo, |h|);
    WaitingTimes(h, s, lo, |h|);
    forall m | m in w
      ensures m.ts > h[k].ts
    {
      var i :| lo <= i < |h| && i in s && h[i].Modify? && m == MarkerOf(h[i]);
      MarkerTime(h, i, k);
    }
    NewerSkips(w, [], h[k].ts);
    assert w + [] == w;
  }

  /** The markers around record `k`, as `apply` finds them, whether or not there is a row. */
  lemma Found(h: seq<Record>, s: set<nat>, k: nat, lo: nat)
    requires History(h) && k < |h| && k !in s
    requires var b := Base(h, s, |h|); if b == |h| then lo == 0 else b < k && lo == Extend(s, b, |h|) + 1
    ensures lo <= k
    ensures
      var c, above, below := ChainOf(h, s), Waiting(h, s, k + 1, |h|), Waiting(h, s, lo, k);
      && c.markers == above + below && Newer(c.markers, h[k].ts) == |above|
      && (below != [] ==> below[0].ts < h[k].ts)
      && (c.row.Some? ==> c.row.value.ts < h[k].ts)
  {
    hide Waiting, InOrder, Base, Extend, Newer, History;
    var b := Base(h, s, |h|);
    if b != |h| {
      InOrderTime(h, lo - 1);
      Earlier(h, lo - 1, k);
    }
    Point(h, s, lo, k);
  }

  /** `apply` on a chain whose newer markers are `above`. */
  lemma ApplyFound(c: Chain, r: Record, above: seq<Marker>, below: seq<Marker>)
    requires c.markers == above + below && Newer(c.markers, r.ts) == |above|
    requires below != [] ==> below[0].ts < r.ts
    requires c.row.Some? ==> c.row.value.ts < r.ts
    ensures !r.Modify? ==> Applied(c, r) == Merge(Chain(above, Some(NewRow(r))))
    ensures r.Modify? && below == [] && c.row.Some? && c.row.value.ts == r.prevTs ==>
      Applied(c, r) == Merge(Chain(above, Some(Update(c.row.value, r.changes, r.ts))))
    ensures r.Modify? && !(below == [] && c.row.Some? && c.row.value.ts == r.prevTs) ==>
      Applied(c, r) == Merge(Chain(above + ([MarkerOf(r)] + below), c.row))
  {
    hide Newer, Merge;
    assert c.markers[..|above|] == above && c.markers[|above|..] == below;
    if r.Modify? {
      assert above + [MarkerOf(r)] + below == above + ([MarkerOf(r)] + below);
      if below == [] {
        assert c.markers == above;
      }
    }
  }

  lemma ChainOfUnfold(h: seq<Record>, s: set<nat>, b: nat)
    requires b == Base(h, s, |h|) < |h|
    ensures ChainOf(h, s) == Chain(Waiting(h, s, Extend(s, b, |h|) + 1, |h|), Some(InOrder(h, Extend(s, b, |h|))))
  {
  }

  /** The chain of `s`, before merging: the row of record `k` in the run that starts at `b`. */
  lemma Unmerged(h: seq<Record>, s: set<nat>, b: nat, k: nat)
    requires History(h) && b == Base(h, s, |h|) <= k < |h| && Extend(s, b, |h|) == Extend(s, k, |h|)
    ensures Merge(Chain(Waiting(h, s, k + 1, |h|), Some(InOrder(h, k)))) == ChainOf(h, s)
  {
    MergeRun(h, s, k);
    hide Waiting, InOrder, Base, Extend, Merge, ChainOf;
    ChainOfUnfold(h, s, b);
  }

  /** A record that creates the row replaces everything older. */
  lemma AddCreating(h: seq<Record>, s: set<nat>, k: nat, lo: nat)
    requires History(h) && k < |h| && k !in s && !h[k].Modify?
    requires var b := Base(h, s, |h|); if b == |h| then lo == 0 else b < k && lo == Extend(s, b, |h|) + 1
    ensures Applied(ChainOf(h, s), h[k]) == ChainOf(h, s + {k})
  {
    hide Applied, Waiting, InOrder, Base, Extend, Merge, Newer, History, NewRow, ChainOf;
    Found(h, s, k, lo);
    ApplyFound(ChainOf(h, s), h[k], Waiting(h, s, k + 1, |h|), Waiting(h, s, lo, k));
    AddCreatingWaits(h, s, k);
    InOrderStep(h, k);
  }

  lemma AddCreatingWaits(h: seq<Record>, s: set<nat>, k: nat)
    requires History(h) && k < |h| && k !in s && !h[k].Modify?
    requires var b := Base(h, s, |h|); b == |h| || b < k
    ensures Merge(Chain(Waiting(h, s, k + 1, |h|), Some(InOrder(h, k)))) == ChainOf(h, s + {k})
  {
    hide Waiting, InOrder, Extend, Merge, History, ChainOf, Base;
    BaseStable(h, s, k, |h|);
    WaitingSame(h, s, s + {k}, k + 1, |h|);
    Unmerged(h, s + {k}, k, k);
  }

  /** A modification that follows the row is applied to it. */
  lemma AddNextModify(h: seq<Record>, s: set<nat>, k: nat)
    requires History(h) && k < |h| && k !in s && h[k].Modify?
    requires var b := Base(h, s, |h|); b < |h| && k == Extend(s, b, |h|) + 1
    ensures Applied(ChainOf(h, s), h[k]) == ChainOf(h, s + {k})
  {
    var b := Base(h, s, |h|);
    ChainOfUnfold(h, s, b);
    hide Applied, Waiting, InOrder, Base, Extend, Merge, Newer, History, Update, ChainOf;
    Found(h, s, k, k);
    assert Waiting(h, s, k, k) == [] by { WaitingNone(h, s, k); }
    ApplyFound(ChainOf(h, s), h[k], Waiting(h, s, k + 1, |h|), []);
    InOrderTime(h, k - 1);
    InOrderStep(h, k);
    Earlier(h, k - 1, k);
    AddNextWaits(h, s, k, b);
  }

  lemma WaitingNone(h: seq<Record>, s: set<nat>, k: nat)
    requires k <= |h|
    ensures Waiting(h, s, k, k) == []
  {
  }

  lemma AddNextWaits(h: seq<Record>, s: set<nat>, k: nat, b: nat)
    requires History(h) && k < |h| && k !in s && h[k].Modify?
    requires b == Base(h, s, |h|) < |h| && k == Extend(s, b, |h|) + 1
    ensures Merge(Chain(Waiting(h, s, k + 1, |h|), Some(InOrder(h, k)))) == ChainOf(h, s + {k})
  {
    hide Waiting, InOrder, Extend, Merge, History, ChainOf, Base;
    BaseStable(h, s, k, |h|);
    WaitingSame(h, s, s + {k}, k + 1, |h|);
    ExtendPlus(s, b, k, |h|);
    Unmerged(h, s + {k}, b, k);
  }

  lemma ExtendPlus(s: set<nat>, t: nat, k: nat, n: nat)
    requires k == Extend(s, t, n) + 1 < n
    ensures Extend(s + {k}, t, n) == Extend(s + {k}, k, n)
  {
    ExtendThrough(s + {k}, t, k, n);
  }

  lemma {:induction false} ExtendThrough(s: set<nat>, t: nat, k: nat, n: nat)
    requires t <= k < n && forall i :: t < i <= k ==> i in s
    ensures Extend(s, t, n) == Extend(s, k, n)
    decreases k - t
  {
    if t < k {
      ExtendThrough(s, t + 1, k, n);
    }
  }

  lemma MergeNoRow(w: seq<Marker>)
    ensures Merge(Chain(w, None)) == Chain(w, None)
  {
  }

  /** Any other modification waits: there is no row yet. */
  lemma AddFirst(h: seq<Record>, s: set<nat>, k: nat)
    requires History(h) && k < |h| && k !in s && h[k].Modify? && Base(h, s, |h|) == |h|
    ensures Applied(ChainOf(h, s), h[k]) == ChainOf(h, s + {k})
  {
    hide Applied, Merge, Waiting, Base, Extend, Newer, History, Update;
    var above, below := Waiting(h, s, k + 1, |h|), Waiting(h, s, 0, k);
    Found(h, s, k, 0);
    ApplyFound(ChainOf(h, s), h[k], above, below);
    WaitingPlus(h, s, k, 0);
    BaseStable(h, s, k, |h|);
    MergeNoRow(Waiting(h, s + {k}, 0, |h|));
  }

  /** Any other modification waits: the row is older than the record before it. */
  lemma AddWaiting(h: seq<Record>, s: set<nat>, k: nat, lo: nat)
    requires History(h) && k < |h| && k !in s && h[k].Modify?
    requires var b := Base(h, s, |h|); b < k && lo == Extend(s, b, |h|) + 1 && k != lo
    ensures Applied(ChainOf(h, s), h[k]) == ChainOf(h, s + {k})
  {
    ChainOfUnfold(h, s, Base(h, s, |h|));
    hide Applied, Merge, Waiting, InOrder, Base, Extend, Newer, History, Update, ChainOf;
    Found(h, s, k, lo);
    ApplyFound(ChainOf(h, s), h[k], Waiting(h, s, k + 1, |h|), Waiting(h, s, lo, k));
    InOrderTime(h, lo - 1);
    Earlier(h, lo - 1, k);
    AddWaitingWaits(h, s, k, lo);
  }

  lemma AddWaitingWaits(h: seq<Record>, s: set<nat>, k: nat, lo: nat)
    requires History(h) && k < |h| && k !in s && h[k].Modify?
    requires var b := Base(h, s, |h|); b < k && lo == Extend(s, b, |h|) + 1 && k > lo
    ensures
      var w := Waiting(h, s, k + 1, |h|) + ([MarkerOf(h[k])] + Waiting(h, s, lo, k));
      Merge(Chain(w, Some(InOrder(h, lo - 1)))) == ChainOf(h, s + {k})
  {
    hide Merge, Waiting, InOrder, Base, Extend, History, ChainOf;
    var b := Base(h, s, |h|);
    WaitingPlus(h, s, k, lo);
    BaseStable(h, s, k, |h|);
    ExtendElsewhere(s, b, k, |h|);
    ChainOfUnfold(h, s + {k}, b);
    MergeStops(h, s + {k}, lo - 1);
  }

  lemma WaitingPlus(h: seq<Record>, s: set<nat>, k: nat, lo: nat)
    requires lo <= k < |h| && k !in s && h[k].Modify?
    ensures Waiting(h, s + {k}, lo, |h|) == Waiting(h, s, k + 1, |h|) + ([MarkerOf(h[k])] + Waiting(h, s, lo, k))
  {
    WaitingSplit(h, s + {k}, lo, k + 1, |h|);
    WaitingSame(h, s, s + {k}, k + 1, |h|);
    WaitingSame(h, s, s + {k}, lo, k);
    WaitingStep(h, s + {k}, lo, k);
  }

  lemma ExtendElsewhere(s: set<nat>, t: nat, k: nat, n: nat)
    requires t < k < n && k != Extend(s, t, n) + 1 && k !in s
    ensures Extend(s + {k}, t, n) == Extend(s, t, n)
    ensures Extend(s, t, n) + 1 < n ==> Extend(s, t, n) + 1 !in s + {k}
  {
    ExtendSame(s, s + {k}, t, n);
  }

  // ----- the main theorem

  /** The step behind order independence: the chain of a set of records, given one more, is the
      chain of the larger set. */
  lemma AppliedAddsRecord(h: seq<Record>, s: set<nat>, k: nat)
    requires History(h) && k < |h| && k !in s
    ensures Applied(ChainOf(h, s), h[k]) == ChainOf(h, s + {k})
  {
    hide Applied, ChainOf, Base, Extend, History;
    var b := Base(h, s, |h|);
    var lo := if b == |h| then 0 else Extend(s, b, |h|) + 1;
    if b != |h| && k < b {
      AddOld(h, s, k);
    } else if !h[k].Modify? {
      AddCreating(h, s, k, lo);
    } else if b != |h| && k == lo {
      AddNextModify(h, s, k);
    } else if b != |h| {
      AddWaiting(h, s, k, lo);
    } else {
      AddFirst(h, s, k);
    }
  }

  /** Replaying records of `h`; `order` lists their positions in `h`. */
  function ReplayAll(h: seq<Record>, order: seq<nat>): Chain
    requires forall i :: 0 <= i < |order| ==> order[i] < |h|
  {
    if order == [] then Chain([], None)
    else Applied(ReplayAll(h, order[..|order| - 1]), h[order[|order| - 1]])
  }

  function Elements(order: seq<nat>): set<nat> { set i | i in order }

  /** The chain depends only on which records were replayed, not on their order. */
  lemma {:induction false} ReplayDependsOnSetOnly(h: seq<Record>, order: seq<nat>)
    requires History(h) && forall i :: 0 <= i < |order| ==> order[i] < |h|
    requires forall i, j :: 0 <= i < j < |order| ==> order[i] != order[j]
    ensures ReplayAll(h, order) == ChainOf(h, Elements(order))
  {
    if order == [] {
      EmptyChain(h, Elements(order));
    } else {
      hide ChainOf, Applied, History, Elements;
      var init, k := order[..|order| - 1], order[|order| - 1];
      ElementsLast(order);
      ReplayDependsOnSetOnly(h, init);
      AppliedAddsRecord(h, Elements(init), k);
    }
  }

  lemma ElementsLast(order: seq<nat>)
    requires order != [] && forall i, j :: 0 <= i < j < |order| ==> order[i] != order[j]
    ensures
      var init, k := order[..|order| - 1], order[|order| - 1];
      k !in Elements(init) && Elements(order) == Elements(init) + {k}
  {
    assert order == order[..|order| - 1] + [order[|order| - 1]];
  }

  lemma EmptyChain(h: seq<Record>, s: set<nat>)
    requires s == {}
    ensures ChainOf(h, s) == Chain([], None)
  {
    BaseEmpty(h, s, |h|);
    WaitingEmpty(h, s, |h|);
  }

  lemma {:induction false} BaseEmpty(h: seq<Record>, s: set<nat>, n: nat)
    requires s == {} && n <= |h|
    ensures Base(h, s, n) == |h|
  {
    if n > 0 {
      BaseEmpty(h, s, n - 1);
    }
  }

  lemma {:induction false} WaitingEmpty(h: seq<Record>, s: set<nat>, hi: nat)
    requires s == {} && hi <= |h|
    ensures Waiting(h, s, 0, hi) == []
  {
    if hi > 0 {
      WaitingEmpty(h, s, hi - 1);
    }
  }

  lemma LastExtends(h: seq<Record>, s: set<nat>)
    requires h != []
    ensures Extend(s, |h| - 1, |h|) == |h| - 1
    ensures Waiting(h, s, |h|, |h|) == []
  {
  }

  /** Replaying all records of a key, in any order, leaves the row that timestamp order gives
      and no marker. */
  lemma ReplayAnyOrder(h: seq<Record>, order: seq<nat>)
    requires History(h)
    requires forall i :: 0 <= i < |order| ==> order[i] < |h|
    requires forall i, j :: 0 <= i < j < |order| ==> order[i] != order[j]
    requires forall i :: 0 <= i < |h| ==> i in order
    ensures ReplayAll(h, order) == Chain([], Some(InOrder(h, |h| - 1)))
  {
    hide Base, Extend, InOrder, ReplayAll, Waiting;
    var s := Elements(order);
    ReplayDependsOnSetOnly(h, order);
    var b := Base(h, s, |h|);
    assert 0 in s && !h[0].Modify?;
    ExtendThrough(s, b, |h| - 1, |h|);
    LastExtends(h, s);
  }

  // ----- what the replayed row holds, in terms of the records alone

  /** Entry `j` of record `i` writes `v` to column `c`: a replacement writes its one column, other records the
      columns of their change list. */
  predicate Writes(h: seq<Record>, i: nat, j: nat, c: Column, v: Bytes)
    requires i < |h|
  {
    match h[i]
    case Replace(_, whole) => j == 0 && c == 0 && v == whole
    case Put(_, changes) => j < |changes| && changes[j] == (c, v)
    case Modify(_, _, changes) => j < |changes| && changes[j] == (c, v)
  }

  /** The row that record `i` leaves if record `b` creates it. */
  ghost predicate Holds(h: seq<Record>, b: nat, e: nat, c: Column, cols: Columns)
    requires b <= e < |h|
  {
    && (c in cols <==> exists i: nat, j: nat, v :: b <= i <= e && Writes(h, i, j, c, v))
    && (forall i: nat, j: nat, v :: b <= i <= e && LastWrite(h, e, i, j, c, v) ==> c in cols && cols[c] == v)
  }

  /** No entry after entry `j` of record `i`, up to record `e`, writes the column: neither in a later record nor
      later in the same list. */
  ghost predicate LastWrite(h: seq<Record>, e: nat, i: nat, j: nat, c: Column, v: Bytes)
    requires i <= e < |h|
  {
    && Writes(h, i, j, c, v)
    && forall i': nat, j': nat, v' :: i <= i' <= e && Writes(h, i', j', c, v') ==> i' == i && j' <= j
  }

  lemma {:induction false} OverwriteIs(cols: Columns, changes: Changes, c: Column)
    ensures
      var after := Overwrite(cols, changes);
      && (c in after <==> c in cols || exists j :: 0 <= j < |changes| && changes[j].0 == c)
      && ((forall j :: 0 <= j < |changes| ==> changes[j].0 != c) && c in cols ==> after[c] == cols[c])
      && (forall j :: 0 <= j < |changes| && changes[j].0 == c && (forall k :: j < k < |changes| ==> changes[k].0 != c)
            ==> after[c] == changes[j].1)
    decreases |changes|
  {
    if changes != [] {
      var rest := changes[1..];
      OverwriteIs(cols[changes[0].0 := changes[0].1], rest, c);
      assert forall j :: 0 < j < |changes| ==> changes[j] == rest[j - 1];
      assert changes[0].0 == c && c !in cols ==> exists j :: 0 <= j < |changes| && changes[j].0 == c;
    }
  }

  lemma CreatedHolds(h: seq<Record>, b: nat, c: Column)
    requires b < |h| && !h[b].Modify?
    ensures Holds(h, b, b, c, InOrder(h, b).cols)
  {
    var cols := InOrder(h, b).cols;
    if h[b].Put? {
      var changes := h[b].changes;
      OverwriteIs(map[], changes, c);
      forall j | 0 <= j < |changes| && changes[j].0 == c
        ensures Writes(h, b, j, c, changes[j].1)
      {
      }
      forall i: nat, j: nat, v | b <= i <= b && LastWrite(h, b, i, j, c, v)
        ensures c in cols && cols[c] == v
      {
        assert forall k :: j < k < |changes| && changes[k].0 == c ==> Writes(h, b, k, c, changes[k].1);
      }
    } else {
      assert c == 0 ==> Writes(h, b, 0, 0, h[b].whole);
    }
  }

  lemma {:induction false} InOrderHolds(h: seq<Record>, b: nat, e: nat, c: Column)
    requires b <= e < |h| && !h[b].Modify? && forall i :: b < i <= e ==> h[i].Modify?
    ensures Holds(h, b, e, c, InOrder(h, e).cols)
    decreases e
  {
    if e == b {
      CreatedHolds(h, b, c);
    } else {
      InOrderHolds(h, b, e - 1, c);
      ModifiedHolds(h, b, e, c, InOrder(h, e - 1).cols);
    }
  }

  lemma ModifiedHolds(h: seq<Record>, b: nat, e: nat, c: Column, was: Columns)
    requires b < e < |h| && h[e].Modify? && Holds(h, b, e - 1, c, was)
    ensures Holds(h, b, e, c, Overwrite(was, h[e].changes))
  {
    hide Overwrite;
    var changes, cols := h[e].changes, Overwrite(was, h[e].changes);
    OverwriteIs(was, changes, c);
    forall j | 0 <= j < |changes| && changes[j].0 == c
      ensures Writes(h, e, j, c, changes[j].1)
    {
    }
    forall i: nat, j: nat, v | b <= i <= e && LastWrite(h, e, i, j, c, v)
      ensures c in cols && cols[c] == v
    {
      assert forall k :: 0 <= k < |changes| && changes[k].0 == c ==> Writes(h, e, k, c, changes[k].1);
      if i < e {
        assert LastWrite(h, e - 1, i, j, c, v);
      }
    }
  }

  /** Replaying all records of a key, in any order, leaves a row with the newest timestamp whose columns are those
      written since the last record that is no modification, each with its last content. */
  lemma ReplayedRowHolds(h: seq<Record>, order: seq<nat>, b: nat, c: Column)
    requires History(h)
    requires forall i :: 0 <= i < |order| ==> order[i] < |h|
    requires forall i, j :: 0 <= i < j < |order| ==> order[i] != order[j]
    requires forall i :: 0 <= i < |h| ==> i in order
    requires b < |h| && !h[b].Modify? && forall i :: b < i < |h| ==> h[i].Modify?
    ensures
      var z := ReplayAll(h, order);
      && z.markers == [] && z.row.Some? && z.row.value.ts == h[|h| - 1].ts
      && Holds(h, b, |h| - 1, c, z.row.value.cols)
  {
    hide ReplayAll, History, InOrder, Holds;
    assert h != [];
    ReplayAnyOrder(h, order);
    InOrderTime(h, |h| - 1);
    InOrderHolds(h, b, |h| - 1, c);
  }
}
