/** The leaf as the object the tree updates in place, and the external log.  Every method is
  proved to make exactly the stores, in the order, and the log entries of the specification
  in LeafRecovery. */
module LeafNode {
  import opened LeafRecovery

  /** One thread's external log: incll_pextlog.hh, `record`, with room for every entry. */
  class NodeLog {
    var images: seq<LeafState>

    constructor ()
      ensures images == []
    {
      images := [];
    }
  }

  lemma AfterSnoc(s: LeafState, es: seq<Event>, e: Event)
    ensures After(s, es + [e]) == Apply(After(s, es), e)
  {
    assert (es + [e])[..|es|] == es;
  }

  lemma After2(s: LeafState, a: Event, b: Event)
    ensures After(s, [a, b]) == Apply(Apply(s, a), b)
  {
    AfterSnoc(s, [], a);
    AfterSnoc(s, [a], b);
    assert [] + [a] == [a] && [a] + [b] == [a, b];
  }

  class Leaf {
    var loggedepoch: nat
    var cl0idx: nat
    var notlogged: bool
    var permutation: Perm
    var permcl0: Perm
    const ikey0: array<Key>
    const lv: array<Value>
    var lvcl1: Slot
    var lvcl2: Slot

    function State(): LeafState
      reads this, ikey0, lv
    {
      LeafState(loggedepoch, cl0idx, notlogged, permutation, permcl0, ikey0[..], lv[..], lvcl1, lvcl2)
    }

    ghost predicate Separate() {
      ikey0 != lv && ikey0.Length == lv.Length == WIDTH
    }

    method InvalidateCls()
      modifies this
      ensures State() == After(old(State()), InvalidateSlots(old(State())))
    {
      ghost var s, es := State(), InvalidateSlots(State());
      cl0idx := INVALID;
      lvcl1 := lvcl1.(idx := INVALID);
      lvcl2 := lvcl2.(idx := INVALID);
      After2(s, es[0], es[1]);
      AfterSnoc(s, [es[0], es[1]], es[2]);
      assert [es[0], es[1]] + [es[2]] == es;
    }

    /** The two epochs kept in the slots. */
    method UpdateSlotEpochs(e: nat)
      modifies this
      ensures State() == After(old(State()), StampSlots(old(lvcl1), old(lvcl2), e))
    {
      ghost var s, es := State(), StampSlots(lvcl1, lvcl2, e);
      lvcl1 := lvcl1.(epoch := e % SLOT_EPOCHS);
      lvcl2 := lvcl2.(epoch := e % SLOT_EPOCHS);
      After2(s, es[0], es[1]);
    }

    method Record(log: NodeLog)
      modifies this, log
      ensures log.images == old(log.images) + Image(old(State()), RecordImage)
      ensures State() == After(old(State()), RecordImage)
    {
      ghost var s := State();
      notlogged := false;
      log.images := log.images + [State()];
      After2(s, RecordImage[0], RecordImage[1]);
      assert RecordImage[..1] == [RecordImage[0]] && [] + [RecordImage[0]] == [RecordImage[0]];
      AfterSnoc(s, [], RecordImage[0]);
    }

    /** `save_cl0_insert` */
    method SaveCl0Insert(ge: nat, log: NodeLog)
      modifies this, log
      ensures State() == After(old(State()), SaveInsert(old(State()), ge))
      ensures log.images == old(log.images) + Image(old(State()), SaveInsert(old(State()), ge))
    {
      ghost var s := State();
      if loggedepoch != ge {
        ghost var head := [Mem(SetPermCl0(s.perm)), Mem(SetCl0Idx(0)), Mem(SetLoggedEpoch(ge))];
        permcl0 := permutation;
        cl0idx := 0;
        loggedepoch := ge;
        After2(s, head[0], head[1]);
        AfterSnoc(s, [head[0], head[1]], head[2]);
        assert [head[0], head[1]] + [head[2]] == head;
        UpdateSlotEpochs(ge);
        AfterConcat(s, head, StampSlots(s.cl1, s.cl2, ge));
        notlogged := true;
        AfterSnoc(s, head + StampSlots(s.cl1, s.cl2, ge), Mem(SetNotLogged(true)));
        ImageQuiet(s, SaveInsert(s, ge));
      } else if notlogged {
        RecordAndInvalidate(log);
      }
    }

    /** The branch shared by the two slot prologues. */
    method RecordAndInvalidate(log: NodeLog)
      modifies this, log
      ensures State() == After(old(State()), RecordImage + InvalidateSlots(old(State())))
      ensures log.images == old(log.images) + Image(old(State()), RecordImage + InvalidateSlots(old(State())))
    {
      ghost var s := State();
      Record(log);
      ghost var s1 := State();
      After2(s, RecordImage[0], RecordImage[1]);
      InvalidateCls();
      AfterConcat(s, RecordImage, InvalidateSlots(s));
      ImageThenQuiet(s, RecordImage, InvalidateSlots(s));
    }

    /** `save_cl1_2_update` */
    method SaveCl12Update(p: nat, ge: nat, log: NodeLog)
      requires Separate() && p < WIDTH
      modifies this, log
      ensures State() == After(old(State()), SaveUpdate(old(State()), p, ge))
      ensures log.images == old(log.images) + Image(old(State()), SaveUpdate(old(State()), p, ge))
    {
      ghost var s := State();
      if loggedepoch != ge {
        ghost var head;
        if p < KEY_MID {
          lvcl1 := Slot(p, lv[p], ge % SLOT_EPOCHS);
          head := [Mem(SetCl1(lvcl1)), Mem(SetLoggedEpoch(ge))];
        } else {
          lvcl2 := Slot(p - KEY_MID, lv[p], ge % SLOT_EPOCHS);
          head := [Mem(SetCl2(lvcl2)), Mem(SetLoggedEpoch(ge))];
        }
        loggedepoch := ge;
        After2(s, head[0], head[1]);
        ghost var stamp := StampSlots(lvcl1, lvcl2, ge);
        UpdateSlotEpochs(ge);
        AfterConcat(s, head, stamp);
        notlogged := true;
        AfterSnoc(s, head + stamp, Mem(SetNotLogged(true)));
        ImageQuiet(s, SaveUpdate(s, p, ge));
      } else if notlogged {
        RecordAndInvalidate(log);
      }
    }

    /** `record_node` */
    method RecordNode(ge: nat, log: NodeLog)
      modifies this, log
      ensures State() == After(old(State()), SaveWhole(old(State()), ge))
      ensures log.images == old(log.images) + Image(old(State()), SaveWhole(old(State()), ge))
    {
      ghost var s := State();
      if loggedepoch != ge || notlogged {
        Record(log);
        After2(s, RecordImage[0], RecordImage[1]);
        ghost var epoch := [Mem(SetLoggedEpoch(ge))];
        loggedepoch := ge;
        AfterSnoc(s, RecordImage, epoch[0]);
        InvalidateCls();
        AfterConcat(s, RecordImage + epoch, InvalidateSlots(s));
        ImageThenQuiet(s, RecordImage, epoch + InvalidateSlots(s));
        assert RecordImage + (epoch + InvalidateSlots(s)) == RecordImage + epoch + InvalidateSlots(s);
      }
    }

    /** `find_insert`, then `assign` and `finish_insert`, for a new key at rank `i`. */
    method InsertKey(i: nat, key: Key, v: Value, ge: nat, log: NodeLog)
      requires Separate() && Enabled(State(), Insert(i, key, v))
      modifies this, ikey0, lv, log
      ensures State() == After(old(State()), OpEvents(old(State()), Insert(i, key, v), ge))
      ensures
        var n, p := old(permutation).size, old(permutation).order[WIDTH - 1];
        && permutation.size == n + 1
        && permutation.order[..n + 1] == old(permutation).order[..i] + [p] + old(permutation).order[i..n]
        && ikey0[..] == old(ikey0[..])[p := key] && lv[..] == old(lv[..])[p := v]
      ensures log.images == old(log.images) + Image(old(State()), OpEvents(old(State()), Insert(i, key, v), ge))
    {
      ghost var s, op := State(), Insert(i, key, v);
      SaveCl0Insert(ge, log);
      PrologueKeepsData(s, op, ge);
      ghost var s1 := State();
      AssignAndFinish(i, key, v);
      assert Body(s1, op) == Body(s, op);
      AfterConcat(s, SaveInsert(s, ge), Body(s, op));
      ImageThenQuiet(s, SaveInsert(s, ge), Body(s, op));
      InsertLeaves(s, op, ge);
    }

    method AssignAndFinish(i: nat, key: Key, v: Value)
      requires Separate() && ValidPerm(permutation) && i < WIDTH
      modifies this, ikey0, lv
      ensures State() == After(old(State()), Body(old(State()), Insert(i, key, v)))
    {
      ghost var s, body := State(), Body(State(), Insert(i, key, v));
      var p := permutation.order[WIDTH - 1];
      lv[p] := 0;
      ikey0[p] := key;
      After2(s, body[0], body[1]);
      lv[p] := v;
      permutation := InsertFromBack(permutation, i);
      AfterSnoc(s, [body[0], body[1]], body[2]);
      AfterSnoc(s, [body[0], body[1], body[2]], body[3]);
      assert [body[0], body[1]] + [body[2]] == [body[0], body[1], body[2]];
      assert [body[0], body[1], body[2]] + [body[3]] == body;
    }

    /** `find_insert` on a present key, then the store of the new value. */
    method UpdateValue(p: nat, v: Value, ge: nat, log: NodeLog)
      requires Separate() && Enabled(State(), Update(p, v))
      modifies this, lv, log
      ensures State() == After(old(State()), OpEvents(old(State()), Update(p, v), ge))
      ensures permutation == old(permutation) && ikey0[..] == old(ikey0[..]) && lv[..] == old(lv[..])[p := v]
      ensures log.images == old(log.images) + Image(old(State()), OpEvents(old(State()), Update(p, v), ge))
    {
      ghost var s, op := State(), Update(p, v);
      SaveCl12Update(p, ge, log);
      PrologueKeepsData(s, op, ge);
      ghost var pro, s1, body := SaveUpdate(s, p, ge), State(), Body(s, op);
      lv[p] := v;
      AfterSnoc(s1, [], body[0]);
      assert [] + [body[0]] == body;
      AfterConcat(s, pro, body);
      ImageThenQuiet(s, pro, body);
      UpdateLeaves(s, op, ge);
    }

    /** `lazy_recovery` */
    method LazyRecovery(fe: nat, ge: nat)
      requires Separate() && fe < ge
      modifies this, lv
      ensures State() == Undo(old(State()), fe, ge)
    {
      if loggedepoch <= fe {
        UndoIncll(fe, ge);
      }
    }

    /** `undo_incll` */
    method UndoIncll(fe: nat, ge: nat)
      requires Separate() && ge > 0
      modifies this, lv
      ensures State() == UndoSlots(old(State()), fe, ge)
    {
      if loggedepoch == fe && cl0idx != INVALID {
        permutation := permcl0;
        RecoverFinal(ge);
        return;
      }
      if lvcl1.epoch == fe && lvcl1.idx != INVALID {
        if lvcl1.idx < lv.Length {
          lv[lvcl1.idx] := lvcl1.lv;
        }
        RecoverFinal(ge);
        return;
      }
      if lvcl2.epoch == fe && lvcl2.idx != INVALID {
        if lvcl2.idx + KEY_MID < lv.Length {
          lv[lvcl2.idx + KEY_MID] := lvcl2.lv;
        }
        RecoverFinal(ge);
        return;
      }
    }

    method RecoverFinal(ge: nat)
      requires ge > 0
      modifies this
      ensures State() == Finish(old(State()), ge)
    {
      cl0idx := INVALID;
      lvcl1 := lvcl1.(idx := INVALID);
      lvcl2 := lvcl2.(idx := INVALID);
      loggedepoch := ge - 1;
      lvcl1 := lvcl1.(epoch := (ge - 1) % SLOT_EPOCHS);
      lvcl2 := lvcl2.(epoch := (ge - 1) % SLOT_EPOCHS);
    }
  }

  lemma {:induction false} ImageThenQuiet(s: LeafState, es: seq<Event>, quiet: seq<Event>)
    requires Quiet(quiet)
    ensures Image(s, es + quiet) == Image(s, es)
    decreases |quiet|
  {
    if quiet == [] {
      assert es + quiet == es;
    } else {
      var all, q := es + quiet, quiet[..|quiet| - 1];
      assert all[..|all| - 1] == es + q;
      assert all[|all| - 1] in quiet;
      ImageThenQuiet(s, es, q);
    }
  }
}
