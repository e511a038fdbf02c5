/** A pointer kept in two words that survives a crash: kvthread_persistent.hh.

  Both words share one cache line, so the stores made in an epoch reach memory in
  program order and a crash keeps some prefix of them; everything stored in earlier
  epochs is kept.  The pointer must then read as it did when the failed epoch began.
  */
module PersistentPointer {

  const EPOCH_LIMIT := 0x1_0000

  /** A 64-bit word cut where the code's masks and shifts cut it: bits 48..63, bits
      40..47, bits 4..39 and bits 0..3. */
  datatype Word = Word(top: nat, mid: nat, low: nat, tag: nat)

  const NULL := Word(0, 0, 0, 0)

  /** `w & 0x0000FFFFFFFFFFF0` */
  function Address(w: Word): Word { w.(top := 0, tag := 0) }

  /** `w & 1` */
  function Parity(w: Word): nat { w.tag % 2 }

  /** Bitwise or. */
  function BitOr(a: nat, b: nat): nat {
    if a == 0 then b
    else if b == 0 then a
    else 2 * BitOr(a / 2, b / 2) + (if a % 2 == 1 || b % 2 == 1 then 1 else 0)
  }

  /** `n >> 48 | ((nl >> 32) & 0xFF00)`: the mask takes bits 40..47 of the log word,
      which hold address bits, and not the upper half of the epoch in bits 48..63. */
  function StampBits(n: Word, nl: Word): nat { BitOr(n.top, 256 * nl.mid) }

  /** `epoch << 48 | (val & 0x0000FFFFFFFFFFF0) | valid` */
  function PointerWord(epoch: nat, val: Word, valid: nat): Word {
    Word(epoch % EPOCH_LIMIT, val.mid, val.low, valid)
  }

  /** `((epoch << 32) & 0xFFFF000000000000) | (val & 0x0000FFFFFFFFFFF0) | valid` */
  function LogWord(epoch: nat, val: Word, valid: nat): Word {
    Word(epoch / EPOCH_LIMIT % EPOCH_LIMIT, val.mid, val.low, valid)
  }

  /** `((epoch << 32) & 0xFFFF000000000000) | (nl & 0x0000FFFFFFFFFFFF)` */
  function RestampedLog(epoch: nat, nl: Word): Word {
    nl.(top := epoch / EPOCH_LIMIT % EPOCH_LIMIT)
  }

  /** `(n & 0xFFFF00000000000F) | (val & 0x0000FFFFFFFFFFF0)` */
  function ReplacedPointer(n: Word, val: Word): Word {
    n.(mid := val.mid, low := val.low)
  }

  // ----- reading and writing

  /** The two persistent words. */
  datatype Words = Words(next: Word, nextLog: Word)

  /** The volatile globals that reading and writing consult. */
  datatype Epochs = Epochs(global: nat, currexec: nat, failed: nat)

  predicate Torn(w: Words) { Parity(w.next) != Parity(w.nextLog) }

  function Stamp(w: Words): nat { StampBits(w.next, w.nextLog) }

  /** The guard of the "written in the failed epoch" branch of `read` and `write`. */
  predicate StampFailed(stamp: nat, ep: Epochs) {
    stamp < ep.currexec && stamp == ep.failed
  }

  function Read(w: Words, ep: Epochs): Word {
    if !Torn(w) && !StampFailed(Stamp(w), ep) then Address(w.next) else Address(w.nextLog)
  }

  /** What memory holds after each store of `write`, in order. */
  function Stores(w: Words, val: Word, ep: Epochs): (s: seq<Words>)
    ensures 1 <= |s| <= 2
  {
    var valid := Parity(w.nextLog);
    if Torn(w) then
      LogThenPointer(w, RestampedLog(ep.global, w.nextLog), PointerWord(ep.global, val, valid))
    else if StampFailed(Stamp(w), ep) then
      LogThenPointer(w, LogWord(ep.global, w.nextLog, 1 - valid), PointerWord(ep.global, val, 1 - valid))
    else if Stamp(w) == ep.global then
      [Words(ReplacedPointer(w.next, val), w.nextLog)]
    else
      LogThenPointer(w, LogWord(ep.global, w.next, 1 - valid), PointerWord(ep.global, val, 1 - valid))
  }

  function LogThenPointer(w: Words, log: Word, ptr: Word): seq<Words> {
    [Words(w.next, log), Words(ptr, log)]
  }

  /** The object itself.  `seen` collects what memory holds after each store. */
  class PPP {
    var next: Word
    var nextLog: Word

    ghost function Contents(): Words
      reads this
    {
      Words(next, nextLog)
    }

    constructor ()
      ensures Contents() == Words(NULL, NULL)
    {
      next, nextLog := NULL, NULL;
    }

    method Load(ep: Epochs) returns (r: Word)
      ensures r == Read(Contents(), ep)
    {
      var n, nl := next, nextLog;
      if Parity(n) == Parity(nl) {
        var epoch := StampBits(n, nl);
        if StampFailed(epoch, ep) {
          return Address(nl);
        }
        return Address(n);
      } else {
        return Address(nl);
      }
    }

    method Store(val: Word, ep: Epochs) returns (ghost seen: seq<Words>)
      modifies this
      ensures seen == Stores(old(Contents()), val, ep)
      ensures Contents() == seen[|seen| - 1]
    {
      var n, nl := next, nextLog;
      if Parity(n) != Parity(nl) {
        var valid := Parity(nl);
        nextLog := RestampedLog(ep.global, nl);
        seen := [Contents()];
        next := PointerWord(ep.global, val, valid);
        seen := seen + [Contents()];
        return;
      }
      var epoch := StampBits(n, nl);
      if StampFailed(epoch, ep) {
        var valid := 1 - Parity(nl);
        nextLog := LogWord(ep.global, nl, valid);
        seen := [Contents()];
        next := PointerWord(ep.global, val, valid);
        seen := seen + [Contents()];
        return;
      }
      if epoch == ep.global {
        next := ReplacedPointer(n, val);
        seen := [Contents()];
        return;
      }
      var valid := 1 - Parity(nl);
      nextLog := LogWord(ep.global, n, valid);
      seen := [Contents()];
      next := PointerWord(ep.global, val, valid);
      seen := seen + [Contents()];
    }
  }

  // ----- when the stamp can be trusted

  lemma {:induction false} BitOrAtLeast(a: nat, b: nat)
    ensures a <= BitOr(a, b)
    decreases a
  {
    if a != 0 && b != 0 {
      BitOrAtLeast(a / 2, b / 2);
    }
  }

  /** A stamp written in epoch `e` decodes to `e` exactly when `e` fits 16 bits and the
      logged address sets no bit among 40..47 that the epoch does not set among 8..15. */
  lemma StampDecodesIff(e: nat, v: Word, log: Word, valid: nat)
    requires log.mid < 256
    ensures StampBits(PointerWord(e, v, valid), LogWord(e, log, valid)) == e
            <==> e < EPOCH_LIMIT && BitOr(e, 256 * log.mid) == e
  {
    if e >= EPOCH_LIMIT {
      assert Pow2(4) == 16 && Pow2(8) == 256 && Pow2(12) == 4096 && Pow2(16) == EPOCH_LIMIT;
      BitOrBelow(e % EPOCH_LIMIT, 256 * log.mid, 16);
    }
  }

  function Pow2(k: nat): nat { if k == 0 then 1 else 2 * Pow2(k - 1) }

  lemma {:induction false} BitOrBelow(a: nat, b: nat, k: nat)
    requires a < Pow2(k) && b < Pow2(k)
    ensures BitOr(a, b) < Pow2(k)
    decreases k
  {
    if a != 0 && b != 0 {
      BitOrBelow(a / 2, b / 2, k - 1);
    }
  }

  lemma {:induction false} BitOrAtLeastRight(a: nat, b: nat)
    ensures b <= BitOr(a, b)
    decreases a
  {
    if a != 0 && b != 0 {
      BitOrAtLeastRight(a / 2, b / 2);
    }
  }

  /** The stamp of epoch `e` over a logged address can be decoded: bits 40..47 of the address are
      among bits 8..15 of the epoch. */
  predicate Decodes(e: nat, logged: Word) { BitOr(e, 256 * logged.mid) == e }

  // ----- bit by bit

  /** Bit `k` of a number. */
  predicate Bit(n: nat, k: nat)
    decreases k
  {
    if k == 0 then n % 2 == 1 else Bit(n / 2, k - 1)
  }

  lemma {:induction false} ZeroBit(k: nat)
    ensures !Bit(0, k)
  {
    if k > 0 {
      ZeroBit(k - 1);
    }
  }

  /** `BitOr` sets the bits that are set on either side. */
  lemma {:induction false} BitOrBits(a: nat, b: nat, k: nat)
    ensures Bit(BitOr(a, b), k) <==> Bit(a, k) || Bit(b, k)
    decreases a
  {
    if a == 0 || b == 0 {
      ZeroBit(k);
    } else if k > 0 {
      BitOrBits(a / 2, b / 2, k - 1);
      assert BitOr(a, b) / 2 == BitOr(a / 2, b / 2);
    }
  }

  lemma {:induction false} BitsDetermine(a: nat, b: nat)
    requires forall k: nat :: Bit(a, k) == Bit(b, k)
    ensures a == b
    decreases a + b
  {
    if a + b > 0 {
      assert Bit(a, 0) == Bit(b, 0);
      forall k: nat
        ensures Bit(a / 2, k) == Bit(b / 2, k)
      {
        assert Bit(a, k + 1) == Bit(b, k + 1);
      }
      BitsDetermine(a / 2, b / 2);
    }
  }

  lemma {:induction false} ByteBits(m: nat, k: nat)
    requires m < Pow2(k)
    ensures forall j: nat :: j >= k ==> !Bit(m, j)
    decreases k
  {
    forall j: nat | j >= k
      ensures !Bit(m, j)
    {
      if k == 0 {
        ZeroBit(j);
      } else {
        ByteBits(m / 2, k - 1);
        assert !Bit(m / 2, j - 1);
      }
    }
  }

  lemma {:induction false} ShiftedBit(m: nat, s: nat, k: nat)
    ensures Bit(Pow2(s) * m, k) <==> k >= s && Bit(m, k - s)
    decreases s
  {
    if s > 0 {
      assert Pow2(s) * m == 2 * (Pow2(s - 1) * m);
      if k > 0 {
        ShiftedBit(m, s - 1, k - 1);
      }
    }
  }

  lemma StampBit(e: nat, m: nat, k: nat)
    requires m < 256
    ensures Bit(BitOr(e, 256 * m), k) <==> Bit(e, k) || (8 <= k < 16 && Bit(m, k - 8))
  {
    hide BitOr, Bit;
    assert Pow2(4) == 16 && Pow2(8) == 256;
    ByteBits(m, 8);
    BitOrBits(e, 256 * m, k);
    ShiftedBit(m, 8, k);
  }

  /** A stamp can be decoded exactly when every bit among 40..47 of the logged address is set among bits 8..15 of the epoch. */
  lemma DecodesIffBits(e: nat, logged: Word)
    requires logged.mid < 256
    ensures Decodes(e, logged) <==> forall k | 0 <= k < 8 :: Bit(logged.mid, k) ==> Bit(e, 8 + k)
  {
    hide BitOr, Bit;
    var m := logged.mid;
    if forall k | 0 <= k < 8 :: Bit(m, k) ==> Bit(e, 8 + k) {
      forall k: nat
        ensures Bit(BitOr(e, 256 * m), k) == Bit(e, k)
      {
        StampBit(e, m, k);
        if 8 <= k < 16 && Bit(m, k - 8) {
          assert Bit(e, 8 + (k - 8));
        }
      }
      BitsDetermine(BitOr(e, 256 * m), e);
    } else {
      var k :| 0 <= k < 8 && Bit(m, k) && !Bit(e, 8 + k);
      StampBit(e, m, 8 + k);
    }
  }

  /** The 64-bit number of a word. */
  function Number(w: Word): nat {
    w.top * 0x1_0000_0000_0000 + w.mid * 0x100_0000_0000 + w.low * 0x10 + w.tag
  }

  predicate Fits(w: Word) { w.top < EPOCH_LIMIT && w.mid < 256 && w.low < 0x10_0000_0000 && w.tag < 16 }

  /** The lower 48 bits of a number, and these without the last four: `& 0x0000FFFFFFFFFFF0`. */
  function Low48(n: nat): nat { n % 0x1_0000_0000_0000 }

  function Masked(n: nat): int { Low48(n) - n % 16 }

  lemma Fields(w: Word)
    requires Fits(w)
    ensures
      var n := Number(w);
      && n / 0x1_0000_0000_0000 == w.top && n / 0x100_0000_0000 % 256 == w.mid && n % 16 == w.tag && n % 2 == w.tag % 2
      && Low48(n) == w.mid * 0x100_0000_0000 + w.low * 0x10 + w.tag
      && Masked(n) == w.mid * 0x100_0000_0000 + w.low * 0x10
  {
    hide BitOr, Low48;
    UpperBits(w);
    LowerBits(w);
  }

  lemma At48(high: nat, low: nat)
    requires low < 0x1_0000_0000_0000
    ensures (high * 0x1_0000_0000_0000 + low) / 0x1_0000_0000_0000 == high && Low48(high * 0x1_0000_0000_0000 + low) == low
  {
  }

  lemma At40(high: nat, low: nat)
    requires low < 0x100_0000_0000
    ensures (high * 0x100_0000_0000 + low) / 0x100_0000_0000 == high
  {
  }

  lemma At8(high: nat, low: nat)
    requires low < 256
    ensures (high * 256 + low) % 256 == low
  {
  }

  lemma At4(high: nat, low: nat)
    requires low < 16
    ensures (high * 16 + low) % 16 == low && (high * 16 + low) % 2 == low % 2
  {
  }

  lemma UpperBits(w: Word)
    requires Fits(w)
    ensures Number(w) / 0x1_0000_0000_0000 == w.top && Number(w) / 0x100_0000_0000 % 256 == w.mid
    ensures Low48(Number(w)) == w.mid * 0x100_0000_0000 + w.low * 0x10 + w.tag
  {
    hide Low48;
    At48(w.top, w.mid * 0x100_0000_0000 + w.low * 0x10 + w.tag);
    At40(w.top * 256 + w.mid, w.low * 0x10 + w.tag);
    At8(w.top, w.mid);
  }

  lemma LowerBits(w: Word)
    requires Fits(w)
    ensures Number(w) % 16 == w.tag && Number(w) % 2 == w.tag % 2
  {
    At4(w.top * 0x1000_0000_0000 + w.mid * 0x10_0000_0000 + w.low, w.tag);
  }

  /** The words as 64-bit numbers, while epochs fit 16 bits: a mask keeps the bits it covers, a shift multiplies or
      divides, and `|` adds where no bit meets another. */
  lemma WordsAreMasked(w: Word, val: Word, epoch: nat, valid: nat)
    requires Fits(w) && Fits(val) && epoch < EPOCH_LIMIT && valid < 2
    ensures Number(Address(val)) == Masked(Number(val))
    ensures Parity(w) == Number(w) % 2
    ensures Number(PointerWord(epoch, val, valid)) == epoch * 0x1_0000_0000_0000 + Masked(Number(val)) + valid
    ensures Number(LogWord(epoch, val, valid)) == Masked(Number(val)) + valid
    ensures Number(RestampedLog(epoch, w)) == Low48(Number(w))
    ensures Number(ReplacedPointer(w, val)) == Number(w) - Masked(Number(w)) + Masked(Number(val))
  {
    hide Masked, Low48, BitOr;
    Fields(w);
    Fields(val);
    assert epoch % EPOCH_LIMIT == epoch && epoch / EPOCH_LIMIT == 0;
  }

  /** `n >> 48 | ((nl >> 32) & 0xFF00)`, bit by bit: bits 48..63 of the one word, and bits 40..47 of the other as bits 8..15. */
  lemma StampIsMasked(n: Word, nl: Word, k: nat)
    requires Fits(n) && Fits(nl)
    ensures Bit(StampBits(n, nl), k) <==> Bit(Number(n) / 0x1_0000_0000_0000, k) || (k >= 8 && Bit(Number(nl) / 0x100_0000_0000 % 256, k - 8))
  {
    hide BitOr, Bit;
    Fields(n);
    Fields(nl);
    assert Pow2(4) == 16 && Pow2(8) == 256;
    BitOrBits(n.top, 256 * nl.mid, k);
    ShiftedBit(nl.mid, 8, k);
  }

  /** The first write since the epoch began: it logs the pointer's value. */
  predicate FirstWrite(w: Words, ep: Epochs) { Torn(w) || Stamp(w) != ep.global }

  function AfterCrash(ep: Epochs): Epochs { Epochs(ep.global + 1, ep.global + 1, ep.global) }

  /** A crash right after the first write of an epoch undoes it if and only if the stamp over the pointer's
      old value can be decoded, or the write changed nothing. */
  lemma CrashUndoesWriteIff(w: Words, ep: Epochs, v: Word)
    requires SaneEpochs(ep) && ep.global + 1 < EPOCH_LIMIT && FirstWrite(w, ep)
    ensures
      var ws := Stores(w, v, ep);
      Read(ws[|ws| - 1], AfterCrash(ep)) == Read(w, ep) <==> Decodes(ep.global, Read(w, ep)) || Address(v) == Read(w, ep)
    ensures
      var ws := Stores(w, v, ep);
      !Decodes(ep.global, Read(w, ep)) ==> Read(ws[|ws| - 1], AfterCrash(ep)) == Address(v)
  {
    BitOrAtLeast(ep.global, 256 * Read(w, ep).mid);
  }

  /** Bits 40..47 of every address in the data region, which is mapped at 2^45 and shorter than 2^40. */
  const DATA_REGION_MID := 32

  /** Over an address of the data region no write of a different address is undone in any epoch below 0x2000. */
  lemma DataRegionWriteSurvives(w: Words, ep: Epochs, v: Word)
    requires SaneEpochs(ep) && ep.global < 0x2000 && FirstWrite(w, ep)
    requires Read(w, ep).mid == DATA_REGION_MID
    ensures
      var ws := Stores(w, v, ep);
      Read(ws[|ws| - 1], AfterCrash(ep)) == Address(v)
  {
    BitOrAtLeastRight(ep.global, 256 * DATA_REGION_MID);
    CrashUndoesWriteIff(w, ep, v);
  }

  /** An address with bit 40 set hides the failed epoch: the pointer written in the
      crashed epoch 1 survives although its old value should come back. */
  lemma HighAddressKeepsFailedWrite()
    ensures
      var oldp, newp := Word(0, 1, 1, 0), Word(0, 0, 2, 0);
      var before := Words(oldp, NULL);
      && Read(before, Epochs(1, 0, 0)) == oldp
      && exists w | w in Stores(before, newp, Epochs(1, 0, 0)) :: Read(w, Epochs(2, 2, 1)) == newp
  {
    var before := Words(Word(0, 1, 1, 0), NULL);
    var after := Stores(before, Word(0, 0, 2, 0), Epochs(1, 0, 0));
    assert BitOr(1, 256) == 2 * BitOr(0, 128) + 1;
    assert after[1] in after;
  }

  // ----- runs with checkpoints and crashes

  /** Values the pointer may hold: 16-byte aligned and below 2^48. */
  predicate Pointer(v: Word) { v.top == v.tag == 0 && v.mid < 256 }

  /** A write that logs the pointer's value can do so under the running epoch. */
  predicate LogsDecodably(w: Words, ep: Epochs) { FirstWrite(w, ep) ==> Decodes(ep.global, Read(w, ep)) }

  /** `trail` lists what memory held since the last checkpoint, oldest first. */
  datatype Machine = Machine(trail: seq<Words>, ep: Epochs)

  datatype Event =
    | Write(val: Word)
    | Checkpoint(epoch: nat)
    | Crash(kept: nat)

  function Current(m: Machine): Words
    requires m.trail != []
  {
    m.trail[|m.trail| - 1]
  }

  predicate Enabled(m: Machine, e: Event)
    requires m.trail != []
  {
    match e
    case Write(v) => Pointer(v) && LogsDecodably(Current(m), m.ep)
    case Checkpoint(epoch) => m.ep.global < epoch < EPOCH_LIMIT
    case Crash(k) => k < |m.trail| && m.ep.global + 1 < EPOCH_LIMIT
  }

  function Step(m: Machine, e: Event): (m': Machine)
    requires m.trail != [] && Enabled(m, e)
    ensures m'.trail != []
  {
    match e
    case Write(v) => m.(trail := m.trail + Stores(Current(m), v, m.ep))
    case Checkpoint(epoch) => Machine([Current(m)], m.ep.(global := epoch))
    case Crash(k) => Machine([m.trail[k]], AfterCrash(m.ep))
  }

  /** What the pointer stands for: a variable whose value at the last checkpoint comes
      back after a crash. */
  datatype Meaning = Meaning(start: Word, now: Word)

  function MeaningAfter(s: Meaning, e: Event): Meaning {
    match e
    case Write(v) => s.(now := v)
    case Checkpoint(_) => s.(start := s.now)
    case Crash(_) => s.(now := s.start)
  }

  /** The four shapes the words can have during an epoch. */
  predicate Represents(w: Words, ep: Epochs, s: Meaning) {
    if Torn(w) || StampFailed(Stamp(w), ep) then Address(w.nextLog) == s.start == s.now
    else if Stamp(w) == ep.global then Address(w.next) == s.now && Address(w.nextLog) == s.start
    else Stamp(w) < ep.global && Address(w.next) == s.start == s.now
  }

  predicate SaneEpochs(ep: Epochs) {
    ep.failed < ep.global < EPOCH_LIMIT && ep.currexec <= ep.global
  }

  lemma WriteRepresents(w: Words, ep: Epochs, s: Meaning, v: Word)
    requires SaneEpochs(ep) && Represents(w, ep, s) && Pointer(v) && LogsDecodably(w, ep)
    ensures
      var ws := Stores(w, v, ep);
      && Represents(ws[|ws| - 1], ep, s.(now := v))
      && (|ws| == 2 ==> Represents(ws[0], ep, s.(now := s.start)))
  {
  }

  /** The words still carry the stamp of the previous failed epoch: nothing has been
      written since that crash. */
  predicate Unrepaired(w: Words, ep: Epochs) { !Torn(w) && StampFailed(Stamp(w), ep) }

  /** A crash in epoch `ep.global` keeping `w` gives back the value at the epoch's start
      if and only if `w` was repaired since the previous crash (or never needed it). */
  lemma CrashReadsStartIff(w: Words, ep: Epochs, s: Meaning)
    requires SaneEpochs(ep) && Represents(w, ep, s)
    ensures
      Read(w, AfterCrash(ep)) == s.start <==> !Unrepaired(w, ep) || Address(w.next) == Address(w.nextLog)
  {
  }

  /** Every word pair a crash could leave stands for the value at the checkpoint. */
  ghost predicate Inv(m: Machine, s: Meaning) {
    && m.trail != []
    && SaneEpochs(m.ep)
    && Pointer(s.now) && Pointer(s.start)
    && Represents(Current(m), m.ep, s)
    && forall k :: 0 <= k < |m.trail| ==> RepresentsSome(m.trail[k], m.ep, s.start)
  }

  ghost predicate RepresentsSome(w: Words, ep: Epochs, start: Word) {
    exists now :: Represents(w, ep, Meaning(start, now))
  }

  lemma StepKeepsInv(m: Machine, s: Meaning, e: Event)
    requires Inv(m, s) && Enabled(m, e)
    requires e.Crash? ==> !Unrepaired(m.trail[e.kept], m.ep)
    ensures Inv(Step(m, e), MeaningAfter(s, e))
  {
  }

  /** The condition on writes is exact: a first write of another value over an address that cannot be
      decoded, and a crash right after it, and the pointer does not read as it did at the checkpoint. */
  lemma UndecodableWriteIsNotUndone(m: Machine, s: Meaning, v: Word)
    requires Inv(m, s) && Pointer(v) && v != s.now && m.ep.global + 1 < EPOCH_LIMIT && !LogsDecodably(Current(m), m.ep)
    ensures
      var ws := Stores(Current(m), v, m.ep);
      Read(ws[|ws| - 1], AfterCrash(m.ep)) == v != s.start
  {
    CrashUndoesWriteIff(Current(m), m.ep, v);
  }

  /** A run is allowed when every event is enabled (writes log addresses that can be decoded) and no crash strikes while the words
      it keeps are still unrepaired from the crash before. */
  predicate Allowed(m: Machine, es: seq<Event>)
    requires m.trail != []
    decreases |es|
  {
    es != [] ==>
      && Enabled(m, es[0])
      && (es[0].Crash? ==> !Unrepaired(m.trail[es[0].kept], m.ep))
      && Allowed(Step(m, es[0]), es[1..])
  }

  function Run(m: Machine, es: seq<Event>): (m': Machine)
    requires m.trail != [] && Allowed(m, es)
    ensures m'.trail != []
    decreases |es|
  {
    if es == [] then m else Run(Step(m, es[0]), es[1..])
  }

  function MeaningOf(s: Meaning, es: seq<Event>): Meaning
    decreases |es|
  {
    if es == [] then s else MeaningOf(MeaningAfter(s, es[0]), es[1..])
  }

  lemma {:induction false} RunKeepsInv(m: Machine, s: Meaning, es: seq<Event>)
    requires Inv(m, s) && Allowed(m, es)
    ensures Inv(Run(m, es), MeaningOf(s, es))
    decreases |es|
  {
    if es != [] {
      StepKeepsInv(m, s, es[0]);
      RunKeepsInv(Step(m, es[0]), MeaningAfter(s, es[0]), es[1..]);
    }
  }

  /** The main result: over every run from a fresh pointer, with writes cut anywhere by
      crashes, reading gives the value of a variable that each crash rolls back. */
  lemma RunReadsMeaning(es: seq<Event>)
    requires Allowed(Fresh(), es)
    ensures
      var m := Run(Fresh(), es);
      Read(Current(m), m.ep) == MeaningOf(Meaning(NULL, NULL), es).now
  {
    RunKeepsInv(Fresh(), Meaning(NULL, NULL), es);
  }

  function Fresh(): (m: Machine)
    ensures m.trail != []
  {
    Machine([Words(NULL, NULL)], Epochs(1, 0, 0))
  }

  /** Only one failed epoch is remembered: a second crash before the first repairing
      write brings the pointer written in the first crashed epoch back to life. */
  lemma SecondCrashRevivesFailedWrite(v: Word)
    requires Pointer(v) && v != NULL
    ensures
      var es := [Write(v), Crash(2)];
      && Allowed(Fresh(), es)
      && var m := Run(Fresh(), es);
      && Unrepaired(Current(m), m.ep)
      && Read(Current(m), m.ep) == NULL
      && Enabled(m, Crash(0))
      && var m' := Step(m, Crash(0));
      && Read(Current(m'), m'.ep) == v
  {
    var m1 := Step(Fresh(), Write(v));
    assert m1.trail == [Words(NULL, NULL)] + Stores(Words(NULL, NULL), v, Epochs(1, 0, 0));
    var m2 := Step(m1, Crash(2));
    assert [Write(v), Crash(2)][1..] == [Crash(2)];
    assert [Crash(2)][1..] == [];
    assert Allowed(m2, []) && Allowed(m1, [Crash(2)]);
    assert Run(m1, [Crash(2)]) == Run(m2, []) == m2;
  }
}
