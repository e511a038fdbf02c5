/** A permutation of up to 15 slots and its size, packed into one 64-bit word: the lowest four
  bits are the size, the next ones element 0, and so on.
  Source: kpermuter.hh. */
module Permuter {
  type Word = bv64
  /** Positions and sizes, small enough to be shifted by two. */
  type Index = bv6

  predicate Width(width: Index) { 0 < width <= 15 }

  /** `operator[]`. */
  function Nib(x: Word, i: Index): Word
    requires i < 15
  {
    (x >> ((i << 2) + 4)) & 15
  }

  function Size(x: Word): (n: Index)
    ensures n <= 15
  {
    (x & 15) as Index
  }

  /** The nibbles of positions `lo` to `hi`, all bits set. */
  function Mask(lo: Index, hi: Index): Word
    requires lo <= hi < 15
  {
    ((16 << ((hi - lo) << 2)) - 1) << ((lo + 1) << 2)
  }

  /** All elements `s` places up. */
  function Up(x: Word, s: Index): Word
    requires s < 15
  {
    x << (s << 2)
  }

  function Down(x: Word): Word { x >> 4 }

  /** Element `i` in place of element 0, nothing else. */
  function Taken(x: Word, i: Index): Word
    requires i < 15
  {
    (x >> (i << 2)) & 240
  }

  // ----- single nibbles of simple words

  lemma NibDec(x: Word, k: Index)
    requires k < 15 && x & 15 != 0
    ensures Nib(x - 1, k) == Nib(x, k) && (x - 1) & 15 == (x & 15) - 1
  {
  }

  // ----- the operations on the word

  const INITIAL_VALUE: Word := 0x0123_4567_89AB_CDE0
  const FULL_VALUE: Word := 0xEDCB_A987_6543_2100

  function MakeEmpty(width: Index): Word
    requires Width(width)
  {
    (INITIAL_VALUE >> ((15 - width) << 2)) & !15
  }

  function MakeSorted(width: Index, n: Index): Word
    requires Width(width) && n <= width
  {
    var mask: Word := (if n == width then 0 else 16 << (n << 2)) - 1;
    (MakeEmpty(width) << (n << 2)) | (FULL_VALUE & mask) | (n as Word)
  }

  function Inserted(x: Word, i: Index, width: Index): Word
    requires Width(width) && i < width
  {
    ((x + 1) & ((16 << (i << 2)) - 1)) | (Nib(x, width - 1) << ((i << 2) + 4)) | ((x << 4) & !((256 << (i << 2)) - 1))
  }

  /** Decrements the size and leaves the elements outside the rotated ones unchanged. */
  function Unrotated(x: Word, i: Index, n: Index): Word
    requires i < n <= 15
  {
    (x - 1) & !Mask(i, n - 1)
  }

  /** The elements behind `i`, one place down. */
  function ShiftedDown(x: Word, i: Index, n: Index): Word
    requires i < n <= 15
  {
    Down(x & Mask(i, n - 1)) & Mask(i, n - 1)
  }

  /** Element `i` in the last of the rotated places. */
  function ShiftedUp(x: Word, i: Index, n: Index): Word
    requires i < n <= 15
  {
    Up(x & Mask(i, n - 1), n - 1 - i) & Mask(i, n - 1)
  }

  function RemovedAt(x: Word, i: Index, n: Index): Word
    requires i < n <= 15
  {
    Unrotated(x, i, n) | ShiftedDown(x, i, n) | ShiftedUp(x, i, n)
  }

  function Removed(x: Word, i: Index): Word
    requires i < Size(x)
  {
    if Size(x) == i + 1 then x - 1 else RemovedAt(x, i, Size(x))
  }

  function RemovedToBack(x0: Word, i: Index, width: Index): Word
    requires Width(width) && i < width
  {
    var mask: Word := !((16 << (i << 2)) - 1);
    var x := x0 & ((16 << (width << 2)) - 1);
    ((x - 1) & !mask) | ((x >> 4) & mask) | ((x & mask) << ((width - i - 1) << 2))
  }

  function ExchangedBy(x: Word, diff: Word, i: Index, j: Index): Word
    requires i < 15 && j < 15
  {
    x ^ (Up(diff, i) | Up(diff, j))
  }

  function Exchanged(x: Word, i: Index, j: Index): Word
    requires i < 15 && j < 15
  {
    ExchangedBy(x, Taken(x, i) ^ Taken(x, j), i, j)
  }

  // ----- where each element goes

  lemma MadeSorted(width: Index, n: Index, k: Index)
    requires Width(width) && n <= width && k < width
    ensures Nib(MakeSorted(width, n), k) == if k < n then k as Word else (width - 1 - (k - n)) as Word
    ensures MakeSorted(width, n) & 15 == n as Word
  {
  }

  lemma InsertedBefore(x: Word, i: Index, width: Index, k: Index)
    requires Width(width) && i < width && k < i && x & 15 < width as Word
    ensures Nib(Inserted(x, i, width), k) == Nib(x, k)
  {
  }

  lemma InsertedAt(x: Word, i: Index, width: Index)
    requires Width(width) && i < width
    ensures Nib(Inserted(x, i, width), i) == Nib(x, width - 1)
  {
  }

  lemma InsertedAfter(x: Word, i: Index, width: Index, k: Index)
    requires Width(width) && i < k < width
    ensures Nib(Inserted(x, i, width), k) == Nib(x, k - 1)
  {
  }

  lemma InsertedSize(x: Word, i: Index, width: Index)
    requires Width(width) && i < width && x & 15 < width as Word
    ensures Inserted(x, i, width) & 15 == (x & 15) + 1
  {
  }

  /** `insert_from_back`: the last element goes to `i`, those from `i` on move up. */
  lemma InsertedNib(x: Word, i: Index, width: Index, k: Index)
    requires Width(width) && i < width && k < width && x & 15 < width as Word
    ensures Nib(Inserted(x, i, width), k) == if k < i then Nib(x, k) else if k == i then Nib(x, width - 1) else Nib(x, k - 1)
    ensures Inserted(x, i, width) & 15 == (x & 15) + 1
  {
    hide Nib, Inserted;
    InsertedSize(x, i, width);
    if k < i {
      InsertedBefore(x, i, width, k);
    } else if k == i {
      InsertedAt(x, i, width);
    } else {
      InsertedAfter(x, i, width, k);
    }
  }

  lemma RemovedSize(x: Word, i: Index)
    requires i < Size(x)
    ensures Removed(x, i) & 15 == (x & 15) - 1
  {
  }

  lemma KeptPart(x: Word, i: Index, n: Index, k: Index)
    requires i < n <= 15 && k < 15 && x & 15 != 0
    ensures Nib(Unrotated(x, i, n), k) == if i <= k < n then 0 else Nib(x, k)
  {
  }

  lemma DownPart(x: Word, i: Index, n: Index, k: Index)
    requires i < n <= 15 && k < 15
    ensures Nib(ShiftedDown(x, i, n), k) == if i <= k < n - 1 then Nib(x, k + 1) else 0
  {
  }

  lemma UpPartLast(x: Word, i: Index, n: Index)
    requires i < n <= 15
    ensures Nib(ShiftedUp(x, i, n), n - 1) == Nib(x, i)
  {
  }

  lemma UpPartElse(x: Word, i: Index, n: Index, k: Index)
    requires i < n <= 15 && k < 15 && k != n - 1
    ensures Nib(ShiftedUp(x, i, n), k) == 0
  {
  }

  lemma OnlyFirst(a: Word, b: Word, c: Word, k: Index)
    requires k < 15 && Nib(b, k) == 0 && Nib(c, k) == 0
    ensures Nib(a | b | c, k) == Nib(a, k)
  {
  }

  lemma OnlySecond(a: Word, b: Word, c: Word, k: Index)
    requires k < 15 && Nib(a, k) == 0 && Nib(c, k) == 0
    ensures Nib(a | b | c, k) == Nib(b, k)
  {
  }

  lemma OnlyThird(a: Word, b: Word, c: Word, k: Index)
    requires k < 15 && Nib(a, k) == 0 && Nib(b, k) == 0
    ensures Nib(a | b | c, k) == Nib(c, k)
  {
  }

  lemma RemovedAtOutside(x: Word, i: Index, n: Index, k: Index)
    requires i < n <= 15 && k < 15 && x & 15 != 0 && (k < i || k >= n)
    ensures Nib(RemovedAt(x, i, n), k) == Nib(x, k)
  {
    hide Nib, Unrotated, ShiftedDown, ShiftedUp;
    KeptPart(x, i, n, k);
    DownPart(x, i, n, k);
    UpPartElse(x, i, n, k);
    OnlyFirst(Unrotated(x, i, n), ShiftedDown(x, i, n), ShiftedUp(x, i, n), k);
  }

  lemma RemovedAtInside(x: Word, i: Index, n: Index, k: Index)
    requires i < n <= 15 && x & 15 != 0 && i <= k < n - 1
    ensures Nib(RemovedAt(x, i, n), k) == Nib(x, k + 1)
  {
    hide Nib, Unrotated, ShiftedDown, ShiftedUp;
    KeptPart(x, i, n, k);
    DownPart(x, i, n, k);
    UpPartElse(x, i, n, k);
    OnlySecond(Unrotated(x, i, n), ShiftedDown(x, i, n), ShiftedUp(x, i, n), k);
  }

  lemma RemovedAtLast(x: Word, i: Index, n: Index)
    requires i < n <= 15 && x & 15 != 0
    ensures Nib(RemovedAt(x, i, n), n - 1) == Nib(x, i)
  {
    hide Nib, Unrotated, ShiftedDown, ShiftedUp;
    KeptPart(x, i, n, n - 1);
    DownPart(x, i, n, n - 1);
    UpPartLast(x, i, n);
    OnlyThird(Unrotated(x, i, n), ShiftedDown(x, i, n), ShiftedUp(x, i, n), n - 1);
  }

  lemma RemovedAtNib(x: Word, i: Index, n: Index, k: Index)
    requires i < n <= 15 && k < 15 && x & 15 != 0
    ensures Nib(RemovedAt(x, i, n), k) == if k < i || k >= n then Nib(x, k) else if k == n - 1 then Nib(x, i) else Nib(x, k + 1)
  {
    hide Nib, RemovedAt;
    if k < i || k >= n {
      RemovedAtOutside(x, i, n, k);
    } else if k == n - 1 {
      RemovedAtLast(x, i, n);
    } else {
      RemovedAtInside(x, i, n, k);
    }
  }

  /** `remove`: elements behind `i` move down, the removed one becomes the first free one. */
  lemma RemovedNib(x: Word, i: Index, k: Index)
    requires i < Size(x) && k < 15
    ensures Nib(Removed(x, i), k) ==
      if k < i || k >= Size(x) then Nib(x, k) else if k == Size(x) - 1 then Nib(x, i) else Nib(x, k + 1)
  {
    hide Nib, RemovedAt;
    NibDec(x, k);
    RemovedAtNib(x, i, Size(x), k);
  }

  lemma RemovedToBackBefore(x: Word, i: Index, width: Index, k: Index)
    requires Width(width) && i < width && k < i && x & 15 != 0
    ensures Nib(RemovedToBack(x, i, width), k) == Nib(x, k)
  {
  }

  lemma RemovedToBackInside(x: Word, i: Index, width: Index, k: Index)
    requires Width(width) && i <= k < width - 1
    ensures Nib(RemovedToBack(x, i, width), k) == Nib(x, k + 1)
  {
  }

  lemma RemovedToBackLast(x: Word, i: Index, width: Index)
    requires Width(width) && i < width
    ensures Nib(RemovedToBack(x, i, width), width - 1) == Nib(x, i)
  {
  }

  lemma RemovedToBackSize(x: Word, i: Index, width: Index)
    requires Width(width) && i < width && x & 15 != 0
    ensures RemovedToBack(x, i, width) & 15 == (x & 15) - 1
  {
  }

  lemma ExchangedTurned(x: Word, i: Index, j: Index)
    requires i < 15 && j < 15
    ensures Exchanged(x, i, j) == Exchanged(x, j, i)
  {
    hide Taken, Up;
  }

  lemma DiffIsLow(x: Word, i: Index, j: Index)
    requires i < 15 && j < 15
    ensures (Taken(x, i) ^ Taken(x, j)) & 240 == Taken(x, i) ^ Taken(x, j)
  {
  }

  lemma NotPlaced(d: Word, i: Index, k: Index)
    requires i < 15 && k < 15 && i != k && d & 240 == d
    ensures Nib(Up(d, i), k) == 0
  {
  }

  lemma XorNothing(x: Word, u: Word, v: Word, k: Index)
    requires k < 15 && Nib(u, k) == 0 && Nib(v, k) == 0
    ensures Nib(x ^ (u | v), k) == Nib(x, k)
  {
  }

  lemma ExchangedFirst(x: Word, i: Index, j: Index)
    requires i < 15 && j < 15
    ensures Nib(Exchanged(x, i, j), i) == Nib(x, j)
  {
  }

  lemma ExchangedByOther(x: Word, d: Word, i: Index, j: Index, k: Index)
    requires i < 15 && j < 15 && k < 15 && k != i && k != j && d & 240 == d
    ensures Nib(ExchangedBy(x, d, i, j), k) == Nib(x, k)
  {
    hide Nib, Up;
    NotPlaced(d, i, k);
    NotPlaced(d, j, k);
    XorNothing(x, Up(d, i), Up(d, j), k);
  }

  lemma ExchangedOther(x: Word, i: Index, j: Index, k: Index)
    requires i < 15 && j < 15 && k < 15 && k != i && k != j
    ensures Nib(Exchanged(x, i, j), k) == Nib(x, k)
  {
    DiffIsLow(x, i, j);
    hide Nib, Taken, ExchangedBy;
    ExchangedByOther(x, Taken(x, i) ^ Taken(x, j), i, j, k);
  }

  /** `exchange`. */
  lemma ExchangedNib(x: Word, i: Index, j: Index, k: Index)
    requires i < 15 && j < 15 && k < 15
    ensures Nib(Exchanged(x, i, j), k) == if k == i then Nib(x, j) else if k == j then Nib(x, i) else Nib(x, k)
  {
    DiffIsLow(x, i, j);
    ExchangedFirst(x, i, j);
    ExchangedFirst(x, j, i);
    ExchangedTurned(x, i, j);
    hide Nib, Taken, ExchangedBy;
    if k != i && k != j {
      ExchangedByOther(x, Taken(x, i) ^ Taken(x, j), i, j, k);
    }
  }

  lemma ExchangedSize(x: Word, i: Index, j: Index)
    requires i < 15 && j < 15
    ensures Exchanged(x, i, j) & 15 == x & 15
  {
  }

  // ----- permutations

  function At(x: Word, i: Index): int
    requires i < 15
  {
    Nib(x, i) as int
  }

  /** The first `width` elements are 0 to `width - 1` in some order. */
  ghost predicate IsPermutation(x: Word, width: Index) {
    && Width(width) && Size(x) <= width
    && (forall k: Index :: k < width ==> At(x, k) < width as int)
    && (forall j: Index, k: Index :: j < k < width ==> At(x, j) != At(x, k))
  }

  /** Element `k` of `y` is one of the elements of `x`, another one for every `k`. */
  ghost predicate Takes(y: Word, k: Index, x: Word, from: Index, width: Index) {
    Width(width) && k < width && from < width && At(y, k) == At(x, from)
  }

  lemma SameElement(y: Word, k: Index, x: Word, from: Index, width: Index)
    requires Width(width) && k < width && from < width && Nib(y, k) == Nib(x, from)
    ensures Takes(y, k, x, from, width)
  {
  }

  lemma SizeIs(x: Word, width: Index)
    ensures Size(x) > 0 ==> x & 15 != 0
    ensures Width(width) && Size(x) < width ==> x & 15 < width as Word
  {
  }

  /** After `insert_from_back` place `k` holds the element of place `from`. */
  predicate InsertFrom(i: Index, width: Index, k: Index, from: Index) {
    (k < i ==> from == k) && (k == i ==> from == width - 1) && (k > i ==> from == k - 1)
  }

  lemma InsertDiffer(i: Index, width: Index, m: Index, k: Index, a: Index, b: Index)
    requires 0 < width <= 15 && i < width && m < k < width
    requires InsertFrom(i, width, m, a) && InsertFrom(i, width, k, b)
    ensures a != b
  {
  }

  lemma InsertTakes(x: Word, i: Index, width: Index, k: Index) returns (from: Index)
    requires Width(width) && i < width && x & 15 < width as Word && k < width
    ensures Takes(Inserted(x, i, width), k, x, from, width)
    ensures InsertFrom(i, width, k, from)
  {
    hide Nib, Inserted, Takes;
    if k < i {
      from := k;
      InsertedBefore(x, i, width, k);
      SameElement(Inserted(x, i, width), k, x, k, width);
    } else if k == i {
      from := width - 1;
      InsertedAt(x, i, width);
      SameElement(Inserted(x, i, width), k, x, width - 1, width);
    } else {
      from := k - 1;
      InsertedAfter(x, i, width, k);
      SameElement(Inserted(x, i, width), k, x, k - 1, width);
    }
  }

  /** After `remove`; `n` is the size before. */
  predicate RemoveFrom(i: Index, n: Index, k: Index, from: Index) {
    (k < i || k >= n ==> from == k) && (i <= k < n - 1 ==> from == k + 1) && (k == n - 1 ==> from == i)
  }

  lemma RemoveDiffer(i: Index, n: Index, m: Index, k: Index, a: Index, b: Index)
    requires i < n <= 15 && m < k < 15
    requires RemoveFrom(i, n, m, a) && RemoveFrom(i, n, k, b)
    ensures a != b
  {
  }

  lemma RemoveTakes(x: Word, i: Index, width: Index, k: Index) returns (from: Index)
    requires Width(width) && i < Size(x) && Size(x) <= width && k < width
    ensures Takes(Removed(x, i), k, x, from, width)
    ensures RemoveFrom(i, Size(x), k, from)
  {
    if Size(x) == i + 1 {
      NibDec(x, k);
      hide Nib, Takes, RemovedAt;
      from := k;
      SameElement(Removed(x, i), k, x, k, width);
    } else {
      from := RemoveAtTakes(x, i, Size(x), width, k);
    }
  }

  lemma RemoveAtTakes(x: Word, i: Index, n: Index, width: Index, k: Index) returns (from: Index)
    requires Width(width) && i < n <= 15 && n <= width && k < width && x & 15 != 0
    ensures Takes(RemovedAt(x, i, n), k, x, from, width)
    ensures RemoveFrom(i, n, k, from)
  {
    hide Nib, RemovedAt, Takes;
    if k < i || k >= n {
      from := k;
      RemovedAtOutside(x, i, n, k);
      SameElement(RemovedAt(x, i, n), k, x, k, width);
    } else if k == n - 1 {
      from := i;
      RemovedAtLast(x, i, n);
      SameElement(RemovedAt(x, i, n), k, x, i, width);
    } else {
      from := k + 1;
      RemovedAtInside(x, i, n, k);
      SameElement(RemovedAt(x, i, n), k, x, k + 1, width);
    }
  }

  /** After `remove_to_back`. */
  predicate ToBackFrom(i: Index, width: Index, k: Index, from: Index) {
    (k < i ==> from == k) && (i <= k < width - 1 ==> from == k + 1) && (k == width - 1 ==> from == i)
  }

  lemma ToBackDiffer(i: Index, width: Index, m: Index, k: Index, a: Index, b: Index)
    requires 0 < width <= 15 && i < width && m < k < width
    requires ToBackFrom(i, width, m, a) && ToBackFrom(i, width, k, b)
    ensures a != b
  {
  }

  lemma ToBackTakes(x: Word, i: Index, width: Index, k: Index) returns (from: Index)
    requires Width(width) && i < width && x & 15 != 0 && k < width
    ensures Takes(RemovedToBack(x, i, width), k, x, from, width)
    ensures ToBackFrom(i, width, k, from)
  {
    hide Nib, RemovedToBack, Takes;
    if k < i {
      from := k;
      RemovedToBackBefore(x, i, width, k);
      SameElement(RemovedToBack(x, i, width), k, x, k, width);
    } else if k < width - 1 {
      from := k + 1;
      RemovedToBackInside(x, i, width, k);
      SameElement(RemovedToBack(x, i, width), k, x, k + 1, width);
    } else {
      from := i;
      RemovedToBackLast(x, i, width);
      SameElement(RemovedToBack(x, i, width), k, x, i, width);
    }
  }

  /** After `exchange`. */
  predicate ExchangeFrom(i: Index, j: Index, k: Index, from: Index) {
    (k == i ==> from == j) && (k == j ==> from == i) && (k != i && k != j ==> from == k)
  }

  lemma ExchangeDiffer(i: Index, j: Index, m: Index, k: Index, a: Index, b: Index)
    requires i < 15 && j < 15 && m < k < 15
    requires ExchangeFrom(i, j, m, a) && ExchangeFrom(i, j, k, b)
    ensures a != b
  {
  }

  lemma ExchangeTakes(x: Word, i: Index, j: Index, width: Index, k: Index) returns (from: Index)
    requires Width(width) && i < width && j < width && k < width
    ensures Takes(Exchanged(x, i, j), k, x, from, width)
    ensures ExchangeFrom(i, j, k, from)
  {
    hide Nib, Takes, Exchanged;
    if k == i {
      from := j;
      ExchangedFirst(x, i, j);
      SameElement(Exchanged(x, i, j), k, x, j, width);
    } else if k == j {
      from := i;
      ExchangedFirst(x, j, i);
      ExchangedTurned(x, i, j);
      SameElement(Exchanged(x, i, j), k, x, i, width);
    } else {
      from := k;
      ExchangedOther(x, i, j, k);
      SameElement(Exchanged(x, i, j), k, x, k, width);
    }
  }

  lemma Apart(y: Word, j: Index, k: Index, x: Word, a: Index, b: Index, width: Index)
    requires IsPermutation(x, width) && Takes(y, j, x, a, width) && Takes(y, k, x, b, width) && a != b
    ensures At(y, j) != At(y, k)
  {
    hide At, Size;
    assert a < b || b < a;
  }

  lemma Below(y: Word, k: Index, x: Word, a: Index, width: Index)
    requires IsPermutation(x, width) && Takes(y, k, x, a, width)
    ensures At(y, k) < width as int
  {
    hide At, Size;
  }

  lemma IsPermutationIf(y: Word, width: Index)
    requires Width(width) && Size(y) <= width
    requires forall k: Index :: k < width ==> At(y, k) < width as int
    requires forall j: Index, k: Index :: j < k < width ==> At(y, j) != At(y, k)
    ensures IsPermutation(y, width)
  {
  }

  lemma InsertSize(x: Word, i: Index, width: Index)
    requires Width(width) && i < width && Size(x) < width
    ensures Size(Inserted(x, i, width)) == Size(x) + 1
  {
    SizeIs(x, width);
    InsertedSize(x, i, width);
    hide Inserted;
  }

  lemma RemoveSize(x: Word, i: Index, width: Index)
    requires i < Size(x)
    ensures Size(Removed(x, i)) == Size(x) - 1
  {
    RemovedSize(x, i);
    hide Removed;
  }

  lemma ToBackSize(x: Word, i: Index, width: Index)
    requires Width(width) && i < width && Size(x) > 0
    ensures Size(RemovedToBack(x, i, width)) == Size(x) - 1
  {
    SizeIs(x, width);
    RemovedToBackSize(x, i, width);
    hide RemovedToBack;
  }

  lemma ExchangeSize(x: Word, i: Index, j: Index, width: Index)
    requires i < 15 && j < 15
    ensures Size(Exchanged(x, i, j)) == Size(x)
  {
    ExchangedSize(x, i, j);
    hide Exchanged;
  }

  lemma InsertApart(x: Word, i: Index, width: Index, j: Index, k: Index)
    requires IsPermutation(x, width) && i < width && Size(x) < width && j < k < width
    ensures At(Inserted(x, i, width), j) != At(Inserted(x, i, width), k)
  {
    assert Width(width);
    SizeIs(x, width);
    hide At, Takes, Inserted, Removed, RemovedToBack, Exchanged, IsPermutation, Size, InsertFrom;
    var a := InsertTakes(x, i, width, j);
    var b := InsertTakes(x, i, width, k);
    InsertDiffer(i, width, j, k, a, b);
    Apart(Inserted(x, i, width), j, k, x, a, b, width);
  }

  /** Every operation keeps the first `width` elements a permutation. */
  lemma InsertStaysPermutation(x: Word, i: Index, width: Index)
    requires IsPermutation(x, width) && i < width && Size(x) < width
    ensures IsPermutation(Inserted(x, i, width), width)
    ensures Size(Inserted(x, i, width)) == Size(x) + 1
  {
    assert Width(width);
    SizeIs(x, width);
    InsertSize(x, i, width);
    hide At, Takes, Inserted, Removed, RemovedToBack, Exchanged, IsPermutation, Size, InsertFrom;
    forall k: Index | k < width
      ensures At(Inserted(x, i, width), k) < width as int
    {
      var a := InsertTakes(x, i, width, k);
      Below(Inserted(x, i, width), k, x, a, width);
    }
    forall j: Index, k: Index | j < k < width
      ensures At(Inserted(x, i, width), j) != At(Inserted(x, i, width), k)
    {
      InsertApart(x, i, width, j, k);
    }
    IsPermutationIf(Inserted(x, i, width), width);
  }

  lemma RemoveApart(x: Word, i: Index, width: Index, j: Index, k: Index)
    requires IsPermutation(x, width) && i < Size(x) && j < k < width
    ensures At(Removed(x, i), j) != At(Removed(x, i), k)
  {
    assert Width(width) && Size(x) <= width;
    hide At, Takes, Inserted, Removed, RemovedToBack, Exchanged, IsPermutation, Size, RemoveFrom;
    var a := RemoveTakes(x, i, width, j);
    var b := RemoveTakes(x, i, width, k);
    RemoveDiffer(i, Size(x), j, k, a, b);
    Apart(Removed(x, i), j, k, x, a, b, width);
  }

  lemma RemoveStaysPermutation(x: Word, i: Index, width: Index)
    requires IsPermutation(x, width) && i < Size(x)
    ensures IsPermutation(Removed(x, i), width)
    ensures Size(Removed(x, i)) == Size(x) - 1
  {
    assert Width(width) && Size(x) <= width;
    RemoveSize(x, i, width);
    hide At, Takes, Inserted, Removed, RemovedToBack, Exchanged, IsPermutation, Size, RemoveFrom;
    forall k: Index | k < width
      ensures At(Removed(x, i), k) < width as int
    {
      var a := RemoveTakes(x, i, width, k);
      Below(Removed(x, i), k, x, a, width);
    }
    forall j: Index, k: Index | j < k < width
      ensures At(Removed(x, i), j) != At(Removed(x, i), k)
    {
      RemoveApart(x, i, width, j, k);
    }
    IsPermutationIf(Removed(x, i), width);
  }

  lemma ToBackApart(x: Word, i: Index, width: Index, j: Index, k: Index)
    requires IsPermutation(x, width) && i < Size(x) && j < k < width
    ensures At(RemovedToBack(x, i, width), j) != At(RemovedToBack(x, i, width), k)
  {
    assert Width(width) && i < width;
    SizeIs(x, width);
    hide At, Takes, Inserted, Removed, RemovedToBack, Exchanged, IsPermutation, Size, ToBackFrom;
    var a := ToBackTakes(x, i, width, j);
    var b := ToBackTakes(x, i, width, k);
    ToBackDiffer(i, width, j, k, a, b);
    Apart(RemovedToBack(x, i, width), j, k, x, a, b, width);
  }

  lemma ToBackStaysPermutation(x: Word, i: Index, width: Index)
    requires IsPermutation(x, width) && i < Size(x)
    ensures IsPermutation(RemovedToBack(x, i, width), width)
    ensures Size(RemovedToBack(x, i, width)) == Size(x) - 1
  {
    assert Width(width) && i < width;
    SizeIs(x, width);
    ToBackSize(x, i, width);
    hide At, Takes, Inserted, Removed, RemovedToBack, Exchanged, IsPermutation, Size, ToBackFrom;
    forall k: Index | k < width
      ensures At(RemovedToBack(x, i, width), k) < width as int
    {
      var a := ToBackTakes(x, i, width, k);
      Below(RemovedToBack(x, i, width), k, x, a, width);
    }
    forall j: Index, k: Index | j < k < width
      ensures At(RemovedToBack(x, i, width), j) != At(RemovedToBack(x, i, width), k)
    {
      ToBackApart(x, i, width, j, k);
    }
    IsPermutationIf(RemovedToBack(x, i, width), width);
  }

  lemma ExchangeApart(x: Word, i: Index, j: Index, width: Index, m: Index, k: Index)
    requires IsPermutation(x, width) && i < width && j < width && m < k < width
    ensures At(Exchanged(x, i, j), m) != At(Exchanged(x, i, j), k)
  {
    assert Width(width) && i < 15 && j < 15 && k < 15;
    hide Width, At, Takes, Inserted, Removed, RemovedToBack, Exchanged, IsPermutation, Size, ExchangeFrom;
    var a := ExchangeTakes(x, i, j, width, m);
    var b := ExchangeTakes(x, i, j, width, k);
    ExchangeDiffer(i, j, m, k, a, b);
    Apart(Exchanged(x, i, j), m, k, x, a, b, width);
  }

  lemma ExchangeStaysPermutation(x: Word, i: Index, j: Index, width: Index)
    requires IsPermutation(x, width) && i < width && j < width
    ensures IsPermutation(Exchanged(x, i, j), width)
    ensures Size(Exchanged(x, i, j)) == Size(x)
  {
    assert Width(width);
    ExchangeSize(x, i, j, width);
    hide At, Takes, Inserted, Removed, RemovedToBack, Exchanged, IsPermutation, Size, ExchangeFrom;
    forall k: Index | k < width
      ensures At(Exchanged(x, i, j), k) < width as int
    {
      var a := ExchangeTakes(x, i, j, width, k);
      Below(Exchanged(x, i, j), k, x, a, width);
    }
    forall m: Index, k: Index | m < k < width
      ensures At(Exchanged(x, i, j), m) != At(Exchanged(x, i, j), k)
    {
      ExchangeApart(x, i, j, width, m, k);
    }
    IsPermutationIf(Exchanged(x, i, j), width);
  }

  lemma SortedElement(n: Index, width: Index, k: Index)
    requires Width(width) && n <= width && k < width
    ensures At(MakeSorted(width, n), k) == (if k < n then k as int else width as int - 1 - (k as int - n as int))
  {
    MadeSorted(width, n, k);
    hide Nib, MakeSorted;
  }

  lemma SortedApart(n: Index, width: Index, j: Index, k: Index)
    requires Width(width) && n <= width && j < k < width
    ensures At(MakeSorted(width, n), j) != At(MakeSorted(width, n), k)
  {
    hide At, MakeSorted, Nib;
    SortedElement(n, width, j);
    SortedElement(n, width, k);
  }

  /** `make_sorted`: 0 to `n - 1`, and the free slots so that the smallest is at the back. */
  lemma SortedIsPermutation(n: Index, width: Index)
    requires Width(width) && n <= width
    ensures IsPermutation(MakeSorted(width, n), width) && Size(MakeSorted(width, n)) == n
  {
    MadeSorted(width, n, 0);
    hide At, MakeSorted, Nib, Size;
    forall k: Index | k < width
      ensures At(MakeSorted(width, n), k) < width as int
    {
      SortedElement(n, width, k);
    }
    forall j: Index, k: Index | j < k < width
      ensures At(MakeSorted(width, n), j) != At(MakeSorted(width, n), k)
    {
      SortedApart(n, width, j, k);
    }
    IsPermutationIf(MakeSorted(width, n), width);
  }

  /** The exchange in `make_split`: a leaf with room that would still offer slot 0 has no other
      free slot, so that only leaves of at least `width - 1` entries are split. */
  lemma OnlyNearlyFullLeavesSplit(x: Word, width: Index)
    requires IsPermutation(x, width) && Size(x) < width && At(x, width - 1) == 0
    requires At(Exchanged(x, Size(x), width - 1), width - 1) == 0
    ensures Size(x) == width - 1
  {
    var n := Size(x);
    hide At, Size, Exchanged;
    var from := ExchangeTakes(x, n, width - 1, width, width - 1);
    if n != width - 1 {
      DistinctAt(x, width, n, width - 1);
    }
  }

  lemma DistinctAt(x: Word, width: Index, j: Index, k: Index)
    requires IsPermutation(x, width) && j < k < width
    ensures At(x, j) != At(x, k)
  {
  }

  /** The permuter of a leaf: operations change the word in place. */
  class KPermuter {
    const width: Index
    var x: Word

    ghost predicate Valid()
      reads this
    {
      IsPermutation(x, width)
    }

    /** `make_sorted(n)`; an empty permuter for `n == 0`. */
    constructor (width: Index, n: Index)
      requires Width(width) && n <= width
      ensures Valid() && this.width == width && x == MakeSorted(width, n)
    {
      this.width, x := width, MakeSorted(width, n);
      SortedIsPermutation(n, width);
    }

    method InsertFromBack(i: Index) returns (value: Word)
      requires Valid() && i < width && Size(x) < width
      modifies this
      ensures Valid() && Size(x) == Size(old(x)) + 1
      ensures x == Inserted(old(x), i, width) && value == Nib(old(x), width - 1) == Nib(x, i)
    {
      hide Size, Nib, At, Inserted;
      InsertStaysPermutation(x, i, width);
      InsertSize(x, i, width);
      InsertedAt(x, i, width);
      value := Nib(x, width - 1);
      x := Inserted(x, i, width);
    }

    method Remove(i: Index)
      requires Valid() && i < Size(x)
      modifies this
      ensures Valid() && Size(x) == Size(old(x)) - 1 && x == Removed(old(x), i)
    {
      hide Size, Nib, At, Removed;
      RemoveStaysPermutation(x, i, width);
      RemoveSize(x, i, width);
      x := Removed(x, i);
    }

    method RemoveToBack(i: Index)
      requires Valid() && i < Size(x)
      modifies this
      ensures Valid() && Size(x) == Size(old(x)) - 1 && x == RemovedToBack(old(x), i, width)
    {
      hide Size, Nib, At, RemovedToBack;
      ToBackStaysPermutation(x, i, width);
      ToBackSize(x, i, width);
      x := RemovedToBack(x, i, width);
    }

    method Exchange(i: Index, j: Index)
      requires Valid() && i < width && j < width
      modifies this
      ensures Valid() && Size(x) == Size(old(x)) && x == Exchanged(old(x), i, j)
    {
      hide Size, Nib, At, Exchanged;
      ExchangeStaysPermutation(x, i, j, width);
      ExchangeSize(x, i, j, width);
      x := Exchanged(x, i, j);
    }
  }
}
