/** Keys as byte strings, cut into 8-byte slices that compare as big-endian numbers.
  Sources: masstree_key.hh (key), string_slice.hh (make_comparable). */
module KeySlices {
  type Byte = b: nat | b < 256
  type Key = seq<Byte>

  const IKEY_SIZE := 8

  /** Byte `i`, or the zero that pads a short key. */
  function At(s: Key, i: nat): nat {
    if i < |s| then s[i] else 0
  }

  /** The first `n` bytes as a big-endian number. */
  function Number(s: Key, n: nat): nat {
    if n == 0 then 0 else 256 * Number(s, n - 1) + At(s, n - 1)
  }

  /** `make_comparable`. */
  function Ikey(s: Key): (k: nat)
    ensures k < 0x1_0000_0000_0000_0000
  {
    NumberFits(s);
    Number(s, IKEY_SIZE)
  }

  lemma NumberFits(s: Key)
    ensures Number(s, 8) < 0x1_0000_0000_0000_0000
  {
    assert Number(s, 1) < 0x100;
    assert Number(s, 2) < 0x1_0000;
    assert Number(s, 3) < 0x100_0000;
    assert Number(s, 4) < 0x1_0000_0000;
    assert Number(s, 5) < 0x100_0000_0000;
    assert Number(s, 6) < 0x1_0000_0000_0000;
    assert Number(s, 7) < 0x100_0000_0000_0000;
  }

  /** What a leaf compares: the slice, and the length of the key in it (9 for a longer key). */
  function SliceLength(s: Key): nat {
    if |s| > IKEY_SIZE then IKEY_SIZE + 1 else |s|
  }

  /** The key after `shift`. */
  function Rest(s: Key): Key
    requires |s| > IKEY_SIZE
  {
    s[IKEY_SIZE..]
  }

  lemma {:induction false} SameNumberSameBytes(s: Key, t: Key, n: nat)
    requires Number(s, n) == Number(t, n)
    ensures forall i :: 0 <= i < n ==> At(s, i) == At(t, i)
  {
    if n > 0 {
      assert At(s, n - 1) == At(t, n - 1);
      SameNumberSameBytes(s, t, n - 1);
    }
  }

  /** The slice and the length within it determine a short key, and the first eight bytes of
      a long one. */
  lemma SliceDetermines(s: Key, t: Key)
    requires Ikey(s) == Ikey(t) && SliceLength(s) == SliceLength(t)
    ensures |s| <= IKEY_SIZE ==> s == t
    ensures |s| > IKEY_SIZE ==> |t| > IKEY_SIZE && s[..IKEY_SIZE] == t[..IKEY_SIZE]
  {
    SameNumberSameBytes(s, t, IKEY_SIZE);
    forall i | 0 <= i < IKEY_SIZE && i < |s|
      ensures s[i] == t[i]
    {
      assert At(s, i) == At(t, i);
    }
  }

  lemma {:induction false} SameBytesSameNumber(s: Key, t: Key, n: nat)
    requires forall i :: 0 <= i < n ==> At(s, i) == At(t, i)
    ensures Number(s, n) == Number(t, n)
  {
    if n > 0 {
      SameBytesSameNumber(s, t, n - 1);
    }
  }

  lemma SlicePrefix(s: Key, t: Key)
    requires |s| >= IKEY_SIZE && |t| >= IKEY_SIZE && s[..IKEY_SIZE] == t[..IKEY_SIZE]
    ensures Ikey(s) == Ikey(t)
  {
    forall i | 0 <= i < IKEY_SIZE
      ensures At(s, i) == At(t, i)
    {
      assert s[i] == s[..IKEY_SIZE][i] == t[..IKEY_SIZE][i] == t[i];
    }
    SameBytesSameNumber(s, t, IKEY_SIZE);
  }

  /** `key::compare(ikey, keylenx)`: the slices, then the lengths within them. */
  function CompareSpot(ikey: nat, len: nat, ikey': nat, len': nat): int {
    if ikey < ikey' then -1
    else if ikey > ikey' then 1
    else if len > IKEY_SIZE then (if len' <= IKEY_SIZE then 1 else 0)
    else len - len'
  }

  function Compare(a: Key, b: Key): int {
    CompareSpot(Ikey(a), |a|, Ikey(b), |b|)
  }

  // ----- from slices back to bytes

  function Digits(k: nat, n: nat): (s: Key)
    ensures |s| == n
  {
    if n == 0 then [] else Digits(k / 256, n - 1) + [k % 256]
  }

  /** The eight bytes that `host_to_net_order` stores. */
  function Bytes(ikey: nat): (s: Key)
    ensures |s| == IKEY_SIZE
  {
    Digits(ikey, IKEY_SIZE)
  }

  function Power(n: nat): nat { if n == 0 then 1 else 256 * Power(n - 1) }

  lemma {:induction false} NumberOfPrefix(s: Key, t: Key, n: nat)
    requires n <= |s|
    ensures Number(s + t, n) == Number(s, n)
  {
    if n > 0 {
      NumberOfPrefix(s, t, n - 1);
    }
  }

  lemma {:induction false} NumberOfDigits(k: nat, n: nat)
    requires k < Power(n)
    ensures Number(Digits(k, n), n) == k
  {
    if n > 0 {
      NumberOfDigits(k / 256, n - 1);
      NumberOfPrefix(Digits(k / 256, n - 1), [k % 256], n - 1);
    }
  }

  /** Slices and their bytes determine each other. */
  lemma IkeyOfBytes(ikey: nat)
    requires ikey < 0x1_0000_0000_0000_0000
    ensures Ikey(Bytes(ikey)) == ikey
  {
    assert Power(2) == 0x1_0000 && Power(4) == 0x1_0000_0000 && Power(6) == 0x1_0000_0000_0000;
    assert Power(8) == 0x1_0000_0000_0000_0000;
    NumberOfDigits(ikey, IKEY_SIZE);
  }

  lemma BytesOfIkey(s: Key)
    ensures |s| <= IKEY_SIZE ==> Bytes(Ikey(s))[..|s|] == s
    ensures |s| >= IKEY_SIZE ==> Bytes(Ikey(s)) == s[..IKEY_SIZE]
  {
    var b := Bytes(Ikey(s));
    IkeyOfBytes(Ikey(s));
    SameNumberSameBytes(b, s, IKEY_SIZE);
    forall i | 0 <= i < IKEY_SIZE && i < |s|
      ensures b[i] == s[i]
    {
      assert At(b, i) == At(s, i);
    }
  }

  // ----- the order of keys

  /** Byte-string order: a proper prefix comes first. */
  predicate Less(a: Key, b: Key) {
    b != [] && (a == [] || a[0] < b[0] || (a[0] == b[0] && Less(a[1..], b[1..])))
  }

  lemma {:induction false} FirstDifference(a: Key, b: Key, i: nat)
    requires i <= |a| && i < |b| && a[..i] == b[..i] && (i == |a| || a[i] < b[i])
    ensures Less(a, b)
  {
    if i > 0 {
      assert a[0] == a[..i][0] == b[..i][0] == b[0];
      assert a[1..][..i - 1] == a[..i][1..] && b[1..][..i - 1] == b[..i][1..];
      FirstDifference(a[1..], b[1..], i - 1);
    }
  }

  /** A smaller number has a smaller byte after equal ones. */
  lemma {:induction false} SmallerNumber(s: Key, t: Key, n: nat) returns (i: nat)
    requires Number(s, n) < Number(t, n)
    ensures i < n && At(s, i) < At(t, i) && forall j :: 0 <= j < i ==> At(s, j) == At(t, j)
  {
    if Number(s, n - 1) < Number(t, n - 1) {
      i := SmallerNumber(s, t, n - 1);
    } else {
      i := n - 1;
      SameNumberSameBytes(s, t, n - 1);
    }
  }

  lemma {:induction false} PaddedDifference(a: Key, b: Key, i: nat)
    requires i < |b| && At(a, i) < b[i] && forall j :: 0 <= j < i ==> At(a, j) == At(b, j)
    ensures Less(a, b)
  {
    if a == [] {
    } else if i == 0 {
      assert At(a, 0) == a[0];
    } else {
      assert At(a, 0) == At(b, 0);
      forall j | 0 <= j < i - 1
        ensures At(a[1..], j) == At(b[1..], j)
      {
        assert At(a, j + 1) == At(b, j + 1);
      }
      PaddedDifference(a[1..], b[1..], i - 1);
    }
  }

  lemma {:induction false} PrefixIsLess(a: Key, b: Key)
    requires |a| < |b| && forall j :: 0 <= j < |a| ==> a[j] == b[j]
    ensures Less(a, b)
  {
    if a != [] {
      PrefixIsLess(a[1..], b[1..]);
    }
  }

  /** `compare` agrees with the order of byte strings. */
  lemma CompareIsOrder(a: Key, b: Key)
    requires Compare(a, b) < 0
    ensures Less(a, b)
  {
    if Ikey(a) < Ikey(b) {
      var i := SmallerNumber(a, b, IKEY_SIZE);
      PaddedDifference(a, b, i);
    } else {
      SameNumberSameBytes(a, b, IKEY_SIZE);
      forall j | 0 <= j < |a|
        ensures a[j] == b[j]
      {
        assert At(a, j) == At(b, j);
      }
      PrefixIsLess(a, b);
    }
  }

  /** `compare` leaves two keys undecided only if they are equal, or long with the same slice. */
  lemma CompareZero(a: Key, b: Key)
    requires Compare(a, b) == 0
    ensures a == b || SameSlice(a, b)
  {
    SliceDetermines(a, b);
  }

  /** Two long keys with the same first eight bytes, which only their suffixes tell apart. */
  predicate SameSlice(a: Key, b: Key) { |a| > IKEY_SIZE && |b| > IKEY_SIZE && a[..IKEY_SIZE] == b[..IKEY_SIZE] }

  /** At the first place where the keys differ, the smaller one ends or has the smaller byte. */
  lemma {:induction false} LessIff(a: Key, b: Key)
    ensures Less(a, b) <==> exists i :: 0 <= i <= |a| && i < |b| && a[..i] == b[..i] && (i == |a| || a[i] < b[i])
  {
    if Less(a, b) {
      if a == [] || a[0] < b[0] {
        assert a[..0] == b[..0];
      } else {
        LessIff(a[1..], b[1..]);
        var i :| 0 <= i <= |a[1..]| && i < |b[1..]| && a[1..][..i] == b[1..][..i] && (i == |a[1..]| || a[1..][i] < b[1..][i]);
        assert a[..i + 1] == [a[0]] + a[1..][..i] && b[..i + 1] == [b[0]] + b[1..][..i];
      }
    }
    if i :| 0 <= i <= |a| && i < |b| && a[..i] == b[..i] && (i == |a| || a[i] < b[i]) {
      FirstDifference(a, b, i);
    }
  }

  lemma {:induction false} LessIsAsymmetric(a: Key, b: Key)
    requires Less(a, b)
    ensures a != b && !Less(b, a)
  {
    if a != [] && a[0] == b[0] {
      LessIsAsymmetric(a[1..], b[1..]);
      assert a == [a[0]] + a[1..] && b == [b[0]] + b[1..];
    }
  }

  /** `compare` decides exactly as the order of byte strings does, but for two long keys with the same slice. */
  lemma CompareDecides(a: Key, b: Key)
    ensures Compare(a, b) < 0 <==> Less(a, b) && !SameSlice(a, b)
    ensures Compare(a, b) == 0 <==> a == b || SameSlice(a, b)
    ensures Compare(a, b) > 0 <==> Less(b, a) && !SameSlice(a, b)
  {
    if SameSlice(a, b) {
      SlicePrefix(a, b);
    } else if Compare(a, b) < 0 {
      CompareIsOrder(a, b);
      LessIsAsymmetric(a, b);
    } else if Compare(a, b) == 0 {
      CompareZero(a, b);
      if Less(a, b) {
        LessIsAsymmetric(a, b);
      }
    } else {
      CompareIsOrder(b, a);
      LessIsAsymmetric(b, a);
    }
  }
}
