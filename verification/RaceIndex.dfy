/**
 Addressing in the RACE-style hash index, and the two scans of a key's window: the four buckets
 where the key may be, read together as 28 slots.
*/
module RaceIndex {
  import opened Common
  import opened Packing
  import opened Arithmetic
  import opened Bits

  const HALF: nat := 17000          // half of RACE_HASH_ADDRESSABLE_BUCKET_NUM
  const BUCKETS: nat := 51000       // RACE_HASH_SUBTABLE_BUCKET_NUM
  const ASSOC: nat := 7
  const WINDOW: nat := 28
  const TABLES: nat := 32
  const MIXER: nat := 0xc6a4a7935bd1e995

  /** The two index values of a key, its subtable and its fingerprint. */
  datatype Home = Home(table: nat, first: nat, second: nat, fp: Byte)

  predicate InTable(h: Home) {
    h.table < TABLES && h.first < HALF <= h.second < 2 * HALF
  }

  /** The subtable of a key: bits 32 to 36 of the hash. */
  function TableOf(hash: Word): (t: nat)
    ensures t < TABLES && 0 <= hash % 0x20_0000_0000 - t * 0x1_0000_0000 < 0x1_0000_0000
  {
    TableResidue(hash);
    hash / 0x1_0000_0000 % TABLES
  }

  lemma TableResidue(hash: nat)
    ensures 0 <= hash % 0x20_0000_0000 - hash / 0x1_0000_0000 % TABLES * 0x1_0000_0000 < 0x1_0000_0000
  {
    var q, p := Recompose(hash, 0x1_0000_0000);
    var a, t := Recompose(q, TABLES);
    DivMod(hash, a, t * 0x1_0000_0000 + p, 0x20_0000_0000);
  }

  /** `SubtableFirstIndex` */
  function FirstIndex(hash: Word): (f: nat)
    ensures f < HALF && (hash - f) % HALF == 0
  {
    hash % HALF
  }

  /** `SubtableSecondIndex`: the first index mixed with an odd 16-bit tag, in 64-bit arithmetic. */
  function SecondIndex(hash: Word, first: nat): (s: nat)
    ensures HALF <= s < 2 * HALF
  {
    Xor(first, HashOfTag(hash)) % HALF + HALF
  }

  function Tag(hash: Word): nat {
    hash / 0x1_0000 % 0x1_0000 / 2 * 2 + 1
  }

  function HashOfTag(hash: Word): Word {
    Tag(hash) * MIXER % WORD_LIMIT
  }

  /** `HashIndexComputeFp`: the two top bytes of the hash. */
  function Fingerprint(hash: Word): Byte {
    assert Pow2(8) == 256;
    XorBelow(hash / 0x1_0000_0000_0000 % 256, hash / 0x100_0000_0000_0000, 8);
    Xor(hash / 0x1_0000_0000_0000 % 256, hash / 0x100_0000_0000_0000)
  }

  /** `get_kv_hash_info` and the index values of `get_kv_addr_info`. */
  function Locate(hash: Word): (h: Home)
    ensures InTable(h)
    ensures 0 <= hash % 0x20_0000_0000 - h.table * 0x1_0000_0000 < 0x1_0000_0000
    ensures (hash - h.first) % HALF == 0
  {
    Home(TableOf(hash), FirstIndex(hash), SecondIndex(hash, FirstIndex(hash)), Fingerprint(hash))
  }

  // What the bits of a hash value decide.

  /** Bits 32 to 36 are the subtable. */
  lemma LocateTable(hash: Word, high: nat, table: nat, low: nat)
    requires hash == high * 0x20_0000_0000 + table * 0x1_0000_0000 + low
    requires table < TABLES && low < 0x1_0000_0000
    ensures Locate(hash).table == table
  {
    TableBits(hash, high, table, low, Locate(hash).table);
  }

  lemma TableBits(hash: nat, high: nat, table: nat, low: nat, t: nat)
    requires hash == high * 0x20_0000_0000 + table * 0x1_0000_0000 + low
    requires table < TABLES && low < 0x1_0000_0000
    requires t < TABLES && 0 <= hash % 0x20_0000_0000 - t * 0x1_0000_0000 < 0x1_0000_0000
    ensures t == table
  {
    DivMod(hash, high, table * 0x1_0000_0000 + low, 0x20_0000_0000);
  }

  /** Bit `i` of the fingerprint is the exclusive or of bits 48 + `i` and 56 + `i`. */
  lemma LocateFingerprint(hash: Word, i: nat)
    requires i < 8
    ensures var top := hash / 0x1_0000_0000_0000; Bit(Locate(hash).fp, i) == (Bit(top, i) + Bit(top, 8 + i)) % 2
  {
    FingerprintBit(hash, i);
  }

  lemma FingerprintBit(hash: Word, i: nat)
    requires i < 8
    ensures var top := hash / 0x1_0000_0000_0000; Bit(Fingerprint(hash), i) == (Bit(top, i) + Bit(top, 8 + i)) % 2
  {
    var top := hash / 0x1_0000_0000_0000;
    assert Fingerprint(hash) == Xor(top % 0x100, top / 0x100);
    FoldedBit(top, 8, i);
    assert Pow2(8) == 0x100;
  }

  lemma FoldedBit(top: nat, w: nat, i: nat)
    requires i < w
    ensures Bit(Xor(top % Pow2(w), Div(top, Pow2(w))), i) == (Bit(top, i) + Bit(top, w + i)) % 2
  {
    XorBit(top % Pow2(w), Div(top, Pow2(w)), i);
    BitLow(top, w, i);
    BitShifted(top, w, i);
  }

  /**
   The second index is a residue too, of the word that mixed with the first index gives the odd
   multiple of `MIXER` chosen by bits 17 to 31.
  */
  lemma LocateSecond(hash: Word) returns (mixed: nat)
    ensures (Locate(hash).second - mixed) % HALF == 0
    ensures Xor(mixed, Locate(hash).first) == OddTag(hash) * MIXER % WORD_LIMIT
  {
    mixed := SecondMixes(hash, FirstIndex(hash));
  }

  function OddTag(hash: Word): nat {
    2 * (hash / 0x2_0000 % 0x8000) + 1
  }

  lemma SecondMixes(hash: Word, first: nat) returns (mixed: nat)
    ensures (SecondIndex(hash, first) - mixed) % HALF == 0
    ensures Xor(mixed, first) == OddTag(hash) * MIXER % WORD_LIMIT
  {
    var product := HashOfTag(hash);
    mixed := Xor(first, product);
    Residue(mixed);
    assert Xor(mixed, first) == product by {
      XorSwapped(first, product);
      XorTwice(product, first);
    }
    TagIsOdd(hash);
  }

  lemma TagIsOdd(hash: Word)
    ensures HashOfTag(hash) == OddTag(hash) * MIXER % WORD_LIMIT
  {
    TagBits(hash);
  }

  lemma TagBits(hash: Word)
    ensures Tag(hash) == OddTag(hash)
  {
    var x := hash / 0x1_0000;
    assert x / 2 == hash / 0x2_0000;
    assert x % 0x1_0000 / 2 == x / 2 % 0x8000;
  }

  lemma Residue(x: nat)
    ensures (x % HALF + HALF - x) % HALF == 0
  {
  }

  /** Buckets come in threes, two main ones around the overflow bucket they share. */
  function BucketIndex(value: nat): nat {
    if value % 2 == 0 then value / 2 * 3 else value / 2 * 3 + 1
  }

  /** Which of the two buckets read from `BucketIndex(value)` on is the main one. */
  function MainOf(value: nat): nat {
    value % 2
  }

  /** A slot of the index. */
  datatype Pos = Pos(table: nat, bucket: nat, slot: nat)

  /** Slot `i` of the window of a key. */
  function Place(h: Home, i: nat): Pos
    requires i < WINDOW
  {
    var base := if i < 2 * ASSOC then BucketIndex(h.first) else BucketIndex(h.second);
    Pos(h.table, base + i / ASSOC % 2, i % ASSOC)
  }

  /** The 28 slots of a window are distinct slots of the subtable, the last bucket of every pair included. */
  lemma WindowFits(h: Home, i: nat, j: nat)
    requires InTable(h) && i < WINDOW && j < WINDOW
    ensures Place(h, i).bucket < BUCKETS && Place(h, i).slot < ASSOC
    ensures Place(h, i) == Place(h, j) <==> i == j
  {
    assert BucketIndex(h.first) + 1 < 25500 <= BucketIndex(h.second) < BUCKETS - 1;
  }

  /** A pair of buckets is one main bucket and the overflow bucket of its three. */
  lemma MainAndOverflow(value: nat)
    ensures (BucketIndex(value) + MainOf(value)) % 3 == 2 * MainOf(value)
    ensures (BucketIndex(value) + 1 - MainOf(value)) % 3 == 1
    ensures BucketIndex(value) / 3 == value / 2 == (BucketIndex(value) + 1) / 3
  {
  }

  /**
   The window, bucket by bucket: of the three buckets that belong to an index value and its
   neighbour, the even value has the first for its own, the odd value the third, and the middle one
   is the overflow bucket of both.  These are the buckets `FindEmptySlot` calls main and overflow.
  */
  lemma WindowBuckets(h: Home, k: nat)
    requires k < ASSOC
    ensures var f := h.first;
            && Place(h, First(MainOf(f)) + k) == Pos(h.table, f / 2 * 3 + f % 2 * 2, k)
            && Place(h, First(1 - MainOf(f)) + k) == Pos(h.table, f / 2 * 3 + 1, k)
    ensures var s := h.second;
            && Place(h, First(2 + MainOf(s)) + k) == Pos(h.table, s / 2 * 3 + s % 2 * 2, k)
            && Place(h, First(3 - MainOf(s)) + k) == Pos(h.table, s / 2 * 3 + 1, k)
  {
    forall b | 0 <= b < 4 ensures (First(b) + k) / ASSOC == b && (First(b) + k) % ASSOC == k {
      DivMod(First(b) + k, b, k, ASSOC);
    }
  }

  // The scans.

  function Zero(): (s: RaceSlot)
    ensures Formed(s)
  {
    RaceSlot(0, 0, 0, [0, 0, 0, 0, 0])
  }

  /** `IsEmptyPointer` over the five pointer bytes. */
  method IsEmptyPointer(pointer: seq<Byte>) returns (empty: bool)
    ensures empty <==> forall i :: 0 <= i < |pointer| ==> pointer[i] == 0
  {
    for i := 0 to |pointer|
      invariant forall k :: 0 <= k < i ==> pointer[k] == 0
    {
      if pointer[i] != 0 { return false; }
    }
    return true;
  }

  /** A slot that counts as free; the server id is not looked at. */
  predicate Free(s: RaceSlot) {
    s.fp == 0 && s.kvLen == 0 && forall i :: 0 <= i < |s.pointer| ==> s.pointer[i] == 0
  }

  /** Such a slot has no fingerprint, no length and the null address. */
  lemma FreeIs(s: RaceSlot)
    requires Formed(s)
    ensures Free(s) <==> s.fp == 0 && s.kvLen == 0 && SlotAddr(s) == 0
  {
  }

  type Window = w: seq<RaceSlot> | |w| == WINDOW witness seq(WINDOW, _ => Zero())

  /** How many slots of `b` are free. */
  function FreeCount(b: seq<RaceSlot>): nat {
    |FreeSlots(b, |b|)|
  }

  function FreeSlots(b: seq<RaceSlot>, n: nat): set<nat>
    requires n <= |b|
  {
    set i: nat | i < n && Free(b[i])
  }

  lemma OneSlotMore(b: seq<RaceSlot>, n: nat)
    requires n < |b|
    ensures |FreeSlots(b, n + 1)| == |FreeSlots(b, n)| + if Free(b[n]) then 1 else 0
  {
    assert FreeSlots(b, n + 1) == FreeSlots(b, n) + if Free(b[n]) then {n} else {};
  }

  /** `GetFreeSlotNum`: the number of free slots and the last of them. */
  method GetFreeSlotNum(b: seq<RaceSlot>) returns (num: nat, free: nat)
    ensures num == FreeCount(b) && (num == 0 <==> free == |b|) && free <= |b|
    ensures free < |b| ==> Free(b[free]) && forall i :: free < i < |b| ==> !Free(b[i])
  {
    num, free := 0, |b|;
    for i := 0 to |b|
      invariant num == |FreeSlots(b, i)|
      invariant (num == 0 <==> free == |b|) && (num > 0 ==> free < i)
      invariant free < |b| ==> Free(b[free]) && forall k :: free < k < i ==> !Free(b[k])
    {
      OneSlotMore(b, i);
      var empty := IsEmptyPointer(b[i].pointer);
      if b[i].fp == 0 && b[i].kvLen == 0 && empty {
        num, free := num + 1, i;
      }
    }
  }

  /** Where bucket `b` of the window begins. */
  function First(b: nat): (i: nat)
    ensures i == b * ASSOC
  {
    7 * b
  }

  /** Bucket `b` of a window. */
  function BucketOf(w: Window, b: nat): (r: seq<RaceSlot>)
    requires b < 4
    ensures |r| == ASSOC
  {
    w[First(b)..First(b + 1)]
  }

  /** The last free slot of the bucket with more free slots, of the first bucket at a tie. */
  ghost predicate Chosen(w: Window, f: nat, s: nat, at: nat)
    requires f < 4 && s < 4
  {
    && at < WINDOW && Free(w[at])
    && var b := if FreeCount(BucketOf(w, f)) >= FreeCount(BucketOf(w, s)) then f else s;
       Within(at, b) && forall i :: at < i < WINDOW && Within(i, b) ==> !Free(w[i])
  }

  /** Slot `at` of the window is in bucket `b`. */
  predicate Within(at: nat, b: nat) {
    First(b) <= at < First(b + 1)
  }

  lemma InBucket(w: Window, b: nat, k: nat)
    requires b < 4 && k < ASSOC
    ensures BucketOf(w, b)[k] == w[First(b) + k] && Within(First(b) + k, b)
  {
  }

  /** No slot of the window is free. */
  ghost predicate Full(w: Window) {
    forall i :: 0 <= i < WINDOW ==> !Free(w[i])
  }

  /** Free slots in the two buckets of a turn. */
  function Both(w: Window, f: nat, s: nat): nat
    requires f < 4 && s < 4
  {
    FreeCount(BucketOf(w, f)) + FreeCount(BucketOf(w, s))
  }

  /** What a turn over buckets `f` and `s` makes of `at`. */
  ghost predicate Picked(w: Window, f: nat, s: nat, at: int, r: int)
    requires f < 4 && s < 4
  {
    if Both(w, f, s) == 0 then r == at else r >= 0 && Chosen(w, f, s, r)
  }

  /** One turn: the slot chosen from buckets `f` and `s`, or `at` when both are full. */
  method EmptyIn(w: Window, f: nat, s: nat, at: int) returns (r: int)
    requires f < 4 && s < 4 && -1 <= at < WINDOW
    ensures -1 <= r < WINDOW && Picked(w, f, s, at, r)
  {
    r := at;
    var fNum, fFree := GetFreeSlotNum(BucketOf(w, f));
    var sNum, sFree := GetFreeSlotNum(BucketOf(w, s));
    if fNum > 0 || sNum > 0 {
      if fNum >= sNum {
        InBucket(w, f, fFree);
        r := First(f) + fFree;
      } else {
        InBucket(w, s, sFree);
        r := First(s) + sFree;
      }
    }
  }

  /**
   `find_empty_slot`.  Two turns: first the main buckets, then the overflow buckets; the second
   overrides the first, so an overflow slot is used whenever there is one.
  */
  method FindEmptySlot(w: Window, fMain: nat, sMain: nat) returns (at: int)
    requires fMain < 2 && sMain < 2
    ensures -1 <= at < WINDOW && (at >= 0 ==> Free(w[at]))
    ensures at == -1 <==> Full(w)
    ensures Both(w, 1 - fMain, 3 - sMain) > 0 ==> at >= 0 && Chosen(w, 1 - fMain, 3 - sMain, at)
    ensures at >= 0 && Both(w, 1 - fMain, 3 - sMain) == 0 ==> Chosen(w, fMain, 2 + sMain, at)
  {
    at := -1;
    var f, s := fMain, sMain;
    ghost var main := -1;
    for turn := 0 to 2
      invariant f == (if turn == 1 then 1 - fMain else fMain) && s == if turn == 1 then 1 - sMain else sMain
      invariant -1 <= at < WINDOW
      invariant turn < 2 ==> main == at
      invariant turn == 2 ==> Picked(w, 1 - fMain, 3 - sMain, main, at)
      invariant turn == 0 ==> at == -1
      invariant turn > 0 ==> Picked(w, fMain, 2 + sMain, -1, main)
    {
      at := EmptyIn(w, f, 2 + s, at);
      if turn == 0 {
        assert Picked(w, fMain, 2 + sMain, -1, at);
        main := at;
      } else {
        assert Picked(w, 1 - fMain, 3 - sMain, main, at);
      }
      f := OtherOne(f);
      s := OtherOne(s);
    }
    TwoTurns(w, fMain, sMain, main, at);
  }

  method OtherOne(x: nat) returns (y: nat)
    requires x < 2
    ensures y == 1 - x
  {
    y := (x + 1) % 2;
  }

  lemma TwoTurns(w: Window, fMain: nat, sMain: nat, main: int, at: int)
    requires fMain < 2 && sMain < 2 && -1 <= at < WINDOW
    requires Picked(w, fMain, 2 + sMain, -1, main) && Picked(w, 1 - fMain, 3 - sMain, main, at)
    ensures at >= 0 ==> Free(w[at])
    ensures at == -1 <==> Full(w)
    ensures Both(w, 1 - fMain, 3 - sMain) > 0 ==> at >= 0 && Chosen(w, 1 - fMain, 3 - sMain, at)
    ensures at >= 0 && Both(w, 1 - fMain, 3 - sMain) == 0 ==> Chosen(w, fMain, 2 + sMain, at)
  {
    if at == -1 { AllFull(w, fMain, sMain); }
  }

  lemma FullBucket(w: Window, b: nat, i: nat)
    requires b < 4 && FreeCount(BucketOf(w, b)) == 0 && Within(i, b)
    ensures !Free(w[i])
  {
    assert BucketOf(w, b)[i - First(b)] == w[i];
    assert i - First(b) !in FreeSlots(BucketOf(w, b), ASSOC);
  }

  lemma AllFull(w: Window, fMain: nat, sMain: nat)
    requires fMain < 2 && sMain < 2 && Both(w, fMain, 2 + sMain) == 0 && Both(w, 1 - fMain, 3 - sMain) == 0
    ensures Full(w)
  {
    forall i | 0 <= i < WINDOW ensures !Free(w[i]) {
      var b := if i < First(1) then 0 else if i < First(2) then 1 else if i < First(3) then 2 else 3;
      NoneFree(w, fMain, sMain, b);
      FullBucket(w, b, i);
    }
  }

  lemma NoneFree(w: Window, fMain: nat, sMain: nat, b: nat)
    requires fMain < 2 && sMain < 2 && Both(w, fMain, 2 + sMain) == 0 && Both(w, 1 - fMain, 3 - sMain) == 0 && b < 4
    ensures FreeCount(BucketOf(w, b)) == 0
  {
    assert b == fMain || b == 1 - fMain || b == 2 + sMain || b == 3 - sMain;
  }

  /** A slot in use whose fingerprint matches. */
  predicate Candidate(s: RaceSlot, fp: Byte) {
    s.fp == fp && s.kvLen != 0
  }

  /** `find_kv_in_buckets`: the slots in use whose fingerprint matches, in window order. */
  method FindKv(w: Window, fp: Byte) returns (found: seq<nat>)
    ensures forall i :: 0 <= i < |found| ==> found[i] < WINDOW && Candidate(w[found[i]], fp)
    ensures forall i :: 0 <= i < |found| ==> w[found[i]].fp == fp && w[found[i]].kvLen > 0
    ensures forall i, j :: 0 <= i < j < |found| ==> found[i] < found[j]
    ensures forall k :: 0 <= k < WINDOW && w[k].fp == fp && w[k].kvLen > 0 ==> k in found
  {
    found := [];
    for k := 0 to WINDOW
      invariant forall i :: 0 <= i < |found| ==> found[i] < k && Candidate(w[found[i]], fp)
      invariant forall i, j :: 0 <= i < j < |found| ==> found[i] < found[j]
      invariant forall m :: 0 <= m < k && Candidate(w[m], fp) ==> m in found
    {
      if Candidate(w[k], fp) {
        found := found + [k];
      }
    }
  }
}
