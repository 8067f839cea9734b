/**
 How addresses, slots and log pointers are laid out in bytes: the 40-bit pointer of a slot, the slot
 read as one 8-byte word, and the 6-byte (address, server) pointer in a log tail.
*/
module Packing {
  import opened Common

  type Byte = b: nat | b < 256

  /** An address a slot can point to: below 2^48 and a multiple of 256. */
  predicate Aligned(addr: nat) {
    addr % 256 == 0 && addr < 0x1_0000_0000_0000
  }

  // Base-256 numerals, most significant byte first.

  function Digits(x: nat, n: nat): (d: seq<Byte>)
    ensures |d| == n
  {
    if n == 0 then [] else Digits(x / 256, n - 1) + [x % 256]
  }

  function Horner(d: seq<Byte>): nat {
    if d == [] then 0 else 256 * Horner(d[..|d| - 1]) + d[|d| - 1]
  }

  function Pow256(n: nat): nat {
    if n == 0 then 1 else 256 * Pow256(n - 1)
  }

  lemma {:induction false} HornerDigits(x: nat, n: nat)
    requires x < Pow256(n)
    ensures Horner(Digits(x, n)) == x
  {
    if n > 0 {
      HornerDigits(x / 256, n - 1);
      assert Digits(x, n)[..n - 1] == Digits(x / 256, n - 1);
    }
  }

  lemma {:induction false} DigitsHorner(d: seq<Byte>)
    ensures Horner(d) < Pow256(|d|)
    ensures Digits(Horner(d), |d|) == d
  {
    if d != [] {
      DigitsHorner(d[..|d| - 1]);
    }
  }

  /** `HashIndexConvert64To40Bits`: bytes 5 down to 1 of the address. */
  function Pack40(addr: nat): (p: seq<Byte>)
    ensures |p| == 5
  {
    Digits(addr / 256, 5)
  }

  /** The same five bytes as the shifts and masks of the code name them. */
  lemma Pack40Shifts(addr: nat)
    ensures Pack40(addr) == [addr / 0x100_0000_0000 % 256, addr / 0x1_0000_0000 % 256,
                             addr / 0x100_0000 % 256, addr / 0x1_0000 % 256, addr / 0x100 % 256]
  {
    var x := addr / 256;
    var y := x / 256;
    var z := y / 256;
    var u := z / 256;
    assert y == addr / 0x1_0000;
    assert z == addr / 0x100_0000;
    assert u == addr / 0x1_0000_0000;
    assert u / 256 == addr / 0x100_0000_0000;
    assert Digits(u / 256, 1) == Digits(u / 256 / 256, 0) + [u / 256 % 256];
    assert Digits(u, 2) == Digits(u / 256, 1) + [u % 256];
    assert Digits(z, 3) == Digits(u, 2) + [z % 256];
    assert Digits(y, 4) == Digits(z, 3) + [y % 256];
    assert Digits(x, 5) == Digits(y, 4) + [x % 256];
  }

  /** `HashIndexConvert40To64Bits`: the five bytes back in place, the lowest byte zero. */
  function Unpack40(p: seq<Byte>): nat
    requires |p| == 5
  {
    var a: int, b: int, c: int, d: int, e: int := p[0], p[1], p[2], p[3], p[4];
    a * 0x100_0000_0000 + b * 0x1_0000_0000 + c * 0x100_0000 + d * 0x1_0000 + e * 0x100
  }

  lemma Unpack40Horner(p: seq<Byte>)
    requires |p| == 5
    ensures Unpack40(p) == 256 * Horner(p)
  {
    assert p[..4][..3] == p[..3] && p[..3][..2] == p[..2] && p[..2][..1] == p[..1] && p[..1][..0] == [];
    assert Horner(p[..1]) == p[0];
    assert Horner(p[..2]) == 256 * Horner(p[..1]) + p[1];
    assert Horner(p[..3]) == 256 * Horner(p[..2]) + p[2];
    assert Horner(p[..4]) == 256 * Horner(p[..3]) + p[3];
  }

  /** An aligned address survives the 40-bit pointer. */
  lemma UnpackPack(addr: nat)
    requires Aligned(addr)
    ensures Unpack40(Pack40(addr)) == addr
  {
    Unpack40Horner(Pack40(addr));
    assert Pow256(5) == 0x100_0000_0000;
    HornerDigits(addr / 256, 5);
  }

  /** Every pointer is the packing of an aligned address. */
  lemma PackUnpack(p: seq<Byte>)
    requires |p| == 5
    ensures Aligned(Unpack40(p)) && Pack40(Unpack40(p)) == p
  {
    Unpack40Horner(p);
    DigitsHorner(p);
    assert Pow256(5) == 0x100_0000_0000;
    assert Unpack40(p) / 256 == Horner(p);
  }

  /** `HashIndexConvert64To40Bits` into an output buffer. */
  method Convert64To40Bits(addr: nat, out: array<Byte>)
    requires out.Length >= 5
    modifies out
    ensures out[..5] == Pack40(addr)
    ensures out[5..] == old(out[5..])
  {
    out[0] := addr / 0x100_0000_0000 % 256;
    out[1] := addr / 0x1_0000_0000 % 256;
    out[2] := addr / 0x100_0000 % 256;
    out[3] := addr / 0x1_0000 % 256;
    out[4] := addr / 0x100 % 256;
    Pack40Shifts(addr);
  }

  datatype RaceSlot = RaceSlot(fp: Byte, kvLen: Byte, serverId: Byte, pointer: seq<Byte>)

  predicate Formed(s: RaceSlot) {
    |s.pointer| == 5
  }

  /** The bytes of the packed structure, last first: read as a word they are little-endian. */
  function SlotBytes(s: RaceSlot): (d: seq<Byte>)
    requires Formed(s)
    ensures |d| == 8
  {
    [s.pointer[4], s.pointer[3], s.pointer[2], s.pointer[1], s.pointer[0], s.serverId, s.kvLen, s.fp]
  }

  /** `ConvertSlotToInt`. */
  function SlotWord(s: RaceSlot): (w: Word)
    requires Formed(s)
  {
    DigitsHorner(SlotBytes(s));
    WordRange();
    Horner(SlotBytes(s))
  }

  lemma WordRange()
    ensures Pow256(8) == WORD_LIMIT
  {
    assert Pow256(4) == 0x1_0000_0000;
    assert Pow256(8) == 256 * 256 * 256 * 256 * Pow256(4);
  }

  /** Little-endian: fingerprint, length and server are the low three bytes, then the pointer byte by byte. */
  lemma SlotWordValue(s: RaceSlot)
    requires Formed(s)
    ensures var fp: int, n: int, sid: int := s.fp, s.kvLen, s.serverId;
            var a: int, b: int, c: int, d: int, e: int := s.pointer[0], s.pointer[1], s.pointer[2], s.pointer[3], s.pointer[4];
            SlotWord(s) == fp + 0x100 * n + 0x1_0000 * sid + 0x100_0000 * a + 0x1_0000_0000 * b
                           + 0x100_0000_0000 * c + 0x1_0000_0000_0000 * d + 0x100_0000_0000_0000 * e
  {
    var d := SlotBytes(s);
    forall n | 0 <= n < 8 ensures d[..n + 1][..n] == d[..n] {}
    assert d[..8] == d && d[..0] == [];
    assert Horner(d[..1]) == d[0];
    assert Horner(d[..2]) == 256 * Horner(d[..1]) + d[1];
    assert Horner(d[..3]) == 256 * Horner(d[..2]) + d[2];
    assert Horner(d[..4]) == 256 * Horner(d[..3]) + d[3];
    assert Horner(d[..5]) == 256 * Horner(d[..4]) + d[4];
    assert Horner(d[..6]) == 256 * Horner(d[..5]) + d[5];
    assert Horner(d[..7]) == 256 * Horner(d[..6]) + d[6];
    assert Horner(d[..8]) == 256 * Horner(d[..7]) + d[7];
  }

  /** The slot a word encodes. */
  function WordSlot(w: Word): (s: RaceSlot)
    ensures Formed(s)
  {
    var d := Digits(w, 8);
    RaceSlot(d[7], d[6], d[5], [d[4], d[3], d[2], d[1], d[0]])
  }

  lemma SlotRoundTrip(s: RaceSlot)
    requires Formed(s)
    ensures WordSlot(SlotWord(s)) == s
  {
    DigitsHorner(SlotBytes(s));
  }

  lemma WordRoundTrip(w: Word)
    ensures SlotWord(WordSlot(w)) == w
  {
    WordRange();
    HornerDigits(w, 8);
    assert SlotBytes(WordSlot(w)) == Digits(w, 8);
  }

  /** `fill_slot`: the slot of a freshly written object. */
  function FillSlot(fp: Byte, numSubblocks: Byte, serverId: Byte, addr: nat): (s: RaceSlot)
    ensures Formed(s)
  {
    RaceSlot(fp, numSubblocks, serverId, Pack40(addr))
  }

  function SlotAddr(s: RaceSlot): nat
    requires Formed(s)
  {
    Unpack40(s.pointer)
  }

  /** Two slot words are equal only if they name the same place: fresh memory gives fresh words. */
  lemma SlotWordInjective(fp: Byte, n: Byte, sid: Byte, addr: nat, fp': Byte, n': Byte, sid': Byte, addr': nat)
    requires Aligned(addr) && Aligned(addr')
    ensures SlotWord(FillSlot(fp, n, sid, addr)) == SlotWord(FillSlot(fp', n', sid', addr')) <==>
              fp == fp' && n == n' && sid == sid' && addr == addr'
  {
    SlotRoundTrip(FillSlot(fp, n, sid, addr));
    SlotRoundTrip(FillSlot(fp', n', sid', addr'));
    UnpackPack(addr);
    UnpackPack(addr');
  }

  /** A (server, address) pair combined in one integer: the low byte of an aligned address is free. */
  function Combine(sid: Byte, addr: nat): nat
    requires Aligned(addr)
  {
    addr + sid
  }

  function CombinedSid(c: nat): Byte {
    c % 256
  }

  function CombinedAddr(c: nat): nat {
    c / 256 * 256
  }

  lemma CombineRoundTrip(sid: Byte, addr: nat)
    requires Aligned(addr)
    ensures CombinedSid(Combine(sid, addr)) == sid && CombinedAddr(Combine(sid, addr)) == addr
  {
  }

  /** `update_log_tail`: five address bytes, then the low byte, which holds the server. */
  function PackTail(c: nat): (t: seq<Byte>)
    ensures |t| == 6
  {
    Pack40(c) + [c % 256]
  }

  /** `mm_traverse_log` reads the pointer back as (server, address). */
  function TailSid(t: seq<Byte>): Byte
    requires |t| == 6
  {
    t[5]
  }

  function TailAddr(t: seq<Byte>): nat
    requires |t| == 6
  {
    Unpack40(t[..5])
  }

  lemma TailRoundTrip(sid: Byte, addr: nat)
    requires Aligned(addr)
    ensures TailSid(PackTail(Combine(sid, addr))) == sid
    ensures TailAddr(PackTail(Combine(sid, addr))) == addr
  {
    var t := PackTail(addr + sid);
    LowByteLost(addr, sid);
    assert t[..5] == Pack40(addr);
    UnpackPack(addr);
    assert t[5] == sid by { assert (addr + sid) % 256 == sid; }
  }

  /** The low byte does not reach the 40-bit pointer. */
  lemma LowByteLost(addr: nat, low: Byte)
    requires addr % 256 == 0
    ensures Pack40(addr + low) == Pack40(addr)
  {
    assert (addr + low) / 256 == addr / 256;
  }
}
