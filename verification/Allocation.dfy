/**
 One configuration shared by all clients and servers: its replica groups, the subblocks the groups'
 blocks are cut into, and where their copies lie.
*/
module Allocation {
  import opened Common
  import opened Packing
  import Arithmetic
  import opened BlockMap
  import BlockTiling
  import opened ReplicaMap
  import opened ServerMemory
  import opened ClientMemory
  import opened LogChain

  /** One shared configuration: the replica groups and the cutting of blocks into subblocks. */
  datatype Setting = Setting(c: Config, l: Layout, gs: seq<Group>)

  ghost predicate Proper(s: Setting) {
    && Packable(s.c) && Sound(s.l) && s.l.num * s.l.sub <= s.c.size && Shared(s.c, s.gs)
  }

  /** The block of a group as its client registers it. */
  function BlockOf(c: Config, group: Group): (b: Piece)
    requires Sane(c)
    ensures |b| == |group.addrs|
  {
    seq(|group.addrs|, i requires 0 <= i < |group.addrs| => Copy(Sid(c, group.first, i), group.addrs[i]))
  }

  ghost predicate Known(s: Setting, held: seq<nat>) {
    forall i :: 0 <= i < |held| ==> held[i] < |s.gs|
  }

  function BlocksOf(s: Setting, held: seq<nat>): (bs: seq<Piece>)
    requires Sane(s.c) && forall i :: 0 <= i < |held| ==> held[i] < |s.gs|
    ensures |bs| == |held|
  {
    seq(|held|, i requires 0 <= i < |held| => BlockOf(s.c, s.gs[held[i]]))
  }

  lemma OffInjective(l: Layout, i: nat, j: nat)
    requires Sound(l)
    ensures Off(l, i) == Off(l, j) <==> i == j
  {
    assert (j - i) * l.sub == Off(l, j) - Off(l, i);
  }

  function SubOf(s: Setting, g: nat, i: nat): Piece
    requires Sane(s.c) && g < |s.gs|
  {
    SubAt(s.l, BlockOf(s.c, s.gs[g]), i)
  }

  /** Every subblock of every group has its own primary copy. */
  lemma PrimaryApart(s: Setting, g: nat, h: nat, i: nat, j: nat)
    requires Proper(s) && g < |s.gs| && h < |s.gs| && i < s.l.num && j < s.l.num
    ensures Primary(SubOf(s, g, i)) == Primary(SubOf(s, h, j)) <==> g == h && i == j
  {
    var n := GroupCount(s.c);
    MappedApart(s.c, n);
    OffFits(s.l, i);
    OffFits(s.l, j);
    OffInjective(s.l, i, j);
    assert s.gs[g].addrs != [] && s.gs[h].addrs != [];
    if g < h {
      assert Before(s.c, s.gs[g], s.gs[h]);
    } else if h < g {
      assert Before(s.c, s.gs[h], s.gs[g]);
    }
  }

  lemma PrimaryUsable(s: Setting, g: nat, i: nat)
    requires Proper(s) && g < |s.gs| && i < s.l.num
    ensures Usable(Primary(SubOf(s, g, i)))
  {
    var t := Mapped(s.c, GroupCount(s.c)).value;
    MappedPlaced(s.c, GroupCount(s.c), 256);
    assert GroupPlaced(s.c, s.gs[g], t.ptr, 256);
    OffFits(s.l, i);
    Arithmetic.AddMultiple(s.gs[g].addrs[0], Off(s.l, i), 256);
  }

  /** A data subblock of the held groups is a subblock of one of them. */
  lemma {:induction false} AllSource(s: Setting, held: seq<nat>, p: Piece) returns (g: nat, i: nat)
    requires Proper(s) && Known(s, held) && p in All(s.l, BlocksOf(s, held))
    ensures g in held && g < |s.gs| && s.l.lead <= i < s.l.num && p == SubOf(s, g, i)
  {
    var n := |held| - 1;
    var bs := BlocksOf(s, held);
    assert bs[..n] == BlocksOf(s, held[..n]);
    if p in All(s.l, bs[..n]) {
      g, i := AllSource(s, held[..n], p);
    } else {
      DataShape(s.l, bs[n], s.l.lead);
      var k :| 0 <= k < s.l.num - s.l.lead && DataFrom(s.l, bs[n], s.l.lead)[k] == p;
      g, i := held[n], s.l.lead + k;
    }
  }

  /** Different groups give data subblocks with different primary copies. */
  lemma {:induction false} HeldSpread(s: Setting, held: seq<nat>)
    requires Proper(s) && Known(s, held) && NoDup(held)
    ensures Spread(All(s.l, BlocksOf(s, held)))
  {
    if held != [] {
      var n := |held| - 1;
      var bs := BlocksOf(s, held);
      assert bs[..n] == BlocksOf(s, held[..n]);
      HeldSpread(s, held[..n]);
      SpreadOneMore(s, held[..n], held[n]);
    }
  }

  lemma SpreadOneMore(s: Setting, held: seq<nat>, g: nat)
    requires Proper(s) && Known(s, held) && g !in held && g < |s.gs| && Spread(All(s.l, BlocksOf(s, held)))
    ensures Spread(All(s.l, BlocksOf(s, held)) + DataFrom(s.l, BlockOf(s.c, s.gs[g]), s.l.lead))
  {
    var a, d := All(s.l, BlocksOf(s, held)), DataFrom(s.l, BlockOf(s.c, s.gs[g]), s.l.lead);
    DataShape(s.l, BlockOf(s.c, s.gs[g]), s.l.lead);
    forall k | 0 <= k < |d| ensures d[k] == SubOf(s, g, s.l.lead + k) && Usable(Primary(d[k])) {
      PrimaryUsable(s, g, s.l.lead + k);
    }
    forall k, m | 0 <= k < m < |d| ensures Primary(d[k]) != Primary(d[m]) {
      PrimaryApart(s, g, g, s.l.lead + k, s.l.lead + m);
    }
    forall k, m | 0 <= k < |a| && 0 <= m < |d| ensures Primary(a[k]) != Primary(d[m]) {
      var h, i := AllSource(s, held, a[k]);
      PrimaryApart(s, h, g, i, s.l.lead + m);
    }
    SpreadJoin(a, d);
  }

  lemma SpreadJoin(a: seq<Piece>, d: seq<Piece>)
    requires Spread(a) && (forall k :: 0 <= k < |d| ==> Usable(Primary(d[k])))
    requires forall k, m :: 0 <= k < m < |d| ==> Primary(d[k]) != Primary(d[m])
    requires forall k, m :: 0 <= k < |a| && 0 <= m < |d| ==> Primary(a[k]) != Primary(d[m])
    ensures Spread(a + d)
  {
    var r := Primaries(a + d);
    forall x, y | 0 <= x < y < |r| ensures r[x] != r[y] {
      if y < |a| {
        assert Primaries(a)[x] != Primaries(a)[y];
      } else if x >= |a| {
        assert Primary(d[x - |a|]) != Primary(d[y - |a|]);
      }
    }
  }

  /** Every configuration that tiles gives a proper setting. */
  lemma ProperSetting(c: Config, l: Layout) returns (s: Setting)
    requires BlockTiling.Tileable(c) && Packable(c) && Sound(l) && l.num * l.sub <= c.size
    ensures Proper(s) && s.c == c && s.l == l
  {
    BlockTiling.Tiling(c);
    MappedApart(c, GroupCount(c));
    s := Setting(c, l, Mapped(c, GroupCount(c)).value.groups);
  }

  /** The slot of copy `r` of an object. */
  function CopyOf(p: Piece, r: nat, fp: Byte, len: Byte): RaceSlot
    requires r < |p|
  {
    FillSlot(fp, len, p[r].sid, p[r].addr)
  }

  lemma CopyIsSub(c: Config, l: Layout, group: Group, i: nat, r: nat, fp: Byte, len: Byte)
    requires Sane(c) && r < |group.addrs|
    ensures CopySlot(c, group, r, Off(l, i), fp, len) == CopyOf(SubAt(l, BlockOf(c, group), i), r, fp, len)
  {
  }

  /**
   Redirection stays with the object: for a slot of any copy of a subblock, every place its block's
   table entry names is the place of another copy that was handed out with that subblock.
  */
  lemma RedirectedToCopy(c: Config, l: Layout, t: Tables, group: Group, ptr: seq<nat>, i: nat, r: nat, j: nat, slot: RaceSlot)
    requires Packable(c) && c.replicas >= 2 && Redirectable(c, group, ptr) && Entered(t, Names(c, group))
    requires Sound(l) && l.num * l.sub <= c.size && i < l.num && r < c.replicas && j < c.replicas - 1
    requires slot == CopyOf(SubAt(l, BlockOf(c, group), i), r, slot.fp, slot.kvLen)
    ensures KeyOf(slot, c.size) in t.total && |t.total[KeyOf(slot, c.size)]| == c.replicas - 1
    ensures Member(r, j) < c.replicas && Member(r, j) != r
    ensures Moved(slot, c.size, t.total[KeyOf(slot, c.size)][j])
              == CopyOf(SubAt(l, BlockOf(c, group), i), Member(r, j), slot.fp, slot.kvLen)
  {
    OffFits(l, i);
    CopyIsSub(c, l, group, i, r, slot.fp, slot.kvLen);
    EntryFound(c, t, group, ptr, r, Off(l, i), slot);
    MovedIsCopy(c, group, ptr, r, j, Off(l, i), slot);
    CopyIsSub(c, l, group, i, Member(r, j), slot.fp, slot.kvLen);
  }

  /** `others` names the places of all copies of `p` but copy `r`, in order. */
  ghost predicate NamesOthers(size: nat, others: seq<nat>, p: Piece, r: nat, slot: RaceSlot)
    requires size > 0 && Formed(slot)
  {
    && |others| == |p| - 1 && r < |p|
    && forall j :: 0 <= j < |others| ==> Moved(slot, size, others[j]) == CopyOf(p, Member(r, j), slot.fp, slot.kvLen)
  }

  lemma AllOthersNamed(c: Config, l: Layout, t: Tables, group: Group, ptr: seq<nat>, i: nat, r: nat, slot: RaceSlot)
    requires Packable(c) && c.replicas >= 2 && Redirectable(c, group, ptr) && Entered(t, Names(c, group))
    requires Sound(l) && l.num * l.sub <= c.size && i < l.num && r < c.replicas
    requires slot == CopyOf(SubAt(l, BlockOf(c, group), i), r, slot.fp, slot.kvLen)
    ensures Formed(slot) && KeyOf(slot, c.size) in t.total
    ensures |SubAt(l, BlockOf(c, group), i)| == c.replicas
    ensures NamesOthers(c.size, t.total[KeyOf(slot, c.size)], SubAt(l, BlockOf(c, group), i), r, slot)
  {
    forall j | 0 <= j < c.replicas - 1
      ensures KeyOf(slot, c.size) in t.total && |t.total[KeyOf(slot, c.size)]| == c.replicas - 1
      ensures Moved(slot, c.size, t.total[KeyOf(slot, c.size)][j])
                == CopyOf(SubAt(l, BlockOf(c, group), i), Member(r, j), slot.fp, slot.kvLen)
    {
      RedirectedToCopy(c, l, t, group, ptr, i, r, j, slot);
    }
    RedirectedToCopy(c, l, t, group, ptr, i, r, 0, slot);
  }
}
