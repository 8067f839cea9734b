/**
 The client's two tables over the replica groups (`alloc_block_map_`, `total_block_map_`), their
 agreement with the blocks the servers hand out, and the redirection of a cached slot away from a
 crashed server (`check_failed_cache`).
*/
module ReplicaMap {
  import opened Common
  import opened Packing
  import opened Arithmetic
  import opened BlockMap

  /** The low byte of every block address is free for a server id. */
  predicate Packable(c: Config) {
    && Sane(c) && c.base % 256 == 0 && c.size % 256 == 0
    && 0 < c.base && c.limit + c.size <= 0x1_0000_0000_0000
  }

  // Where the blocks of a group lie: each is the current end of its server's used area.

  lemma {:induction false} FillRises(c: Config, ptr: seq<nat>, st: nat, n: nat)
    requires Sane(c) && |ptr| == c.memories && Fill(c, ptr, st, n).Some?
    ensures var (addrs, p) := Fill(c, ptr, st, n).value;
            && (forall s :: 0 <= s < c.memories ==> ptr[s] <= p[s])
            && (forall i :: 0 <= i < n ==> ptr[Sid(c, st, i)] <= addrs[i] && addrs[i] + c.size <= p[Sid(c, st, i)])
            && (forall i :: 0 <= i < n ==> addrs[i] < c.limit)
            && (forall i, j :: 0 <= i < j < n && Sid(c, st, i) == Sid(c, st, j) ==> addrs[i] + c.size <= addrs[j])
  {
    if n > 0 {
      FillRises(c, ptr, st, n - 1);
    }
  }

  lemma {:induction false} FillAligned(c: Config, ptr: seq<nat>, st: nat, n: nat, d: nat)
    requires Sane(c) && |ptr| == c.memories && Fill(c, ptr, st, n).Some?
    requires d > 0 && c.size % d == 0 && forall s :: 0 <= s < c.memories ==> ptr[s] % d == 0
    ensures forall i :: 0 <= i < n ==> Fill(c, ptr, st, n).value.0[i] % d == 0
    ensures forall s :: 0 <= s < c.memories ==> Fill(c, ptr, st, n).value.1[s] % d == 0
  {
    if n > 0 {
      FillAligned(c, ptr, st, n - 1, d);
      var p := Fill(c, ptr, st, n - 1).value.1;
      AddMultiple(p[Sid(c, st, n - 1)], c.size, d);
    }
  }

  /** Every block lies in `[base, limit)`, below its server's pointer, on a multiple of `d`. */
  ghost predicate Placed(c: Config, s: State, d: nat)
    requires Sane(c) && d > 0
  {
    && |s.ptr| == c.memories
    && (forall t :: 0 <= t < c.memories ==> c.base <= s.ptr[t] && s.ptr[t] % d == 0)
    && forall g :: 0 <= g < |s.groups| ==> GroupPlaced(c, s.groups[g], s.ptr, d)
  }

  ghost predicate GroupPlaced(c: Config, group: Group, ptr: seq<nat>, d: nat)
    requires Sane(c) && d > 0 && |ptr| == c.memories
  {
    && group.first < c.memories && |group.addrs| == c.replicas
    && (forall i :: 0 <= i < c.replicas ==>
          && c.base <= group.addrs[i] < c.limit && group.addrs[i] + c.size <= ptr[Sid(c, group.first, i)]
          && group.addrs[i] % d == 0)
    && (forall i, j :: 0 <= i < j < c.replicas && Sid(c, group.first, i) == Sid(c, group.first, j) ==>
          group.addrs[i] + c.size <= group.addrs[j])
  }

  /** Wherever the two groups share a server, `h` has a block that starts after the one of `g` ends. */
  ghost predicate Before(c: Config, g: Group, h: Group)
    requires Sane(c) && |g.addrs| == |h.addrs| == c.replicas
  {
    forall i, j :: 0 <= i < c.replicas && 0 <= j < c.replicas ==>
      Sid(c, g.first, i) == Sid(c, h.first, j) ==> g.addrs[i] + c.size <= h.addrs[j]
  }

  /** No block is in two groups. */
  ghost predicate Apart(c: Config, gs: seq<Group>)
    requires Sane(c)
  {
    && (forall g :: 0 <= g < |gs| ==> |gs[g].addrs| == c.replicas)
    && (forall g, h :: 0 <= g < h < |gs| ==> Before(c, gs[g], gs[h]))
  }

  lemma {:induction false} MappedPlaced(c: Config, n: nat, d: nat)
    requires Sane(c) && d > 0 && c.base % d == 0 && c.size % d == 0 && Mapped(c, n).Some?
    ensures Placed(c, Mapped(c, n).value, d)
  {
    if n > 0 {
      MappedPlaced(c, n - 1, d);
      var s := Mapped(c, n - 1).value;
      var st := Skip(c, s.ptr, (n - 1) % c.memories, c.memories);
      FillRises(c, s.ptr, st, c.replicas);
      FillAligned(c, s.ptr, st, c.replicas, d);
      var t := Mapped(c, n).value;
      assert GroupPlaced(c, t.groups[n - 1], t.ptr, d);
      forall g | 0 <= g < n - 1 ensures GroupPlaced(c, t.groups[g], t.ptr, d) {
        assert GroupPlaced(c, s.groups[g], s.ptr, d);
        assert t.groups[g] == s.groups[g];
      }
    }
  }

  lemma {:induction false} MappedApart(c: Config, n: nat)
    requires Sane(c) && Mapped(c, n).Some?
    ensures Apart(c, Mapped(c, n).value.groups)
  {
    if n > 0 {
      MappedApart(c, n - 1);
      MappedPlaced(c, n - 1, 1);
      var s, t := Mapped(c, n - 1).value, Mapped(c, n).value;
      FillRises(c, s.ptr, t.groups[n - 1].first, c.replicas);
      forall g, h | 0 <= g < h < n ensures Before(c, t.groups[g], t.groups[h]) {
        assert t.groups[g] == s.groups[g] && GroupPlaced(c, s.groups[g], s.ptr, 1);
        if h < n - 1 { assert t.groups[h] == s.groups[h]; }
      }
    }
  }

  // Combined names of the blocks.

  /** The members of a group as the tables name them: block address plus server id. */
  function Names(c: Config, group: Group): (r: seq<nat>)
    requires Sane(c)
    ensures |r| == |group.addrs|
  {
    seq(|group.addrs|, i requires 0 <= i < |group.addrs| => group.addrs[i] + Sid(c, group.first, i))
  }

  lemma NameParts(a: nat, s: Byte, b: nat, t: Byte)
    requires a % 256 == 0 && b % 256 == 0
    ensures a + s == b + t <==> a == b && s == t
  {
    assert a == a / 256 * 256 && b == b / 256 * 256;
  }

  /** Two members have the same name only if they are the same block of the same server. */
  lemma NamesMeet(c: Config, g: Group, h: Group, ptr: seq<nat>, i: nat, j: nat)
    requires Sane(c) && |ptr| == c.memories && i < c.replicas && j < c.replicas
    requires GroupPlaced(c, g, ptr, 256) && GroupPlaced(c, h, ptr, 256)
    ensures Names(c, g)[i] == Names(c, h)[j] <==>
              g.addrs[i] == h.addrs[j] && Sid(c, g.first, i) == Sid(c, h.first, j)
  {
    NameParts(g.addrs[i], Sid(c, g.first, i), h.addrs[j], Sid(c, h.first, j));
  }

  lemma NamesApart(c: Config, n: nat, g: nat, h: nat, i: nat, j: nat)
    requires Packable(c) && Mapped(c, n).Some? && g < n && h < n && i < c.replicas && j < c.replicas
    ensures var gs := Mapped(c, n).value.groups;
            && |gs[g].addrs| == |gs[h].addrs| == c.replicas
            && 0 < Names(c, gs[g])[i]
            && (Names(c, gs[g])[i] == Names(c, gs[h])[j] <==> g == h && i == j)
  {
    var s := Mapped(c, n).value;
    MappedPlaced(c, n, 256);
    MappedApart(c, n);
    NamesMeet(c, s.groups[g], s.groups[h], s.ptr, i, j);
    if g < h {
      assert Before(c, s.groups[g], s.groups[h]);
    } else if h < g {
      assert Before(c, s.groups[h], s.groups[g]);
    }
  }

  function Others(names: seq<nat>, i: nat): seq<nat>
    requires i < |names|
  {
    Pushed(names, i, |names|)
  }

  /** What the inner loop has pushed for member `i` when it reaches `j`. */
  function Pushed(names: seq<nat>, i: nat, j: nat): seq<nat>
    requires i < |names| && j <= |names|
  {
    if j <= i then names[..j] else names[..i] + names[i + 1..j]
  }

  lemma PushedNext(names: seq<nat>, i: nat, j: nat)
    requires i < |names| && j < |names|
    ensures Pushed(names, i, j + 1) == if j == i then Pushed(names, i, j) else Pushed(names, i, j) + [names[j]]
  {
  }

  datatype Tables = Tables(total: map<nat, seq<nat>>, alloc: map<nat, seq<nat>>)

  /** What one group contributes: each member leads to the others, the first one is allocatable. */
  ghost predicate Entered(t: Tables, names: seq<nat>)
    requires names != []
  {
    && names[0] in t.alloc
    && t.alloc[names[0]] == Backups(names)
    && (|names| > 1 ==> forall i :: 0 <= i < |names| ==> Listed(t.total, names, i))
  }

  /** The entry of member `i` of a group: all the other members. */
  ghost predicate Listed(total: map<nat, seq<nat>>, names: seq<nat>, i: nat) {
    i < |names| && names[i] in total && total[names[i]] == Others(names, i)
  }

  /** The tables of the named groups, and nothing else. */
  ghost predicate TablesFor(ns: seq<seq<nat>>, t: Tables) {
    && (forall g :: 0 <= g < |ns| ==> ns[g] != [] && Entered(t, ns[g]))
    && (forall k :: k in t.alloc ==> Heads(ns, k))
    && (forall k :: k in t.total ==> Holds(ns, k))
  }

  ghost predicate Heads(ns: seq<seq<nat>>, k: nat) {
    exists g :: 0 <= g < |ns| && ns[g] != [] && ns[g][0] == k
  }

  ghost predicate Holds(ns: seq<seq<nat>>, k: nat) {
    exists g :: 0 <= g < |ns| && k in ns[g]
  }

  lemma HeadsGrow(ns: seq<seq<nat>>, names: seq<nat>, k: nat)
    requires names != []
    ensures Heads(ns + [names], k) <==> Heads(ns, k) || k == names[0]
  {
    var after := ns + [names];
    if Heads(ns, k) {
      var g :| 0 <= g < |ns| && ns[g] != [] && ns[g][0] == k;
      assert after[g] == ns[g];
    }
    if k == names[0] { assert after[|ns|] == names; }
  }

  lemma HoldsGrow(ns: seq<seq<nat>>, names: seq<nat>, k: nat)
    ensures Holds(ns + [names], k) <==> Holds(ns, k) || k in names
  {
    var after := ns + [names];
    if Holds(ns, k) {
      var g :| 0 <= g < |ns| && k in ns[g];
      assert after[g] == ns[g];
    }
    if k in names { assert after[|ns|] == names; }
  }

  function AllNames(c: Config, gs: seq<Group>): (ns: seq<seq<nat>>)
    requires Sane(c)
    ensures |ns| == |gs|
  {
    seq(|gs|, g requires 0 <= g < |gs| => Names(c, gs[g]))
  }

  /** Names that are nonzero and never shared, inside a group or between two. */
  ghost predicate Labels(ns: seq<seq<nat>>) {
    && (forall g :: 0 <= g < |ns| ==> ns[g] != [] && 0 !in ns[g] && NoDup(ns[g]))
    && (forall g, h :: 0 <= g < h < |ns| ==> Disjoint(ns[g], ns[h]))
  }

  ghost predicate Disjoint(a: seq<nat>, b: seq<nat>) {
    forall x :: x in a ==> x !in b
  }

  lemma MappedLabels(c: Config, n: nat)
    requires Packable(c) && Mapped(c, n).Some?
    ensures Labels(AllNames(c, Mapped(c, n).value.groups))
  {
    var gs := Mapped(c, n).value.groups;
    forall g | 0 <= g < n ensures Names(c, gs[g]) != [] && 0 !in Names(c, gs[g]) && NoDup(Names(c, gs[g])) {
      NamesApart(c, n, g, g, 0, 0);
      forall i | 0 <= i < c.replicas ensures Names(c, gs[g])[i] != 0 { NamesApart(c, n, g, g, i, i); }
      forall i, j | 0 <= i < j < c.replicas ensures Names(c, gs[g])[i] != Names(c, gs[g])[j] {
        NamesApart(c, n, g, g, i, j);
      }
    }
    forall g, h | 0 <= g < h < n ensures Disjoint(Names(c, gs[g]), Names(c, gs[h])) {
      NamesApart(c, n, g, h, 0, 0);
      forall i, j | 0 <= i < c.replicas && 0 <= j < c.replicas ensures Names(c, gs[g])[i] != Names(c, gs[h])[j] {
        NamesApart(c, n, g, h, i, j);
      }
    }
  }

  /** `m[k].push_back(v)` */
  function Push(m: map<nat, seq<nat>>, k: nat, v: nat): map<nat, seq<nat>> {
    m[k := (if k in m then m[k] else []) + [v]]
  }

  /** `m` with the entry `k` built by pushing `vs`; nothing pushed leaves no entry. */
  function With(m: map<nat, seq<nat>>, k: nat, vs: seq<nat>): map<nat, seq<nat>> {
    if vs == [] then m else m[k := vs]
  }

  lemma PushWith(m: map<nat, seq<nat>>, k: nat, vs: seq<nat>, v: nat)
    requires k !in m
    ensures Push(With(m, k, vs), k, v) == With(m, k, vs + [v])
  {
    if vs == [] {
      assert [] + [v] == [v];
    } else {
      assert m[k := vs][k := vs + [v]] == m[k := vs + [v]];
    }
  }

  /** The allocation entry of a group: the other members, or a lone 0 when there are none. */
  function Backups(names: seq<nat>): seq<nat>
    requires names != []
  {
    if |names| == 1 then [0] else names[1..]
  }

  /** The entries of member `i`. */
  method EnterMember(t: Tables, names: seq<nat>, i: nat) returns (r: Option<Tables>)
    requires i < |names| && names[i] !in t.total && (i == 0 ==> names[0] !in t.alloc)
    ensures r.None? <==> i == 0 && 0 in names[1..]
    ensures r.Some? ==> r.value.total == With(t.total, names[i], Others(names, i))
    ensures r.Some? ==> r.value.alloc == if i > 0 then t.alloc else With(t.alloc, names[0], Backups(names))
  {
    var total, alloc := t.total, t.alloc;
    for j := 0 to |names|
      invariant total == With(t.total, names[i], Pushed(names, i, j))
      invariant alloc == if i > 0 then t.alloc else With(t.alloc, names[0], Pushed(names, 0, j))
      invariant i == 0 && j > 0 ==> 0 !in names[1..j]
    {
      PushedNext(names, i, j);
      if j != i {
        PushWith(t.total, names[i], Pushed(names, i, j), names[j]);
        total := Push(total, names[i], names[j]);
        if i == 0 {
          PushWith(t.alloc, names[0], Pushed(names, 0, j), names[j]);
          alloc := Push(alloc, names[i], names[j]);
          if names[j] == 0 {
            assert names[1..][j - 1] == 0;
            return None;
          }
        }
      }
    }
    assert Pushed(names, 0, |names|) == names[1..];
    if |names| == 1 {
      assert names[1..] == [] && [] + [0] == [0];
      PushWith(t.alloc, names[0], [], 0);
      alloc := Push(alloc, names[0], 0);
    }
    return Some(Tables(total, alloc));
  }

  /** A group whose members the tables do not know yet. */
  ghost predicate Unknown(t: Tables, names: seq<nat>) {
    && names != [] && NoDup(names)
    && names[0] !in t.alloc && (forall i :: 0 <= i < |names| ==> names[i] !in t.total)
  }

  method EnterGroup(t: Tables, names: seq<nat>) returns (r: Option<Tables>)
    requires Unknown(t, names)
    ensures r.None? <==> 0 in names[1..]
    ensures r.Some? ==> Grown(t, r.value, names, |names|)
  {
    var u := t;
    for i := 0 to |names|
      invariant Grown(t, u, names, i)
      invariant i > 0 ==> 0 !in names[1..]
    {
      assert names[i] !in u.total;
      var e := EnterMember(u, names, i);
      if e.None? { return None; }
      GrowMember(t, u, e.value, names, i);
      u := e.value;
    }
    return Some(u);
  }

  /** `u` is `t` with the entries of the first `i` members of a group. */
  ghost predicate Grown(t: Tables, u: Tables, names: seq<nat>, i: nat)
    requires i <= |names| && names != []
  {
    && u.alloc == (if i == 0 then t.alloc else t.alloc[names[0] := Backups(names)])
    && (forall k :: k in t.total ==> k in u.total && u.total[k] == t.total[k])
    && (forall k :: k in u.total && k !in t.total ==> k in names[..i])
    && (|names| > 1 ==> forall m :: 0 <= m < i ==> Listed(u.total, names, m))
  }

  lemma GrowMember(t: Tables, u: Tables, v: Tables, names: seq<nat>, i: nat)
    requires i < |names| && Unknown(t, names) && Grown(t, u, names, i) && names[i] !in u.total
    requires v.total == With(u.total, names[i], Others(names, i))
    requires v.alloc == if i > 0 then u.alloc else With(u.alloc, names[0], Backups(names))
    ensures Grown(t, v, names, i + 1)
  {
    assert |Others(names, i)| == |names| - 1;
    forall k | k in v.total && k !in t.total ensures k in names[..i + 1] {
      if k == names[i] { assert names[..i + 1][i] == k; } else { InLonger(names, i, k); }
    }
    if |names| > 1 {
      forall m | 0 <= m < i + 1 ensures Listed(v.total, names, m) {
        if m < i { ListedStays(u.total, names, m, i, Others(names, i)); }
      }
    }
  }

  lemma ListedStays(total: map<nat, seq<nat>>, names: seq<nat>, m: nat, i: nat, vs: seq<nat>)
    requires Listed(total, names, m) && i < |names| && names[m] != names[i]
    ensures Listed(With(total, names[i], vs), names, m)
  {
  }

  lemma InLonger(names: seq<nat>, i: nat, k: nat)
    requires i < |names| && k in names[..i]
    ensures k in names[..i + 1]
  {
    var m :| 0 <= m < i && names[m] == k;
    assert names[..i + 1][m] == k;
  }

  /** The next group is new to the tables of the ones before. */
  lemma GroupUnknown(ns: seq<seq<nat>>, g: nat, t: Tables)
    requires Labels(ns) && g < |ns| && TablesFor(ns[..g], t)
    ensures Unknown(t, ns[g]) && 0 !in ns[g][1..]
  {
    forall x | x in ns[g] ensures !Holds(ns[..g], x) && !Heads(ns[..g], x) {
      forall h | 0 <= h < g ensures x !in ns[..g][h] { assert Disjoint(ns[h], ns[g]); }
    }
    assert ns[g][0] in ns[g];
  }

  lemma EnteredStays(t: Tables, u: Tables, names: seq<nat>)
    requires names != [] && Entered(t, names)
    requires forall k :: k in t.total ==> k in u.total && u.total[k] == t.total[k]
    requires forall k :: k in t.alloc ==> k in u.alloc && u.alloc[k] == t.alloc[k]
    ensures Entered(u, names)
  {
    if |names| > 1 {
      forall i | 0 <= i < |names| ensures Listed(u.total, names, i) { assert Listed(t.total, names, i); }
    }
  }

  /** Entering one more group keeps the tables exact. */
  lemma TablesGrow(ns: seq<seq<nat>>, names: seq<nat>, t: Tables, u: Tables)
    requires TablesFor(ns, t) && Unknown(t, names) && Grown(t, u, names, |names|)
    ensures TablesFor(ns + [names], u)
  {
    var after := ns + [names];
    assert names[..|names|] == names;
    forall h | 0 <= h < |after| ensures after[h] != [] && Entered(u, after[h]) {
      if h < |ns| { EnteredStays(t, u, ns[h]); }
    }
    forall k | k in u.alloc ensures Heads(after, k) { HeadsGrow(ns, names, k); }
    forall k | k in u.total ensures Holds(after, k) { HoldsGrow(ns, names, k); }
  }

  lemma OneGroupMore(ns: seq<seq<nat>>, g: nat, t: Tables, u: Tables)
    requires g < |ns| && TablesFor(ns[..g], t) && Unknown(t, ns[g]) && Grown(t, u, ns[g], |ns[g]|)
    ensures TablesFor(ns[..g + 1], u)
  {
    TablesGrow(ns[..g], ns[g], t, u);
    assert ns[..g + 1] == ns[..g] + [ns[g]];
  }

  /** `get_block_map`: the tables hold the groups of the shared loop, each member leading to all the others. */
  method GetBlockMap(c: Config) returns (r: Option<Tables>)
    requires Packable(c)
    ensures r.Some? <==> Mapped(c, GroupCount(c)).Some?
    ensures r.Some? ==> TablesFor(AllNames(c, Mapped(c, GroupCount(c)).value.groups), r.value)
  {
    var mapped := MapGroups(c);
    if mapped.None? { return None; }
    MappedLabels(c, GroupCount(c));
    var t := EnterAll(AllNames(c, mapped.value.groups));
    return Some(t);
  }

  method EnterAll(ns: seq<seq<nat>>) returns (t: Tables)
    requires Labels(ns)
    ensures TablesFor(ns, t)
  {
    t := Tables(map[], map[]);
    for g := 0 to |ns|
      invariant TablesFor(ns[..g], t)
    {
      GroupUnknown(ns, g, t);
      ghost var before := t;
      var e := EnterGroup(t, ns[g]);
      t := e.value;
      OneGroupMore(ns, g, before, t);
    }
    assert ns[..|ns|] == ns;
  }

  // Redirection away from a crashed server.

  /** The slot of the copy at offset `off` of member `i` of a group. */
  function CopySlot(c: Config, group: Group, i: nat, off: nat, fp: Byte, len: Byte): RaceSlot
    requires Sane(c) && i < |group.addrs|
  {
    FillSlot(fp, len, Sid(c, group.first, i), group.addrs[i] + off)
  }

  /** An offset inside a block that a slot can hold. */
  predicate Offset(c: Config, off: nat) {
    off < c.size && off % 256 == 0
  }

  /** Everything the redirection relies on about a group; every group of the shared map has it. */
  ghost predicate Redirectable(c: Config, group: Group, ptr: seq<nat>)
    requires Packable(c)
  {
    |ptr| == c.memories && GroupPlaced(c, group, ptr, 256) && GroupPlaced(c, group, ptr, c.size)
  }

  lemma MappedRedirectable(c: Config, n: nat, g: nat)
    requires Packable(c) && c.base % c.size == 0 && Mapped(c, n).Some? && g < n
    ensures Redirectable(c, Mapped(c, n).value.groups[g], Mapped(c, n).value.ptr)
  {
    MultipleOf(1, c.size);
    MappedPlaced(c, n, 256);
    MappedPlaced(c, n, c.size);
  }

  /** The block under a copy, read off the slot. */
  lemma BlockUnder(c: Config, group: Group, ptr: seq<nat>, i: nat, off: nat, slot: RaceSlot)
    requires Packable(c) && Redirectable(c, group, ptr) && i < c.replicas && Offset(c, off)
    requires slot == CopySlot(c, group, i, off, slot.fp, slot.kvLen)
    ensures slot.serverId == Sid(c, group.first, i) && SlotAddr(slot) == group.addrs[i] + off
    ensures SlotAddr(slot) % c.size == off && Aligned(group.addrs[i])
  {
    OffsetOf(group.addrs[i], off, c.size);
    AddMultiple(group.addrs[i], off, 256);
    UnpackPack(group.addrs[i] + off);
  }

  /** The member that the `j`-th entry for member `i` names. */
  function Member(i: nat, j: nat): nat {
    if j < i then j else j + 1
  }

  lemma OtherAt(names: seq<nat>, i: nat, j: nat)
    requires i < |names| && j < |names| - 1
    ensures |Others(names, i)| == |names| - 1
    ensures Others(names, i)[j] == names[Member(i, j)]
  {
  }

  /** `comb_target_block_addr`: the table key of the block a slot points into. */
  function KeyOf(slot: RaceSlot, size: nat): nat
    requires Formed(slot) && size > 0
  {
    SlotAddr(slot) - SlotAddr(slot) % size + slot.serverId
  }

  /** The slot moved to the block and server named `o`, at the same offset. */
  function Moved(slot: RaceSlot, size: nat, o: nat): RaceSlot
    requires Formed(slot) && size > 0
  {
    FillSlot(slot.fp, slot.kvLen, CombinedSid(o), CombinedAddr(o) + SlotAddr(slot) % size)
  }

  /**
   `check_failed_cache`: a slot on a crashed server moves to the first healthy one its block's
   entry names; no answer means that the entry names none.
  */
  method CheckFailedCache(total: map<nat, seq<nat>>, size: nat, crashed: set<Byte>, slot: RaceSlot)
    returns (r: Option<RaceSlot>)
    requires Formed(slot) && size > 0 && (slot.serverId in crashed ==> KeyOf(slot, size) in total)
    ensures slot.serverId !in crashed ==> r == Some(slot)
    ensures slot.serverId in crashed && r.None? ==>
              forall j :: 0 <= j < |total[KeyOf(slot, size)]| ==> CombinedSid(total[KeyOf(slot, size)][j]) in crashed
    ensures slot.serverId in crashed && r.Some? ==>
              exists j :: && 0 <= j < |total[KeyOf(slot, size)]|
                          && CombinedSid(total[KeyOf(slot, size)][j]) !in crashed
                          && (forall i :: 0 <= i < j ==> CombinedSid(total[KeyOf(slot, size)][i]) in crashed)
                          && r.value == Moved(slot, size, total[KeyOf(slot, size)][j])
  {
    if slot.serverId !in crashed { return Some(slot); }
    var others := total[KeyOf(slot, size)];
    for j := 0 to |others|
      invariant forall m :: 0 <= m < j ==> CombinedSid(others[m]) in crashed
    {
      if CombinedSid(others[j]) !in crashed { return Some(Moved(slot, size, others[j])); }
    }
    return None;
  }

  /** The table entry of a group member, taken apart. */
  lemma EntryFound(c: Config, t: Tables, group: Group, ptr: seq<nat>, i: nat, off: nat, slot: RaceSlot)
    requires Packable(c) && c.replicas >= 2 && Redirectable(c, group, ptr) && Entered(t, Names(c, group))
    requires i < c.replicas && Offset(c, off) && slot == CopySlot(c, group, i, off, slot.fp, slot.kvLen)
    ensures KeyOf(slot, c.size) == Names(c, group)[i] && Names(c, group)[i] in t.total
    ensures t.total[KeyOf(slot, c.size)] == Others(Names(c, group), i)
  {
    assert |Names(c, group)| > 1 && Listed(t.total, Names(c, group), i);
    BlockUnder(c, group, ptr, i, off, slot);
  }

  lemma MovedIsCopy(c: Config, group: Group, ptr: seq<nat>, i: nat, j: nat, off: nat, slot: RaceSlot)
    requires Packable(c) && Redirectable(c, group, ptr) && i < c.replicas && j < c.replicas - 1 && Offset(c, off)
    requires slot == CopySlot(c, group, i, off, slot.fp, slot.kvLen)
    ensures |Others(Names(c, group), i)| == c.replicas - 1 && Member(i, j) < c.replicas && Member(i, j) != i
    ensures CombinedSid(Others(Names(c, group), i)[j]) == Sid(c, group.first, Member(i, j))
    ensures Moved(slot, c.size, Others(Names(c, group), i)[j])
              == CopySlot(c, group, Member(i, j), off, slot.fp, slot.kvLen)
  {
    BlockUnder(c, group, ptr, i, off, slot);
    var m := Member(i, j);
    OtherAt(Names(c, group), i, j);
    CombineRoundTrip(Sid(c, group.first, m), group.addrs[m]);
  }

  /**
   Redirection preserves the object: whatever the entry for a copy's block names, moving the slot
   there gives the slot of another copy of the same object, and all copies are named.
  */
  lemma RedirectionPreservesObject(c: Config, t: Tables, group: Group, ptr: seq<nat>, i: nat, off: nat, slot: RaceSlot)
    requires Packable(c) && c.replicas >= 2 && Redirectable(c, group, ptr) && Entered(t, Names(c, group))
    requires i < c.replicas && Offset(c, off) && slot == CopySlot(c, group, i, off, slot.fp, slot.kvLen)
    ensures KeyOf(slot, c.size) in t.total
    ensures |t.total[KeyOf(slot, c.size)]| == c.replicas - 1
    ensures forall j :: 0 <= j < c.replicas - 1 ==>
              && Member(i, j) < c.replicas && Member(i, j) != i
              && CombinedSid(t.total[KeyOf(slot, c.size)][j]) == Sid(c, group.first, Member(i, j))
              && Moved(slot, c.size, t.total[KeyOf(slot, c.size)][j])
                   == CopySlot(c, group, Member(i, j), off, slot.fp, slot.kvLen)
  {
    EntryFound(c, t, group, ptr, i, off, slot);
    OtherAt(Names(c, group), i, 0);
    forall j | 0 <= j < c.replicas - 1
      ensures && Member(i, j) < c.replicas && Member(i, j) != i
              && CombinedSid(t.total[KeyOf(slot, c.size)][j]) == Sid(c, group.first, Member(i, j))
              && Moved(slot, c.size, t.total[KeyOf(slot, c.size)][j])
                   == CopySlot(c, group, Member(i, j), off, slot.fp, slot.kvLen)
    {
      MovedIsCopy(c, group, ptr, i, j, off, slot);
    }
  }

  /** The entry names no healthy server exactly when no other copy of the object is on one. */
  lemma RedirectionExhaustive(c: Config, t: Tables, group: Group, ptr: seq<nat>, i: nat, off: nat, slot: RaceSlot,
                              crashed: set<Byte>)
    requires Packable(c) && c.replicas >= 2 && Redirectable(c, group, ptr) && Entered(t, Names(c, group))
    requires i < c.replicas && Offset(c, off) && slot == CopySlot(c, group, i, off, slot.fp, slot.kvLen)
    ensures KeyOf(slot, c.size) in t.total
    ensures (forall o :: o in t.total[KeyOf(slot, c.size)] ==> CombinedSid(o) in crashed) <==>
            (forall m :: 0 <= m < c.replicas && m != i ==> Sid(c, group.first, m) in crashed)
  {
    RedirectionPreservesObject(c, t, group, ptr, i, off, slot);
    var entry := t.total[KeyOf(slot, c.size)];
    if forall o :: o in entry ==> CombinedSid(o) in crashed {
      forall m | 0 <= m < c.replicas && m != i ensures Sid(c, group.first, m) in crashed {
        var j := if m < i then m else m - 1;
        assert Member(i, j) == m && entry[j] in entry;
      }
    }
    if forall m :: 0 <= m < c.replicas && m != i ==> Sid(c, group.first, m) in crashed {
      forall j | 0 <= j < |entry| ensures CombinedSid(entry[j]) in crashed {
        assert CombinedSid(entry[j]) == Sid(c, group.first, Member(i, j));
      }
    }
  }
}
