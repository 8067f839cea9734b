/**
 The memory server's side (`ServerMM`): the queue of blocks it may hand out, and its agreement with
 the client's allocation table.
*/
module ServerMemory {
  import opened Common
  import opened Packing
  import opened BlockMap
  import opened ReplicaMap

  /** First members of the groups that start at server `me`, in order. */
  function Queue(gs: seq<Group>, me: nat): seq<nat>
    requires forall g :: g in gs ==> g.addrs != []
  {
    if gs == [] then []
    else
      var last := gs[|gs| - 1];
      Queue(gs[..|gs| - 1], me) + if last.first == me then [last.addrs[0]] else []
  }

  /** `get_allocable_blocks` */
  method GetAllocableBlocks(c: Config, me: nat) returns (r: Option<seq<nat>>)
    requires Sane(c)
    ensures r.Some? <==> Mapped(c, GroupCount(c)).Some?
    ensures r.Some? ==> Apart(c, Mapped(c, GroupCount(c)).value.groups)
    ensures r.Some? ==> r.value == Queue(Mapped(c, GroupCount(c)).value.groups, me)
  {
    var mapped := MapGroups(c);
    if mapped.None? { return None; }
    MappedApart(c, GroupCount(c));
    var gs := mapped.value.groups;
    var queue := [];
    for g := 0 to |gs|
      invariant queue == Queue(gs[..g], me)
    {
      assert gs[..g + 1][..g] == gs[..g];
      if gs[g].first == me {
        queue := queue + [gs[g].addrs[0]];
      }
    }
    assert gs[..|gs|] == gs;
    return Some(queue);
  }

  /** A queued block is the first member of a group that starts at this server. */
  lemma {:induction false} QueueSource(gs: seq<Group>, me: nat, a: nat)
    requires forall g :: g in gs ==> g.addrs != []
    ensures a in Queue(gs, me) <==> exists g :: 0 <= g < |gs| && gs[g].first == me && gs[g].addrs[0] == a
  {
    if gs != [] {
      var n := |gs| - 1;
      QueueSource(gs[..n], me, a);
      if g :| 0 <= g < n && gs[g].first == me && gs[g].addrs[0] == a {
        assert gs[..n][g] == gs[g];
      }
    }
  }

  /** The queue rises, so no block is in it twice. */
  lemma {:induction false} QueueRises(c: Config, gs: seq<Group>, me: nat)
    requires Sane(c) && Apart(c, gs) && me < c.memories && forall g :: g in gs ==> g.first < c.memories
    ensures NoDup(Queue(gs, me))
  {
    if gs != [] {
      var n := |gs| - 1;
      QueueRises(c, gs[..n], me);
      if gs[n].first == me {
        forall a | a in Queue(gs[..n], me) ensures a < gs[n].addrs[0] {
          QueueSource(gs[..n], me, a);
          var g :| 0 <= g < n && gs[..n][g].first == me && gs[..n][g].addrs[0] == a;
          assert Before(c, gs[g], gs[n]) && Sid(c, gs[g].first, 0) == Sid(c, gs[n].first, 0);
        }
        NoDupAppend(Queue(gs[..n], me), gs[n].addrs[0]);
      }
    }
  }

  /** `a` is the block of group `group` on the server `me` it starts at. */
  ghost predicate GroupHead(c: Config, group: Group, me: nat, a: nat) {
    group.first == me && |group.addrs| == c.replicas >= 1 && group.addrs[0] == a
  }

  /** The table entry of a group whose first member is `a` on server `me`. */
  lemma HeadEntry(c: Config, group: Group, ptr: seq<nat>, t: Tables, me: nat, a: nat)
    requires Packable(c) && |ptr| == c.memories && GroupPlaced(c, group, ptr, 256) && GroupHead(c, group, me, a)
    requires Entered(t, Names(c, group))
    ensures me < c.memories && a != 0 && a % 256 == 0 && Names(c, group)[0] == a + me
    ensures a + me in t.alloc && t.alloc[a + me] == Backups(Names(c, group))
  {
    SidFirst(c, me);
  }

  /**
   Client and server agree: whatever block server `me` has in its queue, the client finds it in its
   allocation table under that server, with the other members of the very same group.
  */
  lemma Agreement(c: Config, gs: seq<Group>, t: Tables, me: nat, a: nat) returns (g: nat)
    requires Packable(c) && Shared(c, gs) && me < c.memories
    requires TablesFor(AllNames(c, gs), t) && a in Queue(gs, me)
    ensures g < |gs| && GroupHead(c, gs[g], me, a)
    ensures a != 0 && a % 256 == 0 && a + me in t.alloc && t.alloc[a + me] == Backups(Names(c, gs[g]))
  {
    var s := Mapped(c, GroupCount(c)).value;
    QueueSource(gs, me, a);
    g :| 0 <= g < |gs| && gs[g].first == me && gs[g].addrs[0] == a;
    MappedPlaced(c, GroupCount(c), 256);
    assert AllNames(c, gs)[g] == Names(c, gs[g]);
    HeadEntry(c, gs[g], s.ptr, t, me, a);
  }

  /** `gs` is the complete map that client and servers compute. */
  ghost predicate Shared(c: Config, gs: seq<Group>)
    requires Sane(c)
  {
    && Mapped(c, GroupCount(c)).Some? && Mapped(c, GroupCount(c)).value.groups == gs
    && forall g :: g in gs ==> g.addrs != []
  }

  /** And the other way round: every key of the allocation table waits in exactly its server's queue. */
  lemma AgreementBack(c: Config, gs: seq<Group>, t: Tables, k: nat)
    requires Packable(c) && Shared(c, gs) && TablesFor(AllNames(c, gs), t) && k in t.alloc
    ensures CombinedSid(k) < c.memories && CombinedAddr(k) in Queue(gs, CombinedSid(k))
  {
    var g := HeadIndex(AllNames(c, gs), k);
    MappedPlaced(c, GroupCount(c), 256);
    var me, a := gs[g].first, gs[g].addrs[0];
    assert GroupPlaced(c, gs[g], Mapped(c, GroupCount(c)).value.ptr, 256);
    HeadName(c, gs[g]);
    CombineRoundTrip(me, a);
    QueueSource(gs, me, a);
  }

  lemma HeadIndex(ns: seq<seq<nat>>, k: nat) returns (g: nat)
    requires Heads(ns, k)
    ensures g < |ns| && ns[g] != [] && ns[g][0] == k
  {
    g :| 0 <= g < |ns| && ns[g] != [] && ns[g][0] == k;
  }

  lemma HeadName(c: Config, group: Group)
    requires Sane(c) && group.first < c.memories && group.addrs != [] && Aligned(group.addrs[0])
    ensures Names(c, group)[0] == Combine(group.first, group.addrs[0])
  {
    SidFirst(c, group.first);
  }

  /** The server's allocator. */
  class ServerMM {
    var allocable: seq<nat>
    var taken: map<nat, bool>
    ghost const all: set<nat>

    /** The blocks clients hold. */
    ghost function Held(): set<nat>
      reads this
    {
      set a | a in taken && taken[a]
    }

    /** Every block is either queued, once, or held. */
    ghost predicate Valid()
      reads this
    {
      && NoDup(allocable)
      && (forall a :: a in allocable ==> a !in Held())
      && (forall a :: a in all <==> a in allocable || a in Held())
      && 0 !in all
    }

    constructor (queue: seq<nat>)
      requires NoDup(queue) && 0 !in queue
      ensures Valid() && allocable == queue && Held() == {} && all == set a | a in queue
    {
      allocable, taken := queue, map[];
      all := set a | a in queue;
    }

    /** `mm_alloc`: 0 when nothing is left; never a block some client still holds. */
    method Alloc() returns (addr: nat)
      requires Valid()
      modifies this
      ensures Valid()
      ensures addr == 0 <==> old(allocable) == []
      ensures addr == 0 ==> allocable == old(allocable) && Held() == old(Held())
      ensures addr != 0 ==> addr in all && addr !in old(Held()) && Held() == old(Held()) + {addr}
      ensures addr != 0 ==> [addr] + allocable == old(allocable)
    {
      if |allocable| == 0 { return 0; }
      addr := allocable[0];
      assert addr in old(allocable);
      allocable := allocable[1..];
      taken := taken[addr := true];
      assert Held() == old(Held()) + {addr};
    }

    /** `mm_free`: refused unless the block is held. */
    method Free(addr: nat) returns (ret: int)
      requires Valid()
      modifies this
      ensures Valid()
      ensures ret == if addr in old(Held()) then 0 else -1
      ensures ret == 0 ==> allocable == old(allocable) + [addr] && Held() == old(Held()) - {addr}
      ensures ret != 0 ==> allocable == old(allocable) && Held() == old(Held())
    {
      if addr !in taken { taken := taken[addr := false]; }
      assert Held() == old(Held());
      if !taken[addr] { return -1; }
      taken := taken[addr := false];
      NoDupAppend(allocable, addr);
      allocable := allocable + [addr];
      assert Held() == old(Held()) - {addr};
      return 0;
    }
  }
}
