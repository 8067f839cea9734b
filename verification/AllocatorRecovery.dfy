/**
 Rebuilding the allocator after a crash (`mm_recover_mm_blocks`): the traversal of the log says which
 subblocks are taken, the metadata list says which blocks there are, and every other subblock
 goes back into the free queue, behind the one the log already promised.
*/
module AllocatorRecovery {
  import opened Common
  import opened Packing
  import opened Queues
  import opened ClientMemory
  import opened LogChain

  /** What the client writes for every space it registers; a zero entry ends the list. */
  datatype Meta = Subtable | KvBlock(block: Piece)

  function KvBlocks(metas: seq<Meta>): seq<Piece> {
    if metas == [] then []
    else
      var last := metas[|metas| - 1];
      KvBlocks(metas[..|metas| - 1]) + if last.KvBlock? then [last.block] else []
  }

  /** The subblocks whose primary copy the traversal did not see. */
  function Unseen(ps: seq<Piece>, seen: set<Copy>): seq<Piece> {
    if ps == [] then []
    else
      var s := ps[|ps| - 1];
      Unseen(ps[..|ps| - 1], seen) + if Primary(s) in seen then [] else [s]
  }

  /** The last subblock of `ps` with primary copy `c`. */
  function Pick(ps: seq<Piece>, c: Copy): Piece {
    if ps == [] then [] else if Primary(ps[|ps| - 1]) == c then ps[|ps| - 1] else Pick(ps[..|ps| - 1], c)
  }

  lemma {:induction false} UnseenCount(ps: seq<Piece>, seen: set<Copy>, s: Piece)
    ensures multiset(Unseen(ps, seen))[s] == if Primary(s) in seen then 0 else multiset(ps)[s]
  {
    if ps != [] {
      var n := |ps| - 1;
      UnseenCount(ps[..n], seen, s);
      assert ps == ps[..n] + [ps[n]];
      OneMore(ps[..n], ps[n], s);
      if Primary(ps[n]) !in seen { OneMore(Unseen(ps[..n], seen), ps[n], s); }
    }
  }

  lemma OneMore(ps: seq<Piece>, p: Piece, s: Piece)
    ensures multiset(ps + [p])[s] == multiset(ps)[s] + if p == s then 1 else 0
  {
  }

  lemma {:induction false} PickFinds(ps: seq<Piece>, s: Piece)
    requires s in ps && Spread(ps)
    ensures Pick(ps, Primary(s)) == s
  {
    var n := |ps| - 1;
    SpreadPieces(ps);
    if Primary(ps[n]) != Primary(s) {
      assert Primaries(ps[..n]) == Primaries(ps)[..n];
      PickFinds(ps[..n], s);
    } else {
      assert ps[n] in ps;
    }
  }

  /** What the scan has gathered from the subblocks `done`. */
  datatype Found = Found(queues: seq<seq<Piece>>, head: Piece, last: Piece)

  ghost predicate Gathered(f: Found, done: seq<Piece>, memories: nat, seen: set<Copy>, head: Copy, last: Copy) {
    && |f.queues| == memories && Bag(f.queues) == multiset(Unseen(done, seen))
    && f.head == Pick(done, head) && f.last == Pick(done, last)
  }

  /** Where the scan puts subblock `s`, going by combined names. */
  function Noted(f: Found, s: Piece, names: set<nat>, headName: nat, lastName: nat): Found
    requires Primary(s).sid < |f.queues|
  {
    var name, sid: nat := Name(Primary(s)), Primary(s).sid;
    if name == headName then f.(head := s)
    else if name == lastName then f.(last := s)
    else if name in names then f
    else f.(queues := f.queues[sid := f.queues[sid] + [s]])
  }

  lemma GatherOne(f: Found, done: seq<Piece>, memories: nat, seen: set<Copy>, head: Copy, last: Copy, s: Piece, names: set<nat>)
    requires Gathered(f, done, memories, seen, head, last) && head in seen && last in seen && head != last
    requires Scannable(s, memories, seen, names)
    ensures Gathered(Noted(f, s, names, Name(head), Name(last)), done + [s], memories, seen, head, last)
  {
    assert (done + [s])[..|done|] == done;
    SameName(s, memories, seen, names, head);
    SameName(s, memories, seen, names, last);
    BagPush(f.queues, Primary(s).sid, s);
  }

  lemma GatherAt(f: Found, done: seq<Piece>, memories: nat, seen: set<Copy>, head: Copy, last: Copy,
                 ps: seq<Piece>, k: nat, names: set<nat>)
    requires Gathered(f, done, memories, seen, head, last) && head in seen && last in seen && head != last
    requires k < |ps| && AllScannable(ps, memories, seen, names)
    ensures Primary(ps[k]).sid < |f.queues|
    ensures Gathered(Noted(f, ps[k], names, Name(head), Name(last)), done + [ps[k]], memories, seen, head, last)
  {
    assert Scannable(ps[k], memories, seen, names);
    GatherOne(f, done, memories, seen, head, last, ps[k], names);
  }

  ghost predicate AllScannable(ps: seq<Piece>, memories: nat, seen: set<Copy>, names: set<nat>) {
    forall k :: 0 <= k < |ps| ==> Scannable(ps[k], memories, seen, names)
  }

  /** The scan of one block's data subblocks. */
  method ScanBlock(ps: seq<Piece>, f: Found, names: set<nat>, headName: nat, lastName: nat,
                   ghost done: seq<Piece>, ghost memories: nat, ghost seen: set<Copy>, ghost head: Copy, ghost last: Copy)
    returns (g: Found)
    requires Gathered(f, done, memories, seen, head, last) && head in seen && last in seen && head != last
    requires Name(head) == headName && Name(last) == lastName
    requires AllScannable(ps, memories, seen, names)
    ensures Gathered(g, done + ps, memories, seen, head, last)
  {
    g := f;
    ScanEnds(f, f, done, memories, seen, head, last, ps);
    for k := 0 to |ps|
      invariant Gathered(g, Sofar(done, ps, k), memories, seen, head, last)
    {
      ScanStep(g, done, memories, seen, head, last, ps, k, names);
      g := Noted(g, ps[k], names, headName, lastName);
    }
    ScanEnds(f, g, done, memories, seen, head, last, ps);
  }

  ghost function Sofar(done: seq<Piece>, ps: seq<Piece>, k: nat): seq<Piece>
    requires k <= |ps|
  {
    done + ps[..k]
  }

  lemma Slices(done: seq<Piece>, ps: seq<Piece>, k: nat)
    requires k <= |ps|
    ensures Sofar(done, ps, 0) == done && Sofar(done, ps, |ps|) == done + ps
    ensures k < |ps| ==> Sofar(done, ps, k + 1) == Sofar(done, ps, k) + [ps[k]]
  {
  }

  lemma ScanStep(f: Found, done: seq<Piece>, memories: nat, seen: set<Copy>, head: Copy, last: Copy,
                 ps: seq<Piece>, k: nat, names: set<nat>)
    requires k < |ps| && AllScannable(ps, memories, seen, names) && head in seen && last in seen && head != last
    requires Gathered(f, Sofar(done, ps, k), memories, seen, head, last)
    ensures Primary(ps[k]).sid < |f.queues|
    ensures Gathered(Noted(f, ps[k], names, Name(head), Name(last)), Sofar(done, ps, k + 1), memories, seen, head, last)
  {
    Slices(done, ps, k);
    GatherAt(f, Sofar(done, ps, k), memories, seen, head, last, ps, k, names);
  }

  lemma ScanEnds(f: Found, g: Found, done: seq<Piece>, memories: nat, seen: set<Copy>, head: Copy, last: Copy, ps: seq<Piece>)
    requires Gathered(f, done, memories, seen, head, last)
    ensures Gathered(f, Sofar(done, ps, 0), memories, seen, head, last)
    ensures Gathered(g, Sofar(done, ps, |ps|), memories, seen, head, last) ==> Gathered(g, done + ps, memories, seen, head, last)
  {
    Slices(done, ps, 0);
  }

  /** A subblock whose name tells its copies apart from everything the traversal saw. */
  ghost predicate Scannable(s: Piece, memories: nat, seen: set<Copy>, names: set<nat>) {
    && Usable(Primary(s)) && Primary(s).sid < memories
    && (forall c :: c in seen ==> Usable(c))
    && (Name(Primary(s)) in names <==> Primary(s) in seen)
  }

  lemma SameName(s: Piece, memories: nat, seen: set<Copy>, names: set<nat>, c: Copy)
    requires Scannable(s, memories, seen, names) && c in seen
    ensures Name(Primary(s)) == Name(c) <==> Primary(s) == c
  {
    NameInjective(Primary(s), c);
  }

  lemma KvBlocksNext(metas: seq<Meta>, k: nat)
    requires k < |metas|
    ensures KvBlocks(metas[..k + 1]) == KvBlocks(metas[..k]) + if metas[k].KvBlock? then [metas[k].block] else []
  {
    assert metas[..k + 1][..k] == metas[..k];
  }

  /** The blocks listed in the metadata, all of whose subblocks the scan can tell apart. */
  ghost predicate Listed(l: Layout, metas: seq<Meta>, memories: nat, seen: set<Copy>, names: set<nat>)
    requires Sound(l)
  {
    forall k :: 0 <= k < |metas| && metas[k].KvBlock? ==>
      AllScannable(DataFrom(l, metas[k].block, l.lead), memories, seen, names)
  }

  /** The scan of all blocks. */
  method ScanBlocks(l: Layout, metas: seq<Meta>, memories: nat, names: set<nat>, headName: nat, lastName: nat,
                    ghost seen: set<Copy>, ghost head: Copy, ghost last: Copy)
    returns (f: Found, blocks: seq<Piece>)
    requires Sound(l) && head in seen && last in seen && head != last
    requires Name(head) == headName && Name(last) == lastName && Listed(l, metas, memories, seen, names)
    ensures blocks == KvBlocks(metas)
    ensures Gathered(f, All(l, blocks), memories, seen, head, last)
  {
    f, blocks := Found(seq(memories, _ => []), [], []), [];
    BagEmpty(f.queues);
    for k := 0 to |metas|
      invariant blocks == KvBlocks(metas[..k]) && Gathered(f, All(l, blocks), memories, seen, head, last)
    {
      KvBlocksNext(metas, k);
      if metas[k].KvBlock? {
        AllGrows(l, blocks, metas[k].block);
        f := ScanBlock(DataFrom(l, metas[k].block, l.lead), f, names, headName, lastName, All(l, blocks), memories, seen, head, last);
        blocks := blocks + [metas[k].block];
      }
    }
    assert metas[..|metas|] == metas;
  }

  /** What the traversal saw: the outstanding subblocks and the head of the free queue. */
  ghost predicate Saw(p: Pool, seen: set<Copy>)
    requires p.free != []
  {
    forall c :: c in seen <==> c in Order(p)
  }

  /** The traversal saw every outstanding subblock and, of the free ones, only the head. */
  lemma SeenExactly(l: Layout, p: Pool, seen: set<Copy>)
    requires Sound(l) && Conserved(l, p) && p.free != [] && Spread(All(l, p.blocks)) && Saw(p, seen)
    ensures Primary(p.free[0]) in seen && forall s :: s in p.out ==> Primary(s) in seen
    ensures forall s :: s in p.free[1..] ==> Primary(s) !in seen
  {
    assert Order(p)[|p.out|] == Primary(p.free[0]);
    forall i | 0 <= i < |p.out| ensures Primary(p.out[i]) in seen {
      assert Order(p)[i] == Primary(p.out[i]);
    }
    OutApart(l, p);
    SpreadPieces(All(l, p.blocks));
    Partition(l, p);
    forall j | 1 <= j < |p.free| ensures Primary(p.free[j]) !in seen {
      assert (p.free + p.out + p.lost)[0] != (p.free + p.out + p.lost)[j];
      assert p.free[j] in p.free && p.free[0] in p.free;
    }
  }

  lemma UnseenOne(all: seq<Piece>, free: seq<Piece>, out: seq<Piece>, seen: set<Copy>, s: Piece)
    requires free != [] && multiset(all)[s] == multiset(free)[s] + multiset(out)[s]
    requires Primary(free[0]) in seen && (s in out ==> Primary(s) in seen) && (s in free[1..] ==> Primary(s) !in seen)
    ensures multiset(Unseen(all, seen))[s] == multiset(free[1..])[s]
  {
    UnseenCount(all, seen, s);
    assert free == [free[0]] + free[1..];
    assert s in multiset(out) <==> s in out;
    assert s in multiset(free[1..]) <==> s in free[1..];
  }

  /** The subblocks the traversal did not see are those behind the head of the free queue. */
  lemma UnseenIsRest(l: Layout, p: Pool, seen: set<Copy>)
    requires Sound(l) && Conserved(l, p) && p.lost == [] && p.free != [] && Spread(All(l, p.blocks)) && Saw(p, seen)
    ensures multiset(Unseen(All(l, p.blocks), seen)) == multiset(p.free[1..])
  {
    SeenExactly(l, p, seen);
    forall s ensures multiset(Unseen(All(l, p.blocks), seen))[s] == multiset(p.free[1..])[s] {
      UnseenOne(All(l, p.blocks), p.free, p.out, seen, s);
    }
  }

  lemma {:induction false} BlocksListed(metas: seq<Meta>, k: nat)
    requires k < |metas| && metas[k].KvBlock?
    ensures metas[k].block in KvBlocks(metas)
  {
    if k < |metas| - 1 {
      assert metas[..|metas| - 1][k] == metas[k];
      BlocksListed(metas[..|metas| - 1], k);
    }
  }

  lemma {:induction false} DataInAll(l: Layout, blocks: seq<Piece>, b: Piece, s: Piece)
    requires Sound(l) && b in blocks && s in DataFrom(l, b, l.lead)
    ensures s in All(l, blocks)
  {
    var n := |blocks| - 1;
    if b != blocks[n] { DataInAll(l, blocks[..n], b, s); }
  }

  /** The primary copy of a block's subblock is on the block's primary server. */
  lemma DataSid(l: Layout, b: Piece, k: nat)
    requires Sound(l) && b != [] && k < |DataFrom(l, b, l.lead)|
    ensures Primary(DataFrom(l, b, l.lead)[k]).sid == b[0].sid
  {
    DataShape(l, b, l.lead);
  }

  /** The blocks are where the servers are. */
  ghost predicate OnServers(blocks: seq<Piece>, memories: nat) {
    forall b: Piece :: b in blocks ==> b != [] && Primary(b).sid < memories
  }

  lemma NameSeen(seen: set<Copy>, names: set<nat>, c: Copy)
    requires Usable(c) && (forall d :: d in seen ==> Usable(d)) && names == set d | d in seen :: Name(d)
    ensures Name(c) in names <==> c in seen
  {
    if Name(c) in names {
      var d :| d in seen && Name(d) == Name(c);
      NameInjective(c, d);
    }
  }

  lemma ScanReady(l: Layout, metas: seq<Meta>, memories: nat, seen: set<Copy>, names: set<nat>)
    requires Sound(l) && Spread(All(l, KvBlocks(metas))) && OnServers(KvBlocks(metas), memories)
    requires (forall c :: c in seen ==> Usable(c)) && names == set c | c in seen :: Name(c)
    ensures Listed(l, metas, memories, seen, names)
  {
    forall k | 0 <= k < |metas| && metas[k].KvBlock?
      ensures AllScannable(DataFrom(l, metas[k].block, l.lead), memories, seen, names)
    {
      var b := metas[k].block;
      var ps := DataFrom(l, b, l.lead);
      BlocksListed(metas, k);
      forall i | 0 <= i < |ps| ensures Scannable(ps[i], memories, seen, names) {
        DataInAll(l, KvBlocks(metas), b, ps[i]);
        DataSid(l, b, i);
        NameSeen(seen, names, Primary(ps[i]));
      }
    }
  }

  /** Picking the two ends of the traversal gives the head of the free queue and the latest allocation. */
  lemma EndsPicked(l: Layout, p: Pool)
    requires Sound(l) && Conserved(l, p) && p.free != [] && p.out != [] && Spread(All(l, p.blocks))
    ensures Pick(All(l, p.blocks), Order(p)[|p.out|]) == p.free[0]
    ensures Pick(All(l, p.blocks), Order(p)[|p.out| - 1]) == p.out[|p.out| - 1]
    ensures Order(p)[|p.out|] != Order(p)[|p.out| - 1]
  {
    EndsListed(l, p);
    assert Primaries(p.out)[|p.out| - 1] == Primary(p.out[|p.out| - 1]);
    PickFinds(All(l, p.blocks), p.free[0]);
    PickFinds(All(l, p.blocks), p.out[|p.out| - 1]);
  }

  lemma EndsListed(l: Layout, p: Pool)
    requires Sound(l) && Conserved(l, p) && p.free != [] && p.out != [] && Spread(All(l, p.blocks))
    ensures p.free[0] in All(l, p.blocks) && p.out[|p.out| - 1] in All(l, p.blocks)
    ensures Primary(p.free[0]) != Primary(p.out[|p.out| - 1])
  {
    SpreadPieces(All(l, p.blocks));
    Partition(l, p);
    OutApart(l, p);
    assert p.free[0] in p.free && p.out[|p.out| - 1] in p.out;
    assert Primaries(p.out)[|p.out| - 1] == Primary(p.out[|p.out| - 1]);
  }

  /** A crashed client's pool: something was allocated, nothing was lost. */
  ghost predicate Crashed(l: Layout, p: Pool)
    requires Sound(l)
  {
    Conserved(l, p) && p.lost == [] && p.free != [] && p.out != [] && Spread(All(l, p.blocks))
  }

  lemma OrderUsable(l: Layout, p: Pool)
    requires Sound(l) && Crashed(l, p)
    ensures forall c :: c in Order(p) ==> Usable(c)
  {
    SpreadPieces(All(l, p.blocks));
    Partition(l, p);
    forall i | 0 <= i < |Order(p)| ensures Usable(Order(p)[i]) {
      if i < |p.out| { assert p.out[i] in p.out; } else { assert p.free[0] in p.free; }
    }
  }

  /** What was gathered from all blocks is the crashed client's state. */
  lemma GatheredAll(l: Layout, p: Pool, f: Found, memories: nat, seen: set<Copy>)
    requires Sound(l) && Crashed(l, p) && Saw(p, seen)
    requires Gathered(f, All(l, p.blocks), memories, seen, Order(p)[|p.out|], Order(p)[|p.out| - 1])
    ensures f.head == p.free[0] && f.last == p.out[|p.out| - 1]
    ensures multiset{f.head} + Bag(f.queues) == multiset(p.free)
  {
    EndsPicked(l, p);
    UnseenIsRest(l, p, seen);
    HeadAndRest(p.free);
  }

  lemma HeadAndRest(q: seq<Piece>)
    requires q != []
    ensures multiset{q[0]} + multiset(q[1..]) == multiset(q)
  {
    assert q == [q[0]] + q[1..];
  }

  /** `mm_recover_mm_blocks` */
  method RecoverBlocks(l: Layout, memories: nat, visited: seq<Copy>, metas: seq<Meta>, ghost p: Pool)
    returns (free: seq<Piece>, last: Piece, blocks: seq<Piece>)
    requires Sound(l) && Crashed(l, p) && visited == Order(p)
    requires KvBlocks(metas) == p.blocks && OnServers(p.blocks, memories)
    ensures blocks == p.blocks && last == p.out[|p.out| - 1]
    ensures free != [] && free[0] == p.free[0] && multiset(free) == multiset(p.free)
  {
    var n := |visited|;
    var names := set c | c in visited :: Name(c);
    ghost var seen := set c | c in visited;
    assert names == set c | c in seen :: Name(c);
    OrderUsable(l, p);
    EndsPicked(l, p);
    ScanReady(l, metas, memories, seen, names);
    assert visited[n - 1] in seen && visited[n - 2] in seen;
    var f;
    f, blocks := ScanBlocks(l, metas, memories, names, Name(visited[n - 1]), Name(visited[n - 2]),
                            seen, visited[n - 1], visited[n - 2]);
    GatheredAll(l, p, f, memories, seen);
    free := Drain(f.queues, f.head);
    last := f.last;
  }

  /**
   Recovery of the allocator.  `p` is the state at the crash: at least one allocation made, every
   entry written.  The rebuilt queue starts with the same subblock and holds the same subblocks, each
   as often as before, and the latest allocation is known again.
  */
  method RecoverAllocator(l: Layout, memories: nat, prServer: Byte, prLogHead: nat, mem: Memory, metas: seq<Meta>,
                          ghost p: Pool)
    returns (visited: seq<Copy>, free: seq<Piece>, last: Piece, blocks: seq<Piece>)
    requires Sound(l) && Logged(l, p, mem) && p.out != []
    requires KvBlocks(metas) == p.blocks && OnServers(p.blocks, memories)
    requires Primary(p.blocks[0]) == Copy(prServer, prLogHead)
    ensures visited == Order(p) && blocks == p.blocks && last == p.last
    ensures free != [] && free[0] == p.free[0] && multiset(free) == multiset(p.free)
  {
    assert p.blocks[0] in p.blocks;
    visited := Traverse(Copy(prServer, prLogHead + l.lead * l.sub), mem, Order(p));
    free, last, blocks := RecoverBlocks(l, memories, visited, metas, p);
  }

  /** So the two queues have the same subblocks and neither has one twice. */
  lemma SameQueue(l: Layout, p: Pool, free: seq<Piece>)
    requires Sound(l) && Conserved(l, p) && Spread(All(l, p.blocks)) && multiset(free) == multiset(p.free)
    ensures NoDup(free) && NoDup(p.free) && |free| == |p.free| && forall s :: s in free <==> s in p.free
  {
    SpreadPieces(All(l, p.blocks));
    Partition(l, p);
    var joined := p.free + p.out + p.lost;
    forall i, j | 0 <= i < j < |p.free| ensures p.free[i] != p.free[j] {
      assert joined[i] != joined[j];
    }
    SameElements(free, p.free);
  }
}
