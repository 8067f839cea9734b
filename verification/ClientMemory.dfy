/**
 The client's second-level allocator (`ClientMM`): blocks obtained from the servers are cut into
 subblocks, which wait in a double-ended free queue.  Every allocation also learns the subblock
 that will be allocated next, because its log entry has to name it.
*/
module ClientMemory {
  import opened Common
  import opened Packing
  import opened Arithmetic
  import opened Queues

  /** Subblock size, subblocks per block, and how many of those the leading bitmap takes. */
  datatype Layout = Layout(sub: nat, num: nat, lead: nat)

  predicate Sound(l: Layout) {
    0 < l.sub && l.sub % 256 == 0 && l.lead < l.num
  }

  datatype Copy = Copy(sid: Byte, addr: nat)

  /** The same stretch of memory on every replica, the primary first. */
  type Piece = seq<Copy>

  predicate Addressable(p: Piece) {
    |p| > 0 && forall r :: 0 <= r < |p| ==> Aligned(p[r].addr)
  }

  /** One integer per replica, the server id or-ed into the free low byte. */
  function Combined(p: Piece): (c: seq<nat>)
    ensures |c| == |p|
  {
    seq(|p|, r requires 0 <= r < |p| => Name(p[r]))
  }

  function Name(c: Copy): nat {
    c.addr + c.sid
  }

  function Split(c: seq<nat>): (p: Piece)
    ensures |p| == |c|
  {
    seq(|c|, r requires 0 <= r < |c| => Copy(CombinedSid(c[r]), CombinedAddr(c[r])))
  }

  lemma SplitCombined(p: Piece)
    requires Addressable(p)
    ensures Split(Combined(p)) == p
  {
    forall r | 0 <= r < |p| ensures Split(Combined(p))[r] == p[r] {
      CombineRoundTrip(p[r].sid, p[r].addr);
    }
  }

  /** Subblock `i` of a block (`gen_subblock_info`). */
  function SubAt(l: Layout, b: Piece, i: nat): (p: Piece)
    ensures |p| == |b|
  {
    seq(|b|, r requires 0 <= r < |b| => Copy(b[r].sid, b[r].addr + Off(l, i)))
  }

  /** Where subblock `i` starts inside its block. */
  function Off(l: Layout, i: nat): nat {
    i * l.sub
  }

  /** `p` is the stretch that starts `off` bytes into `b`, on every replica. */
  predicate Inside(p: Piece, b: Piece, off: nat) {
    |p| == |b| && forall r :: 0 <= r < |b| ==> p[r].sid == b[r].sid && p[r].addr == b[r].addr + off
  }

  /** Subblock after subblock, `l.sub` bytes apart, the block is filled and not left. */
  lemma OffFits(l: Layout, i: nat)
    requires Sound(l) && i < l.num
    ensures Off(l, i) + l.sub == Off(l, i + 1) && Off(l, i) + l.sub <= l.num * l.sub && Off(l, i) % 256 == 0
  {
    MulAtMost(i + 1, l.num, l.sub);
    assert (i + 1) * l.sub == i * l.sub + l.sub;
    MulMultiple(i, l.sub, 256);
  }

  /** A block whose subblocks are all addressable. */
  predicate Whole(l: Layout, b: Piece) {
    Addressable(b) && forall r :: 0 <= r < |b| ==> b[r].addr + l.num * l.sub <= 0x1_0000_0000_0000
  }

  lemma SubAddressable(l: Layout, b: Piece, i: nat)
    requires Sound(l) && Whole(l, b) && i < l.num
    ensures Addressable(SubAt(l, b, i))
  {
    OffFits(l, i);
    forall r | 0 <= r < |b| ensures Aligned(SubAt(l, b, i)[r].addr) {
      AddMultiple(b[r].addr, Off(l, i), 256);
    }
  }

  /** The data subblocks of a block from number `i` on. */
  function DataFrom(l: Layout, b: Piece, i: nat): seq<Piece>
    requires i <= l.num
    decreases l.num - i
  {
    if i == l.num then [] else [SubAt(l, b, i)] + DataFrom(l, b, i + 1)
  }

  /** All data subblocks of the registered blocks. */
  function All(l: Layout, blocks: seq<Piece>): seq<Piece>
    requires Sound(l)
  {
    if blocks == [] then []
    else All(l, blocks[..|blocks| - 1]) + DataFrom(l, blocks[|blocks| - 1], l.lead)
  }

  lemma {:induction false} DataShape(l: Layout, b: Piece, i: nat)
    requires i <= l.num
    ensures |DataFrom(l, b, i)| == l.num - i
    ensures forall k :: 0 <= k < l.num - i ==> DataFrom(l, b, i)[k] == SubAt(l, b, i + k)
    decreases l.num - i
  {
    if i < l.num { DataShape(l, b, i + 1); }
  }

  /** What an allocation tells its caller: the subblock, the next one, and the one before. */
  datatype Ctx = Ctx(cur: Piece, next: seq<nat>, prev: seq<nat>)

  /** The client's state; `out`, `lost` are the history: subblocks handed out, and dropped for want of a next one. */
  datatype Pool = Pool(free: seq<Piece>, last: Piece, blocks: seq<Piece>, out: seq<Piece>, lost: seq<Piece>)

  /** Conservation: nothing is created, nothing disappears. */
  ghost predicate Conserved(l: Layout, p: Pool)
    requires Sound(l)
  {
    multiset(p.free) + multiset(p.out) + multiset(p.lost) == multiset(All(l, p.blocks))
  }

  /** Sequences with the same elements, one of them free of duplicates. */
  lemma SameElements<T>(a: seq<T>, b: seq<T>)
    requires multiset(a) == multiset(b) && NoDup(b)
    ensures NoDup(a) && |a| == |b| && forall x :: x in a <==> x in b
  {
    assert |a| == |multiset(a)| == |multiset(b)| == |b|;
    forall x ensures x in a <==> x in b {
      assert x in a <==> x in multiset(a);
      assert x in b <==> x in multiset(b);
    }
    forall i, j | 0 <= i < j < |a| ensures a[i] != a[j] {
      if a[i] == a[j] {
        TwiceCounted(a, i, j);
        OnceCounted(b, a[i]);
        assert false;
      }
    }
  }

  lemma TwiceCounted<T>(a: seq<T>, i: nat, j: nat)
    requires i < j < |a| && a[i] == a[j]
    ensures multiset(a)[a[i]] >= 2
  {
    assert a == a[..i] + [a[i]] + a[i + 1..j] + [a[j]] + a[j + 1..];
  }

  lemma {:induction false} OnceCounted<T>(b: seq<T>, x: T)
    requires NoDup(b)
    ensures multiset(b)[x] <= 1
  {
    if b != [] {
      var n := |b| - 1;
      OnceCounted(b[..n], x);
      assert b == b[..n] + [b[n]];
      if b[n] == x { assert x !in b[..n]; }
    }
  }

  /**
   Free queue, outstanding subblocks and dropped ones are duplicate-free, disjoint, and together
   exactly the registered data subblocks.
  */
  lemma Partition(l: Layout, p: Pool)
    requires Sound(l) && Conserved(l, p) && NoDup(All(l, p.blocks))
    ensures NoDup(p.free + p.out + p.lost)
    ensures forall s :: s in All(l, p.blocks) <==> s in p.free || s in p.out || s in p.lost
    ensures forall s :: s in p.free ==> s !in p.out && s !in p.lost
    ensures forall s :: s in p.out ==> s !in p.lost
  {
    var joined := p.free + p.out + p.lost;
    assert multiset(joined) == multiset(All(l, p.blocks));
    SameElements(joined, All(l, p.blocks));
    forall s ensures s in joined <==> s in p.free || s in p.out || s in p.lost {}
    forall i, j | 0 <= i < |p.free| && 0 <= j < |p.out| ensures p.free[i] != p.out[j] {
      assert joined[i] == p.free[i] && joined[|p.free| + j] == p.out[j];
    }
    forall i, j | 0 <= i < |p.free| + |p.out| && 0 <= j < |p.lost| ensures joined[i] != p.lost[j] {
      assert joined[|p.free| + |p.out| + j] == p.lost[j];
    }
    forall s | s in p.free ensures s !in p.lost {
      var i :| 0 <= i < |p.free| && p.free[i] == s;
      assert joined[i] == s;
    }
    forall s | s in p.out ensures s !in p.lost {
      var i :| 0 <= i < |p.out| && p.out[i] == s;
      assert joined[|p.free| + i] == s;
    }
  }

  lemma AllGrows(l: Layout, blocks: seq<Piece>, b: Piece)
    requires Sound(l)
    ensures All(l, blocks + [b]) == All(l, blocks) + DataFrom(l, b, l.lead)
  {
    assert (blocks + [b])[..|blocks|] == blocks;
  }

  /** One queue per block, holding its data subblocks. */
  function BlockQueues(l: Layout, bs: seq<Piece>): (qs: seq<seq<Piece>>)
    requires Sound(l)
    ensures |qs| == |bs|
  {
    seq(|bs|, m requires 0 <= m < |bs| => DataFrom(l, bs[m], l.lead))
  }

  lemma {:induction false} BagAll(l: Layout, bs: seq<Piece>)
    requires Sound(l)
    ensures Bag(BlockQueues(l, bs)) == multiset(All(l, bs))
  {
    if bs != [] {
      var n := |bs| - 1;
      BagAll(l, bs[..n]);
      assert BlockQueues(l, bs)[..n] == BlockQueues(l, bs[..n]);
    }
  }

  // The allocator itself.

  /** What `local_reg_blocks` makes of the pool. */
  function Registered(l: Layout, p: Pool, b: Piece): Pool
    requires Sound(l)
  {
    p.(free := p.free + DataFrom(l, b, l.lead), blocks := p.blocks + [b])
  }

  /** The head of the free queue handed out. */
  function Taken(p: Pool): Pool
    requires p.free != []
  {
    p.(free := p.free[1..], last := p.free[0], out := p.out + [p.free[0]])
  }

  /** A successful `mm_alloc`: when it empties the queue, a new block refills it. */
  function Allocated(l: Layout, p: Pool, offer: Option<Piece>): Pool
    requires Sound(l) && p.free != [] && (|p.free| == 1 ==> offer.Some?)
  {
    if |p.free| == 1 then Registered(l, Taken(p), offer.value) else Taken(p)
  }

  /** The out-of-space return: the popped subblock is dropped. */
  function Dropped(p: Pool): Pool
    requires |p.free| == 1
  {
    p.(free := [], lost := p.lost + p.free)
  }

  /** `mm_free_cur` of the outstanding subblock number `k`. */
  function Undone(p: Pool, k: nat, prev: seq<nat>): Pool
    requires k < |p.out|
  {
    p.(free := [p.out[k]] + p.free, out := p.out[..k] + p.out[k + 1..], last := Split(prev))
  }

  /** Conservation holds through everything the allocator does. */
  lemma AllocatorConserves(l: Layout, p: Pool, b: Piece, offer: Option<Piece>, k: nat, prev: seq<nat>)
    requires Sound(l) && Conserved(l, p)
    ensures Conserved(l, Registered(l, p, b))
    ensures p.free != [] ==> Conserved(l, Taken(p))
    ensures p.free != [] && (|p.free| == 1 ==> offer.Some?) ==> Conserved(l, Allocated(l, p, offer))
    ensures |p.free| == 1 ==> Conserved(l, Dropped(p))
    ensures k < |p.out| ==> Conserved(l, Undone(p, k, prev))
  {
    RegisteredConserves(l, p, b);
    if p.free != [] {
      TakenConserves(l, p);
      if |p.free| == 1 && offer.Some? { RegisteredConserves(l, Taken(p), offer.value); }
    }
    if |p.free| == 1 { DroppedConserves(l, p); }
    if k < |p.out| { UndoneConserves(l, p, k, prev); }
  }

  lemma DroppedConserves(l: Layout, p: Pool)
    requires Sound(l) && Conserved(l, p) && |p.free| == 1
    ensures Conserved(l, Dropped(p))
  {
  }

  lemma RegisteredConserves(l: Layout, p: Pool, b: Piece)
    requires Sound(l) && Conserved(l, p)
    ensures Conserved(l, Registered(l, p, b))
  {
    AllGrows(l, p.blocks, b);
  }

  lemma TakenConserves(l: Layout, p: Pool)
    requires Sound(l) && Conserved(l, p) && p.free != []
    ensures Conserved(l, Taken(p))
  {
    assert p.free == [p.free[0]] + p.free[1..];
  }

  lemma UndoneConserves(l: Layout, p: Pool, k: nat, prev: seq<nat>)
    requires Sound(l) && Conserved(l, p) && k < |p.out|
    ensures Conserved(l, Undone(p, k, prev))
  {
    assert p.out == p.out[..k] + [p.out[k]] + p.out[k + 1..];
  }

  /** Every subblock of addressable blocks is addressable. */
  lemma {:induction false} AllAddressable(l: Layout, bs: seq<Piece>)
    requires Sound(l) && forall b :: b in bs ==> Whole(l, b)
    ensures forall s :: s in All(l, bs) ==> Addressable(s)
  {
    if bs != [] {
      var n := |bs| - 1;
      AllAddressable(l, bs[..n]);
      DataShape(l, bs[n], l.lead);
      forall i | l.lead <= i < l.num ensures Addressable(SubAt(l, bs[n], i)) { SubAddressable(l, bs[n], i); }
    }
  }

  /** `mm_free_cur` of the latest allocation puts the pool back, but for a block registered on the way. */
  lemma UndoneTaken(l: Layout, p: Pool)
    requires Sound(l) && p.free != [] && p.last in All(l, p.blocks) && forall b :: b in p.blocks ==> Whole(l, b)
    ensures Undone(Taken(p), |p.out|, Combined(p.last)) == p
  {
    AllAddressable(l, p.blocks);
    SplitCombined(p.last);
    assert [p.free[0]] + p.free[1..] == p.free;
  }

  lemma UndoneAllocated(l: Layout, p: Pool, offer: Option<Piece>)
    requires Sound(l) && p.free != [] && p.last in All(l, p.blocks) && forall b :: b in p.blocks ==> Whole(l, b)
    ensures |p.free| > 1 || offer.Some? ==>
              Undone(Allocated(l, p, offer), |p.out|, Combined(p.last))
                == if |p.free| > 1 then p else Registered(l, p, offer.value)
  {
    UndoneTaken(l, p);
  }

  lemma QueuesLevel(l: Layout, bs: seq<Piece>)
    requires Sound(l)
    ensures Level(BlockQueues(l, bs), l.num - l.lead)
    ensures forall m :: 0 <= m < |bs| ==> BlockQueues(l, bs)[m] != [] && BlockQueues(l, bs)[m][0] == SubAt(l, bs[m], l.lead)
  {
    forall m | 0 <= m < |bs|
      ensures |BlockQueues(l, bs)[m]| == l.num - l.lead && BlockQueues(l, bs)[m][0] == SubAt(l, bs[m], l.lead)
    {
      DataShape(l, bs[m], l.lead);
    }
  }

  /** `ps` are the data subblocks of `b` in order: number `k` after the lead is `(l.lead + k) * l.sub` bytes into it. */
  ghost predicate CutFrom(l: Layout, ps: seq<Piece>, b: Piece)
    requires Sound(l)
  {
    |ps| == l.num - l.lead && forall k :: 0 <= k < |ps| ==> CutAt(l, ps, b, k)
  }

  ghost predicate CutAt(l: Layout, ps: seq<Piece>, b: Piece, k: nat) {
    k < |ps| && Inside(ps[k], b, (l.lead + k) * l.sub)
  }

  lemma DataCut(l: Layout, b: Piece)
    requires Sound(l)
    ensures CutFrom(l, DataFrom(l, b, l.lead), b)
  {
    DataShape(l, b, l.lead);
    forall k | 0 <= k < l.num - l.lead ensures CutAt(l, DataFrom(l, b, l.lead), b, k) {
      assert Off(l, l.lead + k) == (l.lead + k) * l.sub;
    }
  }

  /** The blocks' data subblocks dealt out in turns: in turn `k`, number `k` after the lead of every block. */
  ghost predicate Dealt(l: Layout, ps: seq<Piece>, bs: seq<Piece>)
    requires Sound(l)
  {
    && |ps| == |bs| * (l.num - l.lead)
    && forall k, m :: 0 <= k < l.num - l.lead && 0 <= m < |bs| ==> DealtAt(l, ps, bs, k, m)
  }

  ghost predicate DealtAt(l: Layout, ps: seq<Piece>, bs: seq<Piece>, k: nat, m: nat) {
    m < |bs| && k * |bs| + m < |ps| && Inside(ps[k * |bs| + m], bs[m], (l.lead + k) * l.sub)
  }

  lemma MergedDealt(l: Layout, bs: seq<Piece>, merged: seq<Piece>)
    requires Sound(l) && Level(BlockQueues(l, bs), l.num - l.lead) && |merged| == |bs| * (l.num - l.lead)
    requires Filled(merged, BlockQueues(l, bs), l.num - l.lead, l.num - l.lead, 0)
    ensures Dealt(l, merged, bs)
  {
    forall k, m | 0 <= k < l.num - l.lead && 0 <= m < |bs| ensures DealtAt(l, merged, bs, k, m) {
      var qs := BlockQueues(l, bs);
      assert At(merged, |qs|, k, m, qs[m][k]);
      DataCut(l, bs[m]);
      assert CutAt(l, DataFrom(l, bs[m], l.lead), bs[m], k);
    }
  }

  /** One queue per block, merged. */
  method MergeBlocks(l: Layout, bs: seq<Piece>) returns (merged: seq<Piece>)
    requires Sound(l) && bs != []
    ensures Dealt(l, merged, bs) && merged != [] && merged[0] == SubAt(l, bs[0], l.lead)
    ensures multiset(merged) == multiset(All(l, bs))
  {
    QueuesLevel(l, bs);
    BagAll(l, bs);
    merged := Merge(BlockQueues(l, bs), l.num - l.lead);
    assert At(merged, |bs|, 0, 0, BlockQueues(l, bs)[0][0]);
    MergedDealt(l, bs, merged);
  }

  class ClientMM {
    const l: Layout
    var free: seq<Piece>
    var last: Piece
    var blocks: seq<Piece>
    ghost var out: seq<Piece>
    ghost var lost: seq<Piece>

    ghost function State(): Pool
      reads this
    {
      Pool(free, last, blocks, out, lost)
    }

    /** Free, outstanding and dropped subblocks are together the registered ones (`Partition`). */
    ghost predicate Valid()
      reads this
    {
      Sound(l) && Conserved(l, State())
    }

    /** A client that starts with the blocks `bs`, one per server, merged in turns (`init_reg_space`). */
    constructor (layout: Layout, bs: seq<Piece>, garbage: Piece)
      requires Sound(layout) && bs != []
      ensures Valid() && l == layout && blocks == bs && out == [] && lost == [] && last == garbage
      ensures free != [] && free[0] == SubAt(l, bs[0], l.lead)
      ensures Dealt(l, free, bs)
    {
      var merged := MergeBlocks(layout, bs);
      l, free, last, blocks := layout, merged, garbage, bs;
      out, lost := [], [];
    }

    /** The loop over the data subblocks of a block. */
    method PushBlock(b: Piece)
      requires Sound(l)
      modifies this
      ensures State() == Registered(l, old(State()), b)
    {
      ghost var before := State();
      var i := l.lead;
      while i < l.num
        invariant l.lead <= i <= l.num
        invariant free + DataFrom(l, b, i) == before.free + DataFrom(l, b, l.lead)
        invariant State() == before.(free := free)
      {
        free := free + [SubAt(l, b, i)];
        i := i + 1;
      }
      blocks := blocks + [b];
    }

    /** `local_reg_blocks` */
    method LocalRegBlocks(b: Piece)
      requires Valid()
      modifies this
      ensures Valid() && State() == Registered(l, old(State()), b)
      ensures old(free) <= free && CutFrom(l, free[|old(free)|..], b)
    {
      RegisteredConserves(l, State(), b);
      DataCut(l, b);
      PushBlock(b);
      assert free[|old(free)|..] == DataFrom(l, b, l.lead);
    }

    /** What `mm_alloc` does to the client. */
    method Take(offer: Option<Piece>) returns (ctx: Option<Ctx>)
      requires Sound(l) && free != []
      modifies this
      ensures ctx.None? <==> |old(free)| == 1 && offer.None?
      ensures ctx.None? ==> State() == Dropped(old(State()))
      ensures ctx.Some? ==> State() == Allocated(l, old(State()), offer) && free != []
      ensures ctx.Some? ==> ctx.value == Ctx(old(free)[0], Combined(free[0]), Combined(old(last)))
    {
      var cur := free[0];
      free := free[1..];
      if |free| == 0 && offer.None? {
        lost := lost + [cur];
        assert old(free) == [cur];
        return None;
      }
      out := out + [cur];
      if |free| == 0 {
        PushBlock(offer.value);
        DataShape(l, offer.value, l.lead);
      }
      ctx := Some(Ctx(cur, Combined(free[0]), Combined(last)));
      last := cur;
    }

    /**
     `mm_alloc`.  `offer` is what the servers would answer to a request for a block.  The head of the
     queue is handed out together with the subblock that will come next, which is at the head now.
     With one subblock left and no block to be had, that subblock is dropped.
    */
    method Alloc(offer: Option<Piece>) returns (ctx: Option<Ctx>)
      requires Valid() && free != []
      modifies this
      ensures Valid() && (ctx.None? <==> |old(free)| == 1 && offer.None?)
      ensures ctx.None? ==> State() == Dropped(old(State()))
      ensures ctx.Some? ==> State() == Allocated(l, old(State()), offer) && free != []
      ensures ctx.Some? ==> ctx.value == Ctx(old(free)[0], Combined(free[0]), Combined(old(last)))
      ensures ctx.None? ==> free == [] && out == old(out) && last == old(last)
      ensures ctx.Some? ==> out == old(out) + [ctx.value.cur] && last == ctx.value.cur && lost == old(lost)
      ensures ctx.Some? && |old(free)| > 1 ==> free == old(free)[1..] && blocks == old(blocks)
    {
      AllocatorConserves(l, State(), [], offer, 0, []);
      ctx := Take(offer);
    }

    /** What `mm_free_cur` does to the client. */
    method PutBack(ctx: Ctx, ghost k: nat)
      requires k < |out| && out[k] == ctx.cur
      modifies this
      ensures State() == Undone(old(State()), k, ctx.prev)
    {
      out := out[..k] + out[k + 1..];
      free := [ctx.cur] + free;
      last := Split(ctx.prev);
    }

    /**
     `mm_free_cur`; `k` is where the caller's subblock stands among the outstanding ones.  It is the
     next to be handed out and no longer outstanding, nothing is lost, and as long as the blocks do
     not overlap nothing is doubled.
    */
    method FreeCur(ctx: Ctx, ghost k: nat)
      requires Valid() && k < |out| && out[k] == ctx.cur
      modifies this
      ensures Valid() && State() == Undone(old(State()), k, ctx.prev) && free != [] && free[0] == ctx.cur
      ensures NoDup(All(l, blocks)) ==> ctx.cur !in out && NoDup(free + out + lost)
    {
      UndoneConserves(l, State(), k, ctx.prev);
      PutBack(ctx, k);
      if NoDup(All(l, blocks)) { Partition(l, State()); }
    }

    /** `mm_free_cur` right after `mm_alloc` restores the client, but for a block obtained on the way. */
    method AllocThenFree(offer: Option<Piece>) returns (ok: bool)
      requires Valid() && free != [] && last in All(l, blocks) && forall b :: b in blocks ==> Whole(l, b)
      modifies this
      ensures Valid() && (ok <==> |old(free)| > 1 || offer.Some?)
      ensures ok ==> State() == if |old(free)| > 1 then old(State()) else Registered(l, old(State()), offer.value)
    {
      ghost var before := State();
      UndoneAllocated(l, before, offer);
      var ctx := Alloc(offer);
      if ctx.None? { return false; }
      FreeCur(ctx.value, |before.out|);
      return true;
    }
  }
}
