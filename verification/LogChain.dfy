/**
 The embedded operation log: every entry names the subblock of the entry after it, so the entries
 of a client form a chain from its first data subblock to the current head of its free queue.
*/
module LogChain {
  import opened Common
  import opened Packing
  import opened ClientMemory

  /** The log tails written so far; memory that was never written reads as zeros. */
  type Memory = map<Copy, seq<Byte>>

  function Primary(p: Piece): Copy {
    if p == [] then Copy(0, 0) else p[0]
  }

  function Primaries(ps: seq<Piece>): (r: seq<Copy>)
    ensures |r| == |ps|
  {
    seq(|ps|, i requires 0 <= i < |ps| => Primary(ps[i]))
  }

  /** The next pointer stored at `at`. */
  function ReadNext(mem: Memory, at: Copy): (t: seq<Byte>)
    requires forall c :: c in mem ==> |mem[c]| == 6
    ensures |t| == 6
  {
    if at in mem then mem[at] else [0, 0, 0, 0, 0, 0]
  }

  ghost predicate Tails(mem: Memory) {
    forall c :: c in mem ==> |mem[c]| == 6
  }

  /** A place a log entry can be. */
  predicate Usable(c: Copy) {
    c.addr != 0 && Aligned(c.addr)
  }

  lemma NameInjective(c: Copy, d: Copy)
    requires Usable(c) && Usable(d)
    ensures Name(c) == Name(d) <==> c == d
  {
    CombineRoundTrip(c.sid, c.addr);
    CombineRoundTrip(d.sid, d.addr);
  }

  /** Each entry of `order` points to the one after it, and the last place holds no entry yet. */
  ghost predicate Chained(order: seq<Copy>, mem: Memory) {
    && order != [] && Tails(mem) && order[|order| - 1] !in mem
    && (forall i :: 0 <= i < |order| ==> Usable(order[i]))
    && (forall i :: 0 <= i < |order| - 1 ==> order[i] in mem && mem[order[i]] == PackTail(Name(order[i + 1])))
  }

  lemma ZeroTail()
    ensures TailAddr([0, 0, 0, 0, 0, 0]) == 0
  {
    var t: seq<Byte> := [0, 0, 0, 0, 0, 0];
    assert t[..5] == [0, 0, 0, 0, 0];
    Unpack40Horner(t[..5]);
  }

  /** Following a stored pointer leads to the copy it was made from. */
  lemma FollowTail(c: Copy)
    requires Usable(c)
    ensures Copy(TailSid(PackTail(Name(c))), TailAddr(PackTail(Name(c)))) == c
  {
    TailRoundTrip(c.sid, c.addr);
  }

  /** `mm_traverse_log`: it stops, and has then seen exactly the chain, in order. */
  method Traverse(head: Copy, mem: Memory, ghost order: seq<Copy>) returns (visited: seq<Copy>)
    requires Chained(order, mem) && order[0] == head
    ensures visited == order
  {
    visited := [];
    var at := head;
    while at.addr != 0
      invariant |visited| <= |order| && visited == order[..|visited|]
      invariant |visited| < |order| ==> at == order[|visited|]
      invariant |visited| == |order| ==> at.addr == 0
      decreases |order| - |visited|
    {
      ghost var k := |visited|;
      var tail := ReadNext(mem, at);
      visited := visited + [at];
      if k + 1 < |order| { FollowTail(order[k + 1]); } else { ZeroTail(); }
      at := Copy(TailSid(tail), TailAddr(tail));
    }
  }

  /** One more entry, written where the chain ended. */
  lemma ChainGrows(order: seq<Copy>, mem: Memory, next: Copy)
    requires Chained(order, mem) && NoDup(order) && Usable(next) && next !in mem && next !in order
    ensures Chained(order + [next], mem[order[|order| - 1] := PackTail(Name(next))])
  {
    var n := |order| - 1;
    var after, mem' := order + [next], mem[order[n] := PackTail(Name(next))];
    forall i | 0 <= i < |after| - 1 ensures after[i] in mem' && mem'[after[i]] == PackTail(Name(after[i + 1])) {
      if i < n { assert order[i] != order[n]; }
    }
  }

  // The allocator with its log.

  /** The entries in allocation order, then the head of the free queue. */
  function Order(p: Pool): (r: seq<Copy>)
    requires p.free != []
    ensures |r| == |p.out| + 1
  {
    Primaries(p.out) + [Primary(p.free[0])]
  }

  /** No two data subblocks share a primary copy. */
  ghost predicate Spread(ps: seq<Piece>) {
    NoDup(Primaries(ps)) && forall s :: s in ps ==> Usable(Primary(s))
  }

  lemma SpreadPieces(ps: seq<Piece>)
    requires Spread(ps)
    ensures NoDup(ps)
    ensures forall s, t :: s in ps && t in ps && Primary(s) == Primary(t) ==> s == t
  {
    forall i, j | 0 <= i < j < |ps| ensures ps[i] != ps[j] {
      assert Primaries(ps)[i] != Primaries(ps)[j];
    }
    forall s, t | s in ps && t in ps && Primary(s) == Primary(t) ensures s == t {
      var i :| 0 <= i < |ps| && ps[i] == s;
      var j :| 0 <= j < |ps| && ps[j] == t;
      assert Primaries(ps)[i] == Primaries(ps)[j];
    }
  }

  /** A client whose every successful allocation has been logged. */
  ghost predicate Logged(l: Layout, p: Pool, mem: Memory)
    requires Sound(l)
  {
    && Conserved(l, p) && p.lost == [] && p.free != [] && p.blocks != [] && Spread(All(l, p.blocks))
    && Chained(Order(p), mem)
    && (forall c :: c in mem <==> c in Primaries(p.out))
    && Order(p)[0] == Primary(SubAt(l, p.blocks[0], l.lead))
    && (p.out != [] ==> p.last == p.out[|p.out| - 1])
  }

  /** Outstanding and free subblocks never share a primary copy. */
  lemma OutApart(l: Layout, p: Pool)
    requires Sound(l) && Conserved(l, p) && Spread(All(l, p.blocks))
    ensures NoDup(Primaries(p.out))
    ensures forall s :: s in p.free ==> Usable(Primary(s)) && Primary(s) !in Primaries(p.out)
  {
    SpreadPieces(All(l, p.blocks));
    Partition(l, p);
    var joined := p.free + p.out + p.lost;
    forall i, j | 0 <= i < j < |p.out| ensures Primary(p.out[i]) != Primary(p.out[j]) {
      assert joined[|p.free| + i] != joined[|p.free| + j];
      assert p.out[i] in p.out && p.out[j] in p.out;
    }
    forall s | s in p.free ensures Primary(s) !in Primaries(p.out) {
      forall j | 0 <= j < |p.out| ensures Primary(p.out[j]) != Primary(s) {
        assert p.out[j] in p.out;
      }
    }
  }

  /** A fresh client has an empty log. */
  lemma LoggedInit(l: Layout, p: Pool)
    requires Sound(l) && Conserved(l, p) && p.lost == [] && p.out == [] && p.free != [] && p.blocks != []
    requires Spread(All(l, p.blocks)) && p.free[0] == SubAt(l, p.blocks[0], l.lead)
    ensures Logged(l, p, map[])
  {
    OutApart(l, p);
    assert p.free[0] in p.free;
  }

  /** The log after the allocation that turned `p` into `q`. */
  function Entry(p: Pool, q: Pool, mem: Memory): Memory
    requires p.free != [] && q.free != []
  {
    mem[Primary(p.free[0]) := PackTail(Name(Primary(q.free[0])))]
  }

  /** `q` has handed out the head of `p`'s free queue and still has a next subblock. */
  ghost predicate Handed(l: Layout, p: Pool, q: Pool)
    requires Sound(l)
  {
    && p.free != [] && q.free != [] && q.out == p.out + [p.free[0]] && q.last == p.free[0]
    && q.lost == p.lost && p.blocks <= q.blocks && Conserved(l, q)
  }

  lemma AllocatedHands(l: Layout, p: Pool, offer: Option<Piece>)
    requires Sound(l) && Conserved(l, p) && p.free != [] && (|p.free| == 1 ==> offer.Some?)
    ensures Handed(l, p, Allocated(l, p, offer))
  {
    if |p.free| == 1 { DataShape(l, offer.value, l.lead); }
    AllocatorConserves(l, p, [], offer, 0, []);
  }

  lemma OrderGrows(l: Layout, p: Pool, q: Pool)
    requires Sound(l) && Conserved(l, p) && Handed(l, p, q) && Spread(All(l, p.blocks)) && Spread(All(l, q.blocks))
    ensures Order(q) == Order(p) + [Primary(q.free[0])] && NoDup(Order(p))
    ensures Primaries(q.out) == Order(p) && Usable(Primary(q.free[0])) && Primary(q.free[0]) !in Order(p)
  {
    OutApart(l, p);
    OutApart(l, q);
    assert q.free[0] in q.free && p.free[0] in p.free;
    assert Primaries(q.out) == Order(p);
  }

  /** Every successful allocation, with its entry written, extends the chain by one. */
  lemma LoggedNext(l: Layout, p: Pool, q: Pool, mem: Memory)
    requires Sound(l) && Logged(l, p, mem) && Handed(l, p, q) && Spread(All(l, q.blocks))
    ensures Logged(l, q, Entry(p, q, mem)) && Order(q) == Order(p) + [Primary(q.free[0])]
  {
    OrderGrows(l, p, q);
    var n := |Order(p)| - 1;
    assert Order(p)[n] == Primary(p.free[0]);
    forall c | c in mem ensures c in Order(p) {
      assert c in Primaries(p.out);
    }
    ChainGrows(Order(p), mem, Primary(q.free[0]));
    var mem' := Entry(p, q, mem);
    forall c ensures c in mem' <==> c in Order(p) {
      assert c in mem' <==> c in Primaries(p.out) || c == Primary(p.free[0]);
    }
    assert q.blocks[0] == p.blocks[0];
  }

  // Allocations given back: `mm_free_cur` leaves the entry in the log.

  /** The client with the first `d` free subblocks, given back before, still counted as allocated. */
  function Reinstated(p: Pool, d: nat): Pool
    requires d <= |p.free|
  {
    if d == 0 then p else p.(free := p.free[d..], out := p.out + p.free[..d], last := p.free[d - 1])
  }

  /** The log is that of a client that had not given back its `d` latest allocations. */
  ghost predicate Ahead(l: Layout, p: Pool, mem: Memory, d: nat)
    requires Sound(l)
  {
    d < |p.free| && Logged(l, Reinstated(p, d), mem)
  }

  ghost predicate Describes(l: Layout, p: Pool, mem: Memory)
    requires Sound(l)
  {
    exists d :: Ahead(l, p, mem, d)
  }

  lemma ReinstatedUndone(p: Pool, d: nat, prev: seq<nat>)
    requires d <= |p.free| && p.out != [] && (d == 0 ==> p.last == p.out[|p.out| - 1])
    ensures Reinstated(Undone(p, |p.out| - 1, prev), d + 1) == Reinstated(p, d)
  {
    var q := Undone(p, |p.out| - 1, prev);
    assert q.out + q.free[..d + 1] == p.out + p.free[..d];
    assert q.free[d + 1..] == p.free[d..];
  }

  lemma ReinstatedTaken(p: Pool, d: nat)
    requires 0 < d <= |p.free|
    ensures Reinstated(Taken(p), d - 1) == Reinstated(p, d)
  {
    var q := Taken(p);
    assert q.out + q.free[..d - 1] == p.out + p.free[..d];
    assert q.free[d - 1..] == p.free[d..];
  }

  /** Giving back the latest allocation puts the log one further ahead. */
  lemma UndoAhead(l: Layout, p: Pool, mem: Memory, d: nat, prev: seq<nat>)
    requires Sound(l) && Ahead(l, p, mem, d) && p.out != []
    ensures Ahead(l, Undone(p, |p.out| - 1, prev), mem, d + 1)
  {
    ReinstatedUndone(p, d, prev);
  }

  lemma UndoDescribed(l: Layout, p: Pool, mem: Memory, prev: seq<nat>)
    requires Sound(l) && Describes(l, p, mem) && p.out != []
    ensures Describes(l, Undone(p, |p.out| - 1, prev), mem)
  {
    var d :| Ahead(l, p, mem, d);
    UndoAhead(l, p, mem, d, prev);
  }

  /** Allocating again what was given back rewrites the entry that is there. */
  lemma TakeAhead(l: Layout, p: Pool, mem: Memory, d: nat)
    requires Sound(l) && Ahead(l, p, mem, d) && d > 0
    ensures Entry(p, Taken(p), mem) == mem && Ahead(l, Taken(p), mem, d - 1)
  {
    ReinstatedTaken(p, d);
    EntryThere(Order(Reinstated(p, d)), mem, |p.out|);
    OrderAhead(p, d);
  }

  lemma EntryThere(order: seq<Copy>, mem: Memory, n: nat)
    requires Chained(order, mem) && n + 1 < |order|
    ensures mem[order[n] := PackTail(Name(order[n + 1]))] == mem
  {
  }

  lemma OrderAhead(p: Pool, d: nat)
    requires 0 < d < |p.free|
    ensures var order := Order(Reinstated(p, d));
            |p.out| + 1 < |order| && order[|p.out|] == Primary(p.free[0]) && order[|p.out| + 1] == Primary(p.free[1])
  {
  }

  /**
   The exact condition: after allocation number `i` is given back and its subblock allocated again,
   the log describes the client if and only if `i` was the latest allocation.
  */
  lemma RetakenExactly(l: Layout, p: Pool, mem: Memory, i: nat, prev: seq<nat>)
    requires Sound(l) && Logged(l, p, mem) && i < |p.out|
    ensures var q := Undone(p, i, prev);
            Logged(l, Taken(q), Entry(q, Taken(q), mem)) <==> i == |p.out| - 1
  {
    var q := Undone(p, i, prev);
    if i == |p.out| - 1 {
      RetakenLatest(l, p, mem, prev);
    } else {
      SkippedEntry(l, p, mem, i, prev);
    }
  }

  lemma RetakenLatest(l: Layout, p: Pool, mem: Memory, prev: seq<nat>)
    requires Sound(l) && Logged(l, p, mem) && p.out != []
    ensures var q := Undone(p, |p.out| - 1, prev); Taken(q) == p && Entry(q, Taken(q), mem) == mem
  {
    var n := |p.out| - 1;
    assert Taken(Undone(p, n, prev)).out == p.out;
    assert Order(p)[n] == Primary(p.out[n]) && Order(p)[n + 1] == Primary(p.free[0]);
    EntryThere(Order(p), mem, n);
  }

  /** The chain then still leads from the allocation before `i` to `i`, which comes last now. */
  lemma SkippedEntry(l: Layout, p: Pool, mem: Memory, i: nat, prev: seq<nat>)
    requires Sound(l) && Logged(l, p, mem) && i < |p.out| - 1
    ensures var q := Undone(p, i, prev); !Logged(l, Taken(q), Entry(q, Taken(q), mem))
  {
    OutApart(l, p);
    var q := Undone(p, i, prev);
    var r, mem' := Taken(q), Entry(q, Taken(q), mem);
    var o, o' := Order(p), Order(r);
    assert Primaries(p.out)[i] == o[i] && Primaries(p.out)[i + 1] == o[i + 1];
    assert o[i] != o[i + 1] && r.out[i] == p.out[i + 1] && o'[i] == o[i + 1];
    if i > 0 && Chained(o', mem') {
      assert Primaries(p.out)[i - 1] == o[i - 1] != o[i] && o'[i - 1] == o[i - 1];
      assert mem[o[i - 1]] == PackTail(Name(o[i])) && mem'[o'[i - 1]] == PackTail(Name(o'[i]));
      FollowTail(o[i]);
      FollowTail(o'[i]);
      assert false;
    }
  }

  /**
   In the other case the traversal ends early: it sees the allocations up to `i` and the head of the
   queue, and none of the later ones, although they are outstanding.
  */
  lemma LaterForgotten(l: Layout, p: Pool, mem: Memory, i: nat, prev: seq<nat>)
    requires Sound(l) && Logged(l, p, mem) && i < |p.out| - 1
    ensures var q := Undone(p, i, prev);
            var r, seen := Taken(q), Order(p)[..i + 1] + [Primary(p.free[0])];
            && Chained(seen, Entry(q, r, mem)) && seen[0] == Order(p)[0]
            && forall j :: i < j < |p.out| ==> p.out[j] in r.out && Primary(p.out[j]) !in seen
  {
    OrderApart(l, p);
    ChainCut(Order(p), mem, i);
    forall j | i < j < |p.out|
      ensures p.out[j] in Taken(Undone(p, i, prev)).out
      ensures Primary(p.out[j]) !in Order(p)[..i + 1] + [Primary(p.free[0])]
    {
      StillOut(p, i, j, prev);
      NotSeen(Order(p), i, j);
    }
  }

  lemma StillOut(p: Pool, i: nat, j: nat, prev: seq<nat>)
    requires i < j < |p.out|
    ensures p.out[j] in Taken(Undone(p, i, prev)).out
  {
    assert Taken(Undone(p, i, prev)).out[j - 1] == p.out[j];
  }

  lemma NotSeen(order: seq<Copy>, i: nat, j: nat)
    requires NoDup(order) && i < j < |order| - 1
    ensures order[j] !in order[..i + 1] + [order[|order| - 1]]
  {
  }

  lemma OrderApart(l: Layout, p: Pool)
    requires Sound(l) && Conserved(l, p) && Spread(All(l, p.blocks)) && p.free != []
    ensures NoDup(Order(p))
  {
    OutApart(l, p);
    assert p.free[0] in p.free;
  }

  /** An entry that points past the rest of the chain, to its end. */
  lemma ChainCut(order: seq<Copy>, mem: Memory, i: nat)
    requires Chained(order, mem) && NoDup(order) && i < |order| - 1
    ensures Chained(order[..i + 1] + [order[|order| - 1]], mem[order[i] := PackTail(Name(order[|order| - 1]))])
  {
    var last := order[|order| - 1];
    var seen, mem' := order[..i + 1] + [last], mem[order[i] := PackTail(Name(last))];
    forall j | 0 <= j < |seen| - 1 ensures seen[j] in mem' && mem'[seen[j]] == PackTail(Name(seen[j + 1])) {
      assert seen[j] == order[j];
    }
  }

  /** One logged allocation; the servers' answer must not overlap what the client has. */
  method AllocLogged(mm: ClientMM, mem: Memory, offer: Option<Piece>) returns (mem': Memory, ok: bool)
    requires mm.Valid() && Logged(mm.l, mm.State(), mem)
    requires offer.Some? ==> Spread(All(mm.l, mm.blocks + [offer.value]))
    modifies mm
    ensures mm.Valid()
    ensures ok <==> !(|old(mm.free)| == 1 && offer.None?)
    ensures ok ==> mm.State() == Allocated(mm.l, old(mm.State()), offer) && Logged(mm.l, mm.State(), mem')
    ensures ok ==> Order(mm.State()) == Order(old(mm.State())) + [Primary(mm.free[0])]
    ensures !ok ==> mem' == mem
  {
    ghost var p := mm.State();
    if |p.free| > 1 || offer.Some? { EntryLogged(mm.l, p, offer, mem); }
    mem', ok := AllocEntry(mm, mem, offer);
  }

  /** An allocation and its entry. */
  method AllocEntry(mm: ClientMM, mem: Memory, offer: Option<Piece>) returns (mem': Memory, ok: bool)
    requires mm.Valid() && mm.free != []
    requires (|mm.free| == 1 ==> offer.Some?) ==> NextNamed(Allocated(mm.l, mm.State(), offer))
    modifies mm
    ensures mm.Valid() && (ok <==> !(|old(mm.free)| == 1 && offer.None?))
    ensures ok ==> mm.State() == Allocated(mm.l, old(mm.State()), offer) && mm.free != []
    ensures ok ==> mem' == Entry(old(mm.State()), mm.State(), mem)
    ensures !ok ==> mem' == mem
  {
    var ctx := mm.Alloc(offer);
    if ctx.None? { return mem, false; }
    return mem[Primary(ctx.value.cur) := PackTail(ctx.value.next[0])], true;
  }

  predicate NextNamed(q: Pool) {
    q.free != [] && q.free[0] != [] && Combined(q.free[0])[0] == Name(Primary(q.free[0]))
  }

  lemma EntryLogged(l: Layout, p: Pool, offer: Option<Piece>, mem: Memory)
    requires Sound(l) && Logged(l, p, mem) && (|p.free| == 1 ==> offer.Some?)
    requires offer.Some? ==> Spread(All(l, p.blocks + [offer.value]))
    ensures var q := Allocated(l, p, offer);
            && NextNamed(q)
            && Logged(l, q, Entry(p, q, mem)) && Order(q) == Order(p) + [Primary(q.free[0])]
  {
    AllocatedHands(l, p, offer);
    LoggedNext(l, p, Allocated(l, p, offer), mem);
    CombinedPrimary(l, Allocated(l, p, offer));
  }

  /** The next pointer of the allocation context is the name of the new head. */
  lemma CombinedPrimary(l: Layout, q: Pool)
    requires Sound(l) && q.free != [] && Conserved(l, q) && Spread(All(l, q.blocks))
    ensures q.free[0] != [] && Combined(q.free[0])[0] == Name(Primary(q.free[0]))
  {
    OutApart(l, q);
    assert q.free[0] in q.free;
  }
}
