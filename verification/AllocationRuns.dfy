/**
 All clients and servers together: blocks move from the servers' queues to clients, and from there
 subblock by subblock into use, each allocation with its log entry.  Because a block is handed out
 once and a subblock is allocated once, no two allocations anywhere yield the same slot word, which
 is what the index protocol asks of the words it swaps in; and every client can recover.
*/
module AllocationRuns {
  import opened Common
  import opened Packing
  import opened BlockMap
  import opened ReplicaMap
  import opened ServerMemory
  import opened ClientMemory
  import opened LogChain
  import opened AllocatorRecovery
  import opened Allocation
  import SlotProtocol

  /** A client: its pool, the groups it holds, its log in remote memory, and whether its queue is set up. */
  datatype Client = Client(pool: Pool, held: seq<nat>, log: Memory, started: bool)

  /** The blocks waiting at each server, and the clients. */
  datatype World = World(queues: seq<seq<nat>>, clients: seq<Client>)

  datatype Event =
    | Obtain(client: nat, server: nat, group: nat)       // a first block for a new client
    | Start(client: nat, order: seq<Piece>)              // the new client sets up its queue
    | Take(client: nat)                                  // `mm_alloc` with more to come, and its log entry
    | Refill(client: nat, server: nat, group: nat)       // `mm_alloc` of the last subblock, with a new block
    | Lose(client: nat)                                  // `mm_alloc` out of space
    | Undo(client: nat, index: nat, prev: seq<nat>)      // `mm_free_cur`

  ghost predicate Init(s: Setting, w: World)
    requires Proper(s)
  {
    && |w.queues| == s.c.memories
    && (forall m :: 0 <= m < |w.queues| ==> w.queues[m] == Queue(s.gs, m))
    && (forall k :: 0 <= k < |w.clients| ==> NewClient(w.clients[k]))
  }

  ghost predicate NewClient(c: Client) {
    && c.pool.free == c.pool.out == c.pool.lost == c.pool.blocks == []
    && c.held == [] && c.log == map[] && !c.started
  }

  /** Server `m` hands out the block of group `g`, which the client's table names (`Agreement`). */
  ghost predicate HandsOut(s: Setting, w: World, m: nat, g: nat) {
    && m < |w.queues| && w.queues[m] != [] && g < |s.gs|
    && GroupHead(s.c, s.gs[g], m, w.queues[m][0])
  }

  /** What the client must be like. */
  ghost predicate Fits(s: Setting, c: Client, e: Event)
    requires Proper(s)
  {
    match e
    case Obtain(_, _, _) => !c.started
    case Start(_, order) =>
      && !c.started && c.pool.blocks != [] && order != [] && multiset(order) == multiset(c.pool.free)
      && order[0] == SubAt(s.l, c.pool.blocks[0], s.l.lead)
    case Take(_) => c.started && |c.pool.free| > 1
    case Refill(_, _, _) => c.started && |c.pool.free| == 1
    case Lose(_) => c.started && |c.pool.free| == 1
    case Undo(_, i, _) => c.started && i < |c.pool.out|
  }

  predicate Gains(e: Event) {
    e.Obtain? || e.Refill?
  }

  ghost predicate Enabled(s: Setting, w: World, e: Event)
    requires Proper(s)
  {
    e.client < |w.clients| && Fits(s, w.clients[e.client], e) && (Gains(e) ==> HandsOut(s, w, e.server, e.group))
  }

  /** The client afterwards. */
  ghost function Stepped(s: Setting, c: Client, e: Event): Client
    requires Proper(s) && Fits(s, c, e) && (Gains(e) ==> e.group < |s.gs|)
  {
    match e
    case Obtain(_, _, g) => c.(pool := Registered(s.l, c.pool, BlockOf(s.c, s.gs[g])), held := c.held + [g])
    case Start(_, order) => c.(pool := c.pool.(free := order), started := true)
    case Take(_) => c.(pool := Taken(c.pool), log := Entry(c.pool, Taken(c.pool), c.log))
    case Refill(_, _, g) =>
      var q := Registered(s.l, Taken(c.pool), BlockOf(s.c, s.gs[g]));
      c.(pool := q, log := Entry(c.pool, q, c.log), held := c.held + [g])
    case Lose(_) => c.(pool := Dropped(c.pool))
    case Undo(_, i, prev) => c.(pool := Undone(c.pool, i, prev))
  }

  ghost function Apply(s: Setting, w: World, e: Event): World
    requires Proper(s) && Enabled(s, w, e)
  {
    World(if Gains(e) then w.queues[e.server := w.queues[e.server][1..]] else w.queues,
          w.clients[e.client := Stepped(s, w.clients[e.client], e)])
  }

  ghost predicate Linked(s: Setting, worlds: seq<World>, events: seq<Event>, i: nat)
    requires Proper(s)
  {
    i < |events| && i + 1 < |worlds| && Enabled(s, worlds[i], events[i])
    && worlds[i + 1] == Apply(s, worlds[i], events[i])
  }

  ghost predicate Run(s: Setting, worlds: seq<World>, events: seq<Event>)
    requires Proper(s)
  {
    && |worlds| == |events| + 1 && Init(s, worlds[0])
    && forall i :: 0 <= i < |events| ==> Linked(s, worlds, events, i)
  }

  // What every event keeps.

  /** A client's pool is made of its groups' blocks, and is conserved. */
  ghost predicate ClientOk(s: Setting, c: Client)
    requires Proper(s)
  {
    Known(s, c.held) && NoDup(c.held) && c.pool.blocks == BlocksOf(s, c.held) && Conserved(s.l, c.pool)
  }

  ghost predicate ClientsOk(s: Setting, cs: seq<Client>)
    requires Proper(s)
  {
    forall k :: 0 <= k < |cs| ==> ClientOk(s, cs[k])
  }

  lemma OneChanged(s: Setting, cs: seq<Client>, k: nat, c: Client)
    requires Proper(s) && ClientsOk(s, cs) && k < |cs| && ClientOk(s, c)
    ensures ClientsOk(s, cs[k := c])
  {
    var cs' := cs[k := c];
    forall m | 0 <= m < |cs'| ensures ClientOk(s, cs'[m]) {
      assert cs'[m] == if m == k then c else cs[m];
    }
  }

  /** No group is held by two clients. */
  ghost predicate HeldOnce(cs: seq<Client>) {
    forall k, k' :: 0 <= k < k' < |cs| ==> forall g :: g in cs[k].held ==> g !in cs[k'].held
  }

  lemma HeldByOneMore(cs: seq<Client>, k: nat, c: Client, g: nat)
    requires HeldOnce(cs) && k < |cs| && c.held == cs[k].held + [g] && forall m :: 0 <= m < |cs| ==> g !in cs[m].held
    ensures HeldOnce(cs[k := c])
  {
  }

  /** The first block of group `g` waits at no server. */
  ghost predicate Claimed(s: Setting, queues: seq<seq<nat>>, g: nat) {
    g < |s.gs| && forall m, a :: 0 <= m < |queues| && a in queues[m] ==> !GroupHead(s.c, s.gs[g], m, a)
  }

  /** A waiting block waits once, and its group is held by nobody. */
  ghost predicate WaitingOk(s: Setting, w: World)
    requires Proper(s)
  {
    && |w.queues| == s.c.memories
    && (forall m :: 0 <= m < |w.queues| ==> NoDup(w.queues[m]))
    && (forall k :: 0 <= k < |w.clients| ==> forall g :: g in w.clients[k].held ==> Claimed(s, w.queues, g))
  }

  ghost predicate Inv(s: Setting, w: World)
    requires Proper(s)
  {
    ClientsOk(s, w.clients) && HeldOnce(w.clients) && WaitingOk(s, w)
  }

  lemma InitInv(s: Setting, w: World)
    requires Proper(s) && Init(s, w)
    ensures Inv(s, w)
  {
    var n := GroupCount(s.c);
    MappedApart(s.c, n);
    MappedPlaced(s.c, n, 1);
    forall m | 0 <= m < |w.queues| ensures NoDup(w.queues[m]) {
      QueueRises(s.c, s.gs, m);
    }
  }

  lemma BlocksGain(s: Setting, held: seq<nat>, g: nat)
    requires Proper(s) && Known(s, held) && NoDup(held) && g < |s.gs| && g !in held
    ensures Known(s, held + [g]) && NoDup(held + [g])
    ensures BlocksOf(s, held + [g]) == BlocksOf(s, held) + [BlockOf(s.c, s.gs[g])]
  {
    NoDupAppend(held, g);
  }

  lemma SteppedOk(s: Setting, c: Client, e: Event)
    requires Proper(s) && ClientOk(s, c) && Fits(s, c, e)
    requires Gains(e) ==> e.group < |s.gs| && e.group !in c.held
    ensures ClientOk(s, Stepped(s, c, e))
  {
    if Gains(e) { BlocksGain(s, c.held, e.group); }
    match e
    case Obtain(_, _, g) => RegisteredConserves(s.l, c.pool, BlockOf(s.c, s.gs[g]));
    case Start(_, order) =>
    case Take(_) => TakenConserves(s.l, c.pool);
    case Refill(_, _, g) =>
      TakenConserves(s.l, c.pool);
      RegisteredConserves(s.l, Taken(c.pool), BlockOf(s.c, s.gs[g]));
    case Lose(_) => DroppedConserves(s.l, c.pool);
    case Undo(_, i, prev) => UndoneConserves(s.l, c.pool, i, prev);
  }

  lemma GainFresh(s: Setting, w: World, m: nat, g: nat)
    requires Proper(s) && WaitingOk(s, w) && HandsOut(s, w, m, g)
    ensures forall k :: 0 <= k < |w.clients| ==> g !in w.clients[k].held
    ensures Claimed(s, w.queues[m := w.queues[m][1..]], g)
  {
    forall k | 0 <= k < |w.clients| ensures g !in w.clients[k].held {
      assert w.queues[m][0] in w.queues[m];
    }
  }

  /** The groups a client holds change only by the one it gains. */
  lemma SteppedHeld(s: Setting, c: Client, e: Event)
    requires Proper(s) && Fits(s, c, e) && (Gains(e) ==> e.group < |s.gs|)
    ensures Stepped(s, c, e).held == if Gains(e) then c.held + [e.group] else c.held
  {
  }

  lemma StepHeld(s: Setting, w: World, e: Event)
    requires Proper(s) && HeldOnce(w.clients) && WaitingOk(s, w) && Enabled(s, w, e)
    ensures HeldOnce(Apply(s, w, e).clients)
  {
    var c := w.clients[e.client];
    SteppedHeld(s, c, e);
    if Gains(e) {
      GainFresh(s, w, e.server, e.group);
      HeldByOneMore(w.clients, e.client, Stepped(s, c, e), e.group);
    }
  }

  lemma StepWaiting(s: Setting, w: World, e: Event)
    requires Proper(s) && WaitingOk(s, w) && Enabled(s, w, e)
    ensures WaitingOk(s, Apply(s, w, e))
  {
    var w' := Apply(s, w, e);
    SteppedHeld(s, w.clients[e.client], e);
    if Gains(e) {
      GainFresh(s, w, e.server, e.group);
      forall k, g | 0 <= k < |w'.clients| && g in w'.clients[k].held ensures Claimed(s, w'.queues, g) {
        if g != e.group { assert g in w.clients[k].held && Claimed(s, w.queues, g); }
      }
    }
  }

  lemma StepInv(s: Setting, w: World, e: Event)
    requires Proper(s) && Inv(s, w) && Enabled(s, w, e)
    ensures Inv(s, Apply(s, w, e))
  {
    StepHeld(s, w, e);
    StepWaiting(s, w, e);
    var c := w.clients[e.client];
    assert Gains(e) ==> e.group !in c.held by {
      if Gains(e) { GainFresh(s, w, e.server, e.group); }
    }
    SteppedOk(s, c, e);
    OneChanged(s, w.clients, e.client, Stepped(s, c, e));
  }

  /** Every event, `mm_free_cur` included, keeps every client's subblocks conserved and the groups apart. */
  lemma {:induction false} RunInv(s: Setting, worlds: seq<World>, events: seq<Event>, i: nat)
    requires Proper(s) && Run(s, worlds, events) && i < |worlds|
    ensures Inv(s, worlds[i])
  {
    if i == 0 {
      InitInv(s, worlds[0]);
    } else {
      RunInv(s, worlds, events, i - 1);
      assert Linked(s, worlds, events, i - 1);
      StepInv(s, worlds[i - 1], events[i - 1]);
    }
  }

  // No two allocations anywhere share a place.

  ghost predicate Outstanding(w: World, k: nat, i: nat) {
    k < |w.clients| && i < |w.clients[k].pool.out|
  }

  /** Two outstanding allocations, of one client or of two, share no primary copy. */
  lemma AllocationsApart(s: Setting, w: World, k: nat, i: nat, k': nat, i': nat)
    requires Proper(s) && Inv(s, w) && Outstanding(w, k, i) && Outstanding(w, k', i')
    ensures Primary(w.clients[k].pool.out[i]) == Primary(w.clients[k'].pool.out[i']) <==> k == k' && i == i'
    ensures Usable(Primary(w.clients[k].pool.out[i]))
  {
    var c, c' := w.clients[k], w.clients[k'];
    assert ClientOk(s, c) && ClientOk(s, c');
    var g, m := OutSource(s, c, i);
    var g', m' := OutSource(s, c', i');
    PrimaryUsable(s, g, m);
    PrimaryApart(s, g, g', m, m');
    if k == k' {
      HeldSpread(s, c.held);
      OutApart(s.l, c.pool);
      assert Primaries(c.pool.out)[i] == Primary(c.pool.out[i]);
      assert Primaries(c.pool.out)[i'] == Primary(c.pool.out[i']);
    }
  }

  /** An allocated subblock is a data subblock of a group its client holds. */
  lemma OutSource(s: Setting, c: Client, i: nat) returns (g: nat, m: nat)
    requires Proper(s) && ClientOk(s, c) && i < |c.pool.out|
    ensures g in c.held && g < |s.gs| && m < s.l.num && c.pool.out[i] == SubOf(s, g, m)
  {
    HeldSpread(s, c.held);
    SpreadPieces(All(s.l, c.pool.blocks));
    Partition(s.l, c.pool);
    assert c.pool.out[i] in c.pool.out;
    g, m := AllSource(s, c.held, c.pool.out[i]);
  }

  /** The word an allocation puts into the index (`fill_slot`). */
  function WordOf(p: Piece, fp: Byte, len: Byte): Word {
    SlotWord(FillSlot(fp, len, Primary(p).sid, Primary(p).addr))
  }

  /**
   Freshness: in every run of clients and servers, two different outstanding allocations yield
   different slot words, whatever fingerprints and lengths they are stored under.
  */
  lemma FreshWords(s: Setting, worlds: seq<World>, events: seq<Event>, t: nat,
                   k: nat, i: nat, k': nat, i': nat, fp: Byte, len: Byte, fp': Byte, len': Byte)
    requires Proper(s) && Run(s, worlds, events) && t < |worlds|
    requires Outstanding(worlds[t], k, i) && Outstanding(worlds[t], k', i') && (k, i) != (k', i')
    ensures WordOf(worlds[t].clients[k].pool.out[i], fp, len) != WordOf(worlds[t].clients[k'].pool.out[i'], fp', len')
  {
    RunInv(s, worlds, events, t);
    AllocationsApart(s, worlds[t], k, i, k', i');
    AllocationsApart(s, worlds[t], k', i', k, i);
    var p, q := Primary(worlds[t].clients[k].pool.out[i]), Primary(worlds[t].clients[k'].pool.out[i']);
    SlotWordInjective(fp, len, p.sid, p.addr, fp', len', q.sid, q.addr);
  }

  /** Without `mm_free_cur` an allocation stays outstanding, so the words above differ from all earlier ones. */
  lemma {:induction false} OutGrows(s: Setting, worlds: seq<World>, events: seq<Event>, t: nat, t': nat, k: nat)
    requires Proper(s) && Run(s, worlds, events) && t <= t' < |worlds| && k < |worlds[t].clients|
    requires forall e :: e in events ==> !e.Undo?
    ensures k < |worlds[t'].clients| && worlds[t].clients[k].pool.out <= worlds[t'].clients[k].pool.out
  {
    if t < t' {
      OutGrows(s, worlds, events, t, t' - 1, k);
      assert Linked(s, worlds, events, t' - 1) && events[t' - 1] in events;
    }
  }

  /** Allocations made at different times never yield the same word, if none is ever given back. */
  lemma FreshForever(s: Setting, worlds: seq<World>, events: seq<Event>, t: nat, t': nat,
                     k: nat, i: nat, k': nat, i': nat, fp: Byte, len: Byte, fp': Byte, len': Byte)
    requires Proper(s) && Run(s, worlds, events) && t <= t' < |worlds| && (forall e :: e in events ==> !e.Undo?)
    requires Outstanding(worlds[t], k, i) && Outstanding(worlds[t'], k', i') && (k, i) != (k', i')
    ensures WordOf(worlds[t].clients[k].pool.out[i], fp, len) != WordOf(worlds[t'].clients[k'].pool.out[i'], fp', len')
  {
    OutGrows(s, worlds, events, t, t', k);
    FreshWords(s, worlds, events, t', k, i, k', i', fp, len, fp', len');
  }

  /** An allocation of a client, with the fingerprint and length it is stored under. */
  datatype Source = Source(client: nat, index: nat, fp: Byte, len: Byte)

  ghost predicate Stores(w: World, o: Source) {
    Outstanding(w, o.client, o.index)
  }

  ghost function SourceWord(w: World, o: Source): Word
    requires Stores(w, o)
  {
    WordOf(w.clients[o.client].pool.out[o.index], o.fp, o.len)
  }

  /** The word comes from another allocation than `o`. */
  ghost predicate FromElsewhere(w: World, v: Word, o: Source) {
    exists o' :: Stores(w, o') && v == SourceWord(w, o') && (o'.client, o'.index) != (o.client, o.index)
  }

  lemma ElsewhereDiffers(s: Setting, worlds: seq<World>, events: seq<Event>, t: nat, o: Source, v: Word)
    requires Proper(s) && Run(s, worlds, events) && t < |worlds| && Stores(worlds[t], o)
    requires FromElsewhere(worlds[t], v, o)
    ensures v != SourceWord(worlds[t], o)
  {
    var o' :| Stores(worlds[t], o') && v == SourceWord(worlds[t], o') && (o'.client, o'.index) != (o.client, o.index);
    FreshWords(s, worlds, events, t, o.client, o.index, o'.client, o'.index, o.fp, o.len, o'.fp, o'.len);
  }

  /** So an update that stores a newly allocated object may always start: its word is new to the slot. */
  lemma InvokeEnabled(s: Setting, worlds: seq<World>, events: seq<Event>, t: nat, slot: SlotProtocol.Slot, o: Source)
    requires Proper(s) && Run(s, worlds, events) && t < |worlds| && Stores(worlds[t], o) && |slot.hist| > 0
    requires FromElsewhere(worlds[t], slot.hist[0], o)
    requires forall v :: v in slot.ops ==> FromElsewhere(worlds[t], v, o)
    ensures SlotProtocol.Enabled(slot, SlotProtocol.Invoke(SourceWord(worlds[t], o)))
  {
    ElsewhereDiffers(s, worlds, events, t, o, slot.hist[0]);
    var w := SourceWord(worlds[t], o);
    if w in slot.ops {
      ElsewhereDiffers(s, worlds, events, t, o, w);
    }
  }

  // Every client's log describes it.

  /** Every `mm_free_cur` gives back its client's latest outstanding allocation. */
  ghost predicate LatestOnly(worlds: seq<World>, events: seq<Event>)
    requires |worlds| == |events| + 1
  {
    forall i :: 0 <= i < |events| && events[i].Undo? && events[i].client < |worlds[i].clients| ==>
      events[i].index + 1 == |worlds[i].clients[events[i].client].pool.out|
  }

  /** A new client has logged nothing; one that lost no subblock has its log, ahead by what it gave back. */
  ghost predicate Tracked(s: Setting, c: Client)
    requires Proper(s)
  {
    && (!c.started ==> c.pool.out == [] && c.pool.lost == [] && c.log == map[])
    && (c.started && c.pool.lost == [] ==> Describes(s.l, c.pool, c.log))
  }

  lemma StartTracked(s: Setting, c: Client, e: Event)
    requires Proper(s) && ClientOk(s, c) && Tracked(s, c) && e.Start? && Fits(s, c, e)
    ensures Tracked(s, Stepped(s, c, e))
  {
    var c' := Stepped(s, c, e);
    SteppedOk(s, c, e);
    HeldSpread(s, c'.held);
    LoggedInit(s.l, c'.pool);
    assert Ahead(s.l, c'.pool, c'.log, 0);
  }

  /** An allocation that ends with a next subblock. */
  lemma AllocTracked(s: Setting, c: Client, e: Event)
    requires Proper(s) && ClientOk(s, c) && Tracked(s, c) && (e.Take? || e.Refill?) && Fits(s, c, e)
    requires Gains(e) ==> e.group < |s.gs| && e.group !in c.held
    ensures Tracked(s, Stepped(s, c, e))
  {
    var c' := Stepped(s, c, e);
    if c'.pool.lost == [] {
      var d :| Ahead(s.l, c.pool, c.log, d);
      if d > 0 {
        TakeAhead(s.l, c.pool, c.log, d);
      } else {
        SteppedOk(s, c, e);
        HeldSpread(s, c'.held);
        StepHands(s, c, e);
        LoggedNext(s.l, c.pool, c'.pool, c.log);
        assert Ahead(s.l, c'.pool, c'.log, 0);
      }
    }
  }

  lemma StepHands(s: Setting, c: Client, e: Event)
    requires Proper(s) && (e.Take? || e.Refill?) && Fits(s, c, e) && (Gains(e) ==> e.group < |s.gs|)
    requires Conserved(s.l, Stepped(s, c, e).pool)
    ensures Handed(s.l, c.pool, Stepped(s, c, e).pool)
  {
    if e.Refill? { DataShape(s.l, BlockOf(s.c, s.gs[e.group]), s.l.lead); }
  }

  lemma StepTracked(s: Setting, c: Client, e: Event)
    requires Proper(s) && ClientOk(s, c) && Tracked(s, c) && Fits(s, c, e)
    requires Gains(e) ==> e.group < |s.gs| && e.group !in c.held
    requires e.Undo? ==> e.index + 1 == |c.pool.out|
    ensures Tracked(s, Stepped(s, c, e))
  {
    if e.Start? {
      StartTracked(s, c, e);
    } else if e.Take? || e.Refill? {
      AllocTracked(s, c, e);
    } else if e.Undo? {
      UndoTracked(s, c, e);
    }
  }

  lemma UndoTracked(s: Setting, c: Client, e: Event)
    requires Proper(s) && Tracked(s, c) && e.Undo? && Fits(s, c, e) && e.index + 1 == |c.pool.out|
    ensures Tracked(s, Stepped(s, c, e))
  {
    if c.pool.lost == [] { UndoDescribed(s.l, c.pool, c.log, e.prev); }
  }

  /** In every run in which `mm_free_cur` only ever gives back the latest allocation, every log tracks its client. */
  lemma {:induction false} RunTracked(s: Setting, worlds: seq<World>, events: seq<Event>, t: nat, k: nat)
    requires Proper(s) && Run(s, worlds, events) && LatestOnly(worlds, events)
    requires t < |worlds| && k < |worlds[t].clients|
    ensures Tracked(s, worlds[t].clients[k])
  {
    if t > 0 {
      assert Linked(s, worlds, events, t - 1);
      var w, e := worlds[t - 1], events[t - 1];
      RunTracked(s, worlds, events, t - 1, k);
      RunInv(s, worlds, events, t - 1);
      if k == e.client {
        if Gains(e) { GainFresh(s, w, e.server, e.group); }
        StepTracked(s, w.clients[k], e);
      }
    }
  }

  lemma HeldOnServers(s: Setting, c: Client)
    requires Proper(s) && ClientOk(s, c)
    ensures OnServers(c.pool.blocks, s.c.memories)
  {
    forall b | b in c.pool.blocks ensures b != [] && Primary(b).sid < s.c.memories {
      var i :| 0 <= i < |c.held| && BlocksOf(s, c.held)[i] == b;
      assert s.gs[c.held[i]] in s.gs;
    }
  }

  /** What recovery makes of `p` when the first `d` free subblocks count as allocated. */
  ghost predicate Rebuilt(p: Pool, d: nat, visited: seq<Copy>, free: seq<Piece>, last: Piece) {
    && d < |p.free| && visited == Primaries(p.out + p.free[..d + 1]) && last == Reinstated(p, d).last
    && free != [] && free[0] == p.free[d] && multiset(free) == multiset(p.free[d..])
  }

  /** Recovery from a log that is ahead: what was given back counts as allocated. */
  method RecoverAhead(l: Layout, memories: nat, prServer: Byte, prLogHead: nat, mem: Memory, metas: seq<Meta>,
                      ghost p: Pool, ghost d: nat)
    returns (visited: seq<Copy>, free: seq<Piece>, last: Piece, blocks: seq<Piece>)
    requires Sound(l) && Ahead(l, p, mem, d) && mem != map[]
    requires KvBlocks(metas) == p.blocks && OnServers(p.blocks, memories) && p.blocks != []
    requires Primary(p.blocks[0]) == Copy(prServer, prLogHead)
    ensures blocks == p.blocks && Rebuilt(p, d, visited, free, last)
  {
    ghost var q := Reinstated(p, d);
    assert q.out != [] by { var x :| x in mem; assert x in Primaries(q.out); }
    visited, free, last, blocks := RecoverAllocator(l, memories, prServer, prLogHead, mem, metas, q);
    assert Order(q) == Primaries(p.out + p.free[..d + 1]);
  }

  lemma CrashedTracked(s: Setting, worlds: seq<World>, events: seq<Event>, t: nat, k: nat) returns (d: nat)
    requires Proper(s) && Run(s, worlds, events) && LatestOnly(worlds, events)
    requires t < |worlds| && k < |worlds[t].clients|
    requires worlds[t].clients[k].started && worlds[t].clients[k].pool.lost == []
    ensures Ahead(s.l, worlds[t].clients[k].pool, worlds[t].clients[k].log, d)
    ensures OnServers(worlds[t].clients[k].pool.blocks, s.c.memories)
  {
    RunTracked(s, worlds, events, t, k);
    RunInv(s, worlds, events, t);
    HeldOnServers(s, worlds[t].clients[k]);
    d :| Ahead(s.l, worlds[t].clients[k].pool, worlds[t].clients[k].log, d);
  }

  /**
   Any client that has allocated can crash at any point of such a run and recover: its queue comes
   back with every subblock it had, starting with the right one, but for the `d` it had given back
   and not allocated again, which count as allocated.
  */
  method RecoverClient(s: Setting, prServer: Byte, prLogHead: nat, log: Memory, metas: seq<Meta>,
                       ghost worlds: seq<World>, ghost events: seq<Event>, ghost t: nat, ghost k: nat)
    returns (visited: seq<Copy>, free: seq<Piece>, last: Piece, blocks: seq<Piece>)
    requires Proper(s) && Run(s, worlds, events) && LatestOnly(worlds, events)
    requires t < |worlds| && k < |worlds[t].clients|
    requires worlds[t].clients[k].started && worlds[t].clients[k].pool.lost == []
    requires worlds[t].clients[k].log == log && log != map[]
    requires KvBlocks(metas) == worlds[t].clients[k].pool.blocks && KvBlocks(metas) != []
    requires Primary(KvBlocks(metas)[0]) == Copy(prServer, prLogHead)
    ensures blocks == worlds[t].clients[k].pool.blocks
    ensures exists d :: Rebuilt(worlds[t].clients[k].pool, d, visited, free, last)
  {
    ghost var d := CrashedTracked(s, worlds, events, t, k);
    visited, free, last, blocks :=
      RecoverAhead(s.l, s.c.memories, prServer, prLogHead, log, metas, worlds[t].clients[k].pool, d);
  }

  // Redirection.

  lemma EntryNamesOthers(s: Setting, tables: Tables, g: nat, n: nat, r: nat, slot: RaceSlot)
    requires Proper(s) && s.c.replicas >= 2 && s.c.base % s.c.size == 0 && TablesFor(AllNames(s.c, s.gs), tables)
    requires g < |s.gs| && n < s.l.num && r < s.c.replicas && r < |SubOf(s, g, n)|
    requires slot == CopyOf(SubOf(s, g, n), r, slot.fp, slot.kvLen)
    ensures Formed(slot) && KeyOf(slot, s.c.size) in tables.total && |SubOf(s, g, n)| == s.c.replicas
    ensures NamesOthers(s.c.size, tables.total[KeyOf(slot, s.c.size)], SubOf(s, g, n), r, slot)
  {
    MappedApart(s.c, GroupCount(s.c));
    MappedRedirectable(s.c, GroupCount(s.c), g);
    assert AllNames(s.c, s.gs)[g] == Names(s.c, s.gs[g]);
    AllOthersNamed(s.c, s.l, tables, s.gs[g], Mapped(s.c, GroupCount(s.c)).value.ptr, n, r, slot);
  }

  /** What the redirection of a slot of copy `r` of `p` must give. */
  ghost predicate Redirected(p: Piece, crashed: set<Byte>, slot: RaceSlot, to: Option<RaceSlot>) {
    && (to.None? <==> forall m :: 0 <= m < |p| ==> p[m].sid in crashed)
    && (to.Some? ==> exists m :: 0 <= m < |p| && p[m].sid !in crashed && to.value == CopyOf(p, m, slot.fp, slot.kvLen))
  }

  method RedirectCopy(size: nat, tables: Tables, crashed: set<Byte>, slot: RaceSlot, ghost p: Piece, ghost r: nat)
    returns (to: Option<RaceSlot>)
    requires size > 0 && Formed(slot) && KeyOf(slot, size) in tables.total && r < |p|
    requires slot == CopyOf(p, r, slot.fp, slot.kvLen)
    requires NamesOthers(size, tables.total[KeyOf(slot, size)], p, r, slot)
    ensures slot.serverId !in crashed ==> to == Some(slot)
    ensures Redirected(p, crashed, slot, to)
  {
    to := CheckFailedCache(tables.total, size, crashed, slot);
    if slot.serverId in crashed && to.None? {
      forall m | 0 <= m < |p| ensures p[m].sid in crashed {
        if m != r { assert Member(r, if m < r then m else m - 1) == m; }
      }
    }
  }

  /**
   A slot of any copy of any outstanding allocation: `check_failed_cache` leads to a copy of that
   same allocation on a healthy server, and finds none only when every copy's server has crashed.
  */
  method RedirectAllocation(s: Setting, tables: Tables, crashed: set<Byte>, slot: RaceSlot, ghost r: nat,
                            ghost worlds: seq<World>, ghost events: seq<Event>, ghost t: nat, ghost k: nat, ghost i: nat)
    returns (to: Option<RaceSlot>)
    requires Proper(s) && s.c.replicas >= 2 && s.c.base % s.c.size == 0 && TablesFor(AllNames(s.c, s.gs), tables)
    requires Run(s, worlds, events) && t < |worlds| && Outstanding(worlds[t], k, i)
    requires var p := worlds[t].clients[k].pool.out[i];
             r < s.c.replicas && r < |p| && slot == CopyOf(p, r, slot.fp, slot.kvLen)
    ensures slot.serverId !in crashed ==> to == Some(slot)
    ensures |worlds[t].clients[k].pool.out[i]| == s.c.replicas
    ensures Redirected(worlds[t].clients[k].pool.out[i], crashed, slot, to)
  {
    ghost var c := worlds[t].clients[k];
    RunInv(s, worlds, events, t);
    ghost var g, n := OutSource(s, c, i);
    EntryNamesOthers(s, tables, g, n, r, slot);
    to := RedirectCopy(s.c.size, tables, crashed, slot, c.pool.out[i], r);
  }
}
