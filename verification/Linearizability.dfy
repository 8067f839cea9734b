/**
 UPDATE and SEARCH are linearizable: the completed operations of every run can be put in one order
 that respects real time and in which every search returns the last word written.  Searches are
 taken without the cache.  An update may start from its cache, provided the cached word was still
 the primary's when the update was invoked; `CachedUpdate` shows that this is needed.

 A search takes effect when it reads the primary.  Every update of a round takes effect when the
 round's primary swap does: the losers one after the other, then the winner.
*/
module Linearizability {
  import opened Common
  import opened SlotProtocol
  import opened SlotInvariant
  import opened SlotSteps
  import opened SlotFinish
  import opened SlotTheorems
  import opened SlotSystem

  datatype Op = Update(w: Word) | Read(id: nat)

  /** Event `i` is the invocation of `op`. */
  ghost predicate Invokes(events: seq<Event>, op: Op, i: nat) {
    i < |events| &&
    match op
    case Update(w) => events[i] == SlotStep(Invoke(w))
    case Read(id) => events[i].Begin? && events[i].id == id
  }

  predicate Done(s: System, op: Op) {
    match op
    case Update(w) => w in s.slot.ops && s.slot.ops[w].Returned?
    case Read(id) => id in s.searches && s.searches[id].result.Some?
  }

  /** Event `i` is the response of `op`. */
  ghost predicate Responds(states: seq<System>, op: Op, i: nat) {
    i + 1 < |states| && !Done(states[i], op) && Done(states[i + 1], op)
  }

  /** The register after a list of operations. */
  function Value(init: Word, order: seq<Op>): Word {
    if order == [] then init
    else match order[|order| - 1]
      case Update(w) => w
      case Read(_) => Value(init, order[..|order| - 1])
  }

  ghost predicate Issued(events: seq<Event>, op: Op) {
    exists j :: Invokes(events, op, j)
  }

  /**
   `order` linearizes the run: it holds operations of the run once each, among them all completed
   ones, in real-time order, legally.
  */
  ghost predicate Linearizes(states: seq<System>, events: seq<Event>, order: seq<Op>)
    requires |states| == |events| + 1 && |states[0].slot.hist| > 0
  {
    && NoDup(order)
    && (forall op :: op in order ==> Issued(events, op))
    && (forall op :: Done(states[|events|], op) ==> op in order)
    && (forall p, q, i, j :: 0 <= p < q < |order| && Responds(states, order[q], i) && Invokes(events, order[p], j)
          ==> j < i)
    && (forall p :: 0 <= p < |order| && order[p].Read? && Done(states[|events|], order[p]) ==>
          states[|events|].searches[order[p].id].result == Some(Value(states[0].slot.hist[0], order[..p])))
  }

  /**
   Event `i` keeps to the rule for caches: a search ignores its cache, and an update uses its cached
   word only if that word was not yet replaced when the update was invoked.
  */
  ghost predicate TimelyAt(states: seq<System>, events: seq<Event>, i: nat)
    requires i < |events| < |states|
  {
    && (events[i].Begin? ==> !events[i].useCache)
    && (events[i].SlotStep? && events[i].step.UseCache? ==>
          forall j :: 0 <= j < i && Invokes(events, Update(events[i].step.w), j) ==>
            |states[j].slot.hist| <= events[i].step.round + 1)
  }

  ghost predicate Timely(states: seq<System>, events: seq<Event>)
    requires |events| < |states|
  {
    forall i :: 0 <= i < |events| ==> TimelyAt(states, events, i)
  }

  // The order in which operations take effect, each with the index of the event that makes it so.

  datatype Effect = Effect(op: Op, at: nat)

  /** The other updates of round `r`, as they stand at the end of the run. */
  ghost function Losers(f: Slot, r: int, w: Word): set<Word> {
    set u | u in f.ops && u != w && !f.ops[u].Invoked? && f.ops[u].round == r
  }

  ghost function Effects(us: set<Word>, at: nat): seq<Effect> {
    if us == {} then []
    else
      var u := Pick(us);
      Effects(us - {u}, at) + [Effect(Update(u), at)]
  }

  predicate ClosesRound(s: System, e: Event) {
    && e.SlotStep? && e.step.SwapPrimary? && Enabled(s.slot, e.step)
    && s.slot.primary == s.slot.hist[s.slot.ops[e.step.w].round]
  }

  /** What event `e`, at index `at`, makes take effect; `f` is the slot at the end of the run. */
  ghost function Taking(f: Slot, s: System, e: Event, at: nat): seq<Effect> {
    if ClosesRound(s, e) then
      Effects(Losers(f, Cur(s.slot), e.step.w), at) + [Effect(Update(e.step.w), at)]
    else if e.ReadPrimary? then [Effect(Read(e.id), at)]
    else []
  }

  ghost function Order(states: seq<System>, events: seq<Event>, k: nat): seq<Effect>
    requires k <= |events| < |states|
  {
    if k == 0 then []
    else Order(states, events, k - 1) + Taking(states[|events|].slot, states[k - 1], events[k - 1], k - 1)
  }

  function Ops(l: seq<Effect>): (ops: seq<Op>)
    ensures |ops| == |l|
    ensures forall i :: 0 <= i < |l| ==> ops[i] == l[i].op
  {
    seq(|l|, i requires 0 <= i < |l| => l[i].op)
  }

  /** The operations that have taken effect by state `s`. */
  predicate Effective(f: Slot, s: System, op: Op) {
    match op
    case Update(w) => w in f.ops && !f.ops[w].Invoked? && f.ops[w].round + 1 < |s.slot.hist|
    case Read(id) => id in s.searches && s.searches[id].seen.Some?
  }

  predicate Known(s: System, op: Op) {
    match op
    case Update(w) => w in s.slot.ops
    case Read(id) => id in s.searches
  }

  lemma {:induction false} EffectsList(us: set<Word>, at: nat)
    ensures forall i :: 0 <= i < |Effects(us, at)| ==>
              Effects(us, at)[i].at == at && Effects(us, at)[i].op.Update? && Effects(us, at)[i].op.w in us
    ensures forall u :: u in us ==> Effect(Update(u), at) in Effects(us, at)
    ensures NoDup(Ops(Effects(us, at)))
  {
    if us != {} {
      var u := Pick(us);
      var rest := us - {u};
      EffectsList(rest, at);
      var l, m := Effects(rest, at), Effects(us, at);
      assert m == l + [Effect(Update(u), at)];
      forall v | v in us ensures Effect(Update(v), at) in m {
        if v != u { assert Effect(Update(v), at) in l; }
      }
      assert forall i :: 0 <= i < |l| ==> m[i] == l[i];
      assert forall i :: 0 <= i < |l| ==> l[i].op.w != u;
    }
  }

  /** The last operation decides the register. */
  lemma ValueSnoc(init: Word, order: seq<Op>, op: Op)
    ensures Value(init, order + [op]) == if op.Update? then op.w else Value(init, order)
  {
    assert (order + [op])[..|order|] == order;
  }

  /** The update whose primary swap is `e` is in the current round, and stays in it. */
  ghost predicate Closer(f: Slot, s: System, e: Event) {
    ClosesRound(s, e) ==>
      e.step.w in f.ops && !f.ops[e.step.w].Invoked? && f.ops[e.step.w].round == Cur(s.slot)
  }

  /** Which operations event `e` makes effective. */
  lemma TakingExact(f: Slot, s: System, e: Event, at: nat, op: Op)
    requires Occurs(s, e) && |s.slot.hist| > 0 && Closer(f, s, e)
    ensures op in Ops(Taking(f, s, e, at)) <==> Effective(f, After(s, e), op) && !Effective(f, s, op)
    ensures Effective(f, s, op) ==> Effective(f, After(s, e), op)
  {
    if ClosesRound(s, e) {
      CloseList(f, s, e, at, op);
    } else if e.ReadPrimary? {
      assert Ops(Taking(f, s, e, at)) == [Read(e.id)];
    } else {
      HistKept(s, e);
    }
  }

  lemma HistKept(s: System, e: Event)
    requires Occurs(s, e) && |s.slot.hist| > 0 && !ClosesRound(s, e)
    ensures After(s, e).slot.hist == s.slot.hist
  {
  }

  /** The updates listed when a round closes: its contenders, winner included. */
  lemma CloseList(f: Slot, s: System, e: Event, at: nat, op: Op)
    requires ClosesRound(s, e)
    ensures op in Ops(Taking(f, s, e, at)) <==>
              op.Update? && (op.w == e.step.w || op.w in Losers(f, Cur(s.slot), e.step.w))
  {
    var us := Losers(f, Cur(s.slot), e.step.w);
    var l, all := Effects(us, at), Taking(f, s, e, at);
    EffectsList(us, at);
    assert all == l + [Effect(Update(e.step.w), at)];
    assert forall i :: 0 <= i < |l| ==> all[i] == l[i];
    if op.Update? && op.w in us {
      var i :| 0 <= i < |l| && l[i] == Effect(op, at);
      assert Ops(all)[i] == op;
    }
    if op == Update(e.step.w) { assert Ops(all)[|l|] == op; }
  }

  /** What takes effect at once is listed once, in the order of its index, and ends with the winner. */
  lemma TakingShape(f: Slot, s: System, e: Event, at: nat)
    ensures NoDup(Ops(Taking(f, s, e, at)))
    ensures forall i :: 0 <= i < |Taking(f, s, e, at)| ==> Taking(f, s, e, at)[i].at == at
    ensures forall i :: 0 <= i < |Taking(f, s, e, at)| && Taking(f, s, e, at)[i].op.Read? ==>
              e.ReadPrimary? && Taking(f, s, e, at) == [Effect(Read(e.id), at)]
  {
    if ClosesRound(s, e) {
      EffectsList(Losers(f, Cur(s.slot), e.step.w), at);
    }
  }

  /** The list is in the order of its indices, all below `k`. */
  ghost predicate InSequence(l: seq<Effect>, k: nat) {
    && (forall p, q :: 0 <= p < q < |l| ==> l[p].at <= l[q].at)
    && (forall p :: 0 <= p < |l| ==> l[p].at < k)
  }

  /** The list holds exactly what has taken effect by `s`, once each. */
  ghost predicate Covers(f: Slot, s: System, l: seq<Effect>) {
    NoDup(Ops(l)) && forall op :: op in Ops(l) <==> Effective(f, s, op)
  }

  /** Every search in the list has read the register as it was then. */
  ghost predicate ReadsOk(s: System, init: Word, l: seq<Effect>) {
    forall p :: 0 <= p < |l| && l[p].op.Read? ==>
      && l[p].op.id in s.searches
      && s.searches[l[p].op.id].seen == Some(Value(init, Ops(l)[..p]))
  }

  /** The order built so far is the order in which things happened, and explains what was read. */
  ghost predicate Explains(states: seq<System>, events: seq<Event>, k: nat)
    requires k <= |events| < |states| && |states[0].slot.hist| > 0
  {
    var l, s, init := Order(states, events, k), states[k], states[0].slot.hist[0];
    && InSequence(l, k) && Covers(states[|events|].slot, s, l)
    && Value(init, Ops(l)) == s.slot.primary && ReadsOk(s, init, l)
  }

  lemma OpsConcat(a: seq<Effect>, b: seq<Effect>)
    ensures Ops(a + b) == Ops(a) + Ops(b)
  {
  }

  /** The register after an event is the primary word after it. */
  lemma ValueStep(f: Slot, s: System, e: Event, at: nat, init: Word, order: seq<Op>)
    requires Occurs(s, e) && |s.slot.hist| > 0 && Value(init, order) == s.slot.primary
    ensures Value(init, order + Ops(Taking(f, s, e, at))) == After(s, e).slot.primary
  {
    var l := Taking(f, s, e, at);
    if ClosesRound(s, e) {
      var rest := Effects(Losers(f, Cur(s.slot), e.step.w), at);
      OpsConcat(rest, [Effect(Update(e.step.w), at)]);
      assert order + Ops(l) == (order + Ops(rest)) + [Update(e.step.w)];
      ValueSnoc(init, order + Ops(rest), Update(e.step.w));
    } else if e.ReadPrimary? {
      assert Ops(l) == [Read(e.id)];
      ValueSnoc(init, order, Read(e.id));
    } else {
      assert order + Ops(l) == order;
    }
  }

  /** Event `e` lists exactly the operations it makes effective, and undoes none. */
  ghost predicate TakesExactly(f: Slot, s: System, e: Event, at: nat)
    requires Occurs(s, e)
  {
    forall op ::
      && (op in Ops(Taking(f, s, e, at)) <==> Effective(f, After(s, e), op) && !Effective(f, s, op))
      && (Effective(f, s, op) ==> Effective(f, After(s, e), op))
  }

  lemma TakingAll(f: Slot, s: System, e: Event, at: nat)
    requires Occurs(s, e) && |s.slot.hist| > 0 && Closer(f, s, e)
    ensures TakesExactly(f, s, e, at)
  {
    forall op
      ensures op in Ops(Taking(f, s, e, at)) <==> Effective(f, After(s, e), op) && !Effective(f, s, op)
      ensures Effective(f, s, op) ==> Effective(f, After(s, e), op)
    {
      TakingExact(f, s, e, at, op);
    }
  }

  lemma SequenceStep(l: seq<Effect>, more: seq<Effect>, k: nat)
    requires InSequence(l, k) && forall i :: 0 <= i < |more| ==> more[i].at == k
    ensures InSequence(l + more, k + 1)
  {
  }

  lemma CoversStep(f: Slot, s: System, e: Event, l: seq<Effect>, k: nat)
    requires Occurs(s, e) && Covers(f, s, l) && TakesExactly(f, s, e, k)
    ensures Covers(f, After(s, e), l + Taking(f, s, e, k))
  {
    var more := Taking(f, s, e, k);
    OpsConcat(l, more);
    TakingShape(f, s, e, k);
    NoDupConcat(Ops(l), Ops(more));
  }

  lemma ExplainsStep(states: seq<System>, events: seq<Event>, k: nat)
    requires Trace(states, events) && k < |events|
    requires |states[0].slot.hist| > 0 && |states[k].slot.hist| > 0 && Explains(states, events, k)
    requires Follows(states, events, k) && TakesExactly(states[|events|].slot, states[k], events[k], k)
    ensures Explains(states, events, k + 1)
  {
    var f, s, e, init := states[|events|].slot, states[k], events[k], states[0].slot.hist[0];
    var l, more := Order(states, events, k), Taking(f, s, e, k);
    OpsConcat(l, more);
    TakingShape(f, s, e, k);
    SequenceStep(l, more, k);
    CoversStep(f, s, e, l, k);
    ValueStep(f, s, e, k, init, Ops(l));
    ReadsStep(f, s, e, init, l, k);
  }

  lemma NoDupConcat(a: seq<Op>, b: seq<Op>)
    requires NoDup(a) && NoDup(b) && forall op :: op in b ==> op !in a
    ensures NoDup(a + b)
  {
    forall i, j | 0 <= i < j < |a + b| ensures (a + b)[i] != (a + b)[j] {
      if i < |a| <= j {
        assert b[j - |a|] in b && a[i] in a;
      }
    }
  }

  lemma ReadsStep(f: Slot, s: System, e: Event, init: Word, l: seq<Effect>, k: nat)
    requires Occurs(s, e) && ReadsOk(s, init, l) && Value(init, Ops(l)) == s.slot.primary
    requires Covers(f, s, l) && TakesExactly(f, s, e, k)
    ensures ReadsOk(After(s, e), init, l + Taking(f, s, e, k))
  {
    var t, more := After(s, e), Taking(f, s, e, k);
    var l' := l + more;
    OpsConcat(l, more);
    TakingShape(f, s, e, k);
    forall p | 0 <= p < |l'| && l'[p].op.Read?
      ensures l'[p].op.id in t.searches && t.searches[l'[p].op.id].seen == Some(Value(init, Ops(l')[..p]))
    {
      if p < |l| {
        assert Ops(l')[..p] == Ops(l)[..p] && l'[p] == l[p];
      } else {
        assert more[p - |l|] == l'[p];
        assert Ops(l')[..p] == Ops(l);
      }
    }
  }

  /** An update that has its round keeps it. */
  lemma RoundKept(s: System, e: Event, w: Word)
    requires Occurs(s, e) && w in s.slot.ops && !s.slot.ops[w].Invoked?
    ensures w in After(s, e).slot.ops && InRound(After(s, e).slot.ops[w], s.slot.ops[w].round)
  {
    if e.SlotStep? { StepLocal(s.slot, e.step); }
  }

  lemma {:induction false} RoundStays(states: seq<System>, events: seq<Event>, j: nat, k: nat, w: Word)
    requires Trace(states, events) && j <= k < |states| && w in states[j].slot.ops && !states[j].slot.ops[w].Invoked?
    ensures w in states[k].slot.ops && InRound(states[k].slot.ops[w], states[j].slot.ops[w].round)
    decreases k
  {
    if j < k {
      RoundStays(states, events, j, k - 1, w);
      assert Follows(states, events, k - 1);
      RoundKept(states[k - 1], events[k - 1], w);
    }
  }

  lemma TraceTakes(states: seq<System>, events: seq<Event>, k: nat)
    requires Trace(states, events) && k < |events|
    ensures |states[k].slot.hist| > 0
    ensures Follows(states, events, k) && TakesExactly(states[|events|].slot, states[k], events[k], k)
  {
    TraceInv(states, events, k);
    assert Follows(states, events, k);
    var s, e := states[k], events[k];
    if ClosesRound(s, e) {
      assert OpOk(s.slot, e.step.w, s.slot.ops[e.step.w]);
      RoundStays(states, events, k, |events|, e.step.w);
    }
    TakingAll(states[|events|].slot, s, e, k);
  }

  lemma ExplainsStart(states: seq<System>, events: seq<Event>)
    requires |states| > |events| && Quiet(states[0])
    ensures |states[0].slot.hist| > 0 && Explains(states, events, 0)
  {
    assert Ops([]) == [];
  }

  lemma Explained(states: seq<System>, events: seq<Event>, k: nat)
    requires Trace(states, events) && k <= |events|
    ensures |states[0].slot.hist| > 0 && Explains(states, events, k)
  {
    ExplainsStart(states, events);
    for i := 0 to k
      invariant Explains(states, events, i)
    {
      ExplainedNext(states, events, i);
    }
  }

  lemma ExplainedNext(states: seq<System>, events: seq<Event>, k: nat)
    requires Trace(states, events) && k < |events| && |states[0].slot.hist| > 0 && Explains(states, events, k)
    ensures Explains(states, events, k + 1)
  {
    TraceTakes(states, events, k);
    ExplainsStep(states, events, k);
  }

  lemma {:induction false} OrderPrefix(states: seq<System>, events: seq<Event>, j: nat, k: nat)
    requires j <= k <= |events| < |states|
    ensures Order(states, events, j) <= Order(states, events, k)
    decreases k
  {
    if j < k { OrderPrefix(states, events, j, k - 1); }
  }

  lemma KnownStays(s: System, e: Event, op: Op)
    requires Occurs(s, e) && Known(s, op)
    ensures Known(After(s, e), op)
  {
    if e.SlotStep? { StepLocal(s.slot, e.step); }
  }

  lemma {:induction false} KnownLater(states: seq<System>, events: seq<Event>, j: nat, k: nat, op: Op)
    requires Trace(states, events) && j <= k < |states| && Known(states[j], op)
    ensures Known(states[k], op)
    decreases k
  {
    if j < k {
      KnownLater(states, events, j, k - 1, op);
      assert Follows(states, events, k - 1);
      KnownStays(states[k - 1], events[k - 1], op);
    }
  }

  lemma {:induction false} HistLater(states: seq<System>, events: seq<Event>, j: nat, k: nat)
    requires Trace(states, events) && j <= k < |states|
    ensures states[j].slot.hist <= states[k].slot.hist
    decreases k
  {
    if j < k {
      HistLater(states, events, j, k - 1);
      assert Follows(states, events, k - 1);
      if events[k - 1].SlotStep? { StepLocal(states[k - 1].slot, events[k - 1].step); }
    }
  }

  /** Every operation a state knows was invoked before. */
  lemma {:induction false} KnownIssued(states: seq<System>, events: seq<Event>, k: nat, op: Op) returns (j: nat)
    requires Trace(states, events) && k < |states| && Known(states[k], op)
    ensures j < k && Invokes(events, op, j)
  {
    assert k > 0;
    assert Follows(states, events, k - 1);
    if Known(states[k - 1], op) {
      j := KnownIssued(states, events, k - 1, op);
    } else {
      j := k - 1;
      if op.Update? { StepLocal(states[k - 1].slot, events[k - 1].step); }
    }
  }

  /** Nothing already known is invoked. */
  lemma KnownInvoked(states: seq<System>, events: seq<Event>, k: nat, j: nat, op: Op)
    requires Trace(states, events) && k <= |events| && Known(states[k], op) && Invokes(events, op, j)
    ensures j < k
  {
    assert Follows(states, events, j);
    if k <= j { KnownLater(states, events, k, j, op); }
  }

  /** The round of an update was not yet closed when the update was invoked. */
  lemma {:induction false} RoundSince(states: seq<System>, events: seq<Event>, k: nat, w: Word, j: nat)
    requires Trace(states, events) && Timely(states, events) && k <= |events|
    requires w in states[k].slot.ops && !states[k].slot.ops[w].Invoked? && Invokes(events, Update(w), j)
    ensures |states[j].slot.hist| <= states[k].slot.ops[w].round + 1
  {
    assert k > 0;
    var s, e := states[k - 1], events[k - 1];
    assert Follows(states, events, k - 1);
    if e.SlotStep? { StepLocal(s.slot, e.step); }
    KnownInvoked(states, events, k - 1, j, Update(w));
    if !s.slot.ops[w].Invoked? {
      RoundSince(states, events, k - 1, w, j);
      RoundKept(s, e, w);
    } else {
      HistLater(states, events, j, k - 1);
      assert TimelyAt(states, events, k - 1);
      Begins(s, e, w);
    }
  }

  /** How an update gets its round. */
  lemma Begins(s: System, e: Event, w: Word)
    requires Occurs(s, e) && w in s.slot.ops && s.slot.ops[w].Invoked? && w in After(s, e).slot.ops
    requires !After(s, e).slot.ops[w].Invoked?
    ensures e.SlotStep? && e.step.w == w
    ensures || (e.step.ReadSlot? && After(s, e).slot.ops[w].round == |s.slot.hist| - 1)
            || (e.step.UseCache? && After(s, e).slot.ops[w].round == e.step.round)
  {
    if e.SlotStep? { StepLocal(s.slot, e.step); }
  }

  /** An operation takes effect after its invocation. */
  lemma {:induction false} InvokedBefore(states: seq<System>, events: seq<Event>, k: nat, p: nat, j: nat)
    requires Trace(states, events) && Timely(states, events) && k <= |events|
    requires p < |Order(states, events, k)| && Invokes(events, Order(states, events, k)[p].op, j)
    ensures j < Order(states, events, k)[p].at
    decreases k
  {
    var l0 := Order(states, events, k - 1);
    if p < |l0| {
      assert Order(states, events, k)[p] == l0[p];
      InvokedBefore(states, events, k - 1, p, j);
    } else {
      var f, s, e := states[|events|].slot, states[k - 1], events[k - 1];
      var last := Order(states, events, k)[p];
      assert Taking(f, s, e, k - 1)[p - |l0|] == last;
      TakingShape(f, s, e, k - 1);
      assert Ops(Taking(f, s, e, k - 1))[p - |l0|] == last.op;
      TakingInvoked(states, events, k - 1, last.op, j);
    }
  }

  /** What event `k` makes take effect was invoked before. */
  lemma TakingInvoked(states: seq<System>, events: seq<Event>, k: nat, op: Op, j: nat)
    requires Trace(states, events) && Timely(states, events) && k < |events|
    requires op in Ops(Taking(states[|events|].slot, states[k], events[k], k)) && Invokes(events, op, j)
    ensures j < k
  {
    var f, s, e := states[|events|].slot, states[k], events[k];
    TraceTakes(states, events, k);
    if ClosesRound(s, e) {
      assert Effective(f, After(s, e), op) && !Effective(f, s, op);
      RoundSince(states, events, |events|, op.w, j);
      if k < j { HistLater(states, events, k + 1, j); }
    } else if e.ReadPrimary? {
      assert Ops(Taking(f, s, e, k)) == [Read(e.id)];
      KnownInvoked(states, events, k, j, op);
    }
  }

  /** An operation that responds has already taken effect. */
  lemma RespondsEffective(states: seq<System>, events: seq<Event>, i: nat, op: Op)
    requires Trace(states, events) && Responds(states, op, i)
    ensures Effective(states[|events|].slot, states[i], op)
  {
    assert Follows(states, events, i);
    if op.Update? {
      TraceInv(states, events, i);
      RespondsInRound(states[i], events[i], op.w);
      RoundStays(states, events, i, |events|, op.w);
    }
  }

  lemma RespondsInRound(s: System, e: Event, w: Word)
    requires Occurs(s, e) && HistOk(s.slot) && OpsOk(s.slot)
    requires !Done(s, Update(w)) && Done(After(s, e), Update(w))
    ensures w in s.slot.ops && !s.slot.ops[w].Invoked? && s.slot.ops[w].round + 1 < |s.slot.hist|
  {
    assert e.SlotStep? && e.step.w == w && w in s.slot.ops by { StepLocal(s.slot, e.step); }
    assert OpOk(s.slot, w, s.slot.ops[w]);
    UpdateResponds(s.slot, e.step);
  }

  lemma UpdateResponds(s: Slot, step: Step)
    requires Enabled(s, step) && |s.hist| > 0 && s.primary == s.hist[|s.hist| - 1]
    requires step.w in s.ops && OpOk(s, step.w, s.ops[step.w])
    requires !s.ops[step.w].Returned? && Apply(s, step).ops[step.w].Returned?
    ensures s.ops[step.w].round + 1 < |s.hist| && !s.ops[step.w].Invoked?
  {
  }

  /** An operation takes effect before its response. */
  lemma EffectBefore(states: seq<System>, events: seq<Event>, q: nat, i: nat)
    requires Trace(states, events)
    requires q < |Order(states, events, |events|)|
    requires Responds(states, Order(states, events, |events|)[q].op, i)
    ensures Order(states, events, |events|)[q].at < i
  {
    var l, early := Order(states, events, |events|), Order(states, events, i);
    var op := l[q].op;
    RespondsEffective(states, events, i, op);
    Explained(states, events, i);
    assert op in Ops(early);
    var p :| 0 <= p < |early| && Ops(early)[p] == op;
    OrderPrefix(states, events, i, |events|);
    assert l[p] == early[p];
    Explained(states, events, |events|);
    assert Ops(l)[p] == Ops(l)[q];
    assert p == q;
  }

  lemma {:induction false} ResultSeen(states: seq<System>, events: seq<Event>, k: nat, id: nat)
    requires Trace(states, events) && Timely(states, events) && k < |states|
    requires id in states[k].searches
    ensures states[k].searches[id].hit.None?
    ensures states[k].searches[id].result.Some? ==> states[k].searches[id].result == states[k].searches[id].seen
  {
    if k > 0 {
      assert Follows(states, events, k - 1) && TimelyAt(states, events, k - 1);
      if id in states[k - 1].searches { ResultSeen(states, events, k - 1, id); }
    }
  }

  /** Every timely run is linearizable, whatever the number of clients and replicas. */
  lemma Linearizable(states: seq<System>, events: seq<Event>) returns (order: seq<Op>)
    requires Trace(states, events) && Timely(states, events)
    ensures |states[0].slot.hist| > 0 && Linearizes(states, events, order)
  {
    var n := |events|;
    var l := Order(states, events, n);
    order := Ops(l);
    Explained(states, events, n);
    TraceInv(states, events, n);
    forall op | Done(states[n], op) ensures op in order {
      DoneEffective(states, events, op);
    }
    forall op | op in order ensures Issued(events, op) {
      assert Effective(states[n].slot, states[n], op);
      var j := KnownIssued(states, events, n, op);
    }
    forall p, q, i, j | 0 <= p < q < |order| && Responds(states, order[q], i) && Invokes(events, order[p], j)
      ensures j < i
    {
      InvokedBefore(states, events, n, p, j);
      EffectBefore(states, events, q, i);
    }
    forall p | 0 <= p < |order| && order[p].Read? && Done(states[n], order[p])
      ensures states[n].searches[order[p].id].result == Some(Value(states[0].slot.hist[0], order[..p]))
    {
      ResultSeen(states, events, n, order[p].id);
      assert l[p].op == order[p];
    }
  }

  lemma DoneEffective(states: seq<System>, events: seq<Event>, op: Op)
    requires Trace(states, events) && Done(states[|events|], op)
    ensures Effective(states[|events|].slot, states[|events|], op)
  {
    TraceInv(states, events, |events|);
    var s := states[|events|];
    match op
    case Update(w) => assert OpOk(s.slot, w, s.slot.ops[w]);
    case Read(id) => SeenBeforeResult(states, events, |events|, id);
  }

  lemma {:induction false} SeenBeforeResult(states: seq<System>, events: seq<Event>, k: nat, id: nat)
    requires Trace(states, events) && k < |states| && id in states[k].searches
    ensures states[k].searches[id].result.Some? ==> states[k].searches[id].seen.Some?
  {
    if k > 0 {
      assert Follows(states, events, k - 1);
      if id in states[k - 1].searches { SeenBeforeResult(states, events, k - 1, id); }
    }
  }
}
