/**
 The limit of cached updates: an update that starts from a cached word which was replaced before the
 update was invoked returns without having replaced anything in its time.  Between two searches it
 leaves no legal order; `Linearizability` shows that every other run has one.
*/
module CachedUpdate {
  import opened Common
  import opened Consensus
  import opened SlotProtocol
  import opened SlotInvariant
  import opened SlotTheorems
  import opened SlotSystem
  import opened Linearizability
  import StaleRead

  // A stale update on its own.

  /** `s` with update `w` in phase `ph`. */
  function With(s: System, w: Word, ph: Phase): System {
    s.(slot := s.slot.(ops := s.slot.ops[w := ph]))
  }

  /** The first `i` backups, as answers. */
  function Answers(backups: seq<Word>, i: nat): (m: map<nat, Word>)
    requires i <= |backups|
    ensures forall k :: k in m <==> 0 <= k < i
    ensures forall k :: 0 <= k < i ==> m[k] == backups[k]
  {
    if i == 0 then map[] else Answers(backups, i - 1)[i - 1 := backups[i - 1]]
  }

  /** No copy holds the word of round `r` any more, nor the new word `w`. */
  ghost predicate Stale(s: Slot, w: Word, r: nat) {
    && r < |s.hist| && |s.rounds| > 0 && s.primary != s.hist[r] && s.primary != w
    && forall i :: 0 <= i < |s.backups| ==> s.backups[i] != s.hist[r] && s.backups[i] != w
  }

  lemma StaleRound(s: Slot, w: Word, r: nat)
    requires Inv(s) && r + 1 < |s.hist| && w !in s.ops && w != s.hist[0]
    ensures Stale(s, w, r)
  {
    forall i | 0 <= i < |s.backups| ensures s.backups[i] != s.hist[r] && s.backups[i] != w {
      PastWordGone(s, r, i);
      BackupWord(s, i);
    }
  }

  /** One more backup answers, and nothing else changes. */
  lemma SwapMiss(s: System, w: Word, r: nat, i: nat)
    requires Stale(s.slot, w, r) && i < |s.slot.backups|
    ensures var before := With(s, w, Swapping(r, Answers(s.slot.backups, i)));
            && Occurs(before, SlotStep(SwapBackup(w, i)))
            && After(before, SlotStep(SwapBackup(w, i))) == With(s, w, Swapping(r, Answers(s.slot.backups, i + 1)))
  {
    var before := With(s, w, Swapping(r, Answers(s.slot.backups, i)));
    var after := SwapBackupAt(before.slot, w, i);
    assert after.ops == s.slot.ops[w := Swapping(r, Answers(s.slot.backups, i + 1))];
  }

  lemma {:induction false} SwapAll(states: seq<System>, events: seq<Event>, s: System, w: Word, r: nat, i: nat)
    returns (states': seq<System>, events': seq<Event>)
    requires Trace(states, events) && Stale(s.slot, w, r) && i <= |s.slot.backups|
    requires Last(states) == With(s, w, Swapping(r, map[]))
    ensures Trace(states', events') && states <= states' && events <= events'
    ensures Last(states') == With(s, w, Swapping(r, Answers(s.slot.backups, i)))
    ensures OnlyMoves(events', |events|, w)
  {
    if i == 0 {
      states', events' := states, events;
    } else {
      var states1, events1 := SwapAll(states, events, s, w, r, i - 1);
      states', events' := SwapOne(states1, events1, s, w, r, i - 1);
      MovesOn(events1, |events|, w, SwapBackup(w, i - 1));
    }
  }

  lemma SwapOne(states: seq<System>, events: seq<Event>, s: System, w: Word, r: nat, i: nat)
    returns (states': seq<System>, events': seq<Event>)
    requires Trace(states, events) && Stale(s.slot, w, r) && i < |s.slot.backups|
    requires Last(states) == With(s, w, Swapping(r, Answers(s.slot.backups, i)))
    ensures Trace(states', events') && states <= states' && events' == events + [SlotStep(SwapBackup(w, i))]
    ensures Last(states') == With(s, w, Swapping(r, Answers(s.slot.backups, i + 1)))
  {
    SwapMiss(s, w, r, i);
    states', events' := Extend(states, events, SlotStep(SwapBackup(w, i)));
  }

  /** From event `n` on only update `w` moves, and it neither starts nor reads again. */
  ghost predicate OnlyMoves(events: seq<Event>, n: nat, w: Word) {
    forall i :: n <= i < |events| ==>
      events[i].SlotStep? && events[i].step.w == w && !events[i].step.Invoke? && !events[i].step.UseCache?
  }

  lemma MovesOn(events: seq<Event>, n: nat, w: Word, step: Step)
    requires OnlyMoves(events, n, w) && step.w == w && !step.Invoke? && !step.UseCache?
    ensures OnlyMoves(events + [SlotStep(step)], n, w)
  {
  }

  /** Every backup answers with another word, so the update has lost. */
  lemma StaleLoses(backups: seq<Word>, orig: Word, w: Word)
    requires backups != [] && forall i :: 0 <= i < |backups| ==> backups[i] != orig && backups[i] != w
    ensures Listed(Answers(backups, |backups|), |backups|) == backups
    ensures Classify(Votes(backups, orig, w), w) == Fail
  {
    assert Votes(backups, orig, w) == backups;
    CountBound(backups, w);
    assert backups[0] in backups;
  }

  /** The update is told it lost. */
  lemma StaleDecides(s: System, w: Word, r: nat)
    requires Stale(s.slot, w, r) && |s.slot.backups| > 0
    ensures var asked := With(s, w, Swapping(r, Answers(s.slot.backups, |s.slot.backups|)));
            Occurs(asked, SlotStep(Decide(w))) && After(asked, SlotStep(Decide(w))) == With(s, w, Waiting(r))
  {
    StaleLoses(s.slot.backups, s.slot.hist[r], w);
    var asked := With(s, w, Swapping(r, Answers(s.slot.backups, |s.slot.backups|)));
    assert Apply(asked.slot, Decide(w)).ops == s.slot.ops[w := Waiting(r)];
  }

  /** And finds the primary moved. */
  lemma StalePolls(s: System, w: Word, r: nat)
    requires Stale(s.slot, w, r)
    ensures var waiting := With(s, w, Waiting(r));
            Occurs(waiting, SlotStep(Poll(w))) && After(waiting, SlotStep(Poll(w))) == With(s, w, Returned(r, false))
  {
    assert Apply(With(s, w, Waiting(r)).slot, Poll(w)).ops == s.slot.ops[w := Returned(r, false)];
  }

  /** With one replica the update misses the primary. */
  lemma StaleMisses(states: seq<System>, events: seq<Event>, s: System, w: Word, r: nat)
    returns (states': seq<System>, events': seq<Event>)
    requires Trace(states, events) && Stale(s.slot, w, r) && Last(states) == With(s, w, Finishing(r, None, false))
    ensures Trace(states', events') && states <= states'
    ensures events' == events + [SlotStep(SwapPrimary(w)), SlotStep(Invalidate(w)), SlotStep(Return(w))]
    ensures Last(states') == With(Stamped(s, r), w, Returned(r, false))
  {
    MissSteps(s, w, r);
    states', events' := Extend(states, events, SlotStep(SwapPrimary(w)));
    states', events' := Extend(states', events', SlotStep(Invalidate(w)));
    states', events' := Extend(states', events', SlotStep(Return(w)));
  }

  /** `s` with the object of round `r` marked stale. */
  function Stamped(s: System, r: nat): System
    requires r < |s.slot.hist|
  {
    s.(slot := s.slot.(invalid := s.slot.invalid + {s.slot.hist[r]}))
  }

  lemma MissSteps(s: System, w: Word, r: nat)
    requires Stale(s.slot, w, r)
    ensures var a, b := With(s, w, Finishing(r, None, false)), With(s, w, Finishing(r, Some(s.slot.primary), false));
            var c := With(Stamped(s, r), w, Finishing(r, Some(s.slot.primary), true));
            && Occurs(a, SlotStep(SwapPrimary(w))) && After(a, SlotStep(SwapPrimary(w))) == b
            && Occurs(b, SlotStep(Invalidate(w))) && After(b, SlotStep(Invalidate(w))) == c
            && Occurs(c, SlotStep(Return(w)))
            && After(c, SlotStep(Return(w))) == With(Stamped(s, r), w, Returned(r, false))
  {
    var a, b := With(s, w, Finishing(r, None, false)), With(s, w, Finishing(r, Some(s.slot.primary), false));
    var c := With(Stamped(s, r), w, Finishing(r, Some(s.slot.primary), true));
    assert Apply(a.slot, SwapPrimary(w)).ops == b.slot.ops;
    assert Apply(b.slot, Invalidate(w)).ops == c.slot.ops;
    assert Apply(c.slot, Return(w)).ops == s.slot.ops[w := Returned(r, false)];
  }

  /** A stale update returns on its own, and the primary word stays. */
  lemma StaleReturns(states: seq<System>, events: seq<Event>, s: System, w: Word, r: nat)
    returns (states': seq<System>, events': seq<Event>)
    requires Trace(states, events) && Stale(s.slot, w, r) && Last(states) == With(s, w, Start(s.slot, r))
    ensures Trace(states', events') && states <= states' && events <= events' && OnlyMoves(events', |events|, w)
    ensures w in Last(states').slot.ops && Last(states').slot.ops[w] == Returned(r, false)
    ensures Last(states').slot.primary == s.slot.primary && Last(states').slot.hist == s.slot.hist
    ensures Last(states').searches == s.searches
  {
    if |s.slot.backups| == 0 {
      states', events' := StaleMisses(states, events, s, w, r);
    } else {
      states', events' := SwapAll(states, events, s, w, r, |s.slot.backups|);
      StaleDecides(s, w, r);
      StalePolls(s, w, r);
      states', events' := Extend(states', events', SlotStep(Decide(w)));
      states', events' := Extend(states', events', SlotStep(Poll(w)));
    }
  }

  // No order explains two searches that see the same word around a completed update.

  /** The value of the register was written, and after every other write listed. */
  lemma {:induction false} ValueWritten(init: Word, order: seq<Op>, k: nat)
    requires k < |order| && order[k].Update? && Value(init, order) != order[k].w
    ensures exists p :: k < p < |order| && order[p] == Update(Value(init, order))
  {
    var n := |order| - 1;
    if order[n].Update? {
      assert order[n] == Update(Value(init, order));
    } else {
      ValueWritten(init, order[..n], k);
      var p :| k < p < n && order[..n][p] == Update(Value(init, order));
      assert order[p] == Update(Value(init, order));
    }
  }

  lemma {:induction false} ValueFrom(init: Word, order: seq<Op>)
    requires Value(init, order) != init
    ensures Update(Value(init, order)) in order
  {
    var n := |order| - 1;
    if order[n].Read? { ValueFrom(init, order[..n]); }
  }

  lemma {:induction false} RespondsBetween(states: seq<System>, op: Op, i: nat, k: nat) returns (m: nat)
    requires i < k < |states| && !Done(states[i], op) && Done(states[k], op)
    ensures i <= m < k && Responds(states, op, m)
  {
    if Done(states[k - 1], op) { m := RespondsBetween(states, op, i, k - 1); } else { m := k - 1; }
  }

  /** Search `a` is over before update `w` is invoked, `w` before search `b`, and both saw `x`. */
  ghost predicate Sandwiched(states: seq<System>, events: seq<Event>, a: nat, b: nat, w: Word, x: Word) {
    && |states| == |events| + 1 && |states[0].slot.hist| > 0 && x != states[0].slot.hist[0] && x != w
    && Done(Last(states), Read(a)) && Last(states).searches[a].result == Some(x)
    && Done(Last(states), Read(b)) && Last(states).searches[b].result == Some(x) && Done(Last(states), Update(w))
    && (exists i, j :: i < j && Responds(states, Read(a), i) && Invokes(events, Update(w), j))
    && (exists i, j :: i < j && Responds(states, Update(w), i) && Invokes(events, Read(b), j))
  }

  /** Operations whose intervals do not overlap are listed in their order. */
  lemma Precedes(states: seq<System>, events: seq<Event>, order: seq<Op>, p: nat, q: nat, i: nat, j: nat)
    requires |states| == |events| + 1 && |states[0].slot.hist| > 0 && Linearizes(states, events, order)
    requires p < |order| && q < |order| && order[p] != order[q]
    requires i < j && Responds(states, order[p], i) && Invokes(events, order[q], j)
    ensures p < q
  {
    assert q < p ==> j < i;
  }

  lemma NoOrder(states: seq<System>, events: seq<Event>, a: nat, b: nat, w: Word, x: Word, order: seq<Op>)
    requires Sandwiched(states, events, a, b, w, x)
    ensures !Linearizes(states, events, order)
  {
    if Linearizes(states, events, order) {
      var init := states[0].slot.hist[0];
      assert Read(a) in order && Read(b) in order && Update(w) in order;
      var pa :| 0 <= pa < |order| && order[pa] == Read(a);
      var pw :| 0 <= pw < |order| && order[pw] == Update(w);
      var pb :| 0 <= pb < |order| && order[pb] == Read(b);
      var i, j :| i < j && Responds(states, Read(a), i) && Invokes(events, Update(w), j);
      Precedes(states, events, order, pa, pw, i, j);
      var i', j' :| i' < j' && Responds(states, Update(w), i') && Invokes(events, Read(b), j');
      Precedes(states, events, order, pw, pb, i', j');
      assert Value(init, order[..pa]) == x == Value(init, order[..pb]);
      ValueFrom(init, order[..pa]);
      ValueWritten(init, order[..pb], pw);
      assert false;
    }
  }

  // The exact condition.

  /** A search from beginning to end, all on its own. */
  lemma SearchAlone(states: seq<System>, events: seq<Event>, id: nat)
    returns (states': seq<System>, events': seq<Event>)
    requires Trace(states, events) && id !in Last(states).searches
    ensures Trace(states', events') && states <= states' && |events'| == |events| + 3
    ensures events' == events + [Begin(id, 0, false), ReadPrimary(id), End(id)]
    ensures Last(states').slot == Last(states).slot
    ensures Last(states').searches ==
            Last(states).searches[id := Search(0, None, Some(Last(states).slot.primary), None, Some(Last(states).slot.primary))]
  {
    states', events' := Extend(states, events, Begin(id, 0, false));
    states', events' := Extend(states', events', ReadPrimary(id));
    states', events' := Extend(states', events', End(id));
  }

  /** The update from its invocation on. */
  lemma UpdateAlone(states: seq<System>, events: seq<Event>, w: Word, r: nat)
    returns (states': seq<System>, events': seq<Event>)
    requires Trace(states, events) && Enabled(Last(states).slot, Invoke(w)) && Stale(Last(states).slot, w, r)
    requires Last(states).slot.hist[r] !in Last(states).slot.invalid
    ensures Trace(states', events') && states <= states' && |events| + 2 <= |events'|
    ensures events'[..|events| + 2] == events + [SlotStep(Invoke(w)), SlotStep(UseCache(w, r))]
    ensures OnlyMoves(events', |events| + 2, w)
    ensures w in Last(states').slot.ops && Last(states').slot.ops[w] == Returned(r, false)
    ensures Last(states').slot.primary == Last(states).slot.primary && Last(states').searches == Last(states).searches
  {
    var t := Last(states);
    var s1, e1 := Extend(states, events, SlotStep(Invoke(w)));
    assert Last(s1) == With(t, w, Invoked);
    var s2, e2 := Extend(s1, e1, SlotStep(UseCache(w, r)));
    assert Last(s2) == With(t, w, Start(t.slot, r));
    states', events' := StaleReturns(s2, e2, t, w, r);
    assert events'[..|events| + 2] == e2;
  }

  /** The states and events of search `a`, update `w`, search `b`; the update ends before event `k`. */
  ghost predicate Layout(n: nat, k: nat, s: System, states: seq<System>, events: seq<Event>, a: nat, b: nat, w: Word, r: nat) {
    && n + 5 <= k < |events| && |states| == |events| + 1 && |events| == k + 3
    && events[n..n + 5] == [Begin(a, 0, false), ReadPrimary(a), End(a), SlotStep(Invoke(w)), SlotStep(UseCache(w, r))]
    && events[k..] == [Begin(b, 0, false), ReadPrimary(b), End(b)]
    && (forall i :: n + 5 <= i < k ==> Harmless(events[i]))
    && states[n] == s && states[n + 3].slot == s.slot && Done(states[n + 3], Read(a)) && Done(states[k], Update(w))
    && Done(Last(states), Update(w))
    && a in Last(states).searches && Last(states).searches[a].result == Some(s.slot.primary)
    && b in Last(states).searches && Last(states).searches[b].result == Some(s.slot.primary)
  }

  lemma Built(states: seq<System>, events: seq<Event>, a: nat, b: nat, w: Word, r: nat)
    returns (states': seq<System>, events': seq<Event>, k: nat)
    requires Trace(states, events) && Enabled(Last(states).slot, Invoke(w)) && Stale(Last(states).slot, w, r)
    requires Last(states).slot.hist[r] !in Last(states).slot.invalid
    requires a !in Last(states).searches && b !in Last(states).searches && a != b
    ensures Trace(states', events') && states <= states' && events <= events'
    ensures Layout(|events|, k, Last(states), states', events', a, b, w, r)
  {
    var n, s := |events|, Last(states);
    var s1, e1 := SearchAlone(states, events, a);
    var s2, e2 := UpdateAlone(s1, e1, w, r);
    k := |e2|;
    states', events' := SearchAlone(s2, e2, b);
    assert states'[n] == s1[n] == s && states'[n + 3] == s1[n + 3] == Last(s1) && states'[k] == Last(s2);
    assert events'[n..n + 5] == e2[..n + 5][n..];
    forall i | n + 5 <= i < k ensures Harmless(events'[i]) { assert events'[i] == e2[i]; }
  }

  /**
   Wherever a run stands, an update of a fresh word `w` that starts from a word replaced by now but not
   yet marked stale, with a search before and one after it, makes a run that has no legal order.
  */
  lemma Untimely(states: seq<System>, events: seq<Event>, a: nat, b: nat, w: Word, r: nat)
    returns (states': seq<System>, events': seq<Event>, k: nat)
    requires Trace(states, events) && Enabled(Last(states).slot, Invoke(w)) && r + 1 < |Last(states).slot.hist|
    requires Last(states).slot.hist[r] !in Last(states).slot.invalid
    requires a !in Last(states).searches && b !in Last(states).searches && a != b
    ensures Trace(states', events') && states <= states' && events <= events'
    ensures Layout(|events|, k, Last(states), states', events', a, b, w, r)
    ensures |states'[0].slot.hist| > 0 && forall order :: !Linearizes(states', events', order)
  {
    var n, s, x := |events|, Last(states), Last(states).slot.primary;
    TraceInv(states, events, n);
    StaleRound(s.slot, w, r);
    HistLater(states, events, 0, n);
    states', events', k := Built(states, events, a, b, w, r);
    LayoutSandwiches(n, k, s, states', events', a, b, w, r);
    forall order ensures !Linearizes(states', events', order) {
      NoOrder(states', events', a, b, w, x, order);
    }
  }

  lemma LayoutSandwiches(n: nat, k: nat, s: System, states: seq<System>, events: seq<Event>, a: nat, b: nat, w: Word, r: nat)
    requires Layout(n, k, s, states, events, a, b, w, r) && a !in s.searches && w !in s.slot.ops
    requires |states[0].slot.hist| > 0 && s.slot.primary != states[0].slot.hist[0] && s.slot.primary != w
    ensures Sandwiched(states, events, a, b, w, s.slot.primary)
  {
    var i := RespondsBetween(states, Read(a), n, n + 3);
    assert events[n + 3] == events[n..n + 5][3] && Invokes(events, Update(w), n + 3);
    var j := RespondsBetween(states, Update(w), n + 3, k);
    assert events[k] == events[k..][0] && Invokes(events, Read(b), k);
  }

  /** An event that no rule about caches concerns. */
  predicate Harmless(e: Event) {
    (e.Begin? ==> !e.useCache) && !(e.SlotStep? && e.step.UseCache?) && !(e.SlotStep? && e.step.Invoke?)
  }

  /**
   The run goes on, timely but for update `w`, which is invoked before the primary moves again and
   starts from the word of round `r`.
  */
  ghost predicate Continues(states: seq<System>, events: seq<Event>, states': seq<System>, events': seq<Event>, w: Word, r: nat)
    requires states != []
  {
    && Trace(states', events') && states <= states' && events <= events'
    && (forall i :: |events| <= i < |events'| ==> TimelyAt(states', events', i) || events'[i] == SlotStep(UseCache(w, r)))
    && (forall j :: |events| <= j < |events'| && Invokes(events', Update(w), j) ==>
          |states'[j].slot.hist| == |Last(states).slot.hist|)
  }

  ghost predicate HasOrder(states: seq<System>, events: seq<Event>) {
    |states| == |events| + 1 && |states[0].slot.hist| > 0 && exists order :: Linearizes(states, events, order)
  }

  /** What is timely stays timely when the run goes on. */
  lemma TimelyPrefix(states: seq<System>, events: seq<Event>, states': seq<System>, events': seq<Event>, i: nat)
    requires |states| == |events| + 1 && |states'| == |events'| + 1 && states <= states' && events <= events'
    requires i < |events| && TimelyAt(states, events, i)
    ensures TimelyAt(states', events', i)
  {
    if events[i].SlotStep? && events[i].step.UseCache? {
      forall j | 0 <= j < i && Invokes(events', Update(events'[i].step.w), j)
        ensures |states'[j].slot.hist| <= events'[i].step.round + 1
      {
        assert Invokes(events, Update(events[i].step.w), j);
      }
    }
  }

  /** What a cached update can still start from was usable before. */
  lemma UsableStays(states: seq<System>, events: seq<Event>, j: nat, k: nat, r: nat)
    requires Trace(states, events) && j <= k < |events| && r < |states[j].slot.hist|
    requires events[k].SlotStep? && events[k].step.UseCache? && events[k].step.round == r
    ensures states[j].slot.hist[r] !in states[j].slot.invalid
  {
    assert Follows(states, events, k);
    HistLater(states, events, j, k);
    InvalidLater(states, events, j, k);
  }

  lemma {:induction false} InvalidLater(states: seq<System>, events: seq<Event>, j: nat, k: nat)
    requires Trace(states, events) && j <= k < |states|
    ensures states[j].slot.invalid <= states[k].slot.invalid
    decreases k
  {
    if j < k {
      InvalidLater(states, events, j, k - 1);
      assert Follows(states, events, k - 1);
      if events[k - 1].SlotStep? { HistGrows(states[k - 1].slot, events[k - 1].step); }
    }
  }

  lemma CurrentIsTimely(states: seq<System>, events: seq<Event>, states': seq<System>, events': seq<Event>, w: Word, r: nat)
    requires Trace(states, events) && Timely(states, events) && Enabled(Last(states).slot, Invoke(w))
    requires Continues(states, events, states', events', w, r) && r < |Last(states).slot.hist|
    requires r + 1 == |Last(states).slot.hist| || Last(states).slot.hist[r] in Last(states).slot.invalid
    ensures Timely(states', events')
  {
    forall i | 0 <= i < |events'| ensures TimelyAt(states', events', i) {
      if i < |events| {
        TimelyPrefix(states, events, states', events', i);
      } else if events'[i] == SlotStep(UseCache(w, r)) {
        assert states'[|events|] == Last(states);
        UsableStays(states', events', |events|, i, r);
        forall j | 0 <= j < i && Invokes(events', Update(w), j) ensures |states'[j].slot.hist| <= r + 1 {
          if j < |events| {
            assert Follows(states, events, j);
            KnownLater(states, events, j + 1, |events|, Update(w));
          }
        }
      }
    }
  }

  lemma UntimelyContinues(states: seq<System>, events: seq<Event>, states': seq<System>, events': seq<Event>,
                          k: nat, a: nat, b: nat, w: Word, r: nat)
    requires Trace(states, events) && Trace(states', events') && states <= states' && events <= events'
    requires Layout(|events|, k, Last(states), states', events', a, b, w, r)
    ensures Continues(states, events, states', events', w, r)
  {
    var n := |events|;
    forall i | n <= i < |events'|
      ensures TimelyAt(states', events', i) || events'[i] == SlotStep(UseCache(w, r))
      ensures Invokes(events', Update(w), i) ==> i == n + 3
    {
      if i < n + 5 { assert events'[i] == events'[n..n + 5][i - n]; }
      if k <= i { assert events'[i] == events'[k..][i - k]; }
    }
  }

  /**
   The exact condition: in whatever timely run, letting a fresh update start from the cached word of
   round `r` keeps every continuation linearizable if and only if that word is the current one or its
   object is already marked stale.
  */
  lemma CachedExactly(states: seq<System>, events: seq<Event>, w: Word, r: nat)
    requires Trace(states, events) && Timely(states, events) && Enabled(Last(states).slot, Invoke(w))
    requires r < |Last(states).slot.hist|
    ensures (forall states', events' :: Continues(states, events, states', events', w, r) ==> HasOrder(states', events'))
            <==> r + 1 == |Last(states).slot.hist| || Last(states).slot.hist[r] in Last(states).slot.invalid
  {
    if r + 1 == |Last(states).slot.hist| || Last(states).slot.hist[r] in Last(states).slot.invalid {
      forall states', events' | Continues(states, events, states', events', w, r) ensures HasOrder(states', events') {
        CurrentIsTimely(states, events, states', events', w, r);
        var order := Linearizable(states', events');
      }
    } else {
      var a := FreshId(Last(states).searches.Keys);
      var b := FreshId(Last(states).searches.Keys + {a});
      var states', events', k := Untimely(states, events, a, b, w, r);
      UntimelyContinues(states, events, states', events', k, a, b, w, r);
      assert !HasOrder(states', events');
    }
  }

  lemma {:induction false} FreshId(ids: set<nat>) returns (id: nat)
    ensures id !in ids && forall i :: i in ids ==> i < id
  {
    if ids == {} {
      id := 0;
    } else {
      var i :| i in ids;
      id := FreshId(ids - {i});
      if id <= i { id := i + 1; }
      assert forall k :: k in ids ==> k == i || k in ids - {i};
    }
  }

  /** One such run: update 2 has replaced 1, and update 4, invoked later, starts from the cached 1. */
  lemma CachedUpdateBreaks() returns (states: seq<System>, events: seq<Event>)
    ensures Trace(states, events) && !HasOrder(states, events)
  {
    states, events := StaleRead.Finished();
    var k;
    states, events, k := Untimely(states, events, 1, 2, 4, 0);
  }
}
