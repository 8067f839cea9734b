/**
 SEARCH and the clients' slot caches on top of the slot protocol.

 A search reads the primary slot and, on a cache hit, the header of the cached object at the same
 time; the two reads land in either order.  A cached object still marked valid is returned, any
 other search returns what the primary pointed to and remembers it.
*/
module SlotSystem {
  import opened Common
  import opened SlotProtocol
  import opened SlotInvariant
  import opened SlotSteps
  import opened SlotFinish
  import opened SlotTheorems

  /** `hit` is the cached word the search started with, `valid` what the object's header said. */
  datatype Search = Search(
    client: nat, hit: Option<Word>, seen: Option<Word>, valid: Option<bool>, result: Option<Word>)

  datatype System = System(slot: Slot, searches: map<nat, Search>, caches: map<nat, Word>)

  datatype Event =
    | SlotStep(step: Step)
    | Begin(id: nat, client: nat, useCache: bool)   // `useCache` is false on a miss by rate or by choice
    | ReadPrimary(id: nat)
    | CheckCached(id: nat)
    | End(id: nat)
    | Remember(client: nat, w: Word)                // a winner caches its own word when it returns

  ghost predicate Quiet(s: System) {
    Init(s.slot) && s.searches == map[] && s.caches == map[]
  }

  predicate Occurs(s: System, e: Event) {
    match e
    case SlotStep(step) => Enabled(s.slot, step)
    case Begin(id, client, useCache) => id !in s.searches
    case ReadPrimary(id) => id in s.searches && s.searches[id].seen.None?
    case CheckCached(id) => id in s.searches && s.searches[id].hit.Some? && s.searches[id].valid.None?
    case End(id) =>
      && id in s.searches && s.searches[id].result.None? && s.searches[id].seen.Some?
      && (s.searches[id].hit.Some? ==> s.searches[id].valid.Some?)
    case Remember(client, w) => w in s.slot.ops && s.slot.ops[w].Returned? && s.slot.ops[w].won
  }

  function Outcome(q: Search): Word
    requires q.seen.Some? && (q.hit.Some? ==> q.valid.Some?)
  {
    if q.hit.Some? && q.valid.value then q.hit.value else q.seen.value
  }

  function After(s: System, e: Event): System
    requires Occurs(s, e)
  {
    match e
    case SlotStep(step) => s.(slot := Apply(s.slot, step))
    case Begin(id, client, useCache) =>
      var hit := if useCache && client in s.caches then Some(s.caches[client]) else None;
      s.(searches := s.searches[id := Search(client, hit, None, None, None)])
    case ReadPrimary(id) =>
      s.(searches := s.searches[id := s.searches[id].(seen := Some(s.slot.primary))])
    case CheckCached(id) =>
      var q := s.searches[id];
      s.(searches := s.searches[id := q.(valid := Some(q.hit.value !in s.slot.invalid))])
    case End(id) =>
      var q := s.searches[id];
      var v := Outcome(q);
      s.(searches := s.searches[id := q.(result := Some(v))],
         caches := if q.hit.Some? && q.valid.value then s.caches else s.caches[q.client := v])
    case Remember(client, w) => s.(caches := s.caches[client := w])
  }

  /** State `k + 1` follows state `k` by event `k`. */
  ghost predicate Follows(states: seq<System>, events: seq<Event>, k: nat) {
    && k < |events| && k + 1 < |states|
    && Occurs(states[k], events[k]) && states[k + 1] == After(states[k], events[k])
  }

  ghost predicate Trace(states: seq<System>, events: seq<Event>) {
    && |states| == |events| + 1
    && Quiet(states[0])
    && forall k :: 0 <= k < |events| ==> Follows(states, events, k)
  }

  ghost function Last(states: seq<System>): System
    requires states != []
  {
    states[|states| - 1]
  }

  /** A run goes on with any event that can occur. */
  lemma Extend(states: seq<System>, events: seq<Event>, e: Event)
    returns (states': seq<System>, events': seq<Event>)
    requires Trace(states, events) && Occurs(Last(states), e)
    ensures Trace(states', events') && states < states'
    ensures events' == events + [e] && Last(states') == After(Last(states), e)
  {
    states', events' := states + [After(Last(states), e)], events + [e];
    forall k | 0 <= k < |events'| ensures Follows(states', events', k) {
      if k < |events| { assert Follows(states, events, k); }
    }
  }

  /** Every cached word and every word a search holds has been the primary word. */
  ghost predicate WordsSeen(s: System) {
    && (forall c :: c in s.caches ==> s.caches[c] in s.slot.hist)
    && (forall id :: id in s.searches ==>
          var q := s.searches[id];
          && (q.hit.Some? ==> q.hit.value in s.slot.hist)
          && (q.seen.Some? ==> q.seen.value in s.slot.hist)
          && (q.result.Some? ==> q.result.value in s.slot.hist))
  }

  lemma HistGrows(s: Slot, step: Step)
    requires Enabled(s, step)
    ensures s.hist <= Apply(s, step).hist && s.invalid <= Apply(s, step).invalid
    ensures forall v :: v in s.hist ==> v in Apply(s, step).hist
  {
  }

  lemma WordsStep(s: System, e: Event)
    requires Occurs(s, e) && HistOk(s.slot) && OpsOk(s.slot) && WordsSeen(s)
    ensures WordsSeen(After(s, e))
  {
    match e
    case SlotStep(step) => HistGrows(s.slot, step);
    case Remember(_, w) => assert OpOk(s.slot, w, s.slot.ops[w]);
    case _ =>
  }

  lemma {:induction false} TraceInv(states: seq<System>, events: seq<Event>, k: nat)
    requires Trace(states, events) && k < |states|
    ensures Inv(states[k].slot)
    ensures WordsSeen(states[k])
  {
    if k == 0 {
      InitInv(states[0].slot);
    } else {
      TraceInv(states, events, k - 1);
      var s, e := states[k - 1], events[k - 1];
      assert Follows(states, events, k - 1);
      WordsStep(s, e);
      if e.SlotStep? { StepInv(s.slot, e.step); }
    }
  }

  /** Every cached slot word was once the primary word. */
  lemma CachedWordWasPrimary(states: seq<System>, events: seq<Event>, k: nat, client: nat)
    requires Trace(states, events) && k < |states| && client in states[k].caches
    ensures states[k].caches[client] in states[k].slot.hist
  {
    TraceInv(states, events, k);
  }

  /** From now on no search that starts can return the word `x`: it is replaced and its object stale. */
  ghost predicate Gone(s: System, x: Word) {
    && |s.slot.hist| > 0 && x in s.slot.hist[..|s.slot.hist| - 1]
    && x in s.slot.invalid
  }

  /** What holds of a search that started after `x` was gone. */
  predicate Clear(q: Search, x: Word) {
    && q.seen != Some(x) && q.result != Some(x)
    && (q.hit == Some(x) ==> q.valid != Some(true))
  }

  lemma GoneStays(s: System, e: Event, x: Word)
    requires Occurs(s, e) && HistOk(s.slot) && Gone(s, x)
    ensures Gone(After(s, e), x) && s.slot.primary != x
  {
    var i :| 0 <= i < |s.slot.hist| - 1 && s.slot.hist[i] == x;
    if e.SlotStep? {
      HistGrows(s.slot, e.step);
      assert After(s, e).slot.hist[i] == x;
    }
  }

  lemma ClearStays(s: System, e: Event, x: Word, id: nat)
    requires Occurs(s, e) && HistOk(s.slot) && Gone(s, x)
    requires id in s.searches ==> Clear(s.searches[id], x)
    ensures id in After(s, e).searches ==> Clear(After(s, e).searches[id], x)
  {
    GoneStays(s, e, x);
  }

  lemma {:induction false} NeverReturned(
    states: seq<System>, events: seq<Event>, a: nat, b: nat, x: Word, id: nat)
    requires Trace(states, events) && a <= b < |states| && Gone(states[a], x) && id !in states[a].searches
    ensures Gone(states[b], x)
    ensures id in states[b].searches ==> Clear(states[b].searches[id], x)
    decreases b
  {
    if a < b {
      NeverReturned(states, events, a, b - 1, x, id);
      TraceInv(states, events, b - 1);
      assert Follows(states, events, b - 1);
      GoneStays(states[b - 1], events[b - 1], x);
      ClearStays(states[b - 1], events[b - 1], x, id);
    }
  }

  /**
   Cache coherence: a search, cached or not, that starts after a winning update has returned
   never returns the word that update replaced.
  */
  lemma CacheCoherence(
    states: seq<System>, events: seq<Event>, a: nat, b: nat, w: Word, id: nat)
    requires Trace(states, events) && a <= b < |states|
    requires w in states[a].slot.ops && states[a].slot.ops[w].Returned? && states[a].slot.ops[w].won
    requires id !in states[a].searches && id in states[b].searches && states[b].searches[id].result.Some?
    ensures states[a].slot.ops[w].round < |states[a].slot.hist|
    ensures states[b].searches[id].result.value != states[a].slot.hist[states[a].slot.ops[w].round]
  {
    var s := states[a].slot;
    TraceInv(states, events, a);
    assert OpOk(s, w, s.ops[w]);
    var r := s.ops[w].round;
    assert s.hist[..|s.hist| - 1][r] == s.hist[r];
    NeverReturned(states, events, a, b, s.hist[r], id);
  }

  // When a search does return a replaced word.

  /** Event `i` begins search `id` from the word `x` in the client's cache. */
  ghost predicate BeganFrom(states: seq<System>, events: seq<Event>, i: nat, id: nat, x: Word) {
    && i < |events| && i < |states| && events[i].Begin? && events[i].id == id && events[i].useCache
    && events[i].client in states[i].caches && states[i].caches[events[i].client] == x
  }

  /** Event `i` is search `id`'s look at the object of `x`, which is not yet marked stale. */
  ghost predicate FoundValid(states: seq<System>, events: seq<Event>, i: nat, id: nat, x: Word) {
    i < |events| && i < |states| && events[i] == CheckCached(id) && x !in states[i].slot.invalid
  }

  /** The word a search started from is on record exactly if it began so. */
  ghost predicate HitRecorded(states: seq<System>, events: seq<Event>, a: nat, b: nat, id: nat, x: Word)
    requires b < |states|
  {
    (id in states[b].searches && states[b].searches[id].hit == Some(x)) <==>
    exists i :: a <= i < b && BeganFrom(states, events, i, id, x)
  }

  /** The object is on record as valid exactly if it was found so. */
  ghost predicate ValidRecorded(states: seq<System>, events: seq<Event>, a: nat, b: nat, id: nat, x: Word)
    requires b < |states|
  {
    id in states[b].searches && states[b].searches[id].hit == Some(x) ==>
      (states[b].searches[id].valid == Some(true) <==> exists i :: a <= i < b && FoundValid(states, events, i, id, x))
  }

  lemma BeginStep(s: System, e: Event, id: nat, x: Word)
    requires Occurs(s, e)
    ensures var t := After(s, e);
            (id in t.searches && t.searches[id].hit == Some(x)) <==>
              || (id in s.searches && s.searches[id].hit == Some(x))
              || (e.Begin? && e.id == id && e.useCache && e.client in s.caches && s.caches[e.client] == x)
  {
  }

  lemma CheckStep(s: System, e: Event, id: nat, x: Word)
    requires Occurs(s, e) && id in After(s, e).searches && After(s, e).searches[id].hit == Some(x)
    ensures After(s, e).searches[id].valid == Some(true) <==>
              || (id in s.searches && s.searches[id].valid == Some(true))
              || (e == CheckCached(id) && x !in s.slot.invalid)
    ensures id !in s.searches ==> After(s, e).searches[id].valid.None?
  {
  }

  /** A search is only looked after once it has begun. */
  lemma {:induction false} NotBefore(states: seq<System>, events: seq<Event>, a: nat, b: nat, id: nat, i: nat)
    requires Trace(states, events) && a <= i < b < |states| && id !in states[b].searches
    ensures events[i] != CheckCached(id)
    decreases b
  {
    assert Follows(states, events, b - 1);
    if i < b - 1 { NotBefore(states, events, a, b - 1, id, i); }
  }

  lemma {:induction false} Recorded(states: seq<System>, events: seq<Event>, a: nat, b: nat, id: nat, x: Word)
    requires Trace(states, events) && a <= b < |states| && id !in states[a].searches
    ensures HitRecorded(states, events, a, b, id, x) && ValidRecorded(states, events, a, b, id, x)
    decreases b
  {
    if a < b {
      Recorded(states, events, a, b - 1, id, x);
      assert Follows(states, events, b - 1);
      BeginStep(states[b - 1], events[b - 1], id, x);
      HitStep(states, events, a, b, id, x);
      if id in states[b].searches && states[b].searches[id].hit == Some(x) {
        CheckStep(states[b - 1], events[b - 1], id, x);
        ValidStep(states, events, a, b, id, x);
      }
    }
  }

  lemma HitStep(states: seq<System>, events: seq<Event>, a: nat, b: nat, id: nat, x: Word)
    requires Trace(states, events) && a < b < |states| && HitRecorded(states, events, a, b - 1, id, x)
    requires (id in states[b].searches && states[b].searches[id].hit == Some(x)) <==>
             || (id in states[b - 1].searches && states[b - 1].searches[id].hit == Some(x))
             || BeganFrom(states, events, b - 1, id, x)
    ensures HitRecorded(states, events, a, b, id, x)
  {
  }

  lemma ValidStep(states: seq<System>, events: seq<Event>, a: nat, b: nat, id: nat, x: Word)
    requires Trace(states, events) && a < b < |states| && ValidRecorded(states, events, a, b - 1, id, x)
    requires id in states[b].searches && states[b].searches[id].hit == Some(x)
    requires states[b].searches[id].valid == Some(true) <==>
             || (id in states[b - 1].searches && states[b - 1].searches[id].valid == Some(true))
             || FoundValid(states, events, b - 1, id, x)
    ensures ValidRecorded(states, events, a, b, id, x)
  {
    assert Follows(states, events, b - 1);
    if id in states[b - 1].searches {
      assert states[b - 1].searches[id].hit == Some(x);
    } else if i :| a <= i < b - 1 && FoundValid(states, events, i, id, x) {
      NotBefore(states, events, a, b - 1, id, i);
    }
  }

  /**
   A search that starts once the word of round `r` is replaced returns that word exactly if it began
   from the client's cache with that word in it and found the object not yet marked stale.
  */
  lemma StaleOnlyByCache(
    states: seq<System>, events: seq<Event>, a: nat, b: nat, r: nat, id: nat)
    requires Trace(states, events) && a <= b < |states| && r + 1 < |states[a].slot.hist|
    requires id !in states[a].searches && id in states[b].searches && states[b].searches[id].result.Some?
    ensures var x := states[a].slot.hist[r];
            states[b].searches[id].result.value == x <==>
              && (exists i :: a <= i < b && BeganFrom(states, events, i, id, x))
              && (exists i :: a <= i < b && FoundValid(states, events, i, id, x))
  {
    SearchShape(states, events, a, b, r, id);
    Recorded(states, events, a, b, id, states[a].slot.hist[r]);
  }

  /** A search that has its answer took it as `Outcome` says, and never read the replaced word itself. */
  ghost predicate Shaped(q: Search, x: Word) {
    && q.seen != Some(x) && (q.valid.Some? ==> q.hit.Some?)
    && (q.result.Some? ==> q.seen.Some? && (q.hit.Some? ==> q.valid.Some?) && q.result.value == Outcome(q))
  }

  lemma ShapeStep(s: System, e: Event, x: Word, id: nat)
    requires Occurs(s, e) && s.slot.primary != x && (id in s.searches ==> Shaped(s.searches[id], x))
    ensures id in After(s, e).searches ==> Shaped(After(s, e).searches[id], x)
  {
  }

  lemma {:induction false} SearchShape(
    states: seq<System>, events: seq<Event>, a: nat, b: nat, r: nat, id: nat)
    requires Trace(states, events) && a <= b < |states| && r + 1 < |states[a].slot.hist|
    requires id !in states[a].searches
    ensures states[a].slot.hist <= states[b].slot.hist
    ensures id in states[b].searches ==> Shaped(states[b].searches[id], states[a].slot.hist[r])
    decreases b
  {
    if a < b {
      SearchShape(states, events, a, b - 1, r, id);
      assert Follows(states, events, b - 1);
      var s, e := states[b - 1], events[b - 1];
      if e.SlotStep? { HistGrows(s.slot, e.step); }
      assert s.slot.primary != states[a].slot.hist[r] by {
        TraceInv(states, events, b - 1);
        assert s.slot.hist[r] == states[a].slot.hist[r];
      }
      ShapeStep(s, e, states[a].slot.hist[r], id);
    }
  }
}
