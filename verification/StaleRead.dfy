/**
 The limit of the cache's promise: a losing update returns as soon as the primary has moved, which
 can be before the winner has invalidated the replaced object.  A cached search that starts after a
 losing update has returned can therefore still return the replaced word.
*/
module StaleRead {
  import opened Common
  import opened Consensus
  import opened SlotProtocol
  import opened SlotSystem

  // One backup; client 7 has cached the word 1; updates 2 and 3 race to replace it.

  function Cached(slot: Slot): System {
    System(slot, map[0 := Search(7, None, Some(1), None, Some(1))], map[7 := 1])
  }

  function Racing(primary: Word, backup: Word, two: Phase, three: Phase): Slot {
    Slot(primary, [backup], map[2 := two, 3 := three], [1], [if backup == 1 then map[] else map[0 := backup]], map[], {})
  }

  /** Update 2 has replaced the primary but not yet invalidated the old object; update 3 has returned. */
  function Raced(): Slot {
    Slot(2, [2], map[2 := Finishing(0, Some(1), false), 3 := Returned(0, false)],
         [1, 2], [map[0 := 2], map[]], map[2 := 1], {})
  }

  lemma Warmed() returns (states: seq<System>, events: seq<Event>)
    ensures Trace(states, events)
    ensures Last(states) == Cached(Slot(1, [1], map[], [1], [map[]], map[], {}))
  {
    states, events := [System(Slot(1, [1], map[], [1], [map[]], map[], {}), map[], map[])], [];
    states, events := Extend(states, events, Begin(0, 7, false));
    states, events := Extend(states, events, ReadPrimary(0));
    states, events := Extend(states, events, End(0));
  }

  lemma BothRead() returns (states: seq<System>, events: seq<Event>)
    ensures Trace(states, events)
    ensures Last(states) == Cached(Racing(1, 1, Swapping(0, map[]), Swapping(0, map[])))
  {
    states, events := Warmed();
    states, events := Extend(states, events, SlotStep(Invoke(2)));
    states, events := Extend(states, events, SlotStep(Invoke(3)));
    states, events := Extend(states, events, SlotStep(ReadSlot(2)));
    states, events := Extend(states, events, SlotStep(ReadSlot(3)));
  }

  lemma Swapped() returns (states: seq<System>, events: seq<Event>)
    ensures Trace(states, events)
    ensures Last(states) == Cached(Racing(1, 2, Swapping(0, map[0 := 1]), Swapping(0, map[0 := 2])))
  {
    states, events := BothRead();
    states, events := Extend(states, events, SlotStep(SwapBackup(2, 0)));
    states, events := Extend(states, events, SlotStep(SwapBackup(3, 0)));
  }

  lemma Verdicts()
    ensures Classify(Votes([1], 1, 2), 2) == WinAll
    ensures Classify(Votes([2], 1, 3), 3) == Fail
  {
    assert Votes([1], 1, 2) == [2] && Votes([2], 1, 3) == [2];
    var two: seq<Word> := [2];
    assert two[0] in two;
    assert Count(two, 2) == 1 && Count(two, 3) == 0;
    assert Majority(two, 2) && !Majority(two, 3);
  }

  lemma Decided2() returns (states: seq<System>, events: seq<Event>)
    ensures Trace(states, events)
    ensures Last(states) == Cached(Racing(1, 2, Rewriting(0, [1], map[]), Waiting(0)))
  {
    states, events := Swapped();
    Verdicts();
    assert Listed(map[0 := 1], 1) == [1] && Listed(map[0 := 2], 1) == [2];
    states, events := Extend(states, events, SlotStep(Decide(2)));
    states, events := Extend(states, events, SlotStep(Decide(3)));
  }

  lemma PrimarySwapped() returns (states: seq<System>, events: seq<Event>)
    ensures Trace(states, events) && Last(states) == Cached(Raced().(ops := Raced().ops[3 := Waiting(0)]))
  {
    states, events := Decided2();
    states, events := Extend(states, events, SlotStep(Commit(2)));
    states, events := Extend(states, events, SlotStep(SwapPrimary(2)));
  }

  lemma Finished() returns (states: seq<System>, events: seq<Event>)
    ensures Trace(states, events) && Last(states) == Cached(Raced())
  {
    states, events := PrimarySwapped();
    states, events := Extend(states, events, SlotStep(Poll(3)));
  }

  /** A run in which update 3 has returned, search 1 starts after that and returns the replaced word. */
  lemma LoserReturnIsNotEnough() returns (states: seq<System>, events: seq<Event>, a: nat, b: nat)
    ensures Trace(states, events) && a <= b < |states|
    ensures 3 in states[a].slot.ops && states[a].slot.ops[3] == Returned(0, false)
    ensures 1 !in states[a].searches && 1 in states[b].searches
    ensures |states[a].slot.hist| > 1 && states[b].searches[1].result == Some(states[a].slot.hist[0])
  {
    states, events := Finished();
    a := |states| - 1;
    ghost var before := states;
    states, events := Extend(states, events, Begin(1, 7, true));
    states, events := Extend(states, events, ReadPrimary(1));
    states, events := Extend(states, events, CheckCached(1));
    states, events := Extend(states, events, End(1));
    b := |states| - 1;
    assert states[a] == Last(before);
  }
}
