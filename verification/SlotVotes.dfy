/** What the words returned to one update say about the first-written words of its round. */
module SlotVotes {
  import opened Common
  import opened Consensus
  import opened SlotProtocol
  import opened SlotInvariant

  lemma BacksComplete(s: Slot, w: Word, r: nat, backs: seq<Word>)
    requires BacksOk(s, w, r, backs)
    ensures r < |s.hist| == |s.rounds| && Complete(s, r)
  {
    assert BackOk(s, w, r, 0, backs[0]);
    forall i | 0 <= i < |s.backups| ensures i in s.rounds[r] {
      assert BackOk(s, w, r, i, backs[i]);
    }
  }

  /** An update counts itself exactly where it was first. */
  lemma OwnVotes(s: Slot, w: Word, r: nat, backs: seq<Word>)
    requires BacksOk(s, w, r, backs)
    ensures r < |s.hist| == |s.rounds| && Complete(s, r)
    ensures var votes := Votes(backs, s.hist[r], w);
            forall i :: 0 <= i < |votes| ==> (votes[i] == w <==> First(s, r)[i] == w)
  {
    BacksComplete(s, w, r, backs);
    forall i | 0 <= i < |backs|
      ensures Vote(backs[i], s.hist[r], w) == w <==> First(s, r)[i] == w
    {
      assert BackOk(s, w, r, i, backs[i]);
    }
  }

  /** Only the elected update can count a majority for itself, whatever its stale answers. */
  lemma MajorityElected(s: Slot, w: Word, r: nat, backs: seq<Word>)
    requires BacksOk(s, w, r, backs) && r < |s.hist|
    requires Majority(Votes(backs, s.hist[r], w), w)
    ensures Elected(s, r, w)
  {
    OwnVotes(s, w, r, backs);
    var votes, first := Votes(backs, s.hist[r], w), First(s, r);
    CountMonotone(votes, first, w);
    MajorityVotes(first, w);
  }

  /** The elected update of the open round sees the first-written words themselves. */
  lemma ElectedSeesFirst(s: Slot, w: Word, r: nat, backs: seq<Word>)
    requires BacksOk(s, w, r, backs) && r == Cur(s) && Elected(s, r, w)
    ensures Votes(backs, s.hist[r], w) == First(s, r)
  {
    var votes, first := Votes(backs, s.hist[r], w), First(s, r);
    forall i | 0 <= i < |backs| ensures votes[i] == first[i] {
      assert BackOk(s, w, r, i, backs[i]);
      if Elected(s, r, backs[i]) { SoleWinner(s, r, backs[i], w); }
    }
  }

  /** A vote of the open round is the first-written word, or already the winner's. */
  lemma OpenVotes(s: Slot, w: Word, r: nat, backs: seq<Word>, x: Word)
    requires BacksOk(s, w, r, backs) && r == Cur(s) && Elected(s, r, x)
    ensures forall i :: 0 <= i < |backs| ==>
              var v := Votes(backs, s.hist[r], w)[i]; v == First(s, r)[i] || v == x
  {
    OwnVotes(s, w, r, backs);
    forall i | 0 <= i < |backs|
      ensures var v := Votes(backs, s.hist[r], w)[i]; v == First(s, r)[i] || v == x
    {
      assert BackOk(s, w, r, i, backs[i]);
      if Elected(s, r, backs[i]) { SoleWinner(s, r, backs[i], x); }
    }
  }

  /** An undecided update that finds itself smallest while the round is open is the elected one. */
  lemma LittleElected(s: Slot, w: Word, r: nat, backs: seq<Word>)
    requires BacksOk(s, w, r, backs) && r == Cur(s) && r < |s.hist|
    requires Classify(Votes(backs, s.hist[r], w), w) == Undecided
    requires Least(Votes(backs, s.hist[r], w), w)
    ensures Elected(s, r, w)
  {
    OwnVotes(s, w, r, backs);
    var votes, first := Votes(backs, s.hist[r], w), First(s, r);
    var x := ElectsExists(first);
    OpenVotes(s, w, r, backs, x);
    assert forall i :: 0 <= i < |first| && first[i] == x ==> votes[i] == x;
    CountMonotone(first, votes, x);
    var j :| 0 <= j < |first| && first[j] == x;
    assert votes[j] in votes;
    var k :| 0 <= k < |votes| && votes[k] == w;
    assert first[k] in first;
    assert x == w;
  }

  /** A winner by any of the three ways is the elected update of its round. */
  lemma WinnerElected(s: Slot, w: Word, r: nat, backs: seq<Word>, d: Decision)
    requires BacksOk(s, w, r, backs) && r < |s.hist|
    requires var votes := Votes(backs, s.hist[r], w);
             || (d == Classify(votes, w) && d in {WinAll, WinMajor})
             || (r == Cur(s) && Classify(votes, w) == Undecided && Least(votes, w))
    ensures Elected(s, r, w)
  {
    var votes := Votes(backs, s.hist[r], w);
    if d == Classify(votes, w) && d in {WinAll, WinMajor} {
      ClassifyMeetsRule(votes, w);
      MajorityElected(s, w, r, backs);
    } else {
      LittleElected(s, w, r, backs);
    }
  }

  /** An update told to give up while the round is open is not the elected one. */
  lemma LoserBeaten(s: Slot, w: Word, r: nat, backs: seq<Word>)
    requires HistOk(s) && BacksOk(s, w, r, backs) && r <= Cur(s) && w !in s.hist
    requires var votes := Votes(backs, s.hist[r], w);
             || Classify(votes, w) == Fail
             || (Classify(votes, w) == Undecided && (r < Cur(s) || !Least(votes, w)))
    ensures Beaten(s, w, r)
  {
    BacksComplete(s, w, r, backs);
    if Elected(s, r, w) {
      if r < Cur(s) {
        ClosedRound(s, r, w);
      } else {
        ElectedSeesFirst(s, w, r, backs);
        ClassifyMeetsRule(First(s, r), w);
      }
      assert false;
    }
  }
}
