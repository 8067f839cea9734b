/** The last steps of an update, and the invariant over whole runs. */
module SlotFinish {
  import opened Common
  import opened Consensus
  import opened SlotProtocol
  import opened SlotInvariant
  import opened SlotVotes
  import opened SlotSteps

  /** Once the repairs are done every backup holds the winner's word. */
  lemma CommitStep(s: Slot, w: Word)
    requires Inv(s) && Enabled(s, Commit(w))
    ensures Inv(Apply(s, Commit(w)))
    ensures forall i :: 0 <= i < |s.backups| ==> s.backups[i] == w
  {
    var Rewriting(r, backs, again) := s.ops[w];
    var t := Apply(s, Commit(w));
    assert OpOk(s, w, s.ops[w]);
    Uninstalled(s, w);
    forall i | 0 <= i < |s.backups| ensures s.backups[i] == w {
      assert BackOk(s, w, r, i, backs[i]);
    }
    CommitMoves(s, t, w);
    PhaseStep(s, t, w, t.ops[w]);
  }

  lemma CommitMoves(s: Slot, t: Slot, w: Word)
    requires HistOk(s) && OpsOk(s) && LogOk(s) && Enabled(s, Commit(w)) && t == Apply(s, Commit(w))
    requires forall i :: 0 <= i < |s.backups| ==> s.backups[i] == w
    ensures Moves(s, t, w, t.ops[w]) && OpOk(t, w, t.ops[w])
  {
    assert OpOk(s, w, s.ops[w]);
    assert w !in s.log;
    assert First(s, s.ops[w].round) == First(t, s.ops[w].round);
  }

  /** Closing a round leaves every other update's promise intact. */
  lemma CloseFrame(s: Slot, t: Slot, w: Word, v: Word, ph: Phase)
    requires HistOk(s) && Enabled(s, SwapPrimary(w)) && t == Apply(s, SwapPrimary(w))
    requires s.primary == s.hist[s.ops[w].round] && w !in s.hist && OpOk(s, w, s.ops[w])
    requires v != w && OpOk(s, v, ph)
    ensures OpOk(t, v, ph)
  {
    var c := Cur(s);
    forall r | 0 <= r <= c
      ensures t.hist[r] == s.hist[r] && t.rounds[r] == s.rounds[r]
      ensures Complete(s, r) == Complete(t, r)
      ensures Complete(s, r) ==> First(s, r) == First(t, r)
    {
    }
    match ph {
      case Swapping(r, got) =>
        forall i | i in got ensures BackOk(t, v, r, i, got[i]) {
          assert BackOk(s, v, r, i, got[i]);
        }
      case Peeking(r, backs) =>
        forall i | 0 <= i < |backs| ensures BackOk(t, v, r, i, backs[i]) {
          assert BackOk(s, v, r, i, backs[i]);
        }
      case Rewriting(r, backs, again) =>
        SoleWinner(s, c, v, w);
        assert false;
      case Finishing(r, swapped, _) =>
        if |s.backups| > 0 && swapped.None? {
          SoleWinner(s, c, v, w);
          assert false;
        }
      case _ =>
    }
  }

  lemma CloseHist(s: Slot, t: Slot, w: Word)
    requires HistOk(s) && Enabled(s, SwapPrimary(w)) && t == Apply(s, SwapPrimary(w))
    requires s.primary == s.hist[s.ops[w].round] && w !in s.hist && OpOk(s, w, s.ops[w])
    ensures HistOk(t)
  {
    var c := Cur(s);
    assert s.ops[w].round == c;
    forall k | 1 <= k < |t.hist|
      ensures t.hist[k] in t.ops && Installed(t, t.ops[t.hist[k]], k - 1)
      ensures |t.backups| > 0 ==> Elected(t, k - 1, t.hist[k])
    {
      assert t.rounds[k - 1] == s.rounds[k - 1];
      if k <= c {
        assert Installed(s, s.ops[s.hist[k]], k - 1);
        if |s.backups| > 0 {
          assert Elected(s, k - 1, s.hist[k]);
          assert First(t, k - 1) == First(s, k - 1);
        }
      } else if |s.backups| > 0 {
        assert First(t, c) == First(s, c);
      }
    }
  }

  lemma CloseRest(s: Slot, t: Slot, w: Word)
    requires HistOk(s) && FirstOk(s) && LogOk(s)
    requires Enabled(s, SwapPrimary(w)) && t == Apply(s, SwapPrimary(w))
    requires s.primary == s.hist[s.ops[w].round] && OpOk(s, w, s.ops[w])
    ensures FirstOk(t) && BackupsOk(t) && LogOk(t)
  {
  }

  lemma CloseOwn(s: Slot, t: Slot, w: Word)
    requires HistOk(s) && Enabled(s, SwapPrimary(w)) && t == Apply(s, SwapPrimary(w))
    requires s.primary == s.hist[s.ops[w].round] && OpOk(s, w, s.ops[w])
    ensures OpOk(t, w, t.ops[w])
  {
    assert s.ops[w].round == Cur(s);
  }

  lemma CloseOps(s: Slot, t: Slot, w: Word)
    requires HistOk(s) && OpsOk(s) && Enabled(s, SwapPrimary(w)) && t == Apply(s, SwapPrimary(w))
    requires s.primary == s.hist[s.ops[w].round] && w !in s.hist
    ensures OpsOk(t)
  {
    forall v | v in t.ops ensures OpOk(t, v, t.ops[v]) {
      assert OpOk(s, v, s.ops[v]);
      if v != w {
        assert OpOk(s, w, s.ops[w]);
        CloseFrame(s, t, w, v, s.ops[v]);
      } else {
        CloseOwn(s, t, w);
      }
    }
  }

  /** The primary swap closes the round; with backups it cannot miss. */
  lemma SwapPrimaryStep(s: Slot, w: Word)
    requires Inv(s) && Enabled(s, SwapPrimary(w))
    ensures Inv(Apply(s, SwapPrimary(w)))
    ensures |s.backups| > 0 ==>
              && s.primary == s.hist[s.ops[w].round]
              && forall i :: 0 <= i < |s.backups| ==> s.backups[i] == w
  {
    var t := Apply(s, SwapPrimary(w));
    assert OpOk(s, w, s.ops[w]);
    Uninstalled(s, w);
    if s.primary == s.hist[s.ops[w].round] {
      CloseHist(s, t, w);
      CloseRest(s, t, w);
      CloseOps(s, t, w);
    } else {
      MissedPrimary(s, t, w);
      PhaseStep(s, t, w, t.ops[w]);
    }
  }

  lemma MissedPrimary(s: Slot, t: Slot, w: Word)
    requires HistOk(s) && OpsOk(s) && LogOk(s)
    requires Enabled(s, SwapPrimary(w)) && t == Apply(s, SwapPrimary(w))
    requires s.primary != s.hist[s.ops[w].round] && w !in s.hist
    ensures Moves(s, t, w, t.ops[w]) && OpOk(t, w, t.ops[w])
  {
    assert OpOk(s, w, s.ops[w]);
    assert |s.backups| == 0;
  }

  lemma InvalidateStep(s: Slot, w: Word)
    requires Inv(s) && Enabled(s, Invalidate(w))
    ensures Inv(Apply(s, Invalidate(w)))
  {
    var t := Apply(s, Invalidate(w));
    assert OpOk(s, w, s.ops[w]);
    InvalidateMoves(s, t, w);
    PhaseStep(s, t, w, t.ops[w]);
  }

  lemma InvalidateMoves(s: Slot, t: Slot, w: Word)
    requires HistOk(s) && LogOk(s) && Enabled(s, Invalidate(w)) && t == Apply(s, Invalidate(w))
    requires OpOk(s, w, s.ops[w])
    ensures Moves(s, t, w, t.ops[w]) && OpOk(t, w, t.ops[w])
  {
    if |s.backups| > 0 && s.ops[w].swapped.None? {
      assert First(t, s.ops[w].round) == First(s, s.ops[w].round);
    }
  }

  lemma ReturnStep(s: Slot, w: Word)
    requires Inv(s) && Enabled(s, Return(w))
    ensures Inv(Apply(s, Return(w)))
  {
    var t := Apply(s, Return(w));
    assert OpOk(s, w, s.ops[w]);
    ReturnMoves(s, t, w);
    PhaseStep(s, t, w, t.ops[w]);
  }

  lemma ReturnMoves(s: Slot, t: Slot, w: Word)
    requires HistOk(s) && LogOk(s) && Enabled(s, Return(w)) && t == Apply(s, Return(w))
    requires OpOk(s, w, s.ops[w])
    ensures Moves(s, t, w, t.ops[w]) && OpOk(t, w, t.ops[w])
  {
    var Finishing(r, swapped, _) := s.ops[w];
    if swapped.value != s.hist[r] {
      assert forall k :: 0 <= k < |s.hist| ==> !Installed(s, s.ops[w], k);
      NotInHist(s, w);
    }
  }

  lemma PollStep(s: Slot, w: Word)
    requires Inv(s) && Enabled(s, Poll(w))
    ensures Inv(Apply(s, Poll(w)))
  {
    if s.primary != s.hist[s.ops[w].round] {
      assert OpOk(s, w, s.ops[w]);
      Uninstalled(s, w);
      QuietStep(s, w, Returned(s.ops[w].round, false));
    }
  }

  lemma InvokeStep(s: Slot, w: Word)
    requires Inv(s) && Enabled(s, Invoke(w))
    ensures Inv(Apply(s, Invoke(w)))
  {
    var t := Apply(s, Invoke(w));
    assert w !in s.log;
    PhaseStep(s, t, w, Invoked);
  }

  lemma StepInv(s: Slot, step: Step)
    requires Inv(s) && Enabled(s, step)
    ensures Inv(Apply(s, step))
  {
    match step
    case Invoke(w) => InvokeStep(s, w);
    case ReadSlot(w) => StartStep(s, w, |s.hist| - 1);
    case UseCache(w, round) => StartStep(s, w, round);
    case SwapBackup(w, i) => SwapBackupStep(s, w, i);
    case Decide(w) => DecideStep(s, w);
    case Peek(w) => PeekStep(s, w);
    case Rewrite(w, i) => RewriteStep(s, w, i);
    case Commit(w) => CommitStep(s, w);
    case SwapPrimary(w) => SwapPrimaryStep(s, w);
    case Invalidate(w) => InvalidateStep(s, w);
    case Poll(w) => PollStep(s, w);
    case Return(w) => ReturnStep(s, w);
  }

  /** The invariant holds in every state of every run. */
  lemma {:induction false} RunInv(states: seq<Slot>, steps: seq<Step>, k: nat)
    requires Run(states, steps) && k < |states|
    ensures Inv(states[k])
  {
    if k == 0 {
      InitInv(states[0]);
    } else {
      RunInv(states, steps, k - 1);
      assert Linked(states, steps, k - 1);
      StepInv(states[k - 1], steps[k - 1]);
    }
  }

  lemma ReachableInv(s: Slot)
    requires Reachable(s)
    ensures Inv(s)
  {
    var states, steps :| Run(states, steps) && states[|steps|] == s;
    RunInv(states, steps, |steps|);
  }
}
