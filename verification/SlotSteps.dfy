/** Every step of the slot protocol preserves its invariant. */
module SlotSteps {
  import opened Common
  import opened Consensus
  import opened SlotProtocol
  import opened SlotInvariant
  import opened SlotVotes

  /** `t` differs from `s` only in the updates and in records that only grow. */
  ghost predicate SameSlot(s: Slot, t: Slot) {
    && t.primary == s.primary && t.backups == s.backups
    && t.hist == s.hist && t.rounds == s.rounds
    && s.invalid <= t.invalid
    && (forall w :: w in s.log ==> w in t.log && t.log[w] == s.log[w])
  }

  lemma SameFirst(s: Slot, t: Slot, r: nat)
    requires SameSlot(s, t) && r < |s.rounds|
    ensures Complete(s, r) == Complete(t, r)
    ensures Complete(s, r) ==> First(s, r) == First(t, r)
  {
  }

  /** The promise made to an update does not depend on the other updates. */
  lemma OpFrame(s: Slot, t: Slot, w: Word, ph: Phase)
    requires SameSlot(s, t) && |s.hist| == |s.rounds| && OpOk(s, w, ph)
    ensures OpOk(t, w, ph)
  {
    forall r | 0 <= r < |s.rounds|
      ensures Complete(s, r) == Complete(t, r)
      ensures Complete(s, r) ==> First(s, r) == First(t, r)
    {
      SameFirst(s, t, r);
    }
  }

  /** What moving update `w` to phase `ph` must respect. */
  ghost predicate Moves(s: Slot, t: Slot, w: Word, ph: Phase) {
    && SameSlot(s, t) && t.ops == s.ops[w := ph] && |s.hist| > 0
    && (w !in s.ops ==> w != s.hist[0] && ph.Invoked?)
    && (w in s.ops && !s.ops[w].Invoked? ==> InRound(ph, s.ops[w].round))
    && (w in s.ops ==>
          forall r :: 0 <= r < |s.hist| && Installed(s, s.ops[w], r) ==> Installed(t, ph, r))
    && (forall i :: RepairedBy(s, i, w) ==> RepairedBy(t, i, w))
    && t.log.Keys <= s.log.Keys + {w}
    && (w in t.log ==> |s.backups| > 0 && MayLog(ph) && ph.round < |s.hist| && t.log[w] == s.hist[ph.round])
  }

  lemma MoveHist(s: Slot, t: Slot, w: Word, ph: Phase)
    requires HistOk(s) && Moves(s, t, w, ph)
    ensures HistOk(t)
  {
    forall k | 1 <= k < |t.hist|
      ensures t.hist[k] in t.ops && Installed(t, t.ops[t.hist[k]], k - 1)
      ensures |t.backups| > 0 ==> Elected(t, k - 1, t.hist[k])
    {
      assert Installed(s, s.ops[s.hist[k]], k - 1);
      SameFirst(s, t, k - 1);
    }
  }

  lemma MoveBackups(s: Slot, t: Slot, w: Word, ph: Phase)
    requires |s.rounds| > 0 && BackupsOk(s) && Moves(s, t, w, ph)
    ensures BackupsOk(t)
  {
    forall i | 0 <= i < |t.backups| && RepairedBy(s, i, s.backups[i])
      ensures RepairedBy(t, i, t.backups[i])
    {
      if s.backups[i] != w { assert t.ops[s.backups[i]] == s.ops[s.backups[i]]; }
    }
  }

  lemma MoveRecords(s: Slot, t: Slot, w: Word, ph: Phase)
    requires FirstOk(s) && LogOk(s) && Moves(s, t, w, ph)
    ensures FirstOk(t) && LogOk(t)
  {
  }

  /** A step that moves one update from phase to phase and touches no replica. */
  lemma PhaseStep(s: Slot, t: Slot, w: Word, ph: Phase)
    requires Inv(s) && Moves(s, t, w, ph) && OpOk(t, w, ph)
    ensures Inv(t)
  {
    MoveHist(s, t, w, ph);
    MoveRecords(s, t, w, ph);
    MoveBackups(s, t, w, ph);
    MoveOps(s, t, w, ph);
  }

  lemma MoveOps(s: Slot, t: Slot, w: Word, ph: Phase)
    requires |s.hist| == |s.rounds| && OpsOk(s) && SameSlot(s, t) && t.ops == s.ops[w := ph] && OpOk(t, w, ph)
    ensures OpsOk(t)
  {
    forall v | v in t.ops ensures OpOk(t, v, t.ops[v]) {
      if v != w { OpFrame(s, t, v, s.ops[v]); }
    }
  }

  /** An update that has not swapped the primary is in no history. */
  lemma Uninstalled(s: Slot, w: Word)
    requires HistOk(s) && w in s.ops
    requires !s.ops[w].Returned? && (s.ops[w].Finishing? ==> s.ops[w].swapped.None?)
    ensures w !in s.hist
  {
    NotInHist(s, w);
  }

  predicate Contending(ph: Phase) {
    ph.Invoked? || ph.Swapping? || ph.Peeking? || ph.Waiting?
  }

  lemma QuietMoves(s: Slot, t: Slot, w: Word, ph: Phase)
    requires LogOk(s) && |s.hist| > 0 && w in s.ops && Contending(s.ops[w])
    requires !s.ops[w].Invoked? ==> InRound(ph, s.ops[w].round)
    requires t == s.(ops := s.ops[w := ph])
    ensures Moves(s, t, w, ph)
  {
    assert w !in s.log;
  }

  /** An update that has not yet won moves to another phase with nothing else changed. */
  lemma QuietStep(s: Slot, w: Word, ph: Phase)
    requires Inv(s) && w in s.ops && OpOk(s, w, ph) && Contending(s.ops[w])
    requires !s.ops[w].Invoked? ==> InRound(ph, s.ops[w].round)
    ensures Inv(s.(ops := s.ops[w := ph]))
  {
    var t := s.(ops := s.ops[w := ph]);
    QuietMoves(s, t, w, ph);
    OpFrame(s, t, w, ph);
    PhaseStep(s, t, w, ph);
  }

  lemma StartStep(s: Slot, w: Word, round: nat)
    requires Inv(s) && w in s.ops && s.ops[w].Invoked? && round < |s.hist|
    ensures Inv(s.(ops := s.ops[w := Start(s, round)]))
  {
    assert FirstOk(s);
    assert forall i :: i in s.rounds[round] ==> s.rounds[round][i] != w;
    QuietStep(s, w, Start(s, round));
  }

  lemma AllAnswered(s: Slot, w: Word, r: nat, got: map<nat, Word>)
    requires OpOk(s, w, Swapping(r, got)) && AllBack(s, got)
    ensures r <= Cur(s) && BacksOk(s, w, r, Listed(got, |s.backups|))
  {
  }

  lemma DecideStep(s: Slot, w: Word)
    requires Inv(s) && Enabled(s, Decide(w))
    ensures Inv(Apply(s, Decide(w)))
  {
    var r, got := s.ops[w].round, s.ops[w].got;
    assert OpOk(s, w, Swapping(r, got));
    AllAnswered(s, w, r, got);
    DecidedStep(s, w, r, Listed(got, |s.backups|), Classify(Votes(Listed(got, |s.backups|), s.hist[r], w), w));
  }

  lemma DecidedStep(s: Slot, w: Word, r: nat, backs: seq<Word>, d: Decision)
    requires Inv(s) && w in s.ops && (s.ops[w].Swapping? || s.ops[w].Peeking?) && s.ops[w].round == r
    requires r <= Cur(s) && BacksOk(s, w, r, backs) && Concludes(s, w, r, backs, d)
    ensures Inv(s.(ops := s.ops[w := Decided(r, backs, d)]))
  {
    RepairElected(s);
    DecidedOk(s, w, r, backs, d);
    QuietStep(s, w, Decided(r, backs, d));
  }

  lemma PeekStep(s: Slot, w: Word)
    requires Inv(s) && Enabled(s, Peek(w))
    ensures Inv(Apply(s, Peek(w)))
  {
    var Peeking(r, backs) := s.ops[w];
    assert OpOk(s, w, s.ops[w]);
    DecidedStep(s, w, r, backs, Resolve(Votes(backs, s.hist[r], w), w, s.hist[r], s.primary));
  }

  /** `d` is what the classification, or the look at the primary that follows it, concludes. */
  ghost predicate Concludes(s: Slot, w: Word, r: nat, backs: seq<Word>, d: Decision)
    requires r < |s.hist|
  {
    var votes := Votes(backs, s.hist[r], w);
    || d == Classify(votes, w)
    || (Classify(votes, w) == Undecided && d == Resolve(votes, w, s.hist[r], s.primary))
  }

  /** Every outcome of the classification leaves an update in an honest phase. */
  lemma DecidedOk(s: Slot, w: Word, r: nat, backs: seq<Word>, d: Decision)
    requires HistOk(s) && BackupsOk(s) && RepairsElected(s)
    requires w in s.ops && (s.ops[w].Swapping? || s.ops[w].Peeking?)
    requires r <= Cur(s) && BacksOk(s, w, r, backs) && Concludes(s, w, r, backs, d)
    ensures OpOk(s, w, Decided(r, backs, d))
  {
    Uninstalled(s, w);
    if d in {WinAll, WinMajor, WinLittle} {
      DecidedWinner(s, w, r, backs, d);
      NoRepairYet(s, w);
      WinnerPhase(s, w, r, backs);
    } else {
      DecidedLoser(s, w, r, backs, d);
    }
  }

  lemma DecidedWinner(s: Slot, w: Word, r: nat, backs: seq<Word>, d: Decision)
    requires HistOk(s) && w !in s.hist && d in {WinAll, WinMajor, WinLittle}
    requires r <= Cur(s) && BacksOk(s, w, r, backs) && Concludes(s, w, r, backs, d)
    ensures r == Cur(s) && Elected(s, r, w)
  {
    ClassifyMeetsRule(Votes(backs, s.hist[r], w), w);
    WinnerElected(s, w, r, backs, d);
    WinnerOpen(s, w, r);
  }

  lemma DecidedLoser(s: Slot, w: Word, r: nat, backs: seq<Word>, d: Decision)
    requires HistOk(s) && w !in s.hist && d !in {WinAll, WinMajor, WinLittle}
    requires r <= Cur(s) && BacksOk(s, w, r, backs) && Concludes(s, w, r, backs, d)
    ensures OpOk(s, w, Decided(r, backs, d))
  {
    ClassifyMeetsRule(Votes(backs, s.hist[r], w), w);
    if d != Undecided { LoserBeaten(s, w, r, backs); }
  }

  lemma WinnerOpen(s: Slot, w: Word, r: nat)
    requires HistOk(s) && r <= Cur(s) && w !in s.hist && Elected(s, r, w) && |s.backups| > 0
    ensures r == Cur(s)
  {
    if r < Cur(s) { ClosedRound(s, r, w); }
  }

  /** Only the elected update repairs. */
  ghost predicate RepairsElected(s: Slot) {
    |s.hist| > 0 && forall i :: 0 <= i < |s.backups| && RepairedBy(s, i, s.backups[i]) ==>
      Elected(s, |s.hist| - 1, s.backups[i])
  }

  lemma RepairElected(s: Slot)
    requires |s.hist| > 0 && OpsOk(s)
    ensures RepairsElected(s)
  {
    forall i | 0 <= i < |s.backups| && RepairedBy(s, i, s.backups[i])
      ensures Elected(s, |s.hist| - 1, s.backups[i])
    {
      assert OpOk(s, s.backups[i], s.ops[s.backups[i]]);
    }
  }

  /** While the elected update has not started repairing, every backup keeps its first-written word. */
  lemma NoRepairYet(s: Slot, w: Word)
    requires |s.hist| == |s.rounds| > 0 && BackupsOk(s) && RepairsElected(s)
    requires w in s.ops && (s.ops[w].Swapping? || s.ops[w].Peeking?) && Elected(s, |s.hist| - 1, w)
    ensures s.backups == First(s, |s.hist| - 1)
  {
    forall i | 0 <= i < |s.backups| ensures s.backups[i] == s.rounds[Cur(s)][i] {
      if RepairedBy(s, i, s.backups[i]) { SoleWinner(s, Cur(s), s.backups[i], w); }
    }
  }

  lemma WinnerPhase(s: Slot, w: Word, r: nat, backs: seq<Word>)
    requires |s.hist| == |s.rounds| && BacksOk(s, w, r, backs) && Elected(s, r, w)
    requires r == Cur(s) && s.backups == First(s, r)
    ensures RewritingOk(s, w, r, backs, map[])
  {
    ElectedSeesFirst(s, w, r, backs);
    forall i | 0 <= i < |backs| ensures backs[i] != s.hist[r] ==> backs[i] == s.rounds[r][i] {
      assert Votes(backs, s.hist[r], w)[i] == First(s, r)[i];
    }
  }

  /** The answer of a backup that held another word. */
  lemma MissedBack(s: Slot, w: Word, i: nat)
    requires Enabled(s, SwapBackup(w, i)) && s.backups[i] != s.hist[s.ops[w].round]
    requires HistOk(s) && FirstOk(s) && BackupsOk(s) && OpOk(s, w, s.ops[w]) && w !in s.hist
    requires RepairsElected(s)
    ensures BackOk(s, w, s.ops[w].round, i, s.backups[i])
  {
    var r := s.ops[w].round;
    if r < Cur(s) { assert Elected(s, r + 1 - 1, s.hist[r + 1]); }
    assert i in s.rounds[r];
    assert s.primary in s.hist;
  }

  /** A backup swap that finds another word changes no replica and records an honest answer. */
  lemma SwapMissStep(s: Slot, w: Word, i: nat)
    requires Inv(s) && Enabled(s, SwapBackup(w, i)) && s.backups[i] != s.hist[s.ops[w].round]
    ensures Inv(Apply(s, SwapBackup(w, i)))
  {
    var Swapping(r, got) := s.ops[w];
    assert OpOk(s, w, s.ops[w]);
    Uninstalled(s, w);
    RepairElected(s);
    MissedBack(s, w, i);
    QuietStep(s, w, Swapping(r, got[i := s.backups[i]]));
  }

  /** One more first-written word changes nothing that other updates rely on. */
  lemma FirstSwapFrame(s: Slot, t: Slot, w: Word, i: nat, v: Word, ph: Phase)
    requires |s.hist| == |s.rounds| > 0 && Enabled(s, SwapBackup(w, i)) && t == Apply(s, SwapBackup(w, i))
    requires s.ops[w].round == Cur(s) && s.backups[i] == s.primary == s.hist[Cur(s)] && i !in s.rounds[Cur(s)]
    requires v != w && OpOk(s, v, ph)
    ensures OpOk(t, v, ph)
  {
    var c := Cur(s);
    assert !Complete(s, c);
    forall r | 0 <= r < |s.rounds| && Complete(s, r)
      ensures Complete(t, r) && First(t, r) == First(s, r)
    {
      assert t.rounds[r] == s.rounds[r];
    }
    match ph {
      case Swapping(r, got) =>
        forall j | j in got ensures BackOk(t, v, r, j, got[j]) {
          assert BackOk(s, v, r, j, got[j]);
        }
      case Peeking(r, backs) =>
        BacksComplete(s, v, r, backs);
        forall j | 0 <= j < |backs| ensures BackOk(t, v, r, j, backs[j]) {
          assert BackOk(s, v, r, j, backs[j]);
        }
      case _ =>
    }
  }

  lemma FirstSwapHist(s: Slot, t: Slot, w: Word, i: nat)
    requires HistOk(s) && Enabled(s, SwapBackup(w, i)) && t == Apply(s, SwapBackup(w, i))
    requires s.ops[w].round == Cur(s) && s.backups[i] == s.primary
    ensures HistOk(t)
  {
    Uninstalled(s, w);
    forall k | 1 <= k < |t.hist|
      ensures t.hist[k] in t.ops && Installed(t, t.ops[t.hist[k]], k - 1)
      ensures Elected(t, k - 1, t.hist[k])
    {
      assert Installed(s, s.ops[s.hist[k]], k - 1) && Elected(s, k - 1, s.hist[k]);
      assert First(t, k - 1) == First(s, k - 1);
    }
  }

  lemma FirstSwapBackups(s: Slot, t: Slot, w: Word, i: nat)
    requires Inv(s) && Enabled(s, SwapBackup(w, i)) && t == Apply(s, SwapBackup(w, i))
    requires s.ops[w].round == Cur(s) && s.backups[i] == s.primary && i !in s.rounds[Cur(s)]
    ensures BackupsOk(t)
  {
    assert !Complete(s, Cur(s));
    forall j | 0 <= j < |s.backups| ensures !RepairedBy(s, j, s.backups[j]) {
      if s.backups[j] in s.ops { assert OpOk(s, s.backups[j], s.ops[s.backups[j]]); }
    }
  }

  /** A backup swap that succeeds happens in the open round and is the first there. */
  lemma SwapHitStep(s: Slot, w: Word, i: nat)
    requires Inv(s) && Enabled(s, SwapBackup(w, i)) && s.backups[i] == s.hist[s.ops[w].round]
    ensures Inv(Apply(s, SwapBackup(w, i)))
  {
    var t := Apply(s, SwapBackup(w, i));
    PastWordGone(s, s.ops[w].round, i);
    FirstSwapHist(s, t, w, i);
    FirstSwapBackups(s, t, w, i);
    FirstSwapOps(s, t, w, i);
  }

  lemma FirstSwapOps(s: Slot, t: Slot, w: Word, i: nat)
    requires HistOk(s) && OpsOk(s) && Enabled(s, SwapBackup(w, i)) && t == Apply(s, SwapBackup(w, i))
    requires s.ops[w].round == Cur(s) && s.backups[i] == s.primary && i !in s.rounds[Cur(s)]
    ensures OpsOk(t)
  {
    forall v | v in t.ops ensures OpOk(t, v, t.ops[v]) {
      assert OpOk(s, v, s.ops[v]);
      if v != w {
        FirstSwapFrame(s, t, w, i, v, s.ops[v]);
      } else {
        OwnSwap(s, t, w, i);
      }
    }
  }

  lemma OwnSwap(s: Slot, t: Slot, w: Word, i: nat)
    requires HistOk(s) && Enabled(s, SwapBackup(w, i)) && t == Apply(s, SwapBackup(w, i))
    requires OpOk(s, w, s.ops[w])
    requires s.ops[w].round == Cur(s) && s.backups[i] == s.primary && i !in s.rounds[Cur(s)]
    ensures OpOk(t, w, t.ops[w])
  {
    var Swapping(r, got) := s.ops[w];
    Uninstalled(s, w);
    assert s.primary in s.hist;
    assert !Complete(s, r);
    forall j | j in t.ops[w].got ensures j < |t.backups| && BackOk(t, w, r, j, t.ops[w].got[j]) {
      if j != i {
        assert BackOk(s, w, r, j, got[j]);
      }
    }
  }

  /** A backup swap, hit or miss. */
  lemma SwapBackupStep(s: Slot, w: Word, i: nat)
    requires Inv(s) && Enabled(s, SwapBackup(w, i))
    ensures Inv(Apply(s, SwapBackup(w, i)))
  {
    if s.backups[i] == s.hist[s.ops[w].round] {
      SwapHitStep(s, w, i);
    } else {
      SwapMissStep(s, w, i);
    }
  }

  /** The winner's repair of a backup always finds the word it expects there. */
  lemma RewriteStep(s: Slot, w: Word, i: nat)
    requires Inv(s) && Enabled(s, Rewrite(w, i))
    ensures Inv(Apply(s, Rewrite(w, i)))
    ensures s.backups[i] == s.ops[w].backs[i]
  {
    var t := Apply(s, Rewrite(w, i));
    assert OpOk(s, w, s.ops[w]);
    RewriteHist(s, t, w, i);
    assert BackOk(s, w, s.ops[w].round, i, s.ops[w].backs[i]);
    RewriteRecords(s, t, w, i);
    RewriteBackups(s, t, w, i);
    RewriteOps(s, t, w, i);
  }

  lemma RewriteOps(s: Slot, t: Slot, w: Word, i: nat)
    requires Enabled(s, Rewrite(w, i)) && t == Apply(s, Rewrite(w, i))
    requires |s.hist| == |s.rounds| && OpsOk(s)
    ensures OpsOk(t)
  {
    forall v | v in t.ops ensures OpOk(t, v, t.ops[v]) {
      assert OpOk(s, w, s.ops[w]);
      if v != w {
        RewriteFrame(s, t, w, i, v, s.ops[v]);
      } else {
        RewriteOwn(s, t, w, i);
      }
    }
  }

  lemma RewriteRecords(s: Slot, t: Slot, w: Word, i: nat)
    requires Enabled(s, Rewrite(w, i)) && t == Apply(s, Rewrite(w, i))
    requires FirstOk(s) && LogOk(s)
    ensures FirstOk(t) && LogOk(t)
  {
  }

  lemma RewriteBackups(s: Slot, t: Slot, w: Word, i: nat)
    requires Enabled(s, Rewrite(w, i)) && t == Apply(s, Rewrite(w, i))
    requires |s.hist| == |s.rounds| && BackupsOk(s) && s.ops[w].round == Cur(s)
    requires s.backups[i] == s.ops[w].backs[i] && i in s.rounds[Cur(s)]
    ensures BackupsOk(t)
  {
    assert RepairedBy(t, i, w);
    forall j | 0 <= j < |s.backups| && RepairedBy(s, j, s.backups[j]) && j != i
      ensures RepairedBy(t, j, t.backups[j])
    {
    }
  }

  lemma RewriteHist(s: Slot, t: Slot, w: Word, i: nat)
    requires HistOk(s) && Enabled(s, Rewrite(w, i)) && t == Apply(s, Rewrite(w, i))
    ensures HistOk(t)
  {
    Uninstalled(s, w);
    forall k | 1 <= k < |t.hist|
      ensures t.hist[k] in t.ops && Installed(t, t.ops[t.hist[k]], k - 1)
      ensures Elected(t, k - 1, t.hist[k])
    {
      assert Installed(s, s.ops[s.hist[k]], k - 1) && Elected(s, k - 1, s.hist[k]);
      assert First(t, k - 1) == First(s, k - 1);
    }
  }

  lemma RewriteFrame(s: Slot, t: Slot, w: Word, i: nat, v: Word, ph: Phase)
    requires |s.hist| == |s.rounds|
    requires Enabled(s, Rewrite(w, i)) && t == Apply(s, Rewrite(w, i))
    requires v != w && OpOk(s, v, ph) && OpOk(s, w, s.ops[w])
    ensures OpOk(t, v, ph)
  {
    forall r | 0 <= r < |s.rounds|
      ensures Complete(s, r) == Complete(t, r)
      ensures Complete(s, r) ==> First(s, r) == First(t, r)
    {
    }
    if ph.Rewriting? || (ph.Finishing? && ph.swapped.None?) {
      SoleWinner(s, Cur(s), v, w);
      assert false;
    }
  }

  lemma RewriteOwn(s: Slot, t: Slot, w: Word, i: nat)
    requires |s.hist| == |s.rounds|
    requires Enabled(s, Rewrite(w, i)) && t == Apply(s, Rewrite(w, i))
    requires OpOk(s, w, s.ops[w])
    ensures OpOk(t, w, t.ops[w])
  {
    var Rewriting(r, backs, again) := s.ops[w];
    assert First(s, r) == First(t, r);
    forall j | 0 <= j < |backs| ensures BackOk(t, w, r, j, backs[j]) {
      assert BackOk(s, w, r, j, backs[j]);
      if Elected(s, r, backs[j]) { assert Elected(t, r, backs[j]); }
    }
  }
}
