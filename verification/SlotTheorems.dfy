/** What the slot protocol promises, for every run, any number of clients and any number of backups. */
module SlotTheorems {
  import opened Common
  import opened Consensus
  import opened SlotProtocol
  import opened SlotInvariant
  import opened SlotSteps
  import opened SlotFinish

  /** An update that has been told it won round `r`, at whatever stage it now is. */
  predicate HasWon(s: Slot, w: Word, r: nat) {
    && w in s.ops && InRound(s.ops[w], r)
    && match s.ops[w]
       case Rewriting(_, _, _) => true
       case Finishing(_, swapped, _) => |s.backups| > 0 || (r < |s.hist| && swapped == Some(s.hist[r]))
       case Returned(_, won) => won
       case _ => false
  }

  /** An update that has been told it lost round `r`. */
  predicate HasLost(s: Slot, w: Word, r: nat) {
    w in s.ops && InRound(s.ops[w], r) && (s.ops[w].Waiting? || (s.ops[w].Returned? && !s.ops[w].won))
  }

  /** An update of round `r` that has classified its answers. */
  predicate HasDecided(s: Slot, w: Word, r: nat) {
    HasWon(s, w, r) || HasLost(s, w, r)
  }

  lemma WinnerIsElected(s: Slot, w: Word, r: nat)
    requires HistOk(s) && OpsOk(s) && HasWon(s, w, r)
    ensures |s.backups| > 0 ==> Elected(s, r, w)
    ensures |s.backups| == 0 ==> r + 1 < |s.hist| && w == s.hist[r + 1]
  {
    assert OpOk(s, w, s.ops[w]);
    PhaseElected(s, w, r);
  }

  lemma PhaseElected(s: Slot, w: Word, r: nat)
    requires HistOk(s) && HasWon(s, w, r) && OpOk(s, w, s.ops[w])
    ensures |s.backups| > 0 ==> Elected(s, r, w)
    ensures |s.backups| == 0 ==> r + 1 < |s.hist| && w == s.hist[r + 1]
  {
    if |s.backups| > 0 && r < Cur(s) { assert Elected(s, r + 1 - 1, s.hist[r + 1]); }
  }

  /** Nobody who has won is ever demoted. */
  lemma WinnerPersists(s: Slot, step: Step, w: Word, r: nat)
    requires OpsOk(s) && |s.hist| > 0 && Enabled(s, step) && HasWon(s, w, r)
    ensures HasWon(Apply(s, step), w, r)
  {
    assert OpOk(s, w, s.ops[w]);
    if Mover(step) == w {
      WinnerMoves(s, step, w, r);
    } else {
      StepLocal(s, step);
    }
  }

  lemma WinnerMoves(s: Slot, step: Step, w: Word, r: nat)
    requires |s.hist| > 0 && Enabled(s, step) && Mover(step) == w && HasWon(s, w, r) && OpOk(s, w, s.ops[w])
    ensures HasWon(Apply(s, step), w, r)
  {
  }

  lemma {:induction false} WinnerStays(states: seq<Slot>, steps: seq<Step>, j: nat, k: nat, w: Word, r: nat)
    requires Run(states, steps) && j <= k < |states| && HasWon(states[j], w, r)
    ensures HasWon(states[k], w, r)
    decreases k
  {
    if j < k {
      WinnerStays(states, steps, j, k - 1, w, r);
      RunInv(states, steps, k - 1);
      assert Linked(states, steps, k - 1);
      WinnerPersists(states[k - 1], steps[k - 1], w, r);
    }
  }

  /** At most one update per replaced word is ever told it won, at any two moments of any run. */
  lemma UniqueWinner(states: seq<Slot>, steps: seq<Step>, j: nat, k: nat, v: Word, w: Word, r: nat)
    requires Run(states, steps) && j <= k < |states|
    requires HasWon(states[j], v, r) && HasWon(states[k], w, r)
    ensures v == w
  {
    WinnerStays(states, steps, j, k, v, r);
    RunInv(states, steps, k);
    WinnerIsElected(states[k], v, r);
    WinnerIsElected(states[k], w, r);
    if |states[k].backups| > 0 { SoleWinner(states[k], r, v, w); }
  }

  /**
   Once every update of a round has decided, one of them has won, and its word is the one the
   rule picks from the words that were first on each backup.
  */
  lemma WinnerExists(s: Slot, r: nat, one: Word) returns (w: Word)
    requires Reachable(s) && |s.backups| > 0
    requires HasDecided(s, one, r)
    requires forall v :: v in s.ops && InRound(s.ops[v], r) ==> HasDecided(s, v, r)
    ensures HasWon(s, w, r) && Elected(s, r, w)
    ensures forall v :: v in s.ops && InRound(s.ops[v], r) && v != w ==> HasLost(s, v, r)
  {
    ReachableInv(s);
    assert OpOk(s, one, s.ops[one]);
    if HasWon(s, one, r) { WinnerIsElected(s, one, r); }
    w := ElectedContender(s, r);
    assert OpOk(s, w, s.ops[w]);
    forall v | v in s.ops && InRound(s.ops[v], r) && v != w ensures HasLost(s, v, r) {
      if HasWon(s, v, r) {
        WinnerIsElected(s, v, r);
        SoleWinner(s, r, v, w);
      }
    }
  }

  /** The elected word of a complete round belongs to one of its updates. */
  lemma ElectedContender(s: Slot, r: nat) returns (w: Word)
    requires FirstOk(s) && r < |s.rounds| && Complete(s, r) && |s.backups| > 0
    ensures Elected(s, r, w) && w in s.ops && InRound(s.ops[w], r)
  {
    w := ElectsExists(First(s, r));
    var i :| 0 <= i < |s.backups| && First(s, r)[i] == w;
    assert s.rounds[r][i] == w;
  }

  /** Every backup holds the primary's word or the new word of an update that read the primary's word. */
  lemma ReplicaAgreement(s: Slot, i: nat)
    requires Reachable(s) && i < |s.backups|
    ensures |s.hist| > 0 && s.primary == s.hist[|s.hist| - 1]
    ensures || s.backups[i] == s.primary
            || (s.backups[i] in s.ops && InRound(s.ops[s.backups[i]], |s.hist| - 1))
  {
    ReachableInv(s);
    BackupWord(s, i);
  }

  lemma BackupWord(s: Slot, i: nat)
    requires HistOk(s) && FirstOk(s) && BackupsOk(s) && i < |s.backups|
    ensures |s.hist| > 0 && s.primary == s.hist[|s.hist| - 1]
    ensures || s.backups[i] == s.primary
            || (s.backups[i] in s.ops && InRound(s.ops[s.backups[i]], |s.hist| - 1))
  {
  }

  /** When a primary swap takes effect every backup already holds the new word, and a winner's never misses. */
  lemma AgreementAtSwap(s: Slot, w: Word)
    requires Reachable(s) && Enabled(s, SwapPrimary(w)) && |s.backups| > 0
    ensures s.primary == s.hist[s.ops[w].round]
    ensures var t := Apply(s, SwapPrimary(w));
            t.primary == w && forall i :: 0 <= i < |t.backups| ==> t.backups[i] == t.primary
  {
    ReachableInv(s);
    SwapPrimaryStep(s, w);
  }

  /** When nobody is working on the current word all copies are equal. */
  lemma IdleAgreement(s: Slot)
    requires Reachable(s)
    requires forall w :: w in s.ops && !s.ops[w].Returned? ==> s.ops[w].Invoked? || s.ops[w].round < |s.hist| - 1
    ensures forall i :: 0 <= i < |s.backups| ==> s.backups[i] == s.primary
  {
    ReachableInv(s);
    forall w | w in s.ops ensures !InRound(s.ops[w], Cur(s)) {
      assert OpOk(s, w, s.ops[w]);
    }
  }

  /**
   A winner is never disturbed: every word its second-round swaps returned is the word they expected,
   so the consistency check passes, and its primary swap returned the word it replaced.
  */
  lemma WinnerUndisturbed(s: Slot, w: Word)
    requires Reachable(s) && |s.backups| > 0 && w in s.ops
    ensures s.ops[w].Rewriting? ==>
              forall i :: i in s.ops[w].again ==>
                && i < |s.ops[w].backs| == |s.backups|
                && s.ops[w].again[i] == s.ops[w].backs[i] && s.backups[i] == w
    ensures s.ops[w].Finishing? && s.ops[w].swapped.Some? ==>
              s.ops[w].round < |s.hist| && s.ops[w].swapped.value == s.hist[s.ops[w].round]
  {
    ReachableInv(s);
    assert OpOk(s, w, s.ops[w]);
  }

  // Progress.  Polling an unchanged primary is the only step that changes nothing.

  /** How many more steps of its own an update can take. */
  function Rank(n: nat, ph: Phase): nat {
    match ph
    case Invoked => 2 * n + 9
    case Swapping(_, got) => 2 * n + 8 - Min(n, |got|)
    case Peeking(_, _) => n + 6
    case Rewriting(_, _, again) => n + 5 - Min(n, |again|)
    case Finishing(_, swapped, invalidated) =>
      1 + (if swapped.None? then 2 else 0) + if invalidated then 0 else 1
    case Waiting(_) => 1
    case Returned(_, _) => 0
  }

  function Min(a: nat, b: nat): nat {
    if a < b then a else b
  }

  function Mover(step: Step): Word {
    step.w
  }

  /** A step of an update already invoked, other than polling an unchanged primary. */
  predicate Counting(s: Slot, step: Step)
    requires Enabled(s, step)
  {
    !step.Invoke? && (step.Poll? ==> s.primary != s.hist[s.ops[step.w].round])
  }

  lemma {:induction false} SetBelow(ks: set<nat>, n: nat)
    requires forall i :: i in ks ==> i < n
    ensures |ks| <= n
  {
    if n > 0 { SetBelow(ks - {n - 1}, n - 1); }
  }

  /** One more answer for an index below `n` that had none. */
  lemma OneMore(m: map<nat, Word>, i: nat, v: Word, n: nat)
    requires i < n && i !in m && forall j :: j in m ==> j < n
    ensures |m[i := v]| == |m| + 1 <= n
  {
    assert m[i := v].Keys == m.Keys + {i};
    SetBelow(m.Keys + {i}, n);
  }

  /** Every step but an idle poll uses up one of its update's remaining steps and nobody else's. */
  lemma StepUsesRank(s: Slot, step: Step)
    requires OpsOk(s) && Enabled(s, step) && Counting(s, step)
    ensures var t := Apply(s, step);
            && t.ops.Keys == s.ops.Keys && |t.backups| == |s.backups|
            && Rank(|s.backups|, t.ops[Mover(step)]) < Rank(|s.backups|, s.ops[Mover(step)])
            && forall v :: v in s.ops && v != Mover(step) ==> t.ops[v] == s.ops[v]
  {
    assert OpOk(s, Mover(step), s.ops[Mover(step)]);
    RankDrops(s, step);
    StepLocal(s, step);
  }

  /** A step moves one update only. */
  lemma StepLocal(s: Slot, step: Step)
    requires Enabled(s, step)
    ensures var t := Apply(s, step);
            && t.ops.Keys == s.ops.Keys + {Mover(step)} && |t.backups| == |s.backups|
            && (!step.Invoke? ==> Mover(step) in s.ops)
            && s.hist <= t.hist
            && forall v :: v in s.ops && v != Mover(step) ==> t.ops[v] == s.ops[v]
  {
  }

  lemma RankDrops(s: Slot, step: Step)
    requires Enabled(s, step) && Counting(s, step)
    requires OpOk(s, Mover(step), s.ops[Mover(step)])
    ensures Rank(|s.backups|, Apply(s, step).ops[Mover(step)]) < Rank(|s.backups|, s.ops[Mover(step)])
  {
    if step.SwapBackup? || step.Rewrite? { SwapDrops(s, step); }
  }

  lemma SwapDrops(s: Slot, step: Step)
    requires Enabled(s, step) && Counting(s, step) && (step.SwapBackup? || step.Rewrite?)
    requires OpOk(s, Mover(step), s.ops[Mover(step)])
    ensures Rank(|s.backups|, Apply(s, step).ops[Mover(step)]) < Rank(|s.backups|, s.ops[Mover(step)])
  {
    var op := s.ops[Mover(step)];
    OneMore(if step.SwapBackup? then op.got else op.again, step.i, s.backups[step.i], |s.backups|);
  }

  /** No update is ever stuck: while one has not returned, some update can take a step that counts. */
  lemma NoDeadlock(s: Slot, stuck: Word) returns (step: Step)
    requires Reachable(s) && stuck in s.ops && !s.ops[stuck].Returned?
    ensures Enabled(s, step) && Counting(s, step)
  {
    ReachableInv(s);
    assert OpOk(s, stuck, s.ops[stuck]);
    var w := stuck;
    if s.ops[stuck].Waiting? && s.primary == s.hist[s.ops[stuck].round] {
      w := ElectedContender(s, Cur(s));
    }
    assert OpOk(s, w, s.ops[w]);
    step := NextStep(s, w);
  }

  /** The next step of an update that is not waiting for an unchanged primary. */
  lemma NextStep(s: Slot, w: Word) returns (step: Step)
    requires HistOk(s) && w in s.ops && OpOk(s, w, s.ops[w]) && !s.ops[w].Returned?
    requires s.ops[w].Waiting? ==> s.primary != s.hist[s.ops[w].round]
    ensures Enabled(s, step) && Counting(s, step)
  {
    match s.ops[w] {
      case Invoked => step := ReadSlot(w);
      case Swapping(_, got) =>
        if AllBack(s, got) {
          step := Decide(w);
        } else {
          var i :| 0 <= i < |s.backups| && i !in got;
          step := SwapBackup(w, i);
        }
      case Peeking(_, _) => step := Peek(w);
      case Rewriting(r, backs, again) =>
        if Repaired(s, r, backs, again) {
          step := Commit(w);
        } else {
          var i :| 0 <= i < |backs| && backs[i] != s.hist[r] && i !in again;
          step := Rewrite(w, i);
        }
      case Finishing(_, swapped, invalidated) =>
        step := if swapped.None? then SwapPrimary(w) else if !invalidated then Invalidate(w) else Return(w);
      case Waiting(_) => step := Poll(w);
    }
  }

  /** The steps all updates of a set have left. */
  ghost function Left(n: nat, ops: map<Word, Phase>, ws: set<Word>): nat
    requires ws <= ops.Keys
  {
    if ws == {} then 0
    else
      var w := Pick(ws);
      Rank(n, ops[w]) + Left(n, ops, ws - {w})
  }

  ghost function Pick(ws: set<Word>): (w: Word)
    requires ws != {}
    ensures w in ws
  {
    var w :| w in ws; w
  }

  lemma {:induction false} LeftSame(n: nat, a: map<Word, Phase>, b: map<Word, Phase>, ws: set<Word>)
    requires ws <= a.Keys && ws <= b.Keys && forall v :: v in ws ==> a[v] == b[v]
    ensures Left(n, a, ws) == Left(n, b, ws)
  {
    if ws != {} { LeftSame(n, a, b, ws - {Pick(ws)}); }
  }

  lemma {:induction false} LeftDrops(n: nat, a: map<Word, Phase>, b: map<Word, Phase>, ws: set<Word>, w: Word)
    requires ws <= a.Keys && ws <= b.Keys && w in ws && Rank(n, b[w]) < Rank(n, a[w])
    requires forall v :: v in ws && v != w ==> a[v] == b[v]
    ensures Left(n, b, ws) < Left(n, a, ws)
  {
    var x := Pick(ws);
    if x == w {
      LeftSame(n, a, b, ws - {x});
    } else {
      LeftDrops(n, a, b, ws - {x}, w);
    }
  }

  /** Step `m` starts no new update and is not an idle poll. */
  ghost predicate Changes(states: seq<Slot>, steps: seq<Step>, m: nat) {
    m < |steps| && m + 1 < |states| && Enabled(states[m], steps[m]) && Counting(states[m], steps[m])
  }

  /**
   Updates in flight finish: with no new invocation, the steps that change anything are bounded
   by a number fixed when the invocations stop, and while any update is open such a step exists.
  */
  lemma {:induction false} Drains(states: seq<Slot>, steps: seq<Step>, j: nat, k: nat)
    requires Run(states, steps) && j <= k < |states|
    requires forall m :: j <= m < k ==> Changes(states, steps, m)
    ensures |states[k].backups| == |states[j].backups| && states[k].ops.Keys == states[j].ops.Keys
    ensures var n := |states[j].backups|;
            k - j + Left(n, states[k].ops, states[k].ops.Keys) <= Left(n, states[j].ops, states[j].ops.Keys)
    decreases k - j
  {
    if j < k {
      Drains(states, steps, j, k - 1);
      RunInv(states, steps, k - 1);
      assert Linked(states, steps, k - 1) && Changes(states, steps, k - 1);
      StepDrains(states[k - 1], steps[k - 1]);
    }
  }

  lemma StepDrains(s: Slot, step: Step)
    requires OpsOk(s) && Enabled(s, step) && Counting(s, step)
    ensures var n, t := |s.backups|, Apply(s, step);
            && |t.backups| == n && t.ops.Keys == s.ops.Keys
            && Left(n, t.ops, t.ops.Keys) < Left(n, s.ops, s.ops.Keys)
  {
    StepUsesRank(s, step);
    LeftDrops(|s.backups|, s.ops, Apply(s, step).ops, s.ops.Keys, Mover(step));
  }
}
