/** The inductive invariant of the slot protocol; `SlotSteps` and `SlotFinish` prove that every step keeps it. */
module SlotInvariant {
  import opened Common
  import opened Consensus
  import opened SlotProtocol

  predicate Complete(s: Slot, r: nat)
    requires r < |s.rounds|
  {
    forall i :: 0 <= i < |s.backups| ==> i in s.rounds[r]
  }

  /** The first-written words of round `r`. */
  function First(s: Slot, r: nat): (l: seq<Word>)
    requires r < |s.rounds| && Complete(s, r)
    ensures |l| == |s.backups|
  {
    Listed(s.rounds[r], |s.backups|)
  }

  /** Round `r` has all its votes and they elect `w`. */
  predicate Elected(s: Slot, r: nat, w: Word) {
    r < |s.rounds| && Complete(s, r) && Elects(First(s, r), w)
  }

  predicate InRound(ph: Phase, r: nat) {
    !ph.Invoked? && ph.round == r
  }

  /** The phases of an update that has replaced the primary word of its round. */
  predicate Installed(s: Slot, ph: Phase, r: nat)
    requires r < |s.hist|
  {
    || (ph.Finishing? && ph.round == r && ph.swapped == Some(s.hist[r]))
    || ph == Returned(r, true)
  }

  ghost predicate HistOk(s: Slot) {
    && |s.hist| == |s.rounds| > 0
    && s.primary == s.hist[Cur(s)]
    && NoDup(s.hist)
    && s.hist[0] !in s.ops
    && (forall k :: 1 <= k < |s.hist| ==>
          s.hist[k] in s.ops && Installed(s, s.ops[s.hist[k]], k - 1))
    && (|s.backups| > 0 ==> forall k :: 1 <= k < |s.hist| ==> Elected(s, k - 1, s.hist[k]))
  }

  /** A first-written word belongs to an update of that very round. */
  ghost predicate FirstOk(s: Slot) {
    forall r, i :: 0 <= r < |s.rounds| && i in s.rounds[r] ==>
      i < |s.backups| && s.rounds[r][i] in s.ops && InRound(s.ops[s.rounds[r][i]], r)
  }

  /** `v` was put on backup `i` by the winner's repair. */
  predicate RepairedBy(s: Slot, i: nat, v: Word) {
    && v in s.ops && |s.hist| > 0 && InRound(s.ops[v], |s.hist| - 1)
    && ((s.ops[v].Rewriting? && i in s.ops[v].again) || (s.ops[v].Finishing? && s.ops[v].swapped.None?))
  }

  ghost predicate BackupsOk(s: Slot)
    requires |s.rounds| > 0
  {
    forall i :: 0 <= i < |s.backups| ==>
      if i in s.rounds[|s.rounds| - 1]
      then s.backups[i] == s.rounds[|s.rounds| - 1][i] || RepairedBy(s, i, s.backups[i])
      else s.backups[i] == s.primary
  }

  /** What a backup returned to update `w` of round `r`. */
  ghost predicate BackOk(s: Slot, w: Word, r: nat, i: nat, back: Word) {
    && r < |s.hist| == |s.rounds|
    && i in s.rounds[r]
    && back != w
    && (back == s.hist[r] <==> s.rounds[r][i] == w)
    && (r == Cur(s) && back != s.hist[r] ==> back == s.rounds[r][i] || Elected(s, r, back))
  }

  ghost predicate BacksOk(s: Slot, w: Word, r: nat, backs: seq<Word>) {
    |backs| == |s.backups| > 0 && forall i :: 0 <= i < |backs| ==> BackOk(s, w, r, i, backs[i])
  }

  /** A lost update: the rule of its round did not choose it. */
  ghost predicate Beaten(s: Slot, w: Word, r: nat) {
    && r < |s.rounds|
    && (|s.backups| > 0 ==> Complete(s, r) && !Elects(First(s, r), w))
  }

  ghost predicate RewritingOk(s: Slot, w: Word, r: nat, backs: seq<Word>, again: map<nat, Word>) {
    && r == Cur(s) < |s.rounds|
    && BacksOk(s, w, r, backs)
    && Elected(s, r, w)
    && (forall i :: i in again ==> i < |backs| && backs[i] != s.hist[r] && again[i] == backs[i])
    && (forall i :: 0 <= i < |backs| ==>
          && (backs[i] != s.hist[r] ==> backs[i] == s.rounds[r][i])
          && s.backups[i] == if i in again then w else s.rounds[r][i])
  }

  ghost predicate OpOk(s: Slot, w: Word, ph: Phase) {
    match ph
    case Invoked => true
    case Swapping(r, got) =>
      && r <= Cur(s) && r < |s.rounds| && |s.backups| > 0
      && (forall i :: i in got ==> i < |s.backups| && BackOk(s, w, r, i, got[i]))
      && (forall i :: i in s.rounds[r] && i !in got ==> s.rounds[r][i] != w)
    case Peeking(r, backs) =>
      r <= Cur(s) && BacksOk(s, w, r, backs) && Classify(Votes(backs, s.hist[r], w), w) == Undecided
    case Rewriting(r, backs, again) => RewritingOk(s, w, r, backs, again)
    case Finishing(r, swapped, invalidated) =>
      && r <= Cur(s)
      && (invalidated ==> s.hist[r] in s.invalid)
      && (|s.backups| > 0 ==> w in s.log && s.log[w] == s.hist[r])
      && (if swapped.None? then
            |s.backups| > 0 ==>
              r == Cur(s) && Elected(s, r, w) && forall i :: 0 <= i < |s.backups| ==> s.backups[i] == w
          else
            && r < Cur(s)
            && (swapped.value == s.hist[r] <==> s.hist[r + 1] == w)
            && (|s.backups| > 0 ==> swapped.value == s.hist[r]))
    case Waiting(r) => r <= Cur(s) && |s.backups| > 0 && Beaten(s, w, r)
    case Returned(r, won) =>
      && r < Cur(s)
      && (won ==> s.hist[r + 1] == w && s.hist[r] in s.invalid && (|s.backups| > 0 ==> w in s.log))
      && (!won ==> w !in s.hist && Beaten(s, w, r))
  }

  ghost predicate OpsOk(s: Slot) {
    forall w :: w in s.ops ==> OpOk(s, w, s.ops[w])
  }

  predicate MayLog(ph: Phase) {
    ph.Finishing? || (ph.Returned? && ph.won)
  }

  /** Only an update that has won commits a log entry, and the entry names the word it replaces. */
  ghost predicate LogOk(s: Slot) {
    forall w :: w in s.log ==>
      && |s.backups| > 0 && w in s.ops && MayLog(s.ops[w])
      && s.ops[w].round < |s.hist| && s.log[w] == s.hist[s.ops[w].round]
  }

  ghost predicate Inv(s: Slot) {
    HistOk(s) && FirstOk(s) && BackupsOk(s) && OpsOk(s) && LogOk(s)
  }

  lemma InitInv(s: Slot)
    requires Init(s)
    ensures Inv(s)
  {
  }

  /** A word with an update that has not replaced the primary is in no history. */
  lemma NotInHist(s: Slot, w: Word)
    requires HistOk(s) && w in s.ops
    requires forall r :: 0 <= r < |s.hist| ==> !Installed(s, s.ops[w], r)
    ensures w !in s.hist
  {
    forall k | 0 <= k < |s.hist| ensures s.hist[k] != w {
      if k > 0 { assert !Installed(s, s.ops[w], k - 1); }
    }
  }

  /** A primary word is not the word of an update of its own or a later round. */
  lemma HistNotInRound(s: Slot, k: nat, v: Word, r: nat)
    requires HistOk(s) && k < |s.hist| && v in s.ops && InRound(s.ops[v], r) && k <= r
    ensures v != s.hist[k]
  {
  }

  /** A past primary word is on no backup, and the current one only where nobody has swapped. */
  lemma PastWordGone(s: Slot, r: nat, i: nat)
    requires HistOk(s) && FirstOk(s) && BackupsOk(s) && r < |s.hist| && i < |s.backups|
    ensures s.backups[i] == s.hist[r] ==> r == Cur(s) && i !in s.rounds[r]
  {
    if i in s.rounds[Cur(s)] {
      HistNotInRound(s, r, s.backups[i], Cur(s));
    }
  }

  /** The election of a closed round is the word that followed it. */
  lemma ClosedRound(s: Slot, r: nat, w: Word)
    requires HistOk(s) && r < Cur(s) && Elected(s, r, w) && |s.backups| > 0
    ensures w == s.hist[r + 1]
  {
    assert Elected(s, r + 1 - 1, s.hist[r + 1]);
    ElectsUnique(First(s, r), w, s.hist[r + 1]);
  }

  lemma SoleWinner(s: Slot, r: nat, v: Word, w: Word)
    requires Elected(s, r, v) && Elected(s, r, w)
    ensures v == w
  {
    ElectsUnique(First(s, r), v, w);
  }
}
