/**
 The client-centric replication protocol for one index slot, as a state machine.

 The slot has a primary word and any number of backup words on other servers.
 Any number of clients UPDATE it with nothing but remote reads and
 compare-and-swaps; each of those is one step, and the steps of different
 clients, and the backup swaps of one client, interleave in every order.

 An update is known by the word it tries to install, which is never used twice
 on a slot (`AllocationRuns` derives that from the allocator).
*/
module SlotProtocol {
  import opened Common
  import opened Consensus

  /** Where one update is in `kv_update`.  `round` is the position in `hist` of the word it replaces. */
  datatype Phase =
    | Invoked                                                            // nothing read yet
    | Swapping(round: nat, got: map<nat, Word>)                          // backup swaps in flight
    | Peeking(round: nat, backs: seq<Word>)                              // about to re-read the primary
    | Rewriting(round: nat, backs: seq<Word>, again: map<nat, Word>)     // won; repairing the backups
    | Finishing(round: nat, swapped: Option<Word>, invalidated: bool)    // primary swap and invalidation
    | Waiting(round: nat)                                                // lost; polling the primary
    | Returned(round: nat, won: bool)

  /**
   `hist` lists every word the primary has held; `rounds[r]` records, for each backup,
   the first word that replaced `hist[r]` there.  `log` holds the committed old values
   and `invalid` the words whose objects have been marked stale.
  */
  datatype Slot = Slot(
    primary: Word,
    backups: seq<Word>,
    ops: map<Word, Phase>,
    hist: seq<Word>,
    rounds: seq<map<nat, Word>>,
    log: map<Word, Word>,
    invalid: set<Word>)

  datatype Step =
    | Invoke(w: Word)
    | ReadSlot(w: Word)
    | UseCache(w: Word, round: nat)     // the cached slot, its object found valid
    | SwapBackup(w: Word, i: nat)
    | Decide(w: Word)
    | Peek(w: Word)
    | Rewrite(w: Word, i: nat)
    | Commit(w: Word)
    | SwapPrimary(w: Word)
    | Invalidate(w: Word)
    | Poll(w: Word)
    | Return(w: Word)

  ghost predicate Init(s: Slot) {
    && s.hist == [s.primary]
    && (forall i :: 0 <= i < |s.backups| ==> s.backups[i] == s.primary)
    && s.ops == map[]
    && s.rounds == [map[]]
    && s.log == map[]
    && s.invalid == {}
  }

  function Cur(s: Slot): int {
    |s.hist| - 1
  }

  /** The phase of an update that has learned the word it replaces. */
  function Start(s: Slot, round: nat): Phase {
    if |s.backups| == 0 then Finishing(round, None, false) else Swapping(round, map[])
  }

  predicate AllBack(s: Slot, got: map<nat, Word>) {
    forall i :: 0 <= i < |s.backups| ==> i in got
  }

  /** The words of a map defined on every backup, as a list. */
  function Listed(m: map<nat, Word>, n: nat): (l: seq<Word>)
    requires forall i :: 0 <= i < n ==> i in m
    ensures |l| == n
  {
    seq(n, i requires 0 <= i < n => m[i])
  }

  /** What is still to be repaired: the backups somebody else reached first. */
  predicate Repaired(s: Slot, round: nat, backs: seq<Word>, again: map<nat, Word>)
    requires round < |s.hist|
  {
    forall i :: 0 <= i < |backs| && backs[i] != s.hist[round] ==> i in again
  }

  predicate Enabled(s: Slot, step: Step) {
    match step
    case Invoke(w) => w !in s.ops && |s.hist| > 0 && w != s.hist[0]
    case ReadSlot(w) => w in s.ops && s.ops[w].Invoked? && |s.hist| > 0
    case UseCache(w, round) =>
      w in s.ops && s.ops[w].Invoked? && round < |s.hist| && s.hist[round] !in s.invalid
    case SwapBackup(w, i) =>
      && w in s.ops && s.ops[w].Swapping? && i < |s.backups| && i !in s.ops[w].got
      && s.ops[w].round < |s.hist| && |s.rounds| > 0
    case Decide(w) =>
      w in s.ops && s.ops[w].Swapping? && AllBack(s, s.ops[w].got) && s.ops[w].round < |s.hist|
    case Peek(w) => w in s.ops && s.ops[w].Peeking? && s.ops[w].round < |s.hist|
    case Rewrite(w, i) =>
      && w in s.ops && s.ops[w].Rewriting? && s.ops[w].round < |s.hist|
      && i < |s.ops[w].backs| && i < |s.backups|
      && s.ops[w].backs[i] != s.hist[s.ops[w].round] && i !in s.ops[w].again
    case Commit(w) =>
      && w in s.ops && s.ops[w].Rewriting? && s.ops[w].round < |s.hist|
      && Repaired(s, s.ops[w].round, s.ops[w].backs, s.ops[w].again)
    case SwapPrimary(w) =>
      w in s.ops && s.ops[w].Finishing? && s.ops[w].swapped.None? && s.ops[w].round < |s.hist|
    case Invalidate(w) =>
      w in s.ops && s.ops[w].Finishing? && !s.ops[w].invalidated && s.ops[w].round < |s.hist|
    case Poll(w) => w in s.ops && s.ops[w].Waiting? && s.ops[w].round < |s.hist|
    case Return(w) =>
      && w in s.ops && s.ops[w].Finishing? && s.ops[w].swapped.Some? && s.ops[w].invalidated
      && s.ops[w].round < |s.hist|
  }

  /** A compare-and-swap of backup `i`. */
  function SwapBackupAt(s: Slot, w: Word, i: nat): Slot
    requires Enabled(s, SwapBackup(w, i))
  {
    var Swapping(round, got) := s.ops[w];
    var back := s.backups[i];
    var t := s.(ops := s.ops[w := Swapping(round, got[i := back])]);
    if back == s.hist[round] then
      var cur := |s.rounds| - 1;
      var first: map<nat, Word> := s.rounds[cur][i := w];
      t.(backups := s.backups[i := w], rounds := s.rounds[cur := first])
    else t
  }

  /** What a decision leads to; a winner of every backup has nothing left to repair. */
  function Decided(round: nat, backs: seq<Word>, d: Decision): Phase {
    match d
    case WinAll => Rewriting(round, backs, map[])
    case WinMajor => Rewriting(round, backs, map[])
    case WinLittle => Rewriting(round, backs, map[])
    case Fail => Waiting(round)
    case Finish => Returned(round, false)
    case Undecided => Peeking(round, backs)
  }

  function Apply(s: Slot, step: Step): Slot
    requires Enabled(s, step)
  {
    match step
    case Invoke(w) => s.(ops := s.ops[w := Invoked])
    case ReadSlot(w) => s.(ops := s.ops[w := Start(s, |s.hist| - 1)])
    case UseCache(w, round) => s.(ops := s.ops[w := Start(s, round)])
    case SwapBackup(w, i) => SwapBackupAt(s, w, i)
    case Decide(w) =>
      var Swapping(round, got) := s.ops[w];
      var backs := Listed(got, |s.backups|);
      s.(ops := s.ops[w := Decided(round, backs, Classify(Votes(backs, s.hist[round], w), w))])
    case Peek(w) =>
      var Peeking(round, backs) := s.ops[w];
      var orig := s.hist[round];
      s.(ops := s.ops[w := Decided(round, backs, Resolve(Votes(backs, orig, w), w, orig, s.primary))])
    case Rewrite(w, i) =>
      var Rewriting(round, backs, again) := s.ops[w];
      var back := s.backups[i];
      s.(ops := s.ops[w := Rewriting(round, backs, again[i := back])],
         backups := if back == backs[i] then s.backups[i := w] else s.backups)
    case Commit(w) =>
      var round := s.ops[w].round;
      s.(ops := s.ops[w := Finishing(round, None, false)], log := s.log[w := s.hist[round]])
    case SwapPrimary(w) =>
      var Finishing(round, _, invalidated) := s.ops[w];
      var t := s.(ops := s.ops[w := Finishing(round, Some(s.primary), invalidated)]);
      if s.primary == s.hist[round]
      then t.(primary := w, hist := s.hist + [w], rounds := s.rounds + [map[]])
      else t
    case Invalidate(w) =>
      var Finishing(round, swapped, _) := s.ops[w];
      s.(ops := s.ops[w := Finishing(round, swapped, true)], invalid := s.invalid + {s.hist[round]})
    case Poll(w) =>
      if s.primary == s.hist[s.ops[w].round] then s
      else s.(ops := s.ops[w := Returned(s.ops[w].round, false)])
    case Return(w) =>
      var Finishing(round, swapped, _) := s.ops[w];
      s.(ops := s.ops[w := Returned(round, swapped.value == s.hist[round])])
  }

  /** State `k + 1` follows state `k` by step `k`. */
  ghost predicate Linked(states: seq<Slot>, steps: seq<Step>, k: nat) {
    && k < |steps| && k + 1 < |states|
    && Enabled(states[k], steps[k]) && states[k + 1] == Apply(states[k], steps[k])
  }

  /** A finite run: states joined by enabled steps, starting from a quiet slot. */
  ghost predicate Run(states: seq<Slot>, steps: seq<Step>) {
    && |states| == |steps| + 1
    && Init(states[0])
    && forall k :: 0 <= k < |steps| ==> Linked(states, steps, k)
  }

  ghost predicate Reachable(s: Slot) {
    exists states, steps :: Run(states, steps) && states[|steps|] == s
  }
}
