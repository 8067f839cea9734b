/**
 A client that crashed in the middle of an UPDATE restarts and redoes it from its log entry
 (`kv_recover_update`).  The index is read as one window of 28 slots per replica, replica 0 being
 the primary; the log entry names the new word and, once committed, the replaced one.

 Recovery has one weak spot.  It takes a candidate at the address of its own new object for that
 object, without looking at the server, and then does not read the candidates' objects; the key
 match that follows sees whatever is in its buffers.
*/
module IndexRecovery {
  import opened Common
  import opened Consensus
  import opened Packing
  import opened RaceIndex
  import SlotProtocol
  import SlotInvariant
  import SlotFinish

  /** The replicated window and the old value stored in the log entry (0: not committed). */
  datatype Index = Index(wins: seq<seq<Word>>, logged: Word)

  /** `log_is_committed` */
  predicate Committed(x: Index) {
    x.logged != 0
  }

  /** What the recovering client knows: its word, the fingerprint, and which objects carry its key. */
  datatype Request = Request(mine: Word, fp: Byte, keyed: set<Word>)

  /**
   A crash of a lone update of slot `j` from `was` to `q.mine`, at any point: some of the backups
   swapped; committed only when all are; primary swapped only when committed.
  */
  ghost predicate Crashed(x: Index, q: Request, j: nat, was: Word) {
    && |x.wins| >= 2 && j < WINDOW && was != 0 && was != q.mine
    && (forall r :: 0 <= r < |x.wins| ==> |x.wins[r]| == WINDOW)
    && (forall r :: 0 <= r < |x.wins| ==> x.wins[r][j] == was || x.wins[r][j] == q.mine)
    && (forall r, k :: 0 <= r < |x.wins| && 0 <= k < WINDOW && k != j ==> x.wins[r][k] != q.mine)
    && (x.logged == 0 || x.logged == was)
    && (Committed(x) ==> forall r :: 1 <= r < |x.wins| ==> x.wins[r][j] == q.mine)
    && (x.wins[0][j] == q.mine ==> Committed(x))
  }

  // Which slot recovery settles on.

  /** Another object lies at the address of the new one, on a server of its own. */
  predicate Aliased(row: seq<Word>, q: Request) {
    exists k :: 0 <= k < |row| && Alias(row[k], q)
  }

  predicate Alias(word: Word, q: Request) {
    Candidate(WordSlot(word), q.fp) && SlotAddr(WordSlot(word)) == SlotAddr(WordSlot(q.mine))
  }

  /** The slots whose object has the key. */
  function Keyed(row: seq<Word>, q: Request): set<nat> {
    set k | 0 <= k < |row| && row[k] in q.keyed
  }

  /** The first candidate from `k` on among the slots `good`, or -1. */
  function First(row: seq<Word>, fp: Byte, good: set<nat>, k: nat): int
    requires k <= |row|
    decreases |row| - k
  {
    if k == |row| then -1
    else if Candidate(WordSlot(row[k]), fp) && k in good then k
    else First(row, fp, good, k + 1)
  }

  /** What the key match sees: the objects' keys, or after an alias whatever the unread buffers hold. */
  function Found(row: seq<Word>, q: Request, unread: set<nat>): int {
    First(row, q.fp, if Aliased(row, q) then unread else Keyed(row, q), 0)
  }

  /** The first slot with the key is slot `j`. */
  predicate KeyFirst(row: seq<Word>, q: Request, j: nat) {
    First(row, q.fp, Keyed(row, q), 0) == j
  }

  lemma {:induction false} FirstIs(row: seq<Word>, fp: Byte, good: set<nat>, k: nat, at: int)
    requires k <= |row| && (at == -1 || k <= at < |row|)
    requires at >= 0 ==> Candidate(WordSlot(row[at]), fp) && at in good
    requires forall m :: k <= m < (if at == -1 then |row| else at) ==> !(Candidate(WordSlot(row[m]), fp) && m in good)
    ensures First(row, fp, good, k) == at
    decreases |row| - k
  {
    if k < |row| && k != at { FirstIs(row, fp, good, k + 1, at); }
  }

  /** Recovery settles on slot `j` whatever the buffers hold exactly if the key is there first and nothing is aliased. */
  lemma FoundExactly(row: seq<Word>, q: Request, j: nat)
    ensures (forall unread :: Found(row, q, unread) == j) <==> KeyFirst(row, q, j) && !Aliased(row, q)
  {
    FirstIs(row, q.fp, {}, 0, -1);
    if Aliased(row, q) {
      assert Found(row, q, {}) == -1;
    } else {
      assert Found(row, q, {}) == First(row, q.fp, Keyed(row, q), 0);
    }
  }

  /** A window with slot `k` overwritten. */
  function Set(row: seq<Word>, k: nat, word: Word): seq<Word>
    requires k < |row|
  {
    row[k := word]
  }

  function Put(wins: seq<seq<Word>>, r: nat, k: nat, word: Word): seq<seq<Word>>
    requires r < |wins| && k < |wins[r]|
  {
    wins[r := Set(wins[r], k, word)]
  }

  /** The index after a complete recovery. */
  function Redone(x: Index, q: Request, j: nat, was: Word): Index
    requires j < WINDOW && forall r :: 0 <= r < |x.wins| ==> |x.wins[r]| == WINDOW
  {
    Index(seq(|x.wins|, r requires 0 <= r < |x.wins| => Set(x.wins[r], j, q.mine)), was)
  }

  /** Where a recovery succeeds whatever its buffers hold (`FoundExactly`). */
  ghost predicate Recoverable(x: Index, q: Request, j: nat, was: Word) {
    && Crashed(x, q, j, was)
    && (Committed(x) || (KeyFirst(x.wins[0], q, j) && !Aliased(x.wins[0], q)))
  }

  ghost predicate AllRecoverable(xs: seq<Index>, q: Request, j: nat, was: Word) {
    forall x :: x in xs ==> Recoverable(x, q, j, was)
  }

  /** One more backup holding the new word is again a crash point. */
  lemma SwapKeeps(x: Index, q: Request, j: nat, was: Word, r: nat)
    requires Crashed(x, q, j, was) && 1 <= r < |x.wins|
    ensures Crashed(x.(wins := Put(x.wins, r, j, q.mine)), q, j, was)
    ensures Put(x.wins, r, j, q.mine)[0] == x.wins[0]
  {
    var y := x.(wins := Put(x.wins, r, j, q.mine));
    forall m, k | 0 <= m < |y.wins| && 0 <= k < WINDOW && k != j ensures y.wins[m][k] != q.mine {
      assert y.wins[m][k] == x.wins[m][k];
    }
  }

  /** Committing with every backup swapped is again a crash point. */
  lemma CommitKeeps(x: Index, y: Index, q: Request, j: nat, was: Word)
    requires Crashed(x, q, j, was)
    requires y.logged == was && |y.wins| == |x.wins| && y.wins[0] == x.wins[0]
    requires forall r :: 1 <= r < |y.wins| ==> y.wins[r] == Set(x.wins[r], j, q.mine)
    ensures Recoverable(y, q, j, was)
  {
    forall r, k | 0 <= r < |y.wins| && 0 <= k < WINDOW && k != j ensures y.wins[r][k] != q.mine {
      assert y.wins[r][k] == x.wins[r][k];
    }
  }

  /** Swapping the primary of a committed crash state completes the update. */
  lemma PrimaryCompletes(x: Index, y: Index, q: Request, j: nat, was: Word)
    requires Crashed(x, q, j, was) && Recoverable(y, q, j, was) && Committed(y)
    requires |y.wins| == |x.wins| && y.wins[0] == x.wins[0]
    requires forall r :: 1 <= r < |y.wins| ==> y.wins[r] == Set(x.wins[r], j, q.mine)
    ensures y.(wins := Put(y.wins, 0, j, q.mine)) == Redone(x, q, j, was)
    ensures Recoverable(Redone(x, q, j, was), q, j, was)
  {
    var z := y.(wins := Put(y.wins, 0, j, q.mine));
    assert z.wins == Redone(x, q, j, was).wins;
    RedoneStable(x, q, j, was);
  }

  /** A recovered index is the state after the last crash point, and recovering it again changes nothing. */
  lemma RedoneStable(x: Index, q: Request, j: nat, was: Word)
    requires Crashed(x, q, j, was)
    ensures Recoverable(Redone(x, q, j, was), q, j, was)
    ensures Redone(Redone(x, q, j, was), q, j, was) == Redone(x, q, j, was)
  {
    var y := Redone(x, q, j, was);
    forall r, k | 0 <= r < |y.wins| && 0 <= k < WINDOW && k != j
      ensures y.wins[r][k] == x.wins[r][k] != q.mine
    {
      assert y.wins[r] == Set(x.wins[r], j, q.mine);
    }
    NothingLeft(y, q, j, was);
  }

  /** A committed crash state whose primary holds the new word is already recovered. */
  lemma NothingLeft(x: Index, q: Request, j: nat, was: Word)
    requires Crashed(x, q, j, was) && x.wins[0][j] == q.mine
    ensures x == Redone(x, q, j, was)
  {
    forall r | 0 <= r < |x.wins| ensures x.wins[r] == Set(x.wins[r], j, q.mine) {}
    assert x.wins == Redone(x, q, j, was).wins;
  }

  /** An uncommitted state is not recovered, and neither is one with the new word in another primary slot. */
  lemma NotRedone(x: Index, y: Index, q: Request, j: nat, was: Word, k: nat)
    requires Crashed(x, q, j, was) && k < WINDOW && k != j
    requires y.logged == 0 || (|y.wins| > 0 && |y.wins[0]| == WINDOW && y.wins[0][k] == q.mine)
    ensures y != Redone(x, q, j, was)
  {
    assert Redone(x, q, j, was).wins[0][k] == x.wins[0][k];
  }

  lemma OwnVotesOnly(backs: seq<Word>, orig: Word, mine: Word, retries: seq<Retry>)
    requires backs != [] && (forall b :: b in backs ==> b == orig || b == mine) && Owed(retries, backs, orig, mine)
    ensures Classify(Votes(backs, orig, mine), mine) == WinAll && retries == []
  {
    if retries != [] { assert backs[retries[0].backup] in backs; }
    var votes := Votes(backs, orig, mine);
    forall i | 0 <= i < |votes| ensures votes[i] == mine && (backs[i] == orig || backs[i] == mine) {
      assert backs[i] in backs;
    }
  }

  class Replicas {
    var wins: seq<seq<Word>>
    var logged: Word
    ghost var trace: seq<Index>   // every state the remote memory has passed through

    ghost function View(): Index
      reads this
    {
      Index(wins, logged)
    }

    /** Every window has its 28 slots. */
    ghost predicate Shaped()
      reads this
    {
      |wins| >= 2 && forall r :: 0 <= r < |wins| ==> |wins[r]| == WINDOW
    }

    constructor (x: Index)
      ensures View() == x && trace == [x]
    {
      wins, logged := x.wins, x.logged;
      trace := [x];
    }

    /** One remote compare-and-swap on replica `r`. */
    method Swap(r: nat, k: nat, expected: Word, mine: Word) returns (back: Word)
      requires r < |wins| && k < |wins[r]|
      modifies this
      ensures back == old(wins[r][k]) && logged == old(logged)
      ensures wins == if back == expected then Put(old(wins), r, k, mine) else old(wins)
      ensures trace == old(trace) + [View()]
    {
      back := wins[r][k];
      if back == expected {
        wins := Put(wins, r, k, mine);
      }
      trace := trace + [View()];
    }

    /** `kv_log_commit_sync` */
    method CommitLog(was: Word)
      modifies this
      ensures wins == old(wins) && logged == was
      ensures trace == old(trace) + [View()]
    {
      logged := was;
      trace := trace + [View()];
    }

    /**
     `check_recover_need_cas_pr`: the primary is to be swapped when it does not hold the word and
     every backup does; the slot is the first match found.
    */
    method NeedsPrimary(q: Request, ghost j: nat, ghost was: Word) returns (need: bool, at: nat)
      requires Crashed(View(), q, j, was) && Committed(View())
      ensures need <==> wins[0][j] == was
      ensures need ==> at == j
    {
      need, at := false, 0;
      var matches: seq<nat> := [];
      for r := 0 to |wins|
        invariant !need
        invariant r > 0 ==> wins[0][j] == was
        invariant |matches| == if r == 0 then 0 else r - 1
        invariant forall m :: 0 <= m < |matches| ==> matches[m] == j
      {
        for k := 0 to WINDOW
          invariant !need
          invariant r == 0 ==> |matches| == 0 && (k > j ==> wins[0][j] == was)
          invariant r > 0 ==> |matches| == if k <= j then r - 1 else r
          invariant forall m :: 0 <= m < |matches| ==> matches[m] == j
        {
          if wins[r][k] == q.mine {
            if r == 0 { return; }
            matches := matches + [k];
          }
        }
      }
      need := |matches| == |wins| - 1;
      if need { at := matches[0]; }
    }

    /** `find_kv_in_buckets` on the primary window, the look for the own address, and `find_match_kv_idx`. */
    method FindKey(q: Request, unread: set<nat>) returns (found: int)
      requires Shaped()
      ensures found == Found(wins[0], q, unread)
    {
      var row := wins[0];
      var at := FindKv(seq(WINDOW, k requires 0 <= k < WINDOW => WordSlot(row[k])), q.fp);
      var finished := false;
      for i := 0 to |at|
        invariant finished <==> exists m :: 0 <= m < i && Alias(row[at[m]], q)
      {
        if SlotAddr(WordSlot(row[at[i]])) == SlotAddr(WordSlot(q.mine)) { finished := true; }
      }
      AliasListed(row, q, at);
      found := FirstMatch(row, at, q, if finished then unread else Keyed(row, q));
    }

    /** The first-round swaps of slot `k` on every backup; `trace` gains one state per swap. */
    method SwapBackups(k: nat, expected: Word, q: Request, ghost j: nat, ghost was: Word) returns (backs: seq<Word>)
      requires Crashed(View(), q, j, was) && !Committed(View()) && k < WINDOW && expected == wins[0][k]
      modifies this
      ensures |backs| == |wins| - 1 && Shaped() && |wins| == |old(wins)|
      ensures wins[0] == old(wins)[0] && logged == old(logged)
      ensures k == j ==> forall b :: b in backs ==> b == was || b == q.mine
      ensures k == j ==> forall r :: 1 <= r < |wins| ==> wins[r] == Set(old(wins)[r], j, q.mine)
      ensures k == j && old(Recoverable(View(), q, j, was) && AllRecoverable(trace, q, j, was)) ==>
                AllRecoverable(trace, q, j, was)
    {
      ghost var safe := Recoverable(View(), q, j, was) && AllRecoverable(trace, q, j, was);
      backs := [];
      for r := 1 to |wins|
        invariant Shaped() && |wins| == |old(wins)| && |backs| == r - 1
        invariant logged == old(logged) && wins[0] == old(wins)[0]
        invariant k == j ==> forall b :: b in backs ==> b == was || b == q.mine
        invariant k == j ==> Crashed(View(), q, j, was) && (safe ==> AllRecoverable(trace, q, j, was))
        invariant k == j ==> forall m :: 1 <= m < r ==> wins[m] == Set(old(wins)[m], j, q.mine)
        invariant forall m :: r <= m < |wins| ==> wins[m] == old(wins)[m]
      {
        ghost var before := View();
        var back := Swap(r, k, expected, q.mine);
        if k == j { SwapKeeps(before, q, j, was, r); }
        backs := backs + [back];
      }
    }

    /** The second-round swaps of a winner. */
    method Repair(k: nat, retries: seq<Retry>, q: Request)
      requires Shaped() && k < WINDOW && forall i :: 0 <= i < |retries| ==> retries[i].backup + 1 < |wins|
      modifies this
      ensures Shaped() && |wins| == |old(wins)| && wins[0] == old(wins)[0] && logged == old(logged)
      ensures retries == [] ==> View() == old(View()) && trace == old(trace)
    {
      for i := 0 to |retries|
        invariant Shaped() && |wins| == |old(wins)| && wins[0] == old(wins)[0] && logged == old(logged)
        invariant i == 0 ==> View() == old(View()) && trace == old(trace)
      {
        var back := Swap(retries[i].backup + 1, k, retries[i].orig, q.mine);
      }
    }

    /**
     The update of slot `k` again: backups, log, primary.  On the right slot it wins every backup and
     completes the update.  On a wrong one it either cannot go on or puts the new word there.
    */
    method RedoAt(k: nat, q: Request, ghost j: nat, ghost was: Word) returns (ok: bool)
      requires Crashed(View(), q, j, was) && !Committed(View()) && k < WINDOW
      modifies this
      ensures k == j ==> ok && View() == Redone(old(View()), q, j, was)
      ensures k == j && old(Recoverable(View(), q, j, was) && AllRecoverable(trace, q, j, was)) ==>
                AllRecoverable(trace, q, j, was)
      ensures k != j ==> if ok then Shaped() && wins[0][k] == q.mine else logged == 0
    {
      ghost var start := View();
      var expected := wins[0][k];
      var backs := SwapBackups(k, expected, q, j, was);
      var decision, retries := CheckCasConsensus0(backs, expected, q.mine, wins[0][k]);
      if k == j { OwnVotesOnly(backs, expected, q.mine, retries); }
      if decision == Fail || decision == Finish { return false; }
      Repair(k, retries, q);
      CommitLog(expected);
      ghost var committed := View();
      if k == j { CommitKeeps(start, committed, q, j, was); }
      var back := Swap(0, k, expected, q.mine);
      if k == j { PrimaryCompletes(start, committed, q, j, was); }
      return true;
    }

    /** The uncommitted branch: it completes the update exactly if it settles on the update's own slot. */
    method Redo(q: Request, unread: set<nat>, ghost j: nat, ghost was: Word) returns (ok: bool)
      requires Crashed(View(), q, j, was) && !Committed(View())
      modifies this
      ensures View() == Redone(old(View()), q, j, was) <==> Found(old(wins[0]), q, unread) == j
      ensures old(Recoverable(View(), q, j, was) && AllRecoverable(trace, q, j, was)) ==> AllRecoverable(trace, q, j, was)
    {
      ghost var start := View();
      var found := FindKey(q, unread);
      FoundExactly(wins[0], q, j);
      if found == -1 {
        NotRedone(start, View(), q, j, was, if j == 0 then 1 else 0);
        return false;
      }
      FoundInWindow(wins[0], q, unread);
      ok := RedoAt(found, q, j, was);
      if found != j { NotRedone(start, View(), q, j, was, found); }
    }

    /** The committed branch: at most the primary is still to be swapped. */
    method FinishCommitted(q: Request, ghost j: nat, ghost was: Word)
      requires Crashed(View(), q, j, was) && Committed(View())
      modifies this
      ensures View() == Redone(old(View()), q, j, was)
      ensures AllRecoverable(old(trace), q, j, was) ==> AllRecoverable(trace, q, j, was)
      ensures old(wins[0][j]) == q.mine ==> trace == old(trace)
    {
      ghost var start := View();
      var need, at := NeedsPrimary(q, j, was);
      if need {
        var back := Swap(0, at, wins[0][at], q.mine);
        PrimaryCompletes(start, start, q, j, was);
      } else {
        NothingLeft(start, q, j, was);
      }
    }

    /**
     `kv_recover_update`.  A committed update is always completed; an uncommitted one exactly if
     recovery settles on its slot, which by `FoundExactly` it does whatever its buffers hold unless
     another object lies at the address of the new one.  Completed means: the new word in every
     replica of the slot, the log entry committed, every other slot as it was.  Every state on the
     way is then again one that a recovery can start from, so recovery may itself be interrupted.
    */
    method RecoverUpdate(q: Request, unread: set<nat>, ghost j: nat, ghost was: Word)
      requires Crashed(View(), q, j, was)
      modifies this
      ensures View() == Redone(old(View()), q, j, was) <==>
                Committed(old(View())) || Found(old(wins[0]), q, unread) == j
      ensures old(Recoverable(View(), q, j, was) && AllRecoverable(trace, q, j, was)) ==> AllRecoverable(trace, q, j, was)
      ensures old(wins[0][j]) == q.mine ==> trace == old(trace)
    {
      if Committed(Index(wins, logged)) {
        FinishCommitted(q, j, was);
      } else {
        var ok := Redo(q, unread, j, was);
      }
    }
  }

  lemma AliasListed(row: seq<Word>, q: Request, at: seq<nat>)
    requires |row| == WINDOW && (forall i :: 0 <= i < |at| ==> at[i] < WINDOW)
    requires forall k :: 0 <= k < WINDOW && Candidate(WordSlot(row[k]), q.fp) ==> k in at
    ensures Aliased(row, q) <==> exists m :: 0 <= m < |at| && Alias(row[at[m]], q)
  {
    if k :| 0 <= k < |row| && Alias(row[k], q) {
      var m :| 0 <= m < |at| && at[m] == k;
      assert Alias(row[at[m]], q);
    }
  }

  /** The loop over the candidates finds the first one among `good`. */
  method FirstMatch(row: seq<Word>, at: seq<nat>, q: Request, good: set<nat>) returns (found: int)
    requires |row| == WINDOW
    requires forall i :: 0 <= i < |at| ==> at[i] < WINDOW && Candidate(WordSlot(row[at[i]]), q.fp)
    requires forall i, j :: 0 <= i < j < |at| ==> at[i] < at[j]
    requires forall k :: 0 <= k < WINDOW && Candidate(WordSlot(row[k]), q.fp) ==> k in at
    ensures found == First(row, q.fp, good, 0)
  {
    for i := 0 to |at|
      invariant forall m :: 0 <= m < i ==> at[m] !in good
    {
      if at[i] in good {
        NoneBefore(row, at, q.fp, good, i);
        FirstIs(row, q.fp, good, 0, at[i]);
        return at[i];
      }
    }
    NoneBefore(row, at, q.fp, good, |at|);
    FirstIs(row, q.fp, good, 0, -1);
    return -1;
  }

  lemma NoneBefore(row: seq<Word>, at: seq<nat>, fp: Byte, good: set<nat>, i: nat)
    requires |row| == WINDOW && i <= |at| && forall m :: 0 <= m < i ==> at[m] !in good
    requires forall i, j :: 0 <= i < j < |at| ==> at[i] < at[j]
    requires forall k :: 0 <= k < WINDOW && Candidate(WordSlot(row[k]), fp) ==> k in at
    ensures forall k :: 0 <= k < WINDOW && (i < |at| ==> k < at[i]) ==> !(Candidate(WordSlot(row[k]), fp) && k in good)
  {
    forall k | 0 <= k < WINDOW && (i < |at| ==> k < at[i]) && Candidate(WordSlot(row[k]), fp) ensures k !in good {
      var m :| 0 <= m < |at| && at[m] == k;
      assert m < i;
    }
  }

  lemma {:induction false} FirstInRange(row: seq<Word>, fp: Byte, good: set<nat>, k: nat)
    requires k <= |row|
    ensures First(row, fp, good, k) == -1 || k <= First(row, fp, good, k) < |row|
    decreases |row| - k
  {
    if k < |row| { FirstInRange(row, fp, good, k + 1); }
  }

  lemma FoundInWindow(row: seq<Word>, q: Request, unread: set<nat>)
    ensures -1 <= Found(row, q, unread) < |row|
  {
    FirstInRange(row, q.fp, if Aliased(row, q) then unread else Keyed(row, q), 0);
  }

  /** Once recovered, a second recovery leaves the same index and makes no remote write at all. */
  method RecoverAgain(x: Index, q: Request, unread: set<nat>, ghost from: Index, ghost j: nat, ghost was: Word)
    returns (again: Index, ghost writes: nat)
    requires Crashed(from, q, j, was) && x == Redone(from, q, j, was)
    ensures again == x && writes == 0
  {
    RedoneStable(from, q, j, was);
    var m := new Replicas(x);
    m.RecoverUpdate(q, unread, j, was);
    again := Index(m.wins, m.logged);
    writes := |m.trace| - 1;
  }

  /** The failing input: the key in slot 0, and in slot 1 another object at the new one's address on server 3. */
  lemma AliasedCrash() returns (x: Index, q: Request, was: Word)
    ensures Crashed(x, q, 0, was) && !Committed(x) && KeyFirst(x.wins[0], q, 0) && Aliased(x.wins[0], q)
    ensures Found(x.wins[0], q, {}) == -1 && Found(x.wins[0], q, {1}) == 1
  {
    var other, mine;
    was, other, mine := ThreeWords();
    q := Request(mine, 5, {was});
    var row := Row(was, other);
    x := Index([row, row], 0);
    AliasedRow(row, q, was, other);
  }

  /** Two objects in use, then 26 empty slots. */
  function Row(a: Word, b: Word): (row: seq<Word>)
    ensures |row| == WINDOW && row[0] == a && row[1] == b && forall k :: 2 <= k < WINDOW ==> row[k] == 0
  {
    [a, b] + seq(26, _ => 0)
  }

  lemma ThreeWords() returns (was: Word, other: Word, mine: Word)
    ensures 0 != was && was != other && other != mine && mine != was && other != 0 && mine != 0
    ensures Candidate(WordSlot(was), 5) && Candidate(WordSlot(other), 5) && WordSlot(0).kvLen == 0
    ensures SlotAddr(WordSlot(other)) == SlotAddr(WordSlot(mine))
  {
    was := SlotWord(FillSlot(5, 1, 1, 0x100));
    other, mine := SlotWord(FillSlot(5, 1, 3, 0x200)), SlotWord(FillSlot(5, 1, 2, 0x200));
    SlotRoundTrip(FillSlot(5, 1, 1, 0x100));
    SlotRoundTrip(FillSlot(5, 1, 3, 0x200));
    SlotRoundTrip(FillSlot(5, 1, 2, 0x200));
    assert WordSlot(was) == FillSlot(5, 1, 1, 0x100) && WordSlot(other) == FillSlot(5, 1, 3, 0x200);
    assert WordSlot(was).serverId == 1 && WordSlot(other).serverId == 3 && WordSlot(mine).serverId == 2;
  }

  lemma AliasedRow(row: seq<Word>, q: Request, was: Word, other: Word)
    requires row == Row(was, other) && q.keyed == {was} && q.fp == 5 && was != other && was != 0
    requires Candidate(WordSlot(was), 5) && Candidate(WordSlot(other), 5) && WordSlot(0).kvLen == 0
    requires SlotAddr(WordSlot(other)) == SlotAddr(WordSlot(q.mine))
    ensures KeyFirst(row, q, 0) && Aliased(row, q) && Found(row, q, {}) == -1 && Found(row, q, {1}) == 1
  {
    assert Alias(row[1], q);
    FirstIs(row, 5, Keyed(row, q), 0, 0);
    FirstIs(row, 5, {}, 0, -1);
    FirstIs(row, 5, {1}, 0, 1);
  }

  // Where crash states come from: any run of the slot protocol.

  /** The update of `w` is the only one under way, and its round has not been won by another. */
  ghost predicate Interrupted(s: SlotProtocol.Slot, w: Word) {
    && w in s.ops && !s.ops[w].Invoked? && |s.backups| > 0 && |s.hist| > 0
    && (forall v :: v in s.ops && v != w ==> s.ops[v].Invoked? || s.ops[v].Returned?)
    && (s.ops[w].round == SlotProtocol.Cur(s) || s.primary == w)
  }

  /** `column` shows slot `s` replica by replica, the primary first. */
  ghost predicate ShowsSlot(x: Index, j: nat, s: SlotProtocol.Slot, w: Word) {
    && |x.wins| == |s.backups| + 1 && j < WINDOW
    && (forall r :: 0 <= r < |x.wins| ==> |x.wins[r]| == WINDOW)
    && x.wins[0][j] == s.primary
    && (forall r :: 1 <= r < |x.wins| ==> x.wins[r][j] == s.backups[r - 1])
    && (forall r, k :: 0 <= r < |x.wins| && 0 <= k < WINDOW && k != j ==> x.wins[r][k] != w)
    && x.logged == if w in s.log then s.log[w] else 0
  }

  /** No other update is in the current round. */
  lemma AloneInRound(s: SlotProtocol.Slot, w: Word, v: Word)
    requires SlotInvariant.HistOk(s) && SlotInvariant.OpsOk(s) && Interrupted(s, w)
    requires v in s.ops && SlotInvariant.InRound(s.ops[v], SlotProtocol.Cur(s))
    ensures v == w
  {
    assert SlotInvariant.OpOk(s, v, s.ops[v]);
  }

  /** Before the primary swap every backup holds the replaced word or the new one. */
  lemma OpenBackups(s: SlotProtocol.Slot, w: Word, i: nat)
    requires SlotInvariant.HistOk(s) && SlotInvariant.OpsOk(s) && SlotInvariant.FirstOk(s)
    requires SlotInvariant.BackupsOk(s) && Interrupted(s, w) && i < |s.backups|
    ensures s.backups[i] == s.primary || s.backups[i] == w
  {
    var c := SlotProtocol.Cur(s);
    if i in s.rounds[c] {
      AloneInRound(s, w, s.rounds[c][i]);
      if SlotInvariant.RepairedBy(s, i, s.backups[i]) {
        AloneInRound(s, w, s.backups[i]);
      }
    }
  }

  /** Before the primary swap the log is committed only once every backup holds the new word. */
  lemma OpenLog(s: SlotProtocol.Slot, w: Word)
    requires SlotInvariant.HistOk(s) && SlotInvariant.OpsOk(s) && SlotInvariant.LogOk(s)
    requires Interrupted(s, w) && s.primary != w && w in s.log
    ensures s.log[w] == s.primary && forall i :: 0 <= i < |s.backups| ==> s.backups[i] == w
  {
    assert SlotInvariant.OpOk(s, w, s.ops[w]);
  }

  /** After the primary swap every copy holds the new word and the log is committed. */
  lemma ClosedBackups(s: SlotProtocol.Slot, w: Word)
    requires SlotInvariant.Inv(s) && Interrupted(s, w) && s.primary == w
    ensures s.ops[w].round + 1 == SlotProtocol.Cur(s)
    ensures forall i :: 0 <= i < |s.backups| ==> s.backups[i] == w
    ensures w in s.log && s.log[w] == s.hist[s.ops[w].round] != w
  {
    NobodyInRound(s, w);
    QuietBackups(s);
    assert SlotInvariant.OpOk(s, w, s.ops[w]);
  }

  lemma NobodyInRound(s: SlotProtocol.Slot, w: Word)
    requires SlotInvariant.HistOk(s) && SlotInvariant.OpsOk(s) && Interrupted(s, w) && s.primary == w
    ensures s.ops[w].round + 1 == SlotProtocol.Cur(s)
    ensures forall v :: v in s.ops ==> !SlotInvariant.InRound(s.ops[v], SlotProtocol.Cur(s))
  {
    var c := SlotProtocol.Cur(s);
    assert SlotInvariant.Installed(s, s.ops[w], c - 1);
    forall v | v in s.ops ensures !SlotInvariant.InRound(s.ops[v], c) {
      if v != w { IdleBefore(s, v); }
    }
  }

  lemma IdleBefore(s: SlotProtocol.Slot, v: Word)
    requires |s.hist| > 0 && v in s.ops && SlotInvariant.OpOk(s, v, s.ops[v]) && (s.ops[v].Invoked? || s.ops[v].Returned?)
    ensures !SlotInvariant.InRound(s.ops[v], SlotProtocol.Cur(s))
  {
  }

  lemma QuietBackups(s: SlotProtocol.Slot)
    requires |s.rounds| == |s.hist| > 0 && SlotInvariant.FirstOk(s) && SlotInvariant.BackupsOk(s)
    requires forall v :: v in s.ops ==> !SlotInvariant.InRound(s.ops[v], SlotProtocol.Cur(s))
    ensures forall i :: 0 <= i < |s.backups| ==> s.backups[i] == s.primary
  {
  }

  /** An update interrupted anywhere in any run of the protocol leaves a crash state. */
  lemma InterruptedCrashed(s: SlotProtocol.Slot, w: Word, x: Index, q: Request, j: nat)
    requires SlotProtocol.Reachable(s) && Interrupted(s, w) && ShowsSlot(x, j, s, w) && q.mine == w
    ensures s.ops[w].round < |s.hist|
    ensures s.hist[s.ops[w].round] != 0 ==> Crashed(x, q, j, s.hist[s.ops[w].round])
  {
    SlotFinish.ReachableInv(s);
    if s.primary == w {
      ClosedBackups(s, w);
    } else {
      assert SlotInvariant.OpOk(s, w, s.ops[w]);
      forall i | 0 <= i < |s.backups| ensures s.backups[i] == s.primary || s.backups[i] == w {
        OpenBackups(s, w, i);
      }
      if w in s.log { OpenLog(s, w); }
    }
  }
}
