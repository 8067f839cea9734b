/**
 How one client classifies the words its backup compare-and-swaps returned
 (`check_cas_consensus_0`, `check_cas_consensus_1`).

 The code tallies the words in an ordered map.  `Classify` states the outcome
 without any map, and the two methods that run the loops are proved against it.
*/
module Consensus {
  import opened Common

  datatype Decision = WinAll | WinMajor | WinLittle | Fail | Finish | Undecided

  /** A returned word stands for the writer that got there first; a success is a vote for oneself. */
  function Vote(back: Word, orig: Word, mine: Word): Word {
    if back == orig then mine else back
  }

  function Votes(backs: seq<Word>, orig: Word, mine: Word): (votes: seq<Word>)
    ensures |votes| == |backs|
  {
    seq(|backs|, i requires 0 <= i < |backs| => Vote(backs[i], orig, mine))
  }

  predicate Majority(votes: seq<Word>, x: Word) {
    2 * Count(votes, x) > |votes|
  }

  predicate Least(votes: seq<Word>, x: Word) {
    forall v :: v in votes ==> x <= v
  }

  /** No word holds a strict majority. */
  predicate Split(votes: seq<Word>) {
    forall v :: v in votes ==> !Majority(votes, v)
  }

  /** The rule of the protocol: a strict majority wins, and failing that the smallest word. */
  predicate Elects(votes: seq<Word>, x: Word) {
    x in votes && (Majority(votes, x) || (Split(votes) && Least(votes, x)))
  }

  /** The decision from the votes alone; `Undecided` asks for a look at the primary. */
  function Classify(votes: seq<Word>, mine: Word): Decision {
    if forall v :: v in votes ==> v == mine then WinAll
    else if Majority(votes, mine) then WinMajor
    else if !Split(votes) || mine !in votes then Fail
    else Undecided
  }

  /** The decision of an undecided client once it has read the primary. */
  function Resolve(votes: seq<Word>, mine: Word, orig: Word, primary: Word): Decision {
    if primary != orig then Finish
    else if Least(votes, mine) then WinLittle
    else Fail
  }

  lemma Unanimous(votes: seq<Word>, x: Word)
    ensures (forall v :: v in votes ==> v == x) <==> Count(votes, x) == |votes|
  {
    CountBound(votes, x);
    if forall v :: v in votes ==> v == x {
      assert forall i :: 0 <= i < |votes| ==> votes[i] in votes;
    }
  }

  lemma MajorityUnique(votes: seq<Word>, x: Word, y: Word)
    requires Majority(votes, x) && Majority(votes, y)
    ensures x == y
  {
    if x != y { CountDisjoint(votes, x, y); }
  }

  lemma MajorityVotes(votes: seq<Word>, x: Word)
    requires Majority(votes, x)
    ensures x in votes
  {
    CountBound(votes, x);
  }

  /** The rule never elects two words. */
  lemma ElectsUnique(votes: seq<Word>, x: Word, y: Word)
    requires Elects(votes, x) && Elects(votes, y)
    ensures x == y
  {
    if Majority(votes, x) && Majority(votes, y) {
      MajorityUnique(votes, x, y);
    }
  }

  lemma {:induction false} LeastExists(votes: seq<Word>) returns (x: Word)
    requires votes != []
    ensures x in votes && Least(votes, x)
  {
    x := votes[0];
    if |votes| > 1 {
      var y := LeastExists(votes[1..]);
      assert forall v :: v in votes ==> v == votes[0] || v in votes[1..];
      if y < x { x := y; }
    }
  }

  /** The rule always elects a word somebody wrote. */
  lemma ElectsExists(votes: seq<Word>) returns (x: Word)
    requires votes != []
    ensures Elects(votes, x)
  {
    if Split(votes) {
      x := LeastExists(votes);
    } else {
      x :| x in votes && Majority(votes, x);
    }
  }

  /** A client that sees every first-written word as it was decides exactly as the rule does. */
  lemma ClassifyMeetsRule(votes: seq<Word>, mine: Word)
    requires votes != []
    ensures Classify(votes, mine) in {WinAll, WinMajor} <==> Majority(votes, mine)
    ensures Classify(votes, mine) == Undecided ==>
              (Elects(votes, mine) <==> Least(votes, mine))
    ensures Classify(votes, mine) == Fail ==> !Elects(votes, mine)
    ensures Classify(votes, mine) !in {WinLittle, Finish}
  {
    Unanimous(votes, mine);
    CountBound(votes, mine);
    if !Split(votes) && !Majority(votes, mine) {
      var x :| x in votes && Majority(votes, x);
    }
  }

  // The ordered map `win_addr_cnt`: (word, count) entries, ascending by word.

  type Tally = seq<(Word, nat)>

  ghost predicate Ascending(t: Tally) {
    forall i, j :: 0 <= i < j < |t| ==> t[i].0 < t[j].0
  }

  /** `t` counts exactly the words of `votes`. */
  ghost predicate Tallies(t: Tally, votes: seq<Word>) {
    && Ascending(t)
    && (forall i :: 0 <= i < |t| ==> t[i].0 in votes && t[i].1 == Count(votes, t[i].0))
    && (forall v :: v in votes ==> exists i :: 0 <= i < |t| && t[i].0 == v)
  }

  lemma CountGrown(votes: seq<Word>, key: Word, x: Word)
    ensures Count(votes + [key], x) == Count(votes, x) + if x == key then 1 else 0
  {
    assert (votes + [key])[..|votes|] == votes;
  }

  lemma BumpExisting(t: Tally, k: nat, votes: seq<Word>)
    requires Tallies(t, votes) && k < |t|
    ensures Tallies(t[k := (t[k].0, t[k].1 + 1)], votes + [t[k].0])
  {
    var key := t[k].0;
    var r := t[k := (key, t[k].1 + 1)];
    assert forall i :: 0 <= i < |t| ==> r[i].0 == t[i].0;
    forall i | 0 <= i < |r| ensures r[i].1 == Count(votes + [key], r[i].0) {
      CountGrown(votes, key, t[i].0);
    }
    forall v | v in votes + [key] ensures exists i :: 0 <= i < |r| && r[i].0 == v {
      assert v in votes;
      var i :| 0 <= i < |t| && t[i].0 == v;
      assert r[i].0 == v;
    }
  }

  lemma InsertAscending(t: Tally, k: nat, e: (Word, nat))
    requires Ascending(t) && k <= |t|
    requires forall i :: 0 <= i < k ==> t[i].0 < e.0
    requires forall i :: k <= i < |t| ==> e.0 < t[i].0
    ensures Ascending(t[..k] + [e] + t[k..])
  {
    var r := t[..k] + [e] + t[k..];
    forall i, j | 0 <= i < j < |r| ensures r[i].0 < r[j].0 {
      assert i < k ==> r[i] == t[i];
      assert i > k ==> r[i] == t[i - 1];
      assert j < k ==> r[j] == t[j];
      assert j > k ==> r[j] == t[j - 1];
    }
  }

  lemma BumpFresh(t: Tally, k: nat, key: Word, votes: seq<Word>)
    requires Tallies(t, votes) && k <= |t|
    requires forall i :: 0 <= i < k ==> t[i].0 < key
    requires forall i :: k <= i < |t| ==> key < t[i].0
    ensures Tallies(t[..k] + [(key, 1)] + t[k..], votes + [key])
  {
    var r, grown := t[..k] + [(key, 1)] + t[k..], votes + [key];
    InsertAscending(t, k, (key, 1));
    assert Count(votes, key) == 0 by {
      assert key !in votes;
      CountBound(votes, key);
    }
    forall i | 0 <= i < |r| ensures r[i].0 in grown && r[i].1 == Count(grown, r[i].0) {
      assert r[i] == if i < k then t[i] else if i == k then (key, 1) else t[i - 1];
      InsertedCounts(r[i], votes, key);
    }
    forall v | v in grown ensures exists i :: 0 <= i < |r| && r[i].0 == v {
      InsertedFinds(t, k, key, votes, v);
    }
  }

  lemma InsertedCounts(e: (Word, nat), votes: seq<Word>, key: Word)
    requires if e.0 == key then e.1 == 1 && Count(votes, key) == 0 else e.0 in votes && e.1 == Count(votes, e.0)
    ensures e.0 in votes + [key] && e.1 == Count(votes + [key], e.0)
  {
    CountGrown(votes, key, e.0);
  }

  lemma InsertedFinds(t: Tally, k: nat, key: Word, votes: seq<Word>, v: Word)
    requires k <= |t| && v in votes + [key]
    requires forall v :: v in votes ==> exists i :: 0 <= i < |t| && t[i].0 == v
    ensures var r := t[..k] + [(key, 1)] + t[k..]; exists i :: 0 <= i < |r| && r[i].0 == v
  {
    var r := t[..k] + [(key, 1)] + t[k..];
    if v == key {
      assert r[k].0 == v;
    } else {
      assert v in votes;
      var i :| 0 <= i < |t| && t[i].0 == v;
      assert r[if i < k then i else i + 1].0 == v;
    }
  }

  /** `win_addr_cnt[key] ++` */
  method Bump(t: Tally, key: Word, ghost votes: seq<Word>) returns (r: Tally)
    requires Tallies(t, votes)
    ensures Tallies(r, votes + [key])
  {
    var k := 0;
    while k < |t| && t[k].0 < key
      invariant 0 <= k <= |t|
      invariant forall i :: 0 <= i < k ==> t[i].0 < key
    {
      k := k + 1;
    }
    if k < |t| && t[k].0 == key {
      BumpExisting(t, k, votes);
      r := t[k := (key, t[k].1 + 1)];
    } else {
      BumpFresh(t, k, key, votes);
      r := t[..k] + [(key, 1)] + t[k..];
    }
  }

  function Smaller(a: Word, b: Word): Word {
    if b < a then b else a
  }

  /** The map's largest count, found by the ascending scan, and its smallest key. */
  method ScanTally(t: Tally, ghost votes: seq<Word>) returns (maj: Word, vote: nat, min: Word)
    requires votes != [] && Tallies(t, votes)
    ensures maj in votes && vote == Count(votes, maj)
    ensures forall v :: v in votes ==> Count(votes, v) <= vote
    ensures min in votes && Least(votes, min)
  {
    assert votes[0] in votes;
    assert |t| > 0;
    maj, vote, min := t[0].0, t[0].1, t[0].0;
    var k := 1;
    while k < |t|
      invariant 1 <= k <= |t|
      invariant maj in votes && vote == Count(votes, maj)
      invariant forall i :: 0 <= i < k ==> t[i].1 <= vote
      invariant min == t[0].0
    {
      if t[k].1 > vote {
        maj, vote := t[k].0, t[k].1;
      }
      min := Smaller(min, t[k].0);
      k := k + 1;
    }
  }

  /** One backup compare-and-swap to repeat: the backup's position and the word now expected there. */
  datatype Retry = Retry(backup: nat, orig: Word)

  /** A swap for each backup that another update holds, expecting that update's word, in order; and no other. */
  ghost predicate Owed(retries: seq<Retry>, backs: seq<Word>, orig: Word, mine: Word) {
    && (forall i :: 0 <= i < |retries| ==>
          && retries[i].backup < |backs| && retries[i].orig == backs[retries[i].backup]
          && retries[i].orig != orig && retries[i].orig != mine)
    && (forall k :: 0 <= k < |backs| && backs[k] != orig && backs[k] != mine ==> OnList(retries, k))
    && (forall i, j :: 0 <= i < j < |retries| ==> retries[i].backup < retries[j].backup)
  }

  ghost predicate OnList(retries: seq<Retry>, k: nat) {
    exists i :: 0 <= i < |retries| && retries[i].backup == k
  }

  lemma OwedNext(retries: seq<Retry>, backs: seq<Word>, orig: Word, mine: Word)
    requires backs != [] && Owed(retries, backs[..|backs| - 1], orig, mine)
    ensures var k := |backs| - 1;
            Owed(if backs[k] == orig || backs[k] == mine then retries else retries + [Retry(k, backs[k])],
                 backs, orig, mine)
  {
    var k := |backs| - 1;
    var before, after := backs[..k], if backs[k] == orig || backs[k] == mine then retries else retries + [Retry(k, backs[k])];
    forall m | 0 <= m < |backs| && backs[m] != orig && backs[m] != mine ensures OnList(after, m) {
      if m == k {
        assert after[|retries|].backup == m;
      } else {
        assert before[m] == backs[m] && OnList(retries, m);
        var i :| 0 <= i < |retries| && retries[i].backup == m;
        assert after[i].backup == m;
      }
    }
  }

  /** A compare-and-swap of backup `r.backup`. */
  function SwapAt(words: seq<Word>, r: Retry, mine: Word): seq<Word> {
    if r.backup < |words| && words[r.backup] == r.orig then words[r.backup := mine] else words
  }

  /** The backups' words after the first `n` swaps. */
  function AfterSwaps(words: seq<Word>, retries: seq<Retry>, n: nat, mine: Word): seq<Word>
    requires n <= |retries|
  {
    if n == 0 then words else SwapAt(AfterSwaps(words, retries, n - 1, mine), retries[n - 1], mine)
  }

  /** Backup `k` is repaired by one of the first `n` swaps. */
  ghost predicate SwappedBefore(retries: seq<Retry>, n: nat, k: nat)
    requires n <= |retries|
  {
    exists i :: 0 <= i < n && retries[i].backup == k
  }

  lemma {:induction false} RepairsSoFar(retries: seq<Retry>, backs: seq<Word>, orig: Word, mine: Word, n: nat)
    requires Owed(retries, backs, orig, mine) && n <= |retries|
    ensures |AfterSwaps(Votes(backs, orig, mine), retries, n, mine)| == |backs|
    ensures forall k :: 0 <= k < |backs| ==>
              AfterSwaps(Votes(backs, orig, mine), retries, n, mine)[k]
                == if SwappedBefore(retries, n, k) then mine else Votes(backs, orig, mine)[k]
  {
    if n > 0 {
      RepairsSoFar(retries, backs, orig, mine, n - 1);
      var r := retries[n - 1];
      assert !SwappedBefore(retries, n - 1, r.backup);
      forall k | 0 <= k < |backs|
        ensures SwappedBefore(retries, n, k) <==> SwappedBefore(retries, n - 1, k) || k == r.backup
      {
        if k == r.backup { assert retries[n - 1].backup == k; }
      }
    }
  }

  /**
   What the list is for: made in order on the words the first round left, every swap finds the word
   it expects, and then every backup holds `mine`.
  */
  lemma RetriesRepair(retries: seq<Retry>, backs: seq<Word>, orig: Word, mine: Word)
    requires Owed(retries, backs, orig, mine)
    ensures forall i :: 0 <= i < |retries| ==>
              var words := AfterSwaps(Votes(backs, orig, mine), retries, i, mine);
              retries[i].backup < |words| && words[retries[i].backup] == retries[i].orig
    ensures AfterSwaps(Votes(backs, orig, mine), retries, |retries|, mine) == seq(|backs|, _ => mine)
  {
    forall i | 0 <= i < |retries|
      ensures var words := AfterSwaps(Votes(backs, orig, mine), retries, i, mine);
              retries[i].backup < |words| && words[retries[i].backup] == retries[i].orig
    {
      RepairsSoFar(retries, backs, orig, mine, i);
      assert !SwappedBefore(retries, i, retries[i].backup);
    }
    RepairsSoFar(retries, backs, orig, mine, |retries|);
    forall k | 0 <= k < |backs| && Votes(backs, orig, mine)[k] != mine ensures SwappedBefore(retries, |retries|, k) {
      assert OnList(retries, k);
    }
  }

  /** Counts the votes, and lists the backups that did not take `mine`. */
  method TallyVotes(backs: seq<Word>, orig: Word, mine: Word) returns (cnt: Tally, retries: seq<Retry>)
    ensures Tallies(cnt, Votes(backs, orig, mine)) && Owed(retries, backs, orig, mine)
  {
    ghost var votes := Votes(backs, orig, mine);
    cnt, retries := [], [];
    for i := 0 to |backs|
      invariant Tallies(cnt, votes[..i])
      invariant Owed(retries, backs[..i], orig, mine)
    {
      var back := backs[i];
      assert backs[..i + 1][..i] == backs[..i];
      assert votes[..i + 1] == votes[..i] + [votes[i]];
      OwedNext(retries, backs[..i + 1], orig, mine);
      if back == orig || back == mine {
        cnt := Bump(cnt, mine, votes[..i]);
      } else {
        cnt := Bump(cnt, back, votes[..i]);
        retries := retries + [Retry(i, back)];
      }
    }
    assert votes[..|backs|] == votes && backs[..|backs|] == backs;
  }

  lemma MajorityDecides(votes: seq<Word>, maj: Word, mine: Word)
    requires Majority(votes, maj)
    ensures maj == mine ==> Classify(votes, mine) == if forall v :: v in votes ==> v == mine then WinAll else WinMajor
    ensures maj != mine ==> Classify(votes, mine) == Fail
  {
    CountBound(votes, maj);
    Unanimous(votes, mine);
    if Majority(votes, mine) { MajorityUnique(votes, maj, mine); }
  }

  /**
   `check_cas_consensus_0`: tally the returned words, collect the retries and classify.
   `primary` is the word the extra read of the primary returns, if it is made.
  */
  method CheckCasConsensus0(backs: seq<Word>, orig: Word, mine: Word, primary: Word)
    returns (state: Decision, retries: seq<Retry>)
    requires backs != []
    ensures Owed(retries, backs, orig, mine)
    ensures var votes := Votes(backs, orig, mine);
            state == if Classify(votes, mine) == Undecided
                     then Resolve(votes, mine, orig, primary)
                     else Classify(votes, mine)
  {
    ghost var votes := Votes(backs, orig, mine);
    var cnt;
    cnt, retries := TallyVotes(backs, orig, mine);
    var maj, vote, min := ScanTally(cnt, votes);
    CountBound(votes, maj);
    Unanimous(votes, mine);
    if vote == |backs| {
      assert votes[0] == maj && Majority(votes, maj);
      MajorityDecides(votes, maj, mine);
      state := if maj == mine then WinAll else Fail;
    } else if 2 * vote > |backs| {
      MajorityDecides(votes, maj, mine);
      state := if maj == mine then WinMajor else Fail;
    } else {
      assert Split(votes);
      var mineVotes := LookUp(cnt, mine, votes);
      CountBound(votes, mine);
      if mineVotes == 0 {
        state := Fail;
      } else if primary != orig {
        state := Finish;
      } else {
        state := if min == mine then WinLittle else Fail;
      }
    }
  }

  /** `win_addr_cnt[key]`, zero when absent. */
  method LookUp(t: Tally, key: Word, ghost votes: seq<Word>) returns (n: nat)
    requires Tallies(t, votes)
    ensures n == Count(votes, key)
  {
    CountBound(votes, key);
    n := 0;
    for i := 0 to |t|
      invariant forall j :: 0 <= j < i ==> t[j].0 != key
    {
      if t[i].0 == key { return t[i].1; }
    }
  }

  /** `check_cas_consensus_1`: 0 when every repeated swap found the word it expected. */
  method CheckCasConsensus1(retries: seq<Retry>, backs: seq<Word>) returns (ret: int)
    requires |retries| == |backs|
    ensures ret == 0 <==> forall i :: 0 <= i < |backs| ==> backs[i] == retries[i].orig
    ensures ret == 0 || ret == 1
  {
    for i := 0 to |backs|
      invariant forall j :: 0 <= j < i ==> backs[j] == retries[j].orig
    {
      if backs[i] != retries[i].orig { return 1; }
    }
    return 0;
  }
}
