/** Several queues drained into one, in turns: the merge of `init_reg_space` and the drain of `mm_recover_mm_blocks`. */
module Queues {
  import opened Common
  import opened Arithmetic

  /** What the queues hold together. */
  ghost function Bag<T>(queues: seq<seq<T>>): multiset<T> {
    if queues == [] then multiset{}
    else Bag(queues[..|queues| - 1]) + multiset(queues[|queues| - 1])
  }

  lemma {:induction false} BagPop<T>(queues: seq<seq<T>>, q: nat)
    requires q < |queues| && queues[q] != []
    ensures Bag(queues) == Bag(queues[q := queues[q][1..]]) + multiset{queues[q][0]}
  {
    var n := |queues| - 1;
    var after := queues[q := queues[q][1..]];
    assert queues[q] == [queues[q][0]] + queues[q][1..];
    if q < n {
      BagPop(queues[..n], q);
      assert after[..n] == queues[..n][q := queues[q][1..]];
    } else {
      assert after[..n] == queues[..n];
    }
  }

  lemma {:induction false} BagPush<T>(queues: seq<seq<T>>, q: nat, x: T)
    requires q < |queues|
    ensures Bag(queues[q := queues[q] + [x]]) == Bag(queues) + multiset{x}
  {
    var n := |queues| - 1;
    var after := queues[q := queues[q] + [x]];
    if q < n {
      BagPush(queues[..n], q, x);
      assert after[..n] == queues[..n][q := queues[q] + [x]];
    } else {
      assert after[..n] == queues[..n];
    }
  }

  lemma {:induction false} BagEmpty<T>(queues: seq<seq<T>>)
    requires forall q :: 0 <= q < |queues| ==> queues[q] == []
    ensures Bag(queues) == multiset{}
  {
    if queues != [] { BagEmpty(queues[..|queues| - 1]); }
  }

  /** Queues of equal length `d`. */
  ghost predicate Level<T>(qs: seq<seq<T>>, d: nat) {
    forall m :: 0 <= m < |qs| ==> |qs[m]| == d
  }

  /** `queues` is `qs` after `r` full rounds of pops and `q` pops of the next round. */
  ghost predicate Popped<T>(qs: seq<seq<T>>, queues: seq<seq<T>>, d: nat, r: nat, q: nat)
    requires Level(qs, d)
  {
    && |queues| == |qs| && r <= d && (0 < q ==> r < d)
    && forall m :: 0 <= m < |qs| ==> queues[m] == qs[m][if m < q then r + 1 else r..]
  }

  lemma PopNext<T>(qs: seq<seq<T>>, queues: seq<seq<T>>, d: nat, r: nat, q: nat)
    requires Level(qs, d) && Popped(qs, queues, d, r, q) && q < |qs| && r < d
    ensures queues[q] != [] && queues[q][0] == qs[q][r]
    ensures Popped(qs, queues[q := queues[q][1..]], d, r, q + 1)
    ensures q + 1 == |qs| ==> Popped(qs, queues[q := queues[q][1..]], d, r + 1, 0)
  {
  }

  /** Pop number `i` of a merge of `m` queues is pop `q` of round `r`. */
  ghost predicate IsPop(i: nat, m: nat, r: nat, q: nat) {
    q < m && i == r * m + q
  }

  lemma PopAt(i: nat, m: nat, d: nat, r: nat, q: nat) returns (r': nat, q': nat)
    requires IsPop(i, m, r, q) && i < m * d
    ensures i % m == q && Div(i, m) == r < d
    ensures r' == (if q + 1 == m then r + 1 else r) && q' == if q + 1 == m then 0 else q + 1
    ensures IsPop(i + 1, m, r', q')
  {
    DivMod(i, r, q, m);
    if d <= r { MulAtMost(d, r, m); }
    assert (r + 1) * m == r * m + m;
    r', q' := if q + 1 == m then r + 1 else r, if q + 1 == m then 0 else q + 1;
  }

  lemma LastPop(m: nat, d: nat, r: nat, q: nat)
    requires IsPop(m * d, m, r, q)
    ensures q == 0 && r == d
  {
    DivMod(m * d, r, q, m);
    DivMod(m * d, d, 0, m);
  }

  /** Pop `q` of round `r` brought `x`. */
  ghost predicate At<T>(merged: seq<T>, m: nat, r: nat, q: nat, x: T) {
    r * m + q < |merged| && merged[r * m + q] == x
  }

  /** Every pop before pop `q` of round `r` took the head of its queue. */
  ghost predicate Filled<T>(merged: seq<T>, qs: seq<seq<T>>, d: nat, r: nat, q: nat)
    requires Level(qs, d)
  {
    forall u, v :: 0 <= u < d && 0 <= v < |qs| && (u < r || (u == r && v < q)) ==> At(merged, |qs|, u, v, qs[v][u])
  }

  lemma FilledNext<T>(merged: seq<T>, qs: seq<seq<T>>, d: nat, r: nat, q: nat, x: T)
    requires Level(qs, d) && Filled(merged, qs, d, r, q) && IsPop(|merged|, |qs|, r, q) && r < d && x == qs[q][r]
    ensures Filled(merged + [x], qs, d, r, q + 1)
    ensures q + 1 == |qs| ==> Filled(merged + [x], qs, d, r + 1, 0)
  {
    var after := merged + [x];
    forall u, v | 0 <= u < d && 0 <= v < |qs| && (u < r || (u == r && v < q + 1))
      ensures At(after, |qs|, u, v, qs[v][u])
    {
      if u == r && v == q {
        assert after[r * |qs| + q] == x;
      } else {
        assert At(merged, |qs|, u, v, qs[v][u]);
      }
    }
  }

  /** One turn of the merge loop. */
  lemma MergeStep<T>(merged: seq<T>, qs: seq<seq<T>>, queues: seq<seq<T>>, d: nat, r: nat, q: nat)
    returns (r': nat, q': nat)
    requires Level(qs, d) && IsPop(|merged|, |qs|, r, q) && |merged| < |qs| * d
    requires Popped(qs, queues, d, r, q) && Filled(merged, qs, d, r, q)
    ensures |merged| % |qs| == q < |queues| == |qs| && queues[q] != []
    ensures IsPop(|merged| + 1, |qs|, r', q') && Popped(qs, queues[q := queues[q][1..]], d, r', q')
    ensures Filled(merged + [queues[q][0]], qs, d, r', q')
    ensures Bag(queues) == Bag(queues[q := queues[q][1..]]) + multiset{queues[q][0]}
  {
    r', q' := PopAt(|merged|, |qs|, d, r, q);
    PopNext(qs, queues, d, r, q);
    FilledNext(merged, qs, d, r, q, queues[q][0]);
    BagPop(queues, q);
  }

  /**
   The merge of `init_reg_space`: pops go round the queues, every queue ends empty, and the result
   holds exactly what the queues held.
  */
  method Merge<T>(qs: seq<seq<T>>, d: nat) returns (merged: seq<T>)
    requires qs != [] && Level(qs, d)
    ensures |merged| == |qs| * d && multiset(merged) == Bag(qs)
    ensures Filled(merged, qs, d, d, 0)
  {
    var queues := qs;
    merged := [];
    ghost var r, q: nat := 0, 0;
    for i := 0 to |qs| * d
      invariant |merged| == i && IsPop(i, |qs|, r, q) && Popped(qs, queues, d, r, q)
      invariant Filled(merged, qs, d, r, q)
      invariant multiset(merged) + Bag(queues) == Bag(qs)
    {
      r, q := MergeStep(merged, qs, queues, d, r, q);
      var id := i % |qs|;
      merged := merged + [queues[id][0]];
      queues := queues[id := queues[id][1..]];
    }
    LastPop(|qs|, d, r, q);
    BagEmpty(queues);
  }

  /** Together `free` and the queues hold `head` and what `qs` held. */
  ghost predicate Moving<T>(free: seq<T>, queues: seq<seq<T>>, head: T, qs: seq<seq<T>>) {
    multiset(free) + Bag(queues) == multiset{head} + Bag(qs)
  }

  lemma PopMoves<T>(free: seq<T>, queues: seq<seq<T>>, i: nat, head: T, qs: seq<seq<T>>)
    requires Moving(free, queues, head, qs) && i < |queues| && queues[i] != []
    ensures Moving(free + [queues[i][0]], queues[i := queues[i][1..]], head, qs)
    ensures |Bag(queues[i := queues[i][1..]])| < |Bag(queues)|
  {
    BagPop(queues, i);
  }

  /** One round: a pop from every queue that has something left. */
  method DrainRound<T>(free: seq<T>, queues: seq<seq<T>>, ghost head: T, ghost qs: seq<seq<T>>)
    returns (free': seq<T>, queues': seq<seq<T>>, needStop: bool)
    requires free != [] && Moving(free, queues, head, qs)
    ensures free <= free' && Moving(free', queues', head, qs)
    ensures needStop ==> forall q :: 0 <= q < |queues'| ==> queues'[q] == []
    ensures !needStop ==> |Bag(queues')| < |Bag(queues)|
  {
    free', queues', needStop := free, queues, true;
    for i := 0 to |queues|
      invariant |queues'| == |queues| && free <= free' && Moving(free', queues', head, qs)
      invariant needStop ==> queues' == queues && forall m :: 0 <= m < i ==> queues[m] == []
      invariant !needStop ==> |Bag(queues')| < |Bag(queues)|
    {
      if |queues'[i]| > 0 {
        PopMoves(free', queues', i, head, qs);
        free', queues', needStop := free' + [queues'[i][0]], queues'[i := queues'[i][1..]], false;
      }
    }
  }

  /**
   The drain of `mm_recover_mm_blocks`: rounds over all queues until one finds nothing.  It ends,
   and `head` followed by some order of everything queued comes out.
  */
  method Drain<T>(qs: seq<seq<T>>, head: T) returns (free: seq<T>)
    ensures free != [] && free[0] == head && multiset(free) == multiset{head} + Bag(qs)
  {
    var queues := qs;
    free := [head];
    while true
      invariant free != [] && free[0] == head && Moving(free, queues, head, qs)
      decreases |Bag(queues)|
    {
      var needStop;
      free, queues, needStop := DrainRound(free, queues, head, qs);
      if needStop {
        BagEmpty(queues);
        return;
      }
    }
  }
}
