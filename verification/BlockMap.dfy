/**
 The static map of replica groups (`get_block_map`, `get_allocable_blocks`).  The client and every
 server walk the same loop over one pointer per memory server; each turn takes one block from each
 of `replicas` neighbouring servers and calls them a group.
*/
module BlockMap {
  import opened Common
  import opened Packing
  import opened Arithmetic

  /** What client and servers share: the block area of every server is `[base, limit)`. */
  datatype Config = Config(memories: nat, replicas: nat, base: nat, limit: nat, size: nat)

  predicate Sane(c: Config) {
    1 <= c.memories <= 256 && 1 <= c.replicas && 0 < c.size && c.base <= c.limit
  }

  /** Whole blocks per server. */
  function Blocks(c: Config): nat
    requires Sane(c)
  {
    Div(c.limit - c.base, c.size)
  }

  /** `num_rep_blocks` */
  function GroupCount(c: Config): nat
    requires Sane(c)
  {
    Div(Blocks(c) * c.memories, c.replicas)
  }

  /** A group starts at server `first`; `addrs[i]` is its block on the `i`-th server from there. */
  datatype Group = Group(first: nat, addrs: seq<nat>)

  datatype State = State(groups: seq<Group>, ptr: seq<nat>)

  function Sid(c: Config, first: nat, i: nat): (s: Byte)
    requires Sane(c)
    ensures s < c.memories
  {
    (first + i) % c.memories
  }

  /** The server after `st`. */
  function Next(c: Config, st: nat): (r: nat)
    requires Sane(c) && st < c.memories
    ensures r == if st + 1 == c.memories then 0 else st + 1
  {
    (st + 1) % c.memories
  }

  /** The next server, from `st` on, whose area is not used up; `k` bounds the search. */
  function Skip(c: Config, ptr: seq<nat>, st: nat, k: nat): (r: nat)
    requires Sane(c) && |ptr| == c.memories && st < c.memories
    ensures r < c.memories
    decreases k
  {
    if k == 0 || ptr[st] != c.limit then st else Skip(c, ptr, Next(c, st), k - 1)
  }

  /** The first `n` blocks of a group from server `st` on; none if a server has no room. */
  function Fill(c: Config, ptr: seq<nat>, st: nat, n: nat): (r: Option<(seq<nat>, seq<nat>)>)
    requires Sane(c) && |ptr| == c.memories
    ensures r.Some? ==> |r.value.0| == n && |r.value.1| == c.memories
  {
    if n == 0 then Some(([], ptr))
    else
      match Fill(c, ptr, st, n - 1)
      case None => None
      case Some((addrs, p)) =>
        var sid := Sid(c, st, n - 1);
        if p[sid] >= c.limit || p[sid] % 2 == 1 then None   // the alignment test keeps one bit only
        else Some((addrs + [p[sid]], p[sid := p[sid] + c.size]))
  }

  /** One turn of the loop: the `cnt`-th group. */
  function Turn(c: Config, s: State, cnt: nat): (r: Option<State>)
    requires Sane(c) && |s.ptr| == c.memories
    ensures r.Some? ==> |r.value.groups| == |s.groups| + 1 && |r.value.ptr| == c.memories
  {
    var st := Skip(c, s.ptr, cnt % c.memories, c.memories);
    match Fill(c, s.ptr, st, c.replicas)
    case None => None
    case Some((addrs, p)) => Some(State(s.groups + [Group(st, addrs)], p))
  }

  /** The first `n` groups; none when the loop takes an error exit. */
  function Mapped(c: Config, n: nat): (r: Option<State>)
    requires Sane(c)
    ensures r.Some? ==> |r.value.groups| == n && |r.value.ptr| == c.memories
  {
    if n == 0 then Some(State([], seq(c.memories, i => c.base)))
    else
      match Mapped(c, n - 1)
      case None => None
      case Some(s) => Turn(c, s, n - 1)
  }

  // The skip loop terminates: the pointers never all stand at the limit while groups are missing.

  function Sum(s: seq<nat>): nat {
    if s == [] then 0 else Sum(s[..|s| - 1]) + s[|s| - 1]
  }

  lemma {:induction false} SumUpdate(s: seq<nat>, i: nat, v: nat)
    requires i < |s|
    ensures Sum(s[i := v]) == Sum(s) - s[i] + v
  {
    var t := s[i := v];
    if i == |s| - 1 {
      assert t[..|t| - 1] == s[..|s| - 1];
    } else {
      assert t[..|t| - 1] == s[..|s| - 1][i := v];
      SumUpdate(s[..|s| - 1], i, v);
    }
  }

  lemma {:induction false} SumConstant(s: seq<nat>, v: nat)
    requires forall i :: 0 <= i < |s| ==> s[i] == v
    ensures Sum(s) == |s| * v
  {
    if s != [] {
      SumConstant(s[..|s| - 1], v);
      assert |s| * v == (|s| - 1) * v + v;
    }
  }

  lemma {:induction false} FillSum(c: Config, ptr: seq<nat>, st: nat, n: nat)
    requires Sane(c) && |ptr| == c.memories && Fill(c, ptr, st, n).Some?
    ensures Sum(Fill(c, ptr, st, n).value.1) == Sum(ptr) + n * c.size
  {
    if n > 0 {
      FillSum(c, ptr, st, n - 1);
      var p := Fill(c, ptr, st, n - 1).value.1;
      var sid := Sid(c, st, n - 1);
      SumUpdate(p, sid, p[sid] + c.size);
      MulNext(n - 1, c.size);
    }
  }

  lemma {:induction false} MappedSum(c: Config, n: nat)
    requires Sane(c) && Mapped(c, n).Some?
    ensures Sum(Mapped(c, n).value.ptr) == c.memories * c.base + n * (c.replicas * c.size)
  {
    if n == 0 {
      SumConstant(Mapped(c, 0).value.ptr, c.base);
    } else {
      MappedSum(c, n - 1);
      var s := Mapped(c, n - 1).value;
      FillSum(c, s.ptr, Skip(c, s.ptr, (n - 1) % c.memories, c.memories), c.replicas);
      assert n * (c.replicas * c.size) == (n - 1) * (c.replicas * c.size) + c.replicas * c.size;
    }
  }

  /** A group has its first member on the server it starts at. */
  lemma SidFirst(c: Config, first: nat)
    requires Sane(c) && first < c.memories
    ensures Sid(c, first, 0) == first
  {
    DivMod(first, 0, first, c.memories);
  }

  /** Fewer blocks are handed out than exist. */
  lemma BlocksLeft(c: Config, n: nat)
    requires Sane(c) && n < GroupCount(c)
    ensures c.memories * c.base + n * (c.replicas * c.size) < c.memories * c.limit
  {
    var b, m, r, z, len := Blocks(c), c.memories, c.replicas, c.size, c.limit - c.base;
    calc {
      n * (r * z);
    == n * r * z;
    < { MulLess(n, GroupCount(c), r); MulLess(n * r, GroupCount(c) * r, z); }
      GroupCount(c) * r * z;
    <= { DivBelow(b * m, r); MulAtMost(GroupCount(c) * r, b * m, z); }
      b * m * z;
    == b * z * m;
    <= { DivBelow(len, z); MulAtMost(b * z, len, m); }
      len * m;
    == m * c.limit - m * c.base;
    }
  }

  lemma RoomSomewhere(c: Config, n: nat)
    requires Sane(c) && n < GroupCount(c) && Mapped(c, n).Some?
    ensures exists t :: 0 <= t < c.memories && Mapped(c, n).value.ptr[t] != c.limit
  {
    var ptr := Mapped(c, n).value.ptr;
    if forall t :: 0 <= t < c.memories ==> ptr[t] == c.limit {
      SumConstant(ptr, c.limit);
      MappedSum(c, n);
      BlocksLeft(c, n);
      assert false;
    }
  }

  /** Turns of the skip loop until server `t`. */
  function Distance(c: Config, st: nat, t: nat): nat
    requires Sane(c) && st < c.memories && t < c.memories
  {
    if st <= t then t - st else t + c.memories - st
  }

  method SkipFull(c: Config, ptr: seq<nat>, from: nat, ghost t: nat) returns (st: nat)
    requires Sane(c) && |ptr| == c.memories && from < c.memories
    requires t < c.memories && ptr[t] != c.limit
    ensures st == Skip(c, ptr, from, c.memories) && ptr[st] != c.limit
  {
    st := from;
    ghost var k := c.memories;
    while ptr[st] == c.limit
      invariant st < c.memories && Distance(c, st, t) < k
      invariant Skip(c, ptr, st, k) == Skip(c, ptr, from, c.memories)
      decreases Distance(c, st, t)
    {
      st := Next(c, st);
      k := k - 1;
    }
  }

  method FillGroup(c: Config, ptr: seq<nat>, st: nat) returns (r: Option<(seq<nat>, seq<nat>)>)
    requires Sane(c) && |ptr| == c.memories
    ensures r == Fill(c, ptr, st, c.replicas)
  {
    var addrs, p := [], ptr;
    for i := 0 to c.replicas
      invariant Fill(c, ptr, st, i) == Some((addrs, p))
    {
      var sid := (st + i) % c.memories;
      if p[sid] >= c.limit || p[sid] % 2 == 1 {
        FillStops(c, ptr, st, i + 1, c.replicas);
        return None;
      }
      addrs, p := addrs + [p[sid]], p[sid := p[sid] + c.size];
    }
    return Some((addrs, p));
  }

  lemma {:induction false} FillStops(c: Config, ptr: seq<nat>, st: nat, i: nat, n: nat)
    requires Sane(c) && |ptr| == c.memories && i <= n && Fill(c, ptr, st, i).None?
    ensures Fill(c, ptr, st, n).None?
  {
    if i < n { FillStops(c, ptr, st, i, n - 1); }
  }

  lemma {:induction false} MappedStops(c: Config, i: nat, n: nat)
    requires Sane(c) && i <= n && Mapped(c, i).None?
    ensures Mapped(c, n).None?
  {
    if i < n { MappedStops(c, i, n - 1); }
  }

  /** The shared loop, run to the end. */
  method MapGroups(c: Config) returns (r: Option<State>)
    requires Sane(c)
    ensures r == Mapped(c, GroupCount(c))
  {
    var s := State([], seq(c.memories, i => c.base));
    for cnt := 0 to GroupCount(c)
      invariant Mapped(c, cnt) == Some(s)
    {
      RoomSomewhere(c, cnt);
      ghost var t :| 0 <= t < c.memories && s.ptr[t] != c.limit;
      var st := SkipFull(c, s.ptr, cnt % c.memories, t);
      var filled := FillGroup(c, s.ptr, st);
      if filled.None? {
        MappedStops(c, cnt + 1, GroupCount(c));
        return None;
      }
      s := State(s.groups + [Group(st, filled.value.0)], filled.value.1);
    }
    return Some(s);
  }
}
