/**
 The replica groups tile the servers' blocks: when `replicas <= memories` and `replicas` divides
 the blocks per server, the mapping loop never takes an error exit and every block of every server
 belongs to exactly one group.
*/
module BlockTiling {
  import opened Common
  import opened Packing
  import opened Arithmetic
  import opened BlockMap

  predicate Tileable(c: Config) {
    && Sane(c) && c.replicas <= c.memories
    && Blocks(c) % c.replicas == 0
    && c.base % 2 == 0 && c.size % 2 == 0
  }

  /** Block number `sweep * replicas + slot` of server `sid`. */
  datatype Place = Place(sid: nat, sweep: nat, slot: nat)

  function Block(c: Config, at: Place): nat {
    at.sweep * c.replicas + at.slot
  }

  /** Where block number `b` of server `s` is. */
  function At(c: Config, s: nat, b: nat): (at: Place)
    requires Sane(c)
    ensures at.slot < c.replicas && Block(c, at) == b
  {
    Place(s, Div(b, c.replicas), b % c.replicas)
  }

  /** Within one sweep over the starts `0 .. memories`, how many starts before `p` take a block of server `s`. */
  function Hits(c: Config, s: nat, p: nat): nat
    requires Sane(c) && c.replicas <= c.memories && s < c.memories && p <= c.memories
  {
    var lo := if s + 1 >= c.replicas then s + 1 - c.replicas else 0;
    var direct := if p <= lo then 0 else if p <= s then p - lo else s + 1 - lo;
    var wrap := c.memories + 1 + s - c.replicas;
    direct + if s + 1 < c.replicas && p > wrap then p - wrap else 0
  }

  /** Does the group starting at `p` reach server `s`? */
  predicate Reaches(c: Config, p: nat, s: nat)
    requires Sane(c) && p < c.memories && s < c.memories
  {
    Distance(c, p, s) < c.replicas
  }

  lemma SidDistance(c: Config, p: nat, i: nat)
    requires Sane(c) && p < c.memories && i < c.memories
    ensures Sid(c, p, i) == if p + i < c.memories then p + i else p + i - c.memories
    ensures Distance(c, p, Sid(c, p, i)) == i
  {
    if p + i < c.memories {
      DivMod(p + i, 0, p + i, c.memories);
    } else {
      DivMod(p + i, 1, p + i - c.memories, c.memories);
    }
  }

  lemma HitsNext(c: Config, s: nat, p: nat)
    requires Sane(c) && c.replicas <= c.memories && s < c.memories && p < c.memories
    ensures Hits(c, s, p + 1) == Hits(c, s, p) + if Reaches(c, p, s) then 1 else 0
    ensures Hits(c, s, 0) == 0 && Hits(c, s, c.memories) == c.replicas
    ensures Reaches(c, p, s) ==> Hits(c, s, p) < c.replicas
  {
  }

  /** Blocks of server `s` in use before group `n`. */
  function Level(c: Config, s: nat, n: nat): nat
    requires Sane(c) && c.replicas <= c.memories && s < c.memories
  {
    LevelAt(c, s, Div(n, c.memories), n % c.memories)
  }

  /** Blocks of server `s` in use before start `p` of sweep `q`. */
  function LevelAt(c: Config, s: nat, q: nat, p: nat): nat
    requires Sane(c) && c.replicas <= c.memories && s < c.memories && p <= c.memories
  {
    q * c.replicas + Hits(c, s, p)
  }

  lemma LevelStep(c: Config, s: nat, q: nat, p: nat)
    requires Sane(c) && c.replicas <= c.memories && s < c.memories && p < c.memories
    ensures LevelAt(c, s, q, p + 1) == LevelAt(c, s, q, p) + if Reaches(c, p, s) then 1 else 0
    ensures LevelAt(c, s, q, c.memories) == LevelAt(c, s, q + 1, 0)
  {
    HitsNext(c, s, p);
    assert (q + 1) * c.replicas == q * c.replicas + c.replicas;
  }

  lemma LevelNext(c: Config, s: nat, n: nat)
    requires Sane(c) && c.replicas <= c.memories && s < c.memories
    ensures Level(c, s, n + 1) == Level(c, s, n) + if Reaches(c, n % c.memories, s) then 1 else 0
  {
    var q, p := Recompose(n, c.memories);
    LevelStep(c, s, q, p);
    if p + 1 < c.memories {
      DivMod(n + 1, q, p + 1, c.memories);
    } else {
      NextSweep(n, q, c.memories);
    }
  }

  lemma NextSweep(n: nat, q: nat, m: nat)
    requires 0 < m && n == q * m + m - 1
    ensures Div(n + 1, m) == q + 1 && (n + 1) % m == 0
  {
    assert (q + 1) * m == q * m + m;
    DivMod(n + 1, q + 1, 0, m);
  }

  /** The number of groups is a whole number of sweeps. */
  lemma WholeSweeps(c: Config)
    requires Tileable(c)
    ensures GroupCount(c) == Sweeps(c) * c.memories && Blocks(c) == Sweeps(c) * c.replicas
  {
    var b, r, m := Blocks(c), c.replicas, c.memories;
    var k := Sweeps(c);
    assert b == k * r;
    assert b * m == (k * m) * r by { assert k * r * m == (k * m) * r; }
    DivMod(b * m, k * m, 0, r);
  }

  function Sweeps(c: Config): nat
    requires Sane(c)
  {
    Div(Blocks(c), c.replicas)
  }

  /** Dividing by the factor of a product stays below the other factor, and the remainder fits. */
  lemma QuotientBelow(n: nat, k: nat, m: nat)
    requires 0 < m
    ensures n < k * m <==> Div(n, m) < k
  {
    DivBelow(n, m);
    if Div(n, m) < k { MulAtMost(Div(n, m) + 1, k, m); } else { MulAtMost(k, Div(n, m), m); }
  }

  lemma SweepFits(q: nat, h: nat, k: nat, r: nat)
    requires q < k && h < r
    ensures q * r + h < k * r
  {
    MulAtMost(q + 1, k, r);
    assert (q + 1) * r == q * r + r;
  }

  /** A server a group reaches still has a free block. */
  lemma LevelRoom(c: Config, s: nat, n: nat)
    requires Tileable(c) && s < c.memories && n < GroupCount(c) && Reaches(c, n % c.memories, s)
    ensures Level(c, s, n) < Blocks(c)
  {
    var q, h := Div(n, c.memories), Hits(c, s, n % c.memories);
    HitsNext(c, s, n % c.memories);
    WholeSweeps(c);
    QuotientBelow(n, Sweeps(c), c.memories);
    SweepFits(q, h, Sweeps(c), c.replicas);
  }

  /** The address of a block. */
  function Address(c: Config, block: nat): nat {
    c.base + block * c.size
  }

  lemma AddressInArea(c: Config, block: nat)
    requires Tileable(c) && block < Blocks(c)
    ensures Address(c, block) < c.limit && Address(c, block) + c.size <= c.limit
    ensures Address(c, block) % 2 == 0
  {
    DivBelow(c.limit - c.base, c.size);
    MulAtMost(block + 1, Blocks(c), c.size);
    assert (block + 1) * c.size == block * c.size + c.size;
    MulMultiple(block, c.size, 2);
  }

  /** A group of neighbouring servers with room takes one block of each. */
  lemma {:induction false} FillTakes(c: Config, ptr: seq<nat>, st: nat, n: nat)
    requires Sane(c) && |ptr| == c.memories && st < c.memories && n <= c.replicas <= c.memories
    requires forall s :: 0 <= s < c.memories && Reaches(c, st, s) ==> ptr[s] < c.limit && ptr[s] % 2 == 0
    ensures Fill(c, ptr, st, n).Some?
    ensures var (addrs, p) := Fill(c, ptr, st, n).value;
            && (forall i :: 0 <= i < n ==> addrs[i] == ptr[Sid(c, st, i)])
            && (forall s :: 0 <= s < c.memories ==> p[s] == ptr[s] + if Distance(c, st, s) < n then c.size else 0)
  {
    if n > 0 {
      FillTakes(c, ptr, st, n - 1);
      SidDistance(c, st, n - 1);
      var sid: nat := Sid(c, st, n - 1);
      assert Reaches(c, st, sid);
      forall s | 0 <= s < c.memories && s != sid ensures Distance(c, st, s) != n - 1 {}
    }
  }

  ghost predicate AtLevel(c: Config, ptr: seq<nat>, n: nat)
    requires Sane(c) && c.replicas <= c.memories && |ptr| == c.memories
  {
    forall s :: 0 <= s < c.memories ==> ptr[s] == Address(c, Level(c, s, n))
  }

  /** Group `g` starts at server `g % memories` and takes the next block of each server it reaches. */
  ghost predicate Regular(c: Config, group: Group, g: nat)
    requires Sane(c) && c.replicas <= c.memories
  {
    && group.first == g % c.memories && |group.addrs| == c.replicas
    && forall i :: 0 <= i < c.replicas ==> group.addrs[i] == Address(c, Block(c, Member(c, g, i)))
  }

  /** The `i`-th member of group `g`. */
  function Member(c: Config, g: nat, i: nat): Place
    requires Sane(c) && c.replicas <= c.memories
  {
    var s: nat := Sid(c, g % c.memories, i);
    Place(s, Div(g, c.memories), Hits(c, s, g % c.memories))
  }

  lemma RoomForTurn(c: Config, ptr: seq<nat>, n: nat)
    requires Tileable(c) && n < GroupCount(c) && |ptr| == c.memories && AtLevel(c, ptr, n)
    ensures forall t :: 0 <= t < c.memories && Reaches(c, n % c.memories, t) ==> ptr[t] < c.limit && ptr[t] % 2 == 0
  {
    forall t | 0 <= t < c.memories && Reaches(c, n % c.memories, t) ensures ptr[t] < c.limit && ptr[t] % 2 == 0 {
      LevelRoom(c, t, n);
      AddressInArea(c, Level(c, t, n));
    }
  }

  lemma RegularTurn(c: Config, s: State, n: nat)
    requires Tileable(c) && n < GroupCount(c) && |s.ptr| == c.memories && AtLevel(c, s.ptr, n)
    ensures Turn(c, s, n).Some? && AtLevel(c, Turn(c, s, n).value.ptr, n + 1)
    ensures |Turn(c, s, n).value.groups| == |s.groups| + 1 && Turn(c, s, n).value.groups[..|s.groups|] == s.groups
    ensures Regular(c, Turn(c, s, n).value.groups[|s.groups|], n)
  {
    var st := n % c.memories;
    RoomForTurn(c, s.ptr, n);
    assert Reaches(c, st, st);
    assert Skip(c, s.ptr, st, c.memories) == st;
    FillTakes(c, s.ptr, st, c.replicas);
    PointersNext(c, s.ptr, Fill(c, s.ptr, st, c.replicas).value.1, n);
  }

  lemma PointersNext(c: Config, ptr: seq<nat>, p: seq<nat>, n: nat)
    requires Sane(c) && c.replicas <= c.memories && |ptr| == |p| == c.memories && AtLevel(c, ptr, n)
    requires forall k :: 0 <= k < c.memories ==> p[k] == ptr[k] + if Reaches(c, n % c.memories, k) then c.size else 0
    ensures AtLevel(c, p, n + 1)
  {
    forall k | 0 <= k < c.memories ensures p[k] == Address(c, Level(c, k, n + 1)) {
      AddressNext(c, k, n);
    }
  }

  lemma AddressNext(c: Config, k: nat, n: nat)
    requires Sane(c) && c.replicas <= c.memories && k < c.memories
    ensures Address(c, Level(c, k, n + 1))
              == Address(c, Level(c, k, n)) + if Reaches(c, n % c.memories, k) then c.size else 0
  {
    LevelNext(c, k, n);
    MulNext(Level(c, k, n), c.size);
  }

  lemma {:induction false} RegularGroups(c: Config, n: nat)
    requires Tileable(c) && n <= GroupCount(c)
    ensures Mapped(c, n).Some? && AtLevel(c, Mapped(c, n).value.ptr, n)
    ensures forall g :: 0 <= g < n ==> Regular(c, Mapped(c, n).value.groups[g], g)
  {
    if n > 0 {
      RegularGroups(c, n - 1);
      var s := Mapped(c, n - 1).value;
      RegularTurn(c, s, n - 1);
      forall g | 0 <= g < n - 1 ensures Mapped(c, n).value.groups[g] == s.groups[g] {
        assert Mapped(c, n).value.groups[..n - 1][g] == s.groups[g];
      }
    } else {
      forall s | 0 <= s < c.memories ensures Level(c, s, 0) == 0 {
        HitsNext(c, s, 0);
        DivMod(0, 0, 0, c.memories);
      }
    }
  }

  /** Inside one sweep: server and offset name start and position, and the other way round. */
  function Start(c: Config, s: nat, d: nat): (r: (nat, nat))
    requires Sane(c) && c.replicas <= c.memories && s < c.memories && d < c.replicas
    ensures r.0 < c.memories && r.1 < c.replicas
  {
    var i := if s + 1 >= c.replicas then c.replicas - 1 - d
             else if d <= s then s - d
             else s + c.replicas - d;
    (if i <= s then s - i else s + c.memories - i, i)
  }

  /** The group and position of a block: the closed-form inverse of `Member`. */
  function Owner(c: Config, at: Place): (r: (nat, nat))
    requires Sane(c) && c.replicas <= c.memories && at.sid < c.memories && at.slot < c.replicas
    ensures r.1 < c.replicas
  {
    var (p, i) := Start(c, at.sid, at.slot);
    (at.sweep * c.memories + p, i)
  }

  lemma StartOfHit(c: Config, p: nat, i: nat)
    requires Sane(c) && i < c.replicas <= c.memories && p < c.memories
    ensures Hits(c, Sid(c, p, i), p) < c.replicas
    ensures Start(c, Sid(c, p, i), Hits(c, Sid(c, p, i), p)) == (p, i)
  {
    SidDistance(c, p, i);
  }

  lemma HitOfStart(c: Config, s: nat, d: nat)
    requires Sane(c) && c.replicas <= c.memories && s < c.memories && d < c.replicas
    ensures var (p, i) := Start(c, s, d); Sid(c, p, i) == s && Hits(c, s, p) == d
  {
    var (p, i) := Start(c, s, d);
    SidDistance(c, p, i);
  }

  /** The inverse finds the group and position a member came from. */
  lemma OwnerOfMember(c: Config, g: nat, i: nat)
    requires Sane(c) && i < c.replicas <= c.memories
    ensures Member(c, g, i).sid < c.memories && Member(c, g, i).slot < c.replicas
    ensures Owner(c, Member(c, g, i)) == (g, i)
  {
    var q, p := Recompose(g, c.memories);
    OwnerIn(c, q, p, i);
  }

  lemma OwnerIn(c: Config, q: nat, p: nat, i: nat)
    requires Sane(c) && i < c.replicas <= c.memories && p < c.memories
    ensures Hits(c, Sid(c, p, i), p) < c.replicas
    ensures Owner(c, Place(Sid(c, p, i), q, Hits(c, Sid(c, p, i), p))) == (q * c.memories + p, i)
  {
    StartOfHit(c, p, i);
  }

  /** A member is a block of its server's area. */
  lemma MemberInArea(c: Config, g: nat, i: nat)
    requires Tileable(c) && g < GroupCount(c) && i < c.replicas
    ensures Block(c, Member(c, g, i)) < Blocks(c)
  {
    SidDistance(c, g % c.memories, i);
    LevelRoom(c, Sid(c, g % c.memories, i), g);
  }

  /** The group and position the inverse names hold the block. */
  lemma MemberOfOwner(c: Config, at: Place)
    requires Sane(c) && c.replicas <= c.memories && at.sid < c.memories && at.slot < c.replicas
    ensures Member(c, Owner(c, at).0, Owner(c, at).1) == at
  {
    HitOfStart(c, at.sid, at.slot);
    DivMod(Owner(c, at).0, at.sweep, Start(c, at.sid, at.slot).0, c.memories);
  }

  /** A block of the area belongs to a group the loop builds. */
  lemma OwnerInRange(c: Config, s: nat, b: nat)
    requires Tileable(c) && s < c.memories && b < Blocks(c)
    ensures Owner(c, At(c, s, b)).0 < GroupCount(c)
  {
    WholeSweeps(c);
    QuotientBelow(b, Sweeps(c), c.replicas);
    SweepFits(Div(b, c.replicas), Start(c, s, b % c.replicas).0, Sweeps(c), c.memories);
  }

  /** The members of one group lie on distinct servers. */
  lemma DistinctServers(c: Config, g: nat, i: nat, j: nat)
    requires Tileable(c) && i < j < c.replicas
    ensures Member(c, g, i).sid != Member(c, g, j).sid
  {
    SidDistance(c, g % c.memories, i);
    SidDistance(c, g % c.memories, j);
  }

  /**
   The tiling theorem: no error exit, (server, block) pairs correspond one to one with
   (group, position) pairs of the groups the loop builds, and a group's members are on distinct
   servers.
  */
  lemma Tiling(c: Config)
    requires Tileable(c)
    ensures Mapped(c, GroupCount(c)).Some?
    ensures forall g :: 0 <= g < GroupCount(c) ==> Regular(c, Mapped(c, GroupCount(c)).value.groups[g], g)
    ensures forall s, b :: 0 <= s < c.memories && 0 <= b < Blocks(c) ==> InGroup(c, s, b)
    ensures forall g, i :: 0 <= g < GroupCount(c) && 0 <= i < c.replicas ==> OnServer(c, g, i)
    ensures forall g, i, j :: 0 <= g < GroupCount(c) && 0 <= i < j < c.replicas ==>
              Member(c, g, i).sid != Member(c, g, j).sid
  {
    RegularGroups(c, GroupCount(c));
    forall s, b | 0 <= s < c.memories && 0 <= b < Blocks(c) ensures InGroup(c, s, b) {
      MemberOfOwner(c, At(c, s, b));
      OwnerInRange(c, s, b);
    }
    forall g, i | 0 <= g < GroupCount(c) && 0 <= i < c.replicas ensures OnServer(c, g, i) {
      OwnerOfMember(c, g, i);
      MemberInArea(c, g, i);
    }
    forall g, i, j | 0 <= g < GroupCount(c) && 0 <= i < j < c.replicas
      ensures Member(c, g, i).sid != Member(c, g, j).sid
    {
      DistinctServers(c, g, i, j);
    }
  }

  /** Block `b` of server `s` is a member of a group, at the position `Owner` names. */
  ghost predicate InGroup(c: Config, s: nat, b: nat)
    requires Sane(c) && c.replicas <= c.memories && s < c.memories
  {
    var (g, i) := Owner(c, At(c, s, b));
    g < GroupCount(c) && i < c.replicas && Member(c, g, i) == At(c, s, b)
  }

  /** Member `i` of group `g` is a block of some server's area, and `Owner` leads back: no other pair has it. */
  ghost predicate OnServer(c: Config, g: nat, i: nat)
    requires Sane(c) && c.replicas <= c.memories
  {
    var at := Member(c, g, i);
    && at.sid < c.memories && at.slot < c.replicas && Block(c, at) < Blocks(c)
    && Owner(c, at) == (g, i)
  }
}
