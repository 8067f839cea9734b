/**
 The file system as a tree of inodes and directory entries: what the engine's store stands for, the
 invariant every call keeps, and how a path leads through the tree.
*/
module FsTree {
  import opened Common
  import opened Arithmetic

  const ROOT: nat := 0

  /** `st_mode`: file type, special bits and permissions. */
  type Mode = m: nat | m < 0x1_0000_0000

  datatype Inode = Inode(id: nat, size: nat, atime: nat, mtime: nat, ctime: nat, children: Word,
                         mode: Mode, uid: nat, gid: nat)

  /** `S_ISDIR`: of the file types, bits 12 to 15, a directory is number 4. */
  predicate IsDir(mode: Mode) {
    mode / 0x1000 % 16 == 4
  }

  /** `mode & bit` is not zero. */
  predicate HasBit(mode: Mode, bit: nat)
    requires bit > 0
  {
    mode / bit % 2 == 1
  }

  /** No file-type bit but the directory's own. */
  predicate PermissionsOnly(mode: Mode) {
    !HasBit(mode, 0x1000) && !HasBit(mode, 0x2000) && !HasBit(mode, 0x8000)
  }

  /** `S_IFDIR | mode`: the caller's permissions, and a directory exactly when there are no other file-type bits. */
  function DirectoryMode(mode: Mode): (r: Mode)
    ensures IsDir(r) <==> PermissionsOnly(mode)
    ensures r % 0x1000 == mode % 0x1000
  {
    DirectoryBits(mode);
    if HasBit(mode, 0x4000) then mode else mode + 0x4000
  }

  lemma DirectoryBits(mode: Mode)
    ensures var r := if HasBit(mode, 0x4000) then mode else mode + 0x4000;
            r < 0x1_0000_0000 && r % 0x1000 == mode % 0x1000 && (IsDir(r) <==> PermissionsOnly(mode))
  {
    var t, low := Recompose(mode, 0x1000);
    TypeBits(mode);
    TypeFour(t);
    var r := if HasBit(mode, 0x4000) then mode else mode + 0x4000;
    DivMod(r, if t / 4 % 2 == 1 then t else t + 4, low, 0x1000);
  }

  /** The file-type bits of a mode are the bits of the number above its low 12 bits. */
  lemma TypeBits(mode: nat)
    ensures mode / 0x2000 == mode / 0x1000 / 2 && mode / 0x4000 == mode / 0x1000 / 4 && mode / 0x8000 == mode / 0x1000 / 8
  {
  }

  lemma TypeFour(t: nat)
    ensures (if t / 4 % 2 == 1 then t else t + 4) % 16 == 4 <==> t % 2 == 0 && t / 2 % 2 == 0 && t / 8 % 2 == 0
  {
    var q, g := Recompose(t, 16);
    var a, b := Recompose(g, 4);
    DivMod(t, 4 * q + a, b, 4);
    DivMod(t, 8 * q + 2 * a + b / 2, b % 2, 2);
    DivMod(8 * q + 2 * a + b / 2, 4 * q + a, b / 2, 2);
    DivMod(t, 2 * q + a / 2, 4 * (a % 2) + b, 8);
    DivMod(4 * q + a, 2 * q + a / 2, a % 2, 2);
    DivMod(2 * q + a / 2, q, a / 2, 2);
    if a % 2 == 0 { DivMod(t + 4, q, 4 * a + 4 + b, 16); }
  }

  /** `S_IFREG | mode`: the caller's permissions, and never a directory. */
  function FileMode(mode: Mode): (r: Mode)
    ensures !IsDir(r) && HasBit(r, 0x8000)
    ensures r % 0x1000 == mode % 0x1000
  {
    FileBits(mode);
    if HasBit(mode, 0x8000) then mode else mode + 0x8000
  }

  lemma FileBits(mode: Mode)
    ensures var r := if HasBit(mode, 0x8000) then mode else mode + 0x8000;
            r < 0x1_0000_0000 && r % 0x1000 == mode % 0x1000 && !IsDir(r) && HasBit(r, 0x8000)
  {
    var t, low := Recompose(mode, 0x1000);
    TypeBits(mode);
    TypeEight(t);
    var r := if HasBit(mode, 0x8000) then mode else mode + 0x8000;
    DivMod(r, if t / 8 % 2 == 1 then t else t + 8, low, 0x1000);
    TypeBits(r);
  }

  lemma TypeEight(t: nat)
    ensures var u := if t / 8 % 2 == 1 then t else t + 8; u % 16 >= 8 && u / 8 % 2 == 1
  {
    var q, g := Recompose(t, 16);
    DivMod(t, 2 * q + g / 8, g % 8, 8);
    DivMod(2 * q + g / 8, q, g / 8, 2);
    if g < 8 {
      DivMod(t + 8, q, g + 8, 16);
      DivMod(t + 8, 2 * q + 1, g, 8);
      DivMod(2 * q + 1, q, 1, 2);
    }
  }

  /** One of three bits of `mode`: for the owner, for the group, for the others. */
  function Permitted(mode: Mode, owner: nat, group: nat, uid: nat, gid: nat, bits: (nat, nat, nat)): bool
    requires bits.0 > 0 && bits.1 > 0 && bits.2 > 0
  {
    if uid == 0 then true
    else if uid == owner then HasBit(mode, bits.0)
    else if gid == group then HasBit(mode, bits.1)
    else HasBit(mode, bits.2)
  }

  /** `CheckReadPermission` */
  predicate MayRead(inode: Inode, uid: nat, gid: nat) {
    Permitted(inode.mode, inode.uid, inode.gid, uid, gid, (0x100, 0x20, 0x4))
  }

  /** `CheckWritePermission` */
  predicate MayWrite(inode: Inode, uid: nat, gid: nat) {
    Permitted(inode.mode, inode.uid, inode.gid, uid, gid, (0x80, 0x10, 0x2))
  }

  /**
   The octal digit of the permissions that counts for a caller: the first for the owner, the second
   for the rest of the group, the third for everybody else.
  */
  function Rights(inode: Inode, uid: nat, gid: nat): nat {
    var permissions := inode.mode % 0x200;
    if uid == inode.uid then permissions / 0x40
    else if gid == inode.gid then permissions / 8 % 8
    else permissions % 8
  }

  /** Who may read: the superuser, and those whose digit is 4 or more. */
  lemma WhoReads(inode: Inode, uid: nat, gid: nat)
    ensures MayRead(inode, uid, gid) <==> uid == 0 || Rights(inode, uid, gid) >= 4
  {
    PermissionDigits(inode.mode);
  }

  /** Who may write: the superuser, and those whose digit is 2, 3, 6 or 7. */
  lemma WhoWrites(inode: Inode, uid: nat, gid: nat)
    ensures MayWrite(inode, uid, gid) <==> uid == 0 || Rights(inode, uid, gid) % 4 >= 2
  {
    PermissionDigits(inode.mode);
  }

  /** The bits of the three digits. */
  lemma PermissionDigits(mode: nat)
    ensures var p := mode % 0x200; var u, g, o := p / 0x40, p / 8 % 8, p % 8;
            && mode / 0x100 % 2 == u / 4 && mode / 0x20 % 2 == g / 4 && mode / 4 % 2 == o / 4
            && mode / 0x80 % 2 == u % 4 / 2 && mode / 0x10 % 2 == g % 4 / 2 && mode / 2 % 2 == o % 4 / 2
            && u < 8 && g < 8 && o < 8
  {
    var high, p := Recompose(mode, 0x200);
    var u, rest := Recompose(p, 0x40);
    var g, o := Recompose(rest, 8);
    DivMod(p, 8 * u + g, o, 8);
    DivMod(8 * u + g, u, g, 8);
    DivMod(mode, 8 * high + u, rest, 0x40);
    DivMod(mode, 0x40 * high + 8 * u + g, o, 8);
    HigherBits(mode);
    DigitMod(high, u);
    DigitMod(8 * high + u, g);
    DigitMod(0x40 * high + 8 * u + g, o);
  }

  lemma HigherBits(mode: nat)
    ensures mode / 0x100 == mode / 0x40 / 4 && mode / 0x80 == mode / 0x40 / 2
    ensures mode / 0x20 == mode / 8 / 4 && mode / 0x10 == mode / 8 / 2
  {
  }

  /** Bits 2 and 1 of a number are those of its last octal digit. */
  lemma DigitMod(high: nat, d: nat)
    requires d < 8
    ensures var x := 8 * high + d; x / 4 % 2 == d / 4 && x / 2 % 2 == d % 4 / 2
  {
    DivMod(8 * high + d, 2 * high + d / 4, d % 4, 4);
    EvenPlus(high, d / 4);
    DivMod(8 * high + d, 4 * high + d / 2, d % 2, 2);
    EvenPlus(2 * high, d / 2);
  }

  lemma EvenPlus(k: nat, y: nat)
    ensures (2 * k + y) % 2 == y % 2
  {
  }

  /** A directory entry is found by its directory and its name. */
  datatype Entry = Entry(dir: nat, name: string)

  datatype Tree = Tree(inodes: map<nat, Inode>, dents: map<Entry, nat>)

  /** The entries of directory `id`. */
  ghost function Kids(dents: map<Entry, nat>, id: nat): set<Entry> {
    set e | e in dents && e.dir == id
  }

  /** An entry links a directory that exists to an inode that exists and is younger. */
  ghost predicate LinkOk(inodes: map<nat, Inode>, dir: nat, id: nat) {
    dir in inodes && IsDir(inodes[dir].mode) && id in inodes && dir < id
  }

  ghost predicate LinksOk(t: Tree) {
    forall e :: e in t.dents ==> LinkOk(t.inodes, e.dir, t.dents[e])
  }

  /** Some entry leads to inode `id`. */
  ghost predicate Found(dents: map<Entry, nat>, id: nat) {
    exists e :: e in dents && dents[e] == id
  }

  ghost predicate OneEntry(dents: map<Entry, nat>) {
    forall e, f :: e in dents && f in dents && dents[e] == dents[f] ==> e == f
  }

  /** Every inode but the root has exactly one entry. */
  ghost predicate Reached(t: Tree) {
    && (forall id {:trigger Found(t.dents, id)} :: id in t.inodes && id != ROOT ==> Found(t.dents, id))
    && OneEntry(t.dents)
  }

  /** `children` counts the entries of every directory but the root, whose counter is never initialised. */
  ghost predicate Counted(t: Tree) {
    forall id :: id in t.inodes ==> CountedAt(t.inodes[id], t.dents, id)
  }

  ghost predicate CountedAt(inode: Inode, dents: map<Entry, nat>, id: nat) {
    id != ROOT && IsDir(inode.mode) ==> inode.children == |Kids(dents, id)|
  }

  /** The tree invariant; `next` is above every inode id. */
  ghost predicate TreeOk(t: Tree, next: nat) {
    RootOk(t.inodes, next) && LinksOk(t) && Reached(t) && Counted(t)
  }

  function Inc(c: Word): Word {
    if c + 1 == WORD_LIMIT then 0 else c + 1
  }

  function Dec(c: Word): Word {
    if c == 0 then WORD_LIMIT - 1 else c - 1
  }

  /** A new inode `id` under name `name` of directory `dir`. */
  function Link(t: Tree, e: Entry, id: nat, inode: Inode): Tree
    requires e.dir in t.inodes
  {
    var parent := t.inodes[e.dir];
    Tree(t.inodes[id := inode][e.dir := parent.(children := Inc(parent.children))], t.dents[e := id])
  }

  /** Entry `e` and its inode removed. */
  function Unlink(t: Tree, e: Entry): Tree
    requires e in t.dents && e.dir in t.inodes
  {
    var parent := t.inodes[e.dir];
    Tree((t.inodes - {t.dents[e]})[e.dir := parent.(children := Dec(parent.children))], t.dents - {e})
  }

  /** The removal of a newly linked inode restores the tree. */
  lemma UnlinkLink(t: Tree, e: Entry, id: nat, inode: Inode)
    requires e.dir in t.inodes && e !in t.dents && id !in t.inodes
    ensures Unlink(Link(t, e, id, inode), e) == t
  {
    var u := Unlink(Link(t, e, id, inode), e);
    assert u.inodes == t.inodes;
    assert u.dents == t.dents;
  }

  /** An injective map into the numbers below `n` has at most `n` keys. */
  lemma {:induction false} InjectiveBound<K>(m: map<K, nat>, n: nat)
    requires forall k :: k in m ==> m[k] < n
    requires forall j, k :: j in m && k in m && m[j] == m[k] ==> j == k
    ensures |m| <= n
  {
    if n == 0 {
      assert m.Keys == {};
    } else if k :| k in m && m[k] == n - 1 {
      var rest := m - {k};
      assert m.Keys == rest.Keys + {k} && k !in rest.Keys;
      InjectiveBound(rest, n - 1);
    } else {
      InjectiveBound(m, n - 1);
    }
  }

  /** A directory never has as many entries as there are ids. */
  lemma KidsBound(t: Tree, next: nat, id: nat)
    requires TreeOk(t, next)
    ensures |Kids(t.dents, id)| <= next
  {
    InjectiveBound(t.dents, next);
    SubsetSize(Kids(t.dents, id), t.dents.Keys);
    assert |t.dents.Keys| == |t.dents|;
  }

  lemma {:induction false} SubsetSize<T>(a: set<T>, b: set<T>)
    requires a <= b
    ensures |a| <= |b|
  {
    if a != {} {
      var x :| x in a;
      SubsetSize(a - {x}, b - {x});
    }
  }

  lemma LinkLinks(t: Tree, e: Entry, id: nat, inode: Inode)
    requires LinksOk(t) && e !in t.dents && e.dir in t.inodes && IsDir(t.inodes[e.dir].mode) && id !in t.inodes && e.dir < id
    ensures LinksOk(Link(t, e, id, inode))
  {
  }

  lemma FoundGrows(dents: map<Entry, nat>, e: Entry, id: nat, i: nat)
    requires e !in dents && (i == id || Found(dents, i))
    ensures Found(dents[e := id], i)
  {
    if i == id {
      assert e in dents[e := id] && dents[e := id][e] == i;
    } else {
      var f :| f in dents && dents[f] == i;
      assert f in dents[e := id] && dents[e := id][f] == i;
    }
  }

  lemma LinkReached(t: Tree, e: Entry, id: nat, inode: Inode)
    requires LinksOk(t) && Reached(t) && e !in t.dents && e.dir in t.inodes && id !in t.inodes
    ensures Reached(Link(t, e, id, inode))
  {
    var u := Link(t, e, id, inode);
    forall i | i in u.inodes && i != ROOT ensures Found(u.dents, i) {
      FoundGrows(t.dents, e, id, i);
    }
    forall f | f in t.dents ensures t.dents[f] != id {
      assert LinkOk(t.inodes, f.dir, t.dents[f]);
    }
  }

  /** How a new entry changes the entries of a directory. */
  lemma KidsGrow(dents: map<Entry, nat>, e: Entry, id: nat, i: nat)
    requires e !in dents
    ensures Kids(dents[e := id], i) == if i == e.dir then Kids(dents, i) + {e} else Kids(dents, i)
    ensures e !in Kids(dents, i)
  {
  }

  lemma NewKidless(t: Tree, id: nat)
    requires LinksOk(t) && id !in t.inodes
    ensures Kids(t.dents, id) == {}
  {
  }

  lemma LinkCounted(t: Tree, e: Entry, id: nat, inode: Inode)
    requires LinksOk(t) && Counted(t) && e !in t.dents && e.dir in t.inodes && id !in t.inodes
    requires |Kids(t.dents, e.dir)| + 1 < WORD_LIMIT
    requires IsDir(inode.mode) ==> inode.children == 0
    ensures Counted(Link(t, e, id, inode))
  {
    var u := Link(t, e, id, inode);
    NewKidless(t, id);
    forall i | i in u.inodes ensures CountedAt(u.inodes[i], u.dents, i) {
      KidsGrow(t.dents, e, id, i);
      if i in t.inodes { assert CountedAt(t.inodes[i], t.dents, i); }
    }
  }

  ghost predicate RootOk(inodes: map<nat, Inode>, next: nat) {
    ROOT in inodes && IsDir(inodes[ROOT].mode) && forall id :: id in inodes ==> id < next
  }

  lemma LinkRoot(t: Tree, e: Entry, id: nat, inode: Inode, next: nat)
    requires RootOk(t.inodes, next) && e.dir in t.inodes && next <= id
    ensures RootOk(Link(t, e, id, inode).inodes, id + 1)
  {
  }

  /** Linking a new inode keeps the invariant. */
  lemma LinkKeeps(t: Tree, e: Entry, id: nat, inode: Inode, next: nat)
    requires TreeOk(t, next) && e !in t.dents && e.dir in t.inodes && IsDir(t.inodes[e.dir].mode)
    requires next <= id && next < WORD_LIMIT - 1 && (IsDir(inode.mode) ==> inode.children == 0)
    ensures TreeOk(Link(t, e, id, inode), id + 1)
  {
    LinkRoot(t, e, id, inode, next);
    LinkLinks(t, e, id, inode);
    LinkReached(t, e, id, inode);
    KidsBound(t, next, e.dir);
    LinkCounted(t, e, id, inode);
  }

  /** Nothing is below the inode of entry `e`. */
  ghost predicate Childless(t: Tree, e: Entry)
    requires e in t.dents
  {
    Kids(t.dents, t.dents[e]) == {}
  }

  /** What the engine checks before it removes an inode rules out children. */
  lemma CheckedChildless(t: Tree, e: Entry, next: nat)
    requires TreeOk(t, next) && e in t.dents
    requires IsDir(t.inodes[t.dents[e]].mode) ==> t.inodes[t.dents[e]].children == 0
    ensures Childless(t, e)
  {
  }

  lemma UnlinkLinks(t: Tree, e: Entry)
    requires LinksOk(t) && OneEntry(t.dents) && e in t.dents && Childless(t, e)
    ensures LinksOk(Unlink(t, e))
  {
    var u := Unlink(t, e);
    forall f | f in u.dents ensures LinkOk(u.inodes, f.dir, u.dents[f]) {
      assert LinkOk(t.inodes, f.dir, t.dents[f]);
      assert f !in Kids(t.dents, t.dents[e]);
    }
  }

  lemma FoundShrinks(dents: map<Entry, nat>, e: Entry, i: nat)
    requires e in dents && Found(dents, i) && dents[e] != i
    ensures Found(dents - {e}, i)
  {
    var f :| f in dents && dents[f] == i;
    assert f in dents - {e} && (dents - {e})[f] == i;
  }

  lemma UnlinkReached(t: Tree, e: Entry)
    requires LinksOk(t) && Reached(t) && e in t.dents
    ensures Reached(Unlink(t, e))
  {
    var u := Unlink(t, e);
    assert LinkOk(t.inodes, e.dir, t.dents[e]);
    forall i | i in u.inodes && i != ROOT ensures Found(u.dents, i) {
      FoundShrinks(t.dents, e, i);
    }
  }

  lemma KidsShrink(dents: map<Entry, nat>, e: Entry, i: nat)
    requires e in dents
    ensures Kids(dents, i) == if i == e.dir then Kids(dents - {e}, i) + {e} else Kids(dents - {e}, i)
    ensures e !in Kids(dents - {e}, i)
  {
  }

  lemma UnlinkCounted(t: Tree, e: Entry)
    requires LinksOk(t) && Counted(t) && e in t.dents
    ensures Counted(Unlink(t, e))
  {
    var u := Unlink(t, e);
    forall i | i in u.inodes ensures CountedAt(u.inodes[i], u.dents, i) {
      KidsShrink(t.dents, e, i);
      assert CountedAt(t.inodes[i], t.dents, i);
    }
  }

  /** Removing an inode without children keeps the invariant: nothing is orphaned. */
  lemma UnlinkKeeps(t: Tree, e: Entry, next: nat)
    requires TreeOk(t, next) && e in t.dents && Childless(t, e)
    ensures TreeOk(Unlink(t, e), next)
  {
    UnlinkLinks(t, e);
    UnlinkReached(t, e);
    UnlinkCounted(t, e);
  }

  // Paths through the tree.

  datatype Outcome = Ok(id: nat) | Err(errno: int)

  const ENOENT := -2
  const EIO := -5
  const EACCES := -13
  const EEXIST := -17
  const ENOTDIR := -20
  const EISDIR := -21
  const ENOTEMPTY := -39

  /** From directory `cur` on, one component after the other; the last one is only looked up. */
  function Walk(t: Tree, cur: nat, cs: seq<string>, uid: nat, gid: nat): Outcome
    requires cs != []
    decreases |cs|
  {
    var e := Entry(cur, cs[0]);
    if e !in t.dents then Err(ENOENT)
    else if |cs| == 1 then Ok(t.dents[e])
    else
      var id := t.dents[e];
      if id !in t.inodes then Err(ENOENT)
      else if !MayRead(t.inodes[id], uid, gid) then Err(EACCES)
      else if !IsDir(t.inodes[id].mode) then Err(ENOTDIR)
      else Walk(t, id, cs[1..], uid, gid)
  }

  /** `PathLookupToDentry`, on the components of the path. */
  function Lookup(t: Tree, cs: seq<string>, uid: nat, gid: nat): Outcome {
    if cs == [] then Ok(ROOT)
    else if ROOT !in t.inodes then Err(ENOENT)
    else if !MayRead(t.inodes[ROOT], uid, gid) then Err(EACCES)
    else Walk(t, ROOT, cs, uid, gid)
  }

  /** The inode the components lead to from `cur`, permissions aside. */
  function Follow(dents: map<Entry, nat>, cur: nat, cs: seq<string>): Option<nat> {
    if cs == [] then Some(cur)
    else
      match Follow(dents, cur, cs[..|cs| - 1])
      case None => None
      case Some(dir) =>
        var e := Entry(dir, cs[|cs| - 1]);
        if e in dents then Some(dents[e]) else None
  }

  /** In a tree every inode has one path. */
  lemma {:induction false} UniquePath(t: Tree, cs: seq<string>, ds: seq<string>)
    requires LinksOk(t) && OneEntry(t.dents)
    requires Follow(t.dents, ROOT, cs).Some? && Follow(t.dents, ROOT, cs) == Follow(t.dents, ROOT, ds)
    ensures cs == ds
  {
    if cs != [] && ds != [] {
      var m, n := |cs| - 1, |ds| - 1;
      var e := Entry(Follow(t.dents, ROOT, cs[..m]).value, cs[m]);
      var f := Entry(Follow(t.dents, ROOT, ds[..n]).value, ds[n]);
      assert e in t.dents && f in t.dents && t.dents[e] == t.dents[f];
      UniquePath(t, cs[..m], ds[..n]);
      assert cs == cs[..m] + [cs[m]] && ds == ds[..n] + [ds[n]];
    } else if cs != [] {
      NotRoot(t, cs);
    } else if ds != [] {
      NotRoot(t, ds);
    }
  }

  lemma NotRoot(t: Tree, cs: seq<string>)
    requires LinksOk(t) && cs != [] && Follow(t.dents, ROOT, cs).Some?
    ensures Follow(t.dents, ROOT, cs) != Some(ROOT)
  {
    var n := |cs| - 1;
    var e := Entry(Follow(t.dents, ROOT, cs[..n]).value, cs[n]);
    assert LinkOk(t.inodes, e.dir, t.dents[e]);
  }

  /** Following a path head first. */
  lemma {:induction false} FollowHead(dents: map<Entry, nat>, cur: nat, cs: seq<string>)
    requires cs != []
    ensures Follow(dents, cur, cs) ==
            if Entry(cur, cs[0]) in dents then Follow(dents, dents[Entry(cur, cs[0])], cs[1..]) else None
  {
    var n := |cs| - 1;
    if n > 0 {
      FollowHead(dents, cur, cs[..n]);
      assert cs[..n][1..] == cs[1..][..n - 1];
    } else {
      assert cs[1..] == [] && cs[..0] == [];
    }
  }

  /** A successful walk ends where the path leads. */
  lemma {:induction false} WalkFollows(t: Tree, cur: nat, cs: seq<string>, uid: nat, gid: nat)
    requires cs != [] && Walk(t, cur, cs, uid, gid).Ok?
    ensures Follow(t.dents, cur, cs) == Some(Walk(t, cur, cs, uid, gid).id)
    decreases |cs|
  {
    FollowHead(t.dents, cur, cs);
    if |cs| > 1 {
      WalkFollows(t, t.dents[Entry(cur, cs[0])], cs[1..], uid, gid);
    } else {
      assert cs[1..] == [];
    }
  }

  lemma LookupFollows(t: Tree, cs: seq<string>, uid: nat, gid: nat)
    requires Lookup(t, cs, uid, gid).Ok?
    ensures Follow(t.dents, ROOT, cs) == Some(Lookup(t, cs, uid, gid).id)
  {
    if cs != [] { WalkFollows(t, ROOT, cs, uid, gid); }
  }

  /** The parts of an inode a walk looks at. */
  ghost predicate SameFace(a: Inode, b: Inode) {
    a.mode == b.mode && a.uid == b.uid && a.gid == b.gid
  }

  /** `u` differs from `t` only in the entry `e`, inodes newer than everything, and counters. */
  ghost predicate Differs(t: Tree, u: Tree, e: Entry) {
    && (forall f :: f != e ==> (f in t.dents <==> f in u.dents))
    && (forall f :: f != e && f in t.dents ==> u.dents[f] == t.dents[f])
    && (forall f :: f != e && f in t.dents ==> t.dents[f] in t.inodes && t.dents[f] in u.inodes
                                               && SameFace(t.inodes[t.dents[f]], u.inodes[t.dents[f]]))
    && ROOT in t.inodes && ROOT in u.inodes && SameFace(t.inodes[ROOT], u.inodes[ROOT])
  }

  /** A walk that does not pass the changed entry sees no difference. */
  lemma {:induction false} WalkSame(t: Tree, u: Tree, e: Entry, cur: nat, cs: seq<string>, uid: nat, gid: nat)
    requires Differs(t, u, e) && cs != [] && !Passes(t.dents, cur, cs, e)
    ensures Walk(t, cur, cs, uid, gid) == Walk(u, cur, cs, uid, gid)
    decreases |cs|
  {
    var f := Entry(cur, cs[0]);
    PassesHead(t.dents, cur, cs, e);
    if f in t.dents && |cs| > 1 {
      WalkSame(t, u, e, t.dents[f], cs[1..], uid, gid);
    }
  }

  /** Some component of the path is looked up through entry `e`. */
  ghost predicate Passes(dents: map<Entry, nat>, cur: nat, cs: seq<string>, e: Entry) {
    exists k :: 0 <= k < |cs| && PassesAt(dents, cur, cs, e, k)
  }

  ghost predicate PassesAt(dents: map<Entry, nat>, cur: nat, cs: seq<string>, e: Entry, k: nat)
    requires k < |cs|
  {
    Follow(dents, cur, cs[..k]) == Some(e.dir) && cs[k] == e.name
  }

  lemma PassesHead(dents: map<Entry, nat>, cur: nat, cs: seq<string>, e: Entry)
    requires cs != [] && !Passes(dents, cur, cs, e)
    ensures Entry(cur, cs[0]) != e
    ensures Entry(cur, cs[0]) in dents && |cs| > 1 ==> !Passes(dents, dents[Entry(cur, cs[0])], cs[1..], e)
  {
    assert cs[..0] == [] && !PassesAt(dents, cur, cs, e, 0);
    var f := Entry(cur, cs[0]);
    if f in dents && |cs| > 1 {
      forall k | 0 <= k < |cs| - 1 ensures !PassesAt(dents, dents[f], cs[1..], e, k) {
        assert !PassesAt(dents, cur, cs, e, k + 1);
        FollowHead(dents, cur, cs[..k + 1]);
        assert cs[..k + 1][1..] == cs[1..][..k];
      }
    }
  }

  /**
   Lookups of unrelated paths: when `ps` leads to the directory of entry `e`, changing `e` affects
   no path that does not go through `ps` and the name of `e`.
  */
  lemma LookupSame(t: Tree, u: Tree, e: Entry, ps: seq<string>, cs: seq<string>, uid: nat, gid: nat)
    requires LinksOk(t) && OneEntry(t.dents) && Differs(t, u, e) && Follow(t.dents, ROOT, ps) == Some(e.dir)
    requires !(ps + [e.name] <= cs)
    ensures Lookup(t, cs, uid, gid) == Lookup(u, cs, uid, gid)
  {
    if cs != [] {
      forall k | 0 <= k < |cs| ensures !PassesAt(t.dents, ROOT, cs, e, k) {
        if Follow(t.dents, ROOT, cs[..k]) == Some(e.dir) {
          UniquePath(t, cs[..k], ps);
          assert ps + [cs[k]] == cs[..k + 1] <= cs;
        }
      }
      WalkSame(t, u, e, ROOT, cs, uid, gid);
    }
  }

  // Lookups, prefix by prefix.

  /** The caller may pass through inode `id` on the way: it exists, is readable and, but for the root, a directory. */
  ghost predicate Open(t: Tree, id: nat, uid: nat, gid: nat) {
    id in t.inodes && (uid == 0 || Rights(t.inodes[id], uid, gid) >= 4)
  }

  /** The first `k` components lead from `cur` to a directory the caller may pass through. */
  ghost predicate Passable(t: Tree, cur: nat, cs: seq<string>, k: nat, uid: nat, gid: nat)
    requires k <= |cs|
  {
    match Follow(t.dents, cur, cs[..k])
    case None => false
    case Some(id) => Open(t, id, uid, gid) && (k > 0 ==> IsDir(t.inodes[id].mode))
  }

  /** Why they do not. */
  ghost function Obstacle(t: Tree, cur: nat, cs: seq<string>, k: nat, uid: nat, gid: nat): int
    requires k <= |cs|
  {
    match Follow(t.dents, cur, cs[..k])
    case None => ENOENT
    case Some(id) => if id !in t.inodes then ENOENT else if !Open(t, id, uid, gid) then EACCES else ENOTDIR
  }

  /** The first obstacle between `from` and the last component is the one before component `k`. */
  ghost predicate Blocked(t: Tree, cur: nat, cs: seq<string>, from: nat, k: nat, uid: nat, gid: nat) {
    && from <= k < |cs| && !Passable(t, cur, cs, k, uid, gid)
    && forall j :: from <= j < k ==> Passable(t, cur, cs, j, uid, gid)
  }

  ghost predicate Clear(t: Tree, cur: nat, cs: seq<string>, from: nat, uid: nat, gid: nat) {
    forall k :: from <= k < |cs| ==> Passable(t, cur, cs, k, uid, gid)
  }

  ghost function Reaches(t: Tree, cur: nat, cs: seq<string>): Outcome {
    match Follow(t.dents, cur, cs) case None => Err(ENOENT) case Some(id) => Ok(id)
  }

  /** One component on, the prefixes are one shorter. */
  lemma PassableNext(t: Tree, cur: nat, cs: seq<string>, k: nat, uid: nat, gid: nat)
    requires 2 <= k <= |cs| && Entry(cur, cs[0]) in t.dents
    ensures Follow(t.dents, cur, cs[..k]) == Follow(t.dents, t.dents[Entry(cur, cs[0])], cs[1..][..k - 1])
  {
    FollowHead(t.dents, cur, cs[..k]);
    assert cs[..k][1..] == cs[1..][..k - 1];
  }

  lemma FollowOne(dents: map<Entry, nat>, cur: nat, cs: seq<string>)
    requires cs != []
    ensures Follow(dents, cur, cs[..1]) == if Entry(cur, cs[0]) in dents then Some(dents[Entry(cur, cs[0])]) else None
  {
    FollowHead(dents, cur, cs[..1]);
    assert cs[..1][1..] == [];
  }

  lemma {:induction false} WalkIs(t: Tree, cur: nat, cs: seq<string>, uid: nat, gid: nat)
    requires cs != []
    ensures Clear(t, cur, cs, 1, uid, gid) ==> Walk(t, cur, cs, uid, gid) == Reaches(t, cur, cs)
    ensures forall k :: Blocked(t, cur, cs, 1, k, uid, gid) ==>
              Walk(t, cur, cs, uid, gid) == Err(Obstacle(t, cur, cs, k, uid, gid))
    decreases |cs|
  {
    FollowOne(t.dents, cur, cs);
    if |cs| == 1 {
      assert cs[..1] == cs;
    } else {
      var e := Entry(cur, cs[0]);
      if e in t.dents && t.dents[e] in t.inodes { WhoReads(t.inodes[t.dents[e]], uid, gid); }
      if Passable(t, cur, cs, 1, uid, gid) {
        WalkDown(t, cur, cs, uid, gid);
      } else {
        assert forall k :: Blocked(t, cur, cs, 1, k, uid, gid) ==> k == 1;
      }
    }
  }

  lemma WalkDown(t: Tree, cur: nat, cs: seq<string>, uid: nat, gid: nat)
    requires |cs| > 1 && Entry(cur, cs[0]) in t.dents && Passable(t, cur, cs, 1, uid, gid)
    requires Walk(t, cur, cs, uid, gid) == Walk(t, t.dents[Entry(cur, cs[0])], cs[1..], uid, gid)
    ensures Clear(t, cur, cs, 1, uid, gid) ==> Walk(t, cur, cs, uid, gid) == Reaches(t, cur, cs)
    ensures forall k :: Blocked(t, cur, cs, 1, k, uid, gid) ==>
              Walk(t, cur, cs, uid, gid) == Err(Obstacle(t, cur, cs, k, uid, gid))
    decreases |cs|, 0
  {
    var id, ds := t.dents[Entry(cur, cs[0])], cs[1..];
    WalkIs(t, id, ds, uid, gid);
    FollowHead(t.dents, cur, cs);
    forall k | 1 <= k < |ds| ensures Passable(t, cur, cs, k + 1, uid, gid) <==> Passable(t, id, ds, k, uid, gid) {
      PassableNext(t, cur, cs, k + 1, uid, gid);
    }
    forall k: nat | Blocked(t, cur, cs, 1, k, uid, gid)
      ensures Walk(t, cur, cs, uid, gid) == Err(Obstacle(t, cur, cs, k, uid, gid))
    {
      PassableNext(t, cur, cs, k, uid, gid);
      assert Blocked(t, id, ds, 1, k - 1, uid, gid);
    }
  }

  /**
   What a lookup answers, in terms of the tree and the permission digits alone: where the path leads
   if every directory on the way can be passed through, and otherwise what is wrong with the first
   that cannot.
  */
  lemma LookupIs(t: Tree, cs: seq<string>, uid: nat, gid: nat)
    ensures Clear(t, ROOT, cs, 0, uid, gid) ==> Lookup(t, cs, uid, gid) == Reaches(t, ROOT, cs)
    ensures forall k :: Blocked(t, ROOT, cs, 0, k, uid, gid) ==>
              Lookup(t, cs, uid, gid) == Err(Obstacle(t, ROOT, cs, k, uid, gid))
  {
    if cs != [] {
      assert cs[..0] == [];
      if ROOT in t.inodes { WhoReads(t.inodes[ROOT], uid, gid); }
      if Passable(t, ROOT, cs, 0, uid, gid) {
        WalkIs(t, ROOT, cs, uid, gid);
        forall k: nat | Blocked(t, ROOT, cs, 0, k, uid, gid)
          ensures Lookup(t, cs, uid, gid) == Err(Obstacle(t, ROOT, cs, k, uid, gid))
        {
          assert Blocked(t, ROOT, cs, 1, k, uid, gid);
        }
      } else {
        assert forall k :: Blocked(t, ROOT, cs, 0, k, uid, gid) ==> k == 0;
      }
    }
  }

  /** A lookup always has one of the two answers. */
  lemma LookupTotal(t: Tree, cs: seq<string>, uid: nat, gid: nat) returns (k: nat)
    ensures k <= |cs| && if k == |cs| then Clear(t, ROOT, cs, 0, uid, gid) else Blocked(t, ROOT, cs, 0, k, uid, gid)
  {
    k := 0;
    while k < |cs| && Passable(t, ROOT, cs, k, uid, gid)
      invariant k <= |cs| && forall j :: 0 <= j < k ==> Passable(t, ROOT, cs, j, uid, gid)
    {
      k := k + 1;
    }
  }

  /** One component more: it is found exactly if the directory before it may be read and has the entry. */
  lemma LookupDeeper(t: Tree, cs: seq<string>, name: string, uid: nat, gid: nat)
    requires Lookup(t, cs, uid, gid).Ok? && Lookup(t, cs, uid, gid).id in t.inodes
    requires IsDir(t.inodes[Lookup(t, cs, uid, gid).id].mode)
    ensures var dir := Lookup(t, cs, uid, gid).id;
            Lookup(t, cs + [name], uid, gid)
              == if !Open(t, dir, uid, gid) then Err(EACCES)
                 else if Entry(dir, name) in t.dents then Ok(t.dents[Entry(dir, name)]) else Err(ENOENT)
  {
    var n, ds := |cs|, cs + [name];
    LookupIs(t, cs, uid, gid);
    LookupIs(t, ds, uid, gid);
    LookupFollows(t, cs, uid, gid);
    var k := LookupTotal(t, cs, uid, gid);
    assert k == n;
    assert ds[..n] == cs;
    forall j | 0 <= j < n ensures Passable(t, ROOT, ds, j, uid, gid) {
      assert ds[..j] == cs[..j] && Passable(t, ROOT, cs, j, uid, gid);
    }
    if Open(t, Lookup(t, cs, uid, gid).id, uid, gid) {
      assert Clear(t, ROOT, ds, 0, uid, gid);
    } else {
      assert Blocked(t, ROOT, ds, 0, n, uid, gid);
    }
  }
}
