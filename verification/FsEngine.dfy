/**
 The metadata engine (`fs/engine/engine.cc`) over a key-value store whose operations may report
 failure.  `tree` is what the store stands for; every call keeps it a tree, and a call that fails
 leaves the store as it was.
*/
module FsEngine {
  import opened Arithmetic
  import opened Common
  import opened Path
  import opened FsTree
  import opened FsStore

  const GROUP_SIZE: nat := 1024 * 1024

  /** Which of the up to three store writes of a call report failure; such a write has no effect. */
  datatype Failures = Failures(first: bool, second: bool, third: bool)

  predicate Any(f: Failures) {
    f.first || f.second || f.third
  }

  const NONE := Failures(false, false, false)

  /** The directory part and the last component of a path. */
  function ParentPath(path: string): seq<string> {
    Split(Separate(Format(path)).0)
  }

  function LastName(path: string): string {
    Separate(Format(path)).1
  }

  /** The directory a call works in: it must exist, be a directory and be writable. */
  function Parent(t: Tree, path: string, uid: nat, gid: nat): (r: Outcome)
    ensures r.Ok? ==> r.id in t.inodes && IsDir(t.inodes[r.id].mode)
  {
    match Lookup(t, ParentPath(path), uid, gid)
    case Err(x) => Err(x)
    case Ok(dir) =>
      if dir !in t.inodes then Err(ENOENT)
      else if !IsDir(t.inodes[dir].mode) then Err(ENOTDIR)
      else if !MayWrite(t.inodes[dir], uid, gid) then Err(EACCES)
      else Ok(dir)
  }

  /** What Mkdir and Creat answer before they write: the free entry, or an error. */
  function Vacant(t: Tree, path: string, uid: nat, gid: nat): (r: Outcome)
    ensures r.Ok? ==> r.id in t.inodes && IsDir(t.inodes[r.id].mode) && Entry(r.id, LastName(path)) !in t.dents
  {
    match Parent(t, path, uid, gid)
    case Err(x) => Err(x)
    case Ok(dir) => if Entry(dir, LastName(path)) in t.dents then Err(EEXIST) else Ok(dir)
  }

  /** What Rmdir and Unlink answer before they write: the directory of an entry that may go, or an error. */
  function Removable(t: Tree, path: string, uid: nat, gid: nat, wantDir: bool): (r: Outcome)
    ensures r.Ok? ==> var e := Entry(r.id, LastName(path));
                      && e.dir in t.inodes && e in t.dents && t.dents[e] in t.inodes
                      && (IsDir(t.inodes[t.dents[e]].mode) ==> t.inodes[t.dents[e]].children == 0)
  {
    match Parent(t, path, uid, gid)
    case Err(x) => Err(x)
    case Ok(dir) =>
      var e := Entry(dir, LastName(path));
      if e !in t.dents || t.dents[e] !in t.inodes then Err(ENOENT)
      else
        var target := t.inodes[t.dents[e]];
        if wantDir then
          if !IsDir(target.mode) then Err(ENOTDIR)
          else if target.children > 0 then Err(ENOTEMPTY)
          else Ok(dir)
        else if IsDir(target.mode) then Err(EISDIR)
        else Ok(dir)
  }

  /** The entry a call works on. */
  function Target(o: Outcome, path: string): Entry
    requires o.Ok?
  {
    Entry(o.id, LastName(path))
  }

  /** The answer of a call whose checks gave `o` and whose writes fail as `f` says. */
  function Answer(o: Outcome, f: Failures): int {
    match o
    case Err(x) => x
    case Ok(_) => if Any(f) then EIO else 0
  }

  /** An inode just made: the caller's, empty, with one time stamp throughout. */
  predicate Fresh(inode: Inode, id: nat, uid: nat, gid: nat, now: nat) {
    inode.id == id && inode.uid == uid && inode.gid == gid && inode.size == 0 && inode.atime == inode.mtime == inode.ctime == now
  }

  function NewInode(id: nat, mode: Mode, uid: nat, gid: nat, now: nat, children: Word): (inode: Inode)
    ensures Fresh(inode, id, uid, gid, now)
  {
    Inode(id, 0, now, now, now, children, mode, uid, gid)
  }

  /** The keys of a new inode and entry are absent from the store. */
  lemma CreateKeys(s: Store, t: Tree, e: Entry, id: nat)
    requires Mirrors(s, t) && e.dir in t.inodes && e !in t.dents && id !in t.inodes
    ensures InodeKey(id) !in s && DentryKey(e) !in s && InodeKey(e.dir) in s && InodeKey(id) != DentryKey(e)
  {
    KeysInjective(id, e.dir, e, e);
  }

  lemma RemoveKeys(s: Store, t: Tree, e: Entry)
    requires Mirrors(s, t) && e in t.dents && e.dir in t.inodes && t.dents[e] in t.inodes && e.dir != t.dents[e]
    ensures var node, entry, dir := InodeKey(t.dents[e]), DentryKey(e), InodeKey(e.dir);
            && node in s && s[node] == InodeValue(t.inodes[t.dents[e]]) && entry in s && s[entry] == EntryValue(t.dents[e])
            && dir in s && node != entry && dir != node && dir != entry
  {
    KeysInjective(t.dents[e], e.dir, e, e);
    KeysInjective(e.dir, e.dir, e, e);
  }

  lemma LinkMirrored(s: Store, t: Tree, e: Entry, id: nat, inode: Inode)
    requires Mirrors(s, t) && e.dir in t.inodes && id !in t.inodes
    ensures var parent := t.inodes[e.dir];
            Mirrors(s[InodeKey(id) := InodeValue(inode)][DentryKey(e) := EntryValue(id)]
                     [InodeKey(e.dir) := InodeValue(parent.(children := Inc(parent.children)))],
                    Link(t, e, id, inode))
  {
    var parent := t.inodes[e.dir];
    var t1 := t.(inodes := t.inodes[id := inode]);
    var t2 := t1.(dents := t1.dents[e := id]);
    PutInode(s, t, id, inode);
    PutEntry(s[InodeKey(id) := InodeValue(inode)], t1, e, id);
    PutInode(s[InodeKey(id) := InodeValue(inode)][DentryKey(e) := EntryValue(id)], t2, e.dir,
             parent.(children := Inc(parent.children)));
  }

  lemma UnlinkMirrored(s: Store, t: Tree, e: Entry)
    requires Mirrors(s, t) && e in t.dents && e.dir in t.inodes
    ensures var parent := t.inodes[e.dir];
            Mirrors((s - {InodeKey(t.dents[e])} - {DentryKey(e)})
                      [InodeKey(e.dir) := InodeValue(parent.(children := Dec(parent.children)))],
                    Unlink(t, e))
  {
    var id, parent := t.dents[e], t.inodes[e.dir];
    var t1 := t.(inodes := t.inodes - {id});
    var t2 := t1.(dents := t1.dents - {e});
    DropInode(s, t, id);
    DropEntry(s - {InodeKey(id)}, t1, e);
    PutInode(s - {InodeKey(id)} - {DentryKey(e)}, t2, e.dir, parent.(children := Dec(parent.children)));
  }

  /** A larger bound on the ids is as good. */
  lemma TreeLater(t: Tree, next: nat, later: nat)
    requires TreeOk(t, next) && next <= later
    ensures TreeOk(t, later)
  {
  }

  ghost predicate Below(t: Tree, next: nat) {
    forall id :: id in t.inodes ==> id < next
  }

  ghost predicate Younger(t: Tree) {
    forall e :: e in t.dents ==> e.dir < t.dents[e]
  }

  lemma YoungerEntries(t: Tree, next: nat)
    requires TreeOk(t, next)
    ensures Younger(t)
  {
    forall e | e in t.dents ensures e.dir < t.dents[e] { assert LinkOk(t.inodes, e.dir, t.dents[e]); }
  }

  /** Removing a node that passed the checks, or failing to, keeps it too. */
  lemma RemovalKeeps(t: Tree, u: Tree, next: nat, ret: int, o: Outcome, path: string)
    requires TreeOk(t, next) && (ret != 0 ==> u == t)
    requires ret == 0 ==>
               && o.Ok? && Target(o, path) in t.dents && o.id in t.inodes && t.dents[Target(o, path)] in t.inodes
               && (IsDir(t.inodes[t.dents[Target(o, path)]].mode) ==> t.inodes[t.dents[Target(o, path)]].children == 0)
               && u == Unlink(t, Target(o, path))
    ensures TreeOk(u, next)
    ensures ret == 0 ==> Childless(t, Target(o, path))
  {
    if ret == 0 {
      CheckedChildless(t, Target(o, path), next);
      UnlinkKeeps(t, Target(o, path), next);
    }
  }

  /** Errors are never reported as 0. */
  lemma {:induction false} WalkErrors(t: Tree, cur: nat, cs: seq<string>, uid: nat, gid: nat)
    requires cs != [] && Walk(t, cur, cs, uid, gid).Err?
    ensures Walk(t, cur, cs, uid, gid).errno < 0
    decreases |cs|
  {
    var e := Entry(cur, cs[0]);
    if |cs| > 1 && e in t.dents && t.dents[e] in t.inodes && MayRead(t.inodes[t.dents[e]], uid, gid)
       && IsDir(t.inodes[t.dents[e]].mode) {
      WalkErrors(t, t.dents[e], cs[1..], uid, gid);
    }
  }

  lemma ErrorsNegative(t: Tree, path: string, uid: nat, gid: nat)
    ensures Vacant(t, path, uid, gid).Err? ==> Vacant(t, path, uid, gid).errno < 0
    ensures Parent(t, path, uid, gid).Err? ==> Parent(t, path, uid, gid).errno < 0
  {
    var cs := ParentPath(path);
    if cs != [] && Walk(t, ROOT, cs, uid, gid).Err? { WalkErrors(t, ROOT, cs, uid, gid); }
  }

  lemma RemovalErrors(t: Tree, path: string, uid: nat, gid: nat, wantDir: bool)
    ensures Removable(t, path, uid, gid, wantDir).Err? ==> Removable(t, path, uid, gid, wantDir).errno < 0
  {
    ErrorsNegative(t, path, uid, gid);
  }

  /** A path that is found leads to an inode. */
  lemma LookupExists(t: Tree, next: nat, cs: seq<string>, uid: nat, gid: nat)
    requires TreeOk(t, next) && Lookup(t, cs, uid, gid).Ok?
    ensures Lookup(t, cs, uid, gid).id in t.inodes
  {
    LookupFollows(t, cs, uid, gid);
    if cs != [] {
      var n := |cs| - 1;
      var e := Entry(Follow(t.dents, ROOT, cs[..n]).value, cs[n]);
      assert LinkOk(t.inodes, e.dir, t.dents[e]);
    }
  }

  // Paths before and after a change.

  lemma LinkDiffers(t: Tree, next: nat, e: Entry, id: nat, inode: Inode)
    requires TreeOk(t, next) && e !in t.dents && e.dir in t.inodes && next <= id
    ensures Differs(t, Link(t, e, id, inode), e)
  {
    var u := Link(t, e, id, inode);
    forall f | f != e && f in t.dents
      ensures t.dents[f] in t.inodes && t.dents[f] in u.inodes && SameFace(t.inodes[t.dents[f]], u.inodes[t.dents[f]])
    {
      assert LinkOk(t.inodes, f.dir, t.dents[f]);
    }
  }

  lemma UnlinkDiffers(t: Tree, next: nat, e: Entry)
    requires TreeOk(t, next) && e in t.dents && e.dir in t.inodes
    ensures Differs(t, Unlink(t, e), e)
  {
    var u := Unlink(t, e);
    assert LinkOk(t.inodes, e.dir, t.dents[e]);
    forall f | f != e && f in t.dents
      ensures t.dents[f] in t.inodes && t.dents[f] in u.inodes && SameFace(t.inodes[t.dents[f]], u.inodes[t.dents[f]])
    {
      assert LinkOk(t.inodes, f.dir, t.dents[f]);
      assert t.dents[f] != t.dents[e];
    }
  }

  /** The components of a path are those of its directory part and its last one. */
  lemma PathParts(path: string)
    ensures Split(path) == ParentPath(path) + Part(LastName(path))
  {
    FormatPreservesSplit(path);
    SeparateSplit(Format(path));
  }

  /** A path that does not go through `path` is not affected by a change of `path`'s entry. */
  lemma UnrelatedPath(t: Tree, next: nat, u: Tree, path: string, uid: nat, gid: nat, other: string, uid': nat, gid': nat)
    requires TreeOk(t, next) && Parent(t, path, uid, gid).Ok?
    requires Differs(t, u, Target(Parent(t, path, uid, gid), path))
    requires LastName(path) == "" || !(Split(path) <= Split(other))
    ensures Lookup(t, Split(other), uid', gid') == Lookup(u, Split(other), uid', gid')
  {
    var e, ps, cs := Target(Parent(t, path, uid, gid), path), ParentPath(path), Split(other);
    PathParts(path);
    LookupFollows(t, ps, uid, gid);
    if LastName(path) == "" {
      WordsComponents("", other);
      assert !(ps + [""] <= cs) by {
        assert forall i :: 0 <= i < |cs| ==> cs[i] != "";
        assert (ps + [""])[|ps|] == "";
      }
    }
    LookupSame(t, u, e, ps, cs, uid', gid');
  }

  /** Mkdir, Creat, Rmdir and Unlink leave the lookups of unrelated paths alone, whoever asks. */
  lemma UnrelatedLookups(t: Tree, next: nat, path: string, uid: nat, gid: nat, id: nat, inode: Inode, wantDir: bool,
                         other: string, uid': nat, gid': nat)
    requires TreeOk(t, next) && next <= id && (LastName(path) == "" || !(Split(path) <= Split(other)))
    ensures Vacant(t, path, uid, gid).Ok? ==>
              Lookup(Link(t, Target(Vacant(t, path, uid, gid), path), id, inode), Split(other), uid', gid')
                == Lookup(t, Split(other), uid', gid')
    ensures Removable(t, path, uid, gid, wantDir).Ok? ==>
              Lookup(Unlink(t, Target(Removable(t, path, uid, gid, wantDir), path)), Split(other), uid', gid')
                == Lookup(t, Split(other), uid', gid')
  {
    if Vacant(t, path, uid, gid).Ok? {
      UnrelatedToNew(t, next, path, uid, gid, id, inode, other, uid', gid');
    }
    if Removable(t, path, uid, gid, wantDir).Ok? {
      UnrelatedToGone(t, next, path, uid, gid, wantDir, other, uid', gid');
    }
  }

  lemma UnrelatedToNew(t: Tree, next: nat, path: string, uid: nat, gid: nat, id: nat, inode: Inode,
                       other: string, uid': nat, gid': nat)
    requires TreeOk(t, next) && next <= id && (LastName(path) == "" || !(Split(path) <= Split(other)))
    requires Vacant(t, path, uid, gid).Ok?
    ensures Lookup(Link(t, Target(Vacant(t, path, uid, gid), path), id, inode), Split(other), uid', gid')
              == Lookup(t, Split(other), uid', gid')
  {
    var e := Target(Vacant(t, path, uid, gid), path);
    LinkDiffers(t, next, e, id, inode);
    UnrelatedPath(t, next, Link(t, e, id, inode), path, uid, gid, other, uid', gid');
  }

  lemma UnrelatedToGone(t: Tree, next: nat, path: string, uid: nat, gid: nat, wantDir: bool,
                        other: string, uid': nat, gid': nat)
    requires TreeOk(t, next) && (LastName(path) == "" || !(Split(path) <= Split(other)))
    requires Removable(t, path, uid, gid, wantDir).Ok?
    ensures Lookup(Unlink(t, Target(Removable(t, path, uid, gid, wantDir), path)), Split(other), uid', gid')
              == Lookup(t, Split(other), uid', gid')
  {
    var e := Target(Removable(t, path, uid, gid, wantDir), path);
    UnlinkDiffers(t, next, e);
    UnrelatedPath(t, next, Unlink(t, e), path, uid, gid, other, uid', gid');
  }

  /** After Mkdir the same caller finds the same directory, still writable. */
  lemma ParentAfterMkdir(t: Tree, next: nat, path: string, uid: nat, gid: nat, id: nat, inode: Inode)
    requires TreeOk(t, next) && next <= id && Vacant(t, path, uid, gid).Ok?
    ensures Parent(Link(t, Target(Vacant(t, path, uid, gid), path), id, inode), path, uid, gid)
              == Vacant(t, path, uid, gid)
  {
    var e, ps := Target(Vacant(t, path, uid, gid), path), ParentPath(path);
    var u := Link(t, e, id, inode);
    LinkDiffers(t, next, e, id, inode);
    LookupFollows(t, ps, uid, gid);
    LookupSame(t, u, e, ps, ps, uid, gid);
  }

  /**
   Rmdir by the same caller undoes Mkdir exactly when the mode had no file-type bits; otherwise what
   Mkdir made is not a directory and Rmdir refuses it.
  */
  lemma RmdirUndoesMkdir(t: Tree, next: nat, path: string, uid: nat, gid: nat, mode: Mode, now: nat, id: nat)
    requires TreeOk(t, next) && next <= id && Vacant(t, path, uid, gid).Ok?
    ensures var e := Target(Vacant(t, path, uid, gid), path);
            var u := Link(t, e, id, NewInode(id, DirectoryMode(mode), uid, gid, now, 0));
            && Removable(u, path, uid, gid, true)
                 == (if PermissionsOnly(mode) then Vacant(t, path, uid, gid) else Err(ENOTDIR))
            && Unlink(u, e) == t
  {
    var inode := NewInode(id, DirectoryMode(mode), uid, gid, now, 0);
    ParentAfterMkdir(t, next, path, uid, gid, id, inode);
    UnlinkLink(t, Target(Vacant(t, path, uid, gid), path), id, inode);
  }

  /** Unlink by the same caller undoes Creat, whatever the mode; Rmdir refuses a file. */
  lemma UnlinkUndoesCreat(t: Tree, next: nat, path: string, uid: nat, gid: nat, mode: Mode, now: nat, id: nat, garbage: Word)
    requires TreeOk(t, next) && next <= id && Vacant(t, path, uid, gid).Ok?
    ensures var e := Target(Vacant(t, path, uid, gid), path);
            var u := Link(t, e, id, NewInode(id, FileMode(mode), uid, gid, now, garbage));
            && Removable(u, path, uid, gid, false) == Vacant(t, path, uid, gid)
            && Removable(u, path, uid, gid, true) == Err(ENOTDIR)
            && Unlink(u, e) == t
  {
    var inode := NewInode(id, FileMode(mode), uid, gid, now, garbage);
    ParentAfterMkdir(t, next, path, uid, gid, id, inode);
    UnlinkLink(t, Target(Vacant(t, path, uid, gid), path), id, inode);
  }

  /** Whoever may look into the directory finds what was made there, and nobody else does; making it again is refused. */
  lemma MadeIsFound(t: Tree, next: nat, path: string, uid: nat, gid: nat, id: nat, inode: Inode)
    requires TreeOk(t, next) && next <= id && Vacant(t, path, uid, gid).Ok? && LastName(path) != ""
    ensures var dir := Vacant(t, path, uid, gid).id;
            var u := Link(t, Target(Vacant(t, path, uid, gid), path), id, inode);
            && Lookup(u, Split(path), uid, gid) == (if Open(t, dir, uid, gid) then Ok(id) else Err(EACCES))
            && Vacant(u, path, uid, gid) == Err(EEXIST)
  {
    var dir, e := Vacant(t, path, uid, gid).id, Target(Vacant(t, path, uid, gid), path);
    ParentAfterMkdir(t, next, path, uid, gid, id, inode);
    assert Split(path) == ParentPath(path) + [LastName(path)] by { PathParts(path); }
    FoundInParent(Link(t, e, id, inode), path, uid, gid);
    LinkKeepsOpen(t, e, id, inode, uid, gid);
  }

  lemma LinkKeepsOpen(t: Tree, e: Entry, id: nat, inode: Inode, uid: nat, gid: nat)
    requires e.dir in t.inodes && id !in t.inodes
    ensures Open(Link(t, e, id, inode), e.dir, uid, gid) <==> Open(t, e.dir, uid, gid)
    ensures Entry(e.dir, e.name) in Link(t, e, id, inode).dents && Link(t, e, id, inode).dents[e] == id
  {
  }

  /** Below the directory of a call, the name is found if the directory may be read and has it. */
  lemma FoundInParent(t: Tree, path: string, uid: nat, gid: nat)
    requires Parent(t, path, uid, gid).Ok?
    ensures var dir := Parent(t, path, uid, gid).id;
            Lookup(t, ParentPath(path) + [LastName(path)], uid, gid)
              == if !Open(t, dir, uid, gid) then Err(EACCES)
                 else if Entry(dir, LastName(path)) in t.dents then Ok(t.dents[Entry(dir, LastName(path))]) else Err(ENOENT)
  {
    LookupDeeper(t, ParentPath(path), LastName(path), uid, gid);
  }

  // Whom the calls admit, by the permission digits.

  /** The caller may change directory `id`. */
  ghost predicate Writable(t: Tree, id: nat, uid: nat, gid: nat) {
    id in t.inodes && (uid == 0 || Rights(t.inodes[id], uid, gid) % 4 >= 2)
  }

  /** Mkdir and Creat go ahead in a directory the caller may write to, if the name is free; otherwise they say why not. */
  lemma CreationChecks(t: Tree, next: nat, path: string, uid: nat, gid: nat)
    requires TreeOk(t, next)
    ensures var at, r := Lookup(t, ParentPath(path), uid, gid), Vacant(t, path, uid, gid);
            && (at.Err? ==> r == at)
            && (at.Ok? ==> at.id in t.inodes)
            && (at.Ok? && !IsDir(t.inodes[at.id].mode) ==> r == Err(ENOTDIR))
            && (at.Ok? && IsDir(t.inodes[at.id].mode) && !Writable(t, at.id, uid, gid) ==> r == Err(EACCES))
            && (at.Ok? && IsDir(t.inodes[at.id].mode) && Writable(t, at.id, uid, gid) ==>
                  r == if Entry(at.id, LastName(path)) in t.dents then Err(EEXIST) else at)
  {
    var at := Lookup(t, ParentPath(path), uid, gid);
    if at.Ok? {
      LookupExists(t, next, ParentPath(path), uid, gid);
      WhoWrites(t.inodes[at.id], uid, gid);
    }
  }

  /** Rmdir and Unlink need the same permission, the entry, and the right kind of inode without entries. */
  lemma RemovalChecks(t: Tree, next: nat, path: string, uid: nat, gid: nat, wantDir: bool)
    requires TreeOk(t, next)
    ensures var at, r := Lookup(t, ParentPath(path), uid, gid), Removable(t, path, uid, gid, wantDir);
            var e := Entry(if at.Ok? then at.id else 0, LastName(path));
            && (at.Err? ==> r == at)
            && (at.Ok? ==> at.id in t.inodes)
            && (at.Ok? && !IsDir(t.inodes[at.id].mode) ==> r == Err(ENOTDIR))
            && (at.Ok? && IsDir(t.inodes[at.id].mode) && !Writable(t, at.id, uid, gid) ==> r == Err(EACCES))
            && (at.Ok? && IsDir(t.inodes[at.id].mode) && Writable(t, at.id, uid, gid) ==>
                  if e !in t.dents then r == Err(ENOENT)
                  else t.dents[e] in t.inodes && r == Kind(t.inodes[t.dents[e]], wantDir, at))
  {
    var at := Lookup(t, ParentPath(path), uid, gid);
    if at.Ok? {
      LookupExists(t, next, ParentPath(path), uid, gid);
      WhoWrites(t.inodes[at.id], uid, gid);
      if Entry(at.id, LastName(path)) in t.dents {
        assert LinkOk(t.inodes, at.id, t.dents[Entry(at.id, LastName(path))]);
      }
    }
  }

  /** `at` for an inode of the wanted kind that has no entries. */
  ghost function Kind(inode: Inode, wantDir: bool, at: Outcome): Outcome {
    if IsDir(inode.mode) != wantDir then Err(if wantDir then ENOTDIR else EISDIR)
    else if wantDir && inode.children != 0 then Err(ENOTEMPTY)
    else at
  }

  const ROOT_PERMISSIONS: Mode := 0x1ED   // 0755

  /** A tree of one directory that belongs to user 0 and group 0 and is writable by its owner only. */
  ghost predicate IsNew(t: Tree) {
    && t.dents == map[] && t.inodes.Keys == {ROOT}
    && t.inodes[ROOT].uid == 0 && t.inodes[ROOT].gid == 0 && t.inodes[ROOT].mode % 0x1000 == 0x1ED
  }

  /** In a new tree only user 0 can make anything: there is nothing but the root, which others may read only. */
  lemma NewTreeRefuses(t: Tree, next: nat, path: string, uid: nat, gid: nat)
    requires TreeOk(t, next) && IsNew(t) && uid != 0
    ensures Vacant(t, path, uid, gid) == Err(if ParentPath(path) == [] then EACCES else ENOENT)
  {
    CreationChecks(t, next, path, uid, gid);
    RootDigits(t.inodes[ROOT], uid, gid);
    if ParentPath(path) != [] { WhoReads(t.inodes[ROOT], uid, gid); }
  }

  lemma RootDigits(root: Inode, uid: nat, gid: nat)
    requires root.uid == 0 && root.gid == 0 && root.mode % 0x1000 == 0x1ED && uid != 0
    ensures Rights(root, uid, gid) == 5
  {
    var q, p := Recompose(root.mode, 0x1000);
    DivMod(root.mode, 8 * q, 0x1ED, 0x200);
  }

  lemma RootStore(root: Inode)
    ensures Mirrors(map[InodeKey(ROOT) := InodeValue(root)], Tree(map[ROOT := root], map[]))
  {
    var none, tree := Tree(map[], map[]), Tree(map[ROOT := root], map[]);
    PutInode(map[], none, ROOT, root);
    assert none.(inodes := none.inodes[ROOT := root]) == tree;
    assert map[][InodeKey(ROOT) := InodeValue(root)] == map[InodeKey(ROOT) := InodeValue(root)];
  }

  lemma RootTree(root: Inode)
    requires IsDir(root.mode)
    ensures TreeOk(Tree(map[ROOT := root], map[]), 1)
  {
  }

  class Engine {
    var store: Store
    var seqNo: nat
    ghost var tree: Tree

    ghost predicate Valid()
      reads this
    {
      Mirrors(store, tree) && TreeOk(tree, seqNo)
    }

    /** The root inode, readable by all and writable by user 0; its `children` is whatever was in memory. */
    constructor (now: nat, garbage: Word)
      ensures Valid() && IsNew(tree) && seqNo == 1
    {
      var root := NewInode(ROOT, DirectoryMode(ROOT_PERMISSIONS), 0, 0, now, garbage);
      RootStore(root);
      RootTree(root);
      store := map[InodeKey(ROOT) := InodeValue(root)];
      seqNo := 1;
      tree := Tree(map[ROOT := root], map[]);
    }

    /**
     `GetNewInodeId`.  Past the first group the loop draws a second number and leaves at its
     double check, since the counter has passed the group size too: no new group is ever requested.
    */
    method GetNewInodeId() returns (id: nat)
      modifies this`seqNo
      ensures id == (if old(seqNo) < GROUP_SIZE then old(seqNo) else old(seqNo) + 1) && seqNo == id + 1
    {
      id := seqNo;
      seqNo := seqNo + 1;
      if id >= GROUP_SIZE {
        id := seqNo;
        seqNo := seqNo + 1;
      }
    }

    // Store operations.  Keys are only ever inserted when absent, updated and deleted when present.

    method Insert(key: string, v: Value, fail: bool) returns (ret: int)
      requires key !in store
      modifies this`store
      ensures ret == (if fail then EIO else 0) && store == if fail then old(store) else old(store)[key := v]
    {
      if fail { return EIO; }
      store := store[key := v];
      return 0;
    }

    method Update(key: string, v: Value, fail: bool) returns (ret: int)
      requires key in store
      modifies this`store
      ensures ret == (if fail then EIO else 0) && store == if fail then old(store) else old(store)[key := v]
    {
      if fail { return EIO; }
      store := store[key := v];
      return 0;
    }

    method Delete(key: string, fail: bool) returns (ret: int)
      requires key in store
      modifies this`store
      ensures ret == (if fail then EIO else 0) && store == if fail then old(store) else old(store) - {key}
    {
      if fail { return EIO; }
      store := store - {key};
      return 0;
    }

    method GetInode(id: nat) returns (r: Option<Inode>)
      requires Mirrors(store, tree)
      ensures r == if id in tree.inodes then Some(tree.inodes[id]) else None
    {
      assert InodeKey(id) in store <==> id in tree.inodes;
      if InodeKey(id) !in store { return None; }
      return Some(store[InodeKey(id)].inode);
    }

    method GetDentry(e: Entry) returns (r: Option<nat>)
      requires Mirrors(store, tree)
      ensures r == if e in tree.dents then Some(tree.dents[e]) else None
    {
      assert DentryKey(e) in store <==> e in tree.dents;
      if DentryKey(e) !in store { return None; }
      return Some(store[DentryKey(e)].id);
    }

    /** `PathLookupToDentry` */
    method PathLookup(path: string, uid: nat, gid: nat) returns (r: Outcome)
      requires Mirrors(store, tree)
      ensures r == Lookup(tree, Split(path), uid, gid)
    {
      var formatted := FormatPath(path);
      var cs := SplitPath(formatted);
      FormatPreservesSplit(path);
      if cs == [] { return Ok(ROOT); }
      var root := GetInode(ROOT);
      if root.None? { return Err(ENOENT); }
      if !MayRead(root.value, uid, gid) { return Err(EACCES); }
      var cur := ROOT;
      for i := 0 to |cs|
        invariant i < |cs| ==> Walk(tree, ROOT, cs, uid, gid) == Walk(tree, cur, cs[i..], uid, gid)
        invariant i == |cs| ==> Walk(tree, ROOT, cs, uid, gid) == Ok(cur)
      {
        var next := GetDentry(Entry(cur, cs[i]));
        if next.None? { return Err(ENOENT); }
        if i == |cs| - 1 { return Ok(next.value); }
        var inode := GetInode(next.value);
        if inode.None? { return Err(ENOENT); }
        if !MayRead(inode.value, uid, gid) { return Err(EACCES); }
        if !IsDir(inode.value.mode) { return Err(ENOTDIR); }
        cur := next.value;
        assert cs[i..][1..] == cs[i + 1..];
      }
      return Ok(cur);
    }

    /** The directory part of every call: look the parent up and check it. */
    method OpenParent(path: string, uid: nat, gid: nat) returns (r: Outcome, name: string, inode: Inode)
      requires Mirrors(store, tree)
      ensures r == Parent(tree, path, uid, gid) && name == LastName(path)
      ensures r.Ok? ==> r.id in tree.inodes && inode == tree.inodes[r.id]
    {
      var formatted := FormatPath(path);
      var (dir, last) := Separate(formatted);
      name, inode := last, NewInode(0, 0, 0, 0, 0, 0);
      r := PathLookup(dir, uid, gid);
      if r.Err? { return; }
      var found := GetInode(r.id);
      if found.None? { r := Err(ENOENT); return; }
      inode := found.value;
      if !IsDir(inode.mode) { r := Err(ENOTDIR); return; }
      if !MayWrite(inode, uid, gid) { r := Err(EACCES); return; }
    }

    /** The three writes of Mkdir and Creat, undone when a later one fails. */
    method WriteNew(node: string, entry: string, dir: string, inode: Value, link: Value, kept: Value, f: Failures)
      returns (ret: int)
      requires node !in store && entry !in store && dir in store && node != entry
      modifies this`store
      ensures ret == if Any(f) then EIO else 0
      ensures store == if Any(f) then old(store) else old(store)[node := inode][entry := link][dir := kept]
    {
      ret := Insert(node, inode, f.first);
      if ret != 0 { return; }
      ret := Insert(entry, link, f.second);
      if ret != 0 {
        var undone := Delete(node, false);
        assert store == old(store);
        return;
      }
      ret := Update(dir, kept, f.third);
      if ret != 0 {
        var undone := Delete(node, false);
        undone := Delete(entry, false);
        assert store == old(store);
      }
    }

    /** The three writes of Rmdir and Unlink, undone when a later one fails. */
    method WriteGone(node: string, entry: string, dir: string, inode: Value, link: Value, kept: Value, f: Failures)
      returns (ret: int)
      requires node in store && store[node] == inode && entry in store && store[entry] == link
      requires dir in store && node != entry && dir != node && dir != entry
      modifies this`store
      ensures ret == if Any(f) then EIO else 0
      ensures store == if Any(f) then old(store) else (old(store) - {node} - {entry})[dir := kept]
    {
      ret := Delete(node, f.first);
      if ret != 0 { return; }
      ret := Delete(entry, f.second);
      if ret != 0 {
        var undone := Insert(node, inode, false);
        assert store == old(store);
        return;
      }
      ret := Update(dir, kept, f.third);
      if ret != 0 {
        var undone := Insert(node, inode, false);
        undone := Insert(entry, link, false);
        assert store == old(store);
      }
    }

    method Create(e: Entry, id: nat, inode: Inode, parent: Inode, f: Failures) returns (ret: int)
      requires Mirrors(store, tree) && e.dir in tree.inodes && tree.inodes[e.dir] == parent
      requires e !in tree.dents && id !in tree.inodes
      modifies this`store, this`tree
      ensures Mirrors(store, tree) && ret == if Any(f) then EIO else 0
      ensures ret != 0 ==> store == old(store) && tree == old(tree)
      ensures ret == 0 ==> tree == Link(old(tree), e, id, inode)
    {
      CreateKeys(store, tree, e, id);
      LinkMirrored(store, tree, e, id, inode);
      ret := WriteNew(InodeKey(id), DentryKey(e), InodeKey(e.dir), InodeValue(inode), EntryValue(id),
                      InodeValue(parent.(children := Inc(parent.children))), f);
      if ret == 0 { tree := Link(tree, e, id, inode); }
    }

    method Remove(e: Entry, id: nat, target: Inode, parent: Inode, f: Failures) returns (ret: int)
      requires Mirrors(store, tree) && e in tree.dents && tree.dents[e] == id && e.dir != id
      requires e.dir in tree.inodes && tree.inodes[e.dir] == parent && id in tree.inodes && tree.inodes[id] == target
      modifies this`store, this`tree
      ensures Mirrors(store, tree) && ret == if Any(f) then EIO else 0
      ensures ret != 0 ==> store == old(store) && tree == old(tree)
      ensures ret == 0 ==> tree == Unlink(old(tree), e)
    {
      RemoveKeys(store, tree, e);
      UnlinkMirrored(store, tree, e);
      ret := WriteGone(InodeKey(id), DentryKey(e), InodeKey(e.dir), InodeValue(target), EntryValue(id),
                       InodeValue(parent.(children := Dec(parent.children))), f);
      if ret == 0 { tree := Unlink(tree, e); }
    }

    /** A new inode under a vacant entry. */
    method AddNode(e: Entry, parent: Inode, uid: nat, gid: nat, mode: Mode, now: nat, children: Word, f: Failures)
      returns (ret: int, ghost id: nat)
      requires Mirrors(store, tree) && Below(tree, seqNo)
      requires e.dir in tree.inodes && tree.inodes[e.dir] == parent && e !in tree.dents
      modifies this
      ensures Mirrors(store, tree) && old(seqNo) <= id < seqNo
      ensures ret == (if Any(f) then EIO else 0) && seqNo == id + 1
      ensures ret != 0 ==> store == old(store) && tree == old(tree)
      ensures ret == 0 ==> tree == Link(old(tree), e, id, NewInode(id, mode, uid, gid, now, children))
    {
      var n := GetNewInodeId();
      ret := Create(e, n, NewInode(n, mode, uid, gid, now, children), parent, f);
      id := n;
    }

    /** Mkdir and Creat, which differ in the file type and in whether `children` is initialised. */
    method MakeNode(path: string, uid: nat, gid: nat, mode: Mode, now: nat, children: Word, f: Failures)
      returns (ret: int, ghost id: nat)
      requires Mirrors(store, tree) && Below(tree, seqNo)
      modifies this
      ensures Mirrors(store, tree) && old(seqNo) <= seqNo
      ensures ret == Answer(Vacant(old(tree), path, uid, gid), f)
      ensures ret != 0 ==> store == old(store) && tree == old(tree)
      ensures ret == 0 ==> old(seqNo) <= id && seqNo == id + 1 && Vacant(old(tree), path, uid, gid).Ok?
      ensures ret == 0 ==> tree == Link(old(tree), Target(Vacant(old(tree), path, uid, gid), path), id,
                                        NewInode(id, mode, uid, gid, now, children))
    {
      id := 0;
      ErrorsNegative(tree, path, uid, gid);
      var dir, name, parent := OpenParent(path, uid, gid);
      if dir.Err? { ret := dir.errno; return; }
      var e := Entry(dir.id, name);
      var found := GetDentry(e);
      if found.Some? { ret := EEXIST; return; }
      ret, id := AddNode(e, parent, uid, gid, mode, now, children, f);
    }

    /** Rmdir and Unlink, which differ in the kind of inode they accept. */
    method RemoveNode(path: string, uid: nat, gid: nat, wantDir: bool, f: Failures) returns (ret: int)
      requires Mirrors(store, tree) && Younger(tree)
      modifies this`store, this`tree
      ensures Mirrors(store, tree) && ret == Answer(Removable(old(tree), path, uid, gid, wantDir), f)
      ensures ret != 0 ==> store == old(store) && tree == old(tree)
      ensures ret == 0 ==> Removable(old(tree), path, uid, gid, wantDir).Ok?
      ensures ret == 0 ==> tree == Unlink(old(tree), Target(Removable(old(tree), path, uid, gid, wantDir), path))
    {
      RemovalErrors(tree, path, uid, gid, wantDir);
      var dir, name, parent := OpenParent(path, uid, gid);
      if dir.Err? { return dir.errno; }
      var e := Entry(dir.id, name);
      var id := GetDentry(e);
      if id.None? { return ENOENT; }
      var target := GetInode(id.value);
      if target.None? { return ENOENT; }
      if wantDir {
        if !IsDir(target.value.mode) { return ENOTDIR; }
        if target.value.children > 0 { return ENOTEMPTY; }
      } else {
        if IsDir(target.value.mode) { return EISDIR; }
      }
      ret := Remove(e, id.value, target.value, parent, f);
    }

    /** `Mkdir` */
    method Mkdir(path: string, uid: nat, gid: nat, mode: Mode, now: nat, f: Failures) returns (ret: int, ghost id: nat)
      requires Valid() && seqNo + 2 < WORD_LIMIT
      modifies this
      ensures Valid() && old(seqNo) <= seqNo
      ensures ret == Answer(Vacant(old(tree), path, uid, gid), f)
      ensures ret != 0 ==> store == old(store) && tree == old(tree)
      ensures ret == 0 ==> old(seqNo) <= id < seqNo && Vacant(old(tree), path, uid, gid).Ok?
      ensures ret == 0 ==> tree == Link(old(tree), Target(Vacant(old(tree), path, uid, gid), path), id,
                                        NewInode(id, DirectoryMode(mode), uid, gid, now, 0))
      ensures ret == 0 ==> id in tree.inodes && Fresh(tree.inodes[id], id, uid, gid, now)
      ensures ret == 0 ==> tree.inodes[id].mode % 0x1000 == mode % 0x1000 && (IsDir(tree.inodes[id].mode) <==> PermissionsOnly(mode))
    {
      ret, id := MakeNode(path, uid, gid, DirectoryMode(mode), now, 0, f);
      if ret == 0 {
        LinkKeeps(old(tree), Target(Vacant(old(tree), path, uid, gid), path), id,
                  NewInode(id, DirectoryMode(mode), uid, gid, now, 0), old(seqNo));
      } else {
        TreeLater(old(tree), old(seqNo), seqNo);
      }
    }

    /** `Creat`; the new inode's `children` is whatever was in memory. */
    method Creat(path: string, uid: nat, gid: nat, mode: Mode, now: nat, garbage: Word, f: Failures) returns (ret: int, ghost id: nat)
      requires Valid() && seqNo + 2 < WORD_LIMIT
      modifies this
      ensures Valid() && old(seqNo) <= seqNo
      ensures ret == Answer(Vacant(old(tree), path, uid, gid), f)
      ensures ret != 0 ==> store == old(store) && tree == old(tree)
      ensures ret == 0 ==> old(seqNo) <= id < seqNo && Vacant(old(tree), path, uid, gid).Ok?
      ensures ret == 0 ==> tree == Link(old(tree), Target(Vacant(old(tree), path, uid, gid), path), id,
                                        NewInode(id, FileMode(mode), uid, gid, now, garbage))
      ensures ret == 0 ==> id in tree.inodes && Fresh(tree.inodes[id], id, uid, gid, now)
      ensures ret == 0 ==> tree.inodes[id].mode % 0x1000 == mode % 0x1000 && !IsDir(tree.inodes[id].mode)
    {
      ret, id := MakeNode(path, uid, gid, FileMode(mode), now, garbage, f);
      if ret == 0 {
        LinkKeeps(old(tree), Target(Vacant(old(tree), path, uid, gid), path), id,
                  NewInode(id, FileMode(mode), uid, gid, now, garbage), old(seqNo));
      } else {
        TreeLater(old(tree), old(seqNo), seqNo);
      }
    }

    /** `Rmdir` */
    method Rmdir(path: string, uid: nat, gid: nat, f: Failures) returns (ret: int)
      requires Valid()
      modifies this`store, this`tree
      ensures Valid() && ret == Answer(Removable(old(tree), path, uid, gid, true), f)
      ensures ret != 0 ==> store == old(store) && tree == old(tree)
      ensures ret == 0 ==> Removable(old(tree), path, uid, gid, true).Ok?
      ensures ret == 0 ==> Childless(old(tree), Target(Removable(old(tree), path, uid, gid, true), path))
      ensures ret == 0 ==> tree == Unlink(old(tree), Target(Removable(old(tree), path, uid, gid, true), path))
    {
      YoungerEntries(tree, seqNo);
      ret := RemoveNode(path, uid, gid, true, f);
      RemovalKeeps(old(tree), tree, seqNo, ret, Removable(old(tree), path, uid, gid, true), path);
    }

    /** `Unlink` */
    method UnlinkFile(path: string, uid: nat, gid: nat, f: Failures) returns (ret: int)
      requires Valid()
      modifies this`store, this`tree
      ensures Valid() && ret == Answer(Removable(old(tree), path, uid, gid, false), f)
      ensures ret != 0 ==> store == old(store) && tree == old(tree)
      ensures ret == 0 ==> Removable(old(tree), path, uid, gid, false).Ok?
      ensures ret == 0 ==> Childless(old(tree), Target(Removable(old(tree), path, uid, gid, false), path))
      ensures ret == 0 ==> tree == Unlink(old(tree), Target(Removable(old(tree), path, uid, gid, false), path))
    {
      YoungerEntries(tree, seqNo);
      ret := RemoveNode(path, uid, gid, false, f);
      RemovalKeeps(old(tree), tree, seqNo, ret, Removable(old(tree), path, uid, gid, false), path);
    }

    /** `Stat`: an entry of a valid tree always leads to an inode. */
    method Stat(path: string, uid: nat, gid: nat) returns (r: Outcome, inode: Option<Inode>)
      requires Valid()
      ensures r == Lookup(tree, Split(path), uid, gid)
      ensures inode.Some? <==> r.Ok?
      ensures r.Ok? ==> r.id in tree.inodes && inode == Some(tree.inodes[r.id])
    {
      r := PathLookup(path, uid, gid);
      if r.Err? { return r, None; }
      LookupExists(tree, seqNo, Split(path), uid, gid);
      inode := GetInode(r.id);
    }

    /** A successful Mkdir followed by Rmdir restores the store exactly, unless the mode had file-type bits. */
    method MkdirThenRmdir(path: string, uid: nat, gid: nat, mode: Mode, now: nat, f: Failures)
      returns (made: int, gone: int)
      requires Valid() && seqNo + 2 < WORD_LIMIT
      modifies this
      ensures Valid()
      ensures made == 0 ==> gone == if PermissionsOnly(mode) then 0 else ENOTDIR
      ensures made == 0 && gone == 0 ==> store == old(store) && tree == old(tree)
    {
      ghost var id;
      made, id := Mkdir(path, uid, gid, mode, now, f);
      if made == 0 {
        RmdirUndoesMkdir(old(tree), old(seqNo), path, uid, gid, mode, now, id);
      }
      gone := Rmdir(path, uid, gid, NONE);
      if made == 0 && gone == 0 {
        SameStore(store, old(store), tree);
      }
    }

    /** A successful Creat followed by Unlink restores the store exactly. */
    method CreatThenUnlink(path: string, uid: nat, gid: nat, mode: Mode, now: nat, garbage: Word, f: Failures)
      returns (made: int, gone: int)
      requires Valid() && seqNo + 2 < WORD_LIMIT
      modifies this
      ensures Valid()
      ensures made == 0 ==> gone == 0 && store == old(store) && tree == old(tree)
    {
      ghost var id;
      made, id := Creat(path, uid, gid, mode, now, garbage, f);
      if made == 0 {
        UnlinkUndoesCreat(old(tree), old(seqNo), path, uid, gid, mode, now, id, garbage);
      }
      gone := UnlinkFile(path, uid, gid, NONE);
      if made == 0 {
        SameStore(store, old(store), tree);
      }
    }

    /** Mkdir, then Stat by the same caller: the new directory, unless the caller may not look where it may write. */
    method MkdirThenStat(path: string, uid: nat, gid: nat, mode: Mode, now: nat, f: Failures)
      returns (made: int, found: Outcome, inode: Option<Inode>)
      requires Valid() && seqNo + 2 < WORD_LIMIT && LastName(path) != ""
      modifies this
      ensures Valid()
      ensures made == 0 ==> Vacant(old(tree), path, uid, gid).Ok?
      ensures made == 0 ==> found.Ok? == Open(old(tree), Vacant(old(tree), path, uid, gid).id, uid, gid)
      ensures made == 0 && found.Err? ==> found == Err(EACCES)
      ensures made == 0 && found.Ok? ==>
                && inode.Some? && Fresh(inode.value, found.id, uid, gid, now) && inode.value.mode % 0x1000 == mode % 0x1000
                && found.id !in old(tree).inodes
    {
      ghost var id;
      made, id := Mkdir(path, uid, gid, mode, now, f);
      if made == 0 {
        MadeIsFound(old(tree), old(seqNo), path, uid, gid, id, NewInode(id, DirectoryMode(mode), uid, gid, now, 0));
      }
      found, inode := Stat(path, uid, gid);
    }
  }

  /** On a new engine Mkdir refuses everybody but user 0. */
  method FirstMkdir(path: string, uid: nat, gid: nat, mode: Mode, now: nat, garbage: Word, f: Failures) returns (made: int)
    requires uid != 0
    ensures made == if ParentPath(path) == [] then EACCES else ENOENT
  {
    var engine := new Engine(now, garbage);
    NewTreeRefuses(engine.tree, engine.seqNo, path, uid, gid);
    ghost var id;
    made, id := engine.Mkdir(path, uid, gid, mode, now, f);
  }

  /** And so does Creat. */
  method FirstCreat(path: string, uid: nat, gid: nat, mode: Mode, now: nat, garbage: Word, f: Failures) returns (made: int)
    requires uid != 0
    ensures made == if ParentPath(path) == [] then EACCES else ENOENT
  {
    var engine := new Engine(now, garbage);
    NewTreeRefuses(engine.tree, engine.seqNo, path, uid, gid);
    ghost var id;
    made, id := engine.Creat(path, uid, gid, mode, now, garbage, f);
  }
}
