/**
 How the tree lies in the key-value store: an inode under its decimal id, an entry under the
 directory's id, a slash and the name.
*/
module FsStore {
  import opened Common
  import opened Path
  import opened FsTree

  /** A decimal digit. */
  function Digit(d: nat): char
    requires d < 10
  {
    "0123456789"[d]
  }

  /** `std::to_string` */
  function Decimal(n: nat): (s: string)
    ensures |s| > 0
  {
    if n < 10 then [Digit(n)] else Decimal(n / 10) + [Digit(n % 10)]
  }

  lemma {:induction false} DecimalPlain(n: nat)
    ensures Plain(Decimal(n))
  {
    if n >= 10 { DecimalPlain(n / 10); }
  }

  lemma DigitInjective(a: nat, b: nat)
    requires a < 10 && b < 10
    ensures Digit(a) == Digit(b) <==> a == b
  {
  }

  lemma {:induction false} DecimalInjective(a: nat, b: nat)
    requires Decimal(a) == Decimal(b)
    ensures a == b
  {
    var s := Decimal(a);
    var n := |s| - 1;
    DigitInjective(a % 10, b % 10);
    if a >= 10 && b >= 10 {
      assert s[..n] == Decimal(a / 10) && s[..n] == Decimal(b / 10);
      assert s[n] == Digit(a % 10) == Digit(b % 10);
      DecimalInjective(a / 10, b / 10);
    } else {
      DecimalLength(a);
      DecimalLength(b);
      DigitInjective(if a < 10 then a else 0, if b < 10 then b else 0);
    }
  }

  lemma DecimalLength(a: nat)
    ensures |Decimal(a)| == 1 <==> a < 10
  {
  }

  predicate Digits(s: string) {
    forall i :: 0 <= i < |s| ==> '0' <= s[i] <= '9'
  }

  /** The number a string of digits stands for. */
  function Number(s: string): nat
    requires Digits(s)
  {
    if s == "" then 0 else 10 * Number(s[..|s| - 1]) + (s[|s| - 1] as int - '0' as int)
  }

  lemma DigitValue(d: nat)
    requires d < 10
    ensures '0' <= Digit(d) <= '9' && Digit(d) as int - '0' as int == d
  {
  }

  /** Decimal notation: digits only, no leading zero, and the number again. */
  lemma {:induction false} DecimalNotation(n: nat)
    ensures Digits(Decimal(n)) && (n > 0 ==> Decimal(n)[0] != '0')
    ensures Number(Decimal(n)) == n
  {
    DigitValue(n % 10);
    if n >= 10 {
      DecimalNotation(n / 10);
      var s := Decimal(n);
      assert s[..|s| - 1] == Decimal(n / 10);
    } else {
      assert Decimal(n)[..0] == "";
    }
  }

  /** `GetInodeKey` */
  function InodeKey(id: nat): string {
    Decimal(id)
  }

  /** `GetDentryKey` */
  function DentryKey(e: Entry): string {
    Decimal(e.dir) + "/" + e.name
  }

  /** The first slash ends the first part. */
  lemma FirstSlash(a: string, s: string, b: string, t: string)
    requires Plain(a) && Plain(b) && a + "/" + s == b + "/" + t
    ensures a == b && s == t
  {
    var k := a + "/" + s;
    assert k[|a|] == '/' && forall i :: 0 <= i < |a| ==> k[i] == a[i] && k[i] != '/';
    assert k == b + "/" + t && k[|b|] == '/' && forall i :: 0 <= i < |b| ==> k[i] == b[i] && k[i] != '/';
    assert |a| <= |b| <= |a|;
    assert a == k[..|a|] == b;
    assert s == k[|a| + 1..] == t;
  }

  /** Different inodes and entries have different keys, whatever the names. */
  lemma KeysInjective(id: nat, id': nat, e: Entry, e': Entry)
    ensures InodeKey(id) == InodeKey(id') <==> id == id'
    ensures DentryKey(e) == DentryKey(e') <==> e == e'
    ensures InodeKey(id) != DentryKey(e)
  {
    DecimalPlain(id);
    assert DentryKey(e)[|Decimal(e.dir)|] == '/';
    if InodeKey(id) == InodeKey(id') { DecimalInjective(id, id'); }
    if DentryKey(e) == DentryKey(e') {
      DecimalPlain(e.dir);
      DecimalPlain(e'.dir);
      FirstSlash(Decimal(e.dir), e.name, Decimal(e'.dir), e'.name);
      DecimalInjective(e.dir, e'.dir);
    }
  }

  datatype Value = InodeValue(inode: Inode) | EntryValue(id: nat)

  type Store = map<string, Value>

  ghost predicate InodesMirrored(s: Store, t: Tree) {
    forall id ::
      && (InodeKey(id) in s <==> id in t.inodes)
      && (id in t.inodes ==> s[InodeKey(id)] == InodeValue(t.inodes[id]))
  }

  ghost predicate EntriesMirrored(s: Store, t: Tree) {
    forall e ::
      && (DentryKey(e) in s <==> e in t.dents)
      && (e in t.dents ==> s[DentryKey(e)] == EntryValue(t.dents[e]))
  }

  ghost predicate IsKey(k: string) {
    (exists id :: k == InodeKey(id)) || (exists e :: k == DentryKey(e))
  }

  /** The store holds the tree and nothing else. */
  ghost predicate Mirrors(s: Store, t: Tree) {
    InodesMirrored(s, t) && EntriesMirrored(s, t) && forall k :: k in s ==> IsKey(k)
  }

  /** The tree determines the store. */
  lemma SameStore(s: Store, s': Store, t: Tree)
    requires Mirrors(s, t) && Mirrors(s', t)
    ensures s == s'
  {
    forall k | k in s ensures k in s' && s'[k] == s[k] { KeyMirrored(s, s', t, k); }
    forall k | k in s' ensures k in s && s[k] == s'[k] { KeyMirrored(s', s, t, k); }
  }

  lemma KeyMirrored(s: Store, s': Store, t: Tree, k: string)
    requires Mirrors(s, t) && Mirrors(s', t) && k in s
    ensures k in s' && s'[k] == s[k]
  {
    assert IsKey(k);
    if id :| k == InodeKey(id) {
      assert id in t.inodes;
    } else {
      var e :| k == DentryKey(e);
      assert e in t.dents;
    }
  }

  lemma PutInode(s: Store, t: Tree, id: nat, inode: Inode)
    requires Mirrors(s, t)
    ensures Mirrors(s[InodeKey(id) := InodeValue(inode)], t.(inodes := t.inodes[id := inode]))
  {
    var s', t' := s[InodeKey(id) := InodeValue(inode)], t.(inodes := t.inodes[id := inode]);
    forall i ensures (InodeKey(i) in s' <==> i in t'.inodes)
                     && (i in t'.inodes ==> s'[InodeKey(i)] == InodeValue(t'.inodes[i]))
    {
      KeysInjective(i, id, Entry(0, ""), Entry(0, ""));
    }
    forall e ensures (DentryKey(e) in s' <==> e in t'.dents)
                     && (e in t'.dents ==> s'[DentryKey(e)] == EntryValue(t'.dents[e]))
    {
      KeysInjective(id, id, e, e);
    }
  }

  lemma DropInode(s: Store, t: Tree, id: nat)
    requires Mirrors(s, t)
    ensures Mirrors(s - {InodeKey(id)}, t.(inodes := t.inodes - {id}))
  {
    var s', t' := s - {InodeKey(id)}, t.(inodes := t.inodes - {id});
    forall i ensures (InodeKey(i) in s' <==> i in t'.inodes)
                     && (i in t'.inodes ==> s'[InodeKey(i)] == InodeValue(t'.inodes[i]))
    {
      KeysInjective(i, id, Entry(0, ""), Entry(0, ""));
    }
    forall e ensures (DentryKey(e) in s' <==> e in t'.dents)
                     && (e in t'.dents ==> s'[DentryKey(e)] == EntryValue(t'.dents[e]))
    {
      KeysInjective(id, id, e, e);
    }
  }

  lemma PutEntry(s: Store, t: Tree, e: Entry, id: nat)
    requires Mirrors(s, t)
    ensures Mirrors(s[DentryKey(e) := EntryValue(id)], t.(dents := t.dents[e := id]))
  {
    var s', t' := s[DentryKey(e) := EntryValue(id)], t.(dents := t.dents[e := id]);
    forall i ensures (InodeKey(i) in s' <==> i in t'.inodes)
                     && (i in t'.inodes ==> s'[InodeKey(i)] == InodeValue(t'.inodes[i]))
    {
      KeysInjective(i, i, e, e);
    }
    forall f ensures (DentryKey(f) in s' <==> f in t'.dents)
                     && (f in t'.dents ==> s'[DentryKey(f)] == EntryValue(t'.dents[f]))
    {
      KeysInjective(0, 0, e, f);
    }
  }

  lemma DropEntry(s: Store, t: Tree, e: Entry)
    requires Mirrors(s, t)
    ensures Mirrors(s - {DentryKey(e)}, t.(dents := t.dents - {e}))
  {
    var s', t' := s - {DentryKey(e)}, t.(dents := t.dents - {e});
    forall i ensures (InodeKey(i) in s' <==> i in t'.inodes)
                     && (i in t'.inodes ==> s'[InodeKey(i)] == InodeValue(t'.inodes[i]))
    {
      KeysInjective(i, i, e, e);
    }
    forall f ensures (DentryKey(f) in s' <==> f in t'.dents)
                     && (f in t'.dents ==> s'[DentryKey(f)] == EntryValue(t'.dents[f]))
    {
      KeysInjective(0, 0, e, f);
    }
  }
}
