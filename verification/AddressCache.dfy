/**
 A client's cache of slots (`update_cache`, `check_cache`, `remove_cache`).  Whatever a lookup
 returns is the slot most recently stored for that key, or what a crash has moved it to, and its two
 counters are what the key's history says.  `SlotSystem` keeps the stored slot per client, for one
 slot and without crashes.
*/
module AddressCache {
  import opened Common
  import opened Packing
  import opened ReplicaMap

  datatype CacheEntry = CacheEntry(slot: Word, homes: seq<nat>, misses: nat, accesses: nat)

  /**
   What happens to an entry: a slot is stored with the places of its replicas, a crash moves the
   slot, the entry serves an operation.
  */
  datatype Note = Stored(word: Word, homes: seq<nat>) | Redirected(word: Word) | Served

  /** The notes on each key, oldest first, since it was last removed. */
  type History = map<string, seq<Note>>

  predicate Begun(ns: seq<Note>) {
    ns != [] && ns[0].Stored?
  }

  function Noted(h: History, k: string, n: Note): History {
    h[k := (if k in h then h[k] else []) + [n]]
  }

  /** The slot most recently stored or moved. */
  function Latest(ns: seq<Note>): Word
    requires Begun(ns)
  {
    var n := ns[|ns| - 1];
    if n.Served? then Latest(ns[..|ns| - 1]) else n.word
  }

  /** Note `i` stored a slot that was not the one known before. */
  ghost predicate News(ns: seq<Note>, i: nat)
    requires Begun(ns)
  {
    i < |ns| && ns[i].Stored? && (i > 0 ==> ns[i].word != Latest(ns[..i]))
  }

  /** After the first store, how often a stored slot was not the one known before. */
  ghost function Changes(ns: seq<Note>): nat
    requires Begun(ns)
  {
    |set i: nat | 0 < i < |ns| && News(ns, i)|
  }

  /** How often the entry was stored or used. */
  ghost function Uses(ns: seq<Note>): nat {
    |set i: nat | i < |ns| && !ns[i].Redirected?|
  }

  /** `homes` came with the last store of a slot not known before. */
  ghost predicate HomesOf(ns: seq<Note>, homes: seq<nat>)
    requires Begun(ns)
  {
    exists i: nat :: News(ns, i) && homes == ns[i].homes && forall j :: i < j < |ns| ==> !News(ns, j)
  }

  /** The first store is a use and no change, and every change is a use. */
  lemma ChangesBelow(ns: seq<Note>)
    requires Begun(ns)
    ensures Changes(ns) < Uses(ns)
  {
    var changes, uses := set i: nat | 0 < i < |ns| && News(ns, i), set i: nat | i < |ns| && !ns[i].Redirected?;
    assert 0 in uses && changes <= uses - {0};
    SubsetSize(changes, uses - {0});
  }

  lemma {:induction false} SubsetSize(a: set<nat>, b: set<nat>)
    requires a <= b
    ensures |a| <= |b|
  {
    if a != {} {
      var x :| x in a;
      SubsetSize(a - {x}, b - {x});
    }
  }

  /** An entry is its key's history in short. */
  ghost predicate Summarises(e: CacheEntry, ns: seq<Note>) {
    && Begun(ns) && e.slot == Latest(ns) && e.accesses == Uses(ns) && e.misses == Changes(ns)
    && HomesOf(ns, e.homes)
  }

  /** What is known after note `i` does not depend on later notes. */
  lemma NewsBefore(ns: seq<Note>, n: Note, i: nat)
    requires Begun(ns) && i < |ns|
    ensures News(ns + [n], i) <==> News(ns, i)
  {
    assert (ns + [n])[..i] == ns[..i];
  }

  lemma NewsLast(ns: seq<Note>, n: Note)
    requires Begun(ns)
    ensures News(ns + [n], |ns|) <==> n.Stored? && n.word != Latest(ns)
  {
    assert (ns + [n])[..|ns|] == ns;
  }

  lemma UsesNext(ns: seq<Note>, n: Note)
    ensures Uses(ns + [n]) == Uses(ns) + if n.Redirected? then 0 else 1
  {
    var all := ns + [n];
    var after := set i: nat | i < |all| && !all[i].Redirected?;
    assert forall i :: 0 <= i < |ns| ==> all[i] == ns[i];
    assert after == (set i: nat | i < |ns| && !ns[i].Redirected?) + if n.Redirected? then {} else {|ns|};
  }

  lemma ChangesNext(ns: seq<Note>, n: Note)
    requires Begun(ns)
    ensures Changes(ns + [n]) == Changes(ns) + if n.Stored? && n.word != Latest(ns) then 1 else 0
  {
    var before := set i: nat | 0 < i < |ns| && News(ns, i);
    var after := set i: nat | 0 < i < |ns + [n]| && News(ns + [n], i);
    NewsLast(ns, n);
    forall i | 0 <= i < |ns| ensures News(ns + [n], i) <==> News(ns, i) { NewsBefore(ns, n, i); }
    assert after == before + if n.Stored? && n.word != Latest(ns) then {|ns|} else {};
  }

  lemma HomesNext(ns: seq<Note>, n: Note, homes: seq<nat>)
    requires Begun(ns) && HomesOf(ns, homes)
    ensures HomesOf(ns + [n], if n.Stored? && n.word != Latest(ns) then n.homes else homes)
  {
    NewsLast(ns, n);
    forall i | 0 <= i < |ns| ensures News(ns + [n], i) <==> News(ns, i) { NewsBefore(ns, n, i); }
    var i: nat :| News(ns, i) && homes == ns[i].homes && forall j :: i < j < |ns| ==> !News(ns, j);
    var last := if n.Stored? && n.word != Latest(ns) then |ns| else i;
    assert News(ns + [n], last) && forall j :: last < j < |ns + [n]| ==> !News(ns + [n], j);
  }

  lemma NoteNext(e: CacheEntry, ns: seq<Note>, n: Note)
    requires Summarises(e, ns)
    ensures var news := n.Stored? && n.word != e.slot;
            Summarises(CacheEntry(if n.Served? then e.slot else n.word, if news then n.homes else e.homes,
                                  e.misses + (if news then 1 else 0), e.accesses + if n.Redirected? then 0 else 1),
                       ns + [n])
  {
    assert (ns + [n])[..|ns|] == ns;
    UsesNext(ns, n);
    ChangesNext(ns, n);
    HomesNext(ns, n, e.homes);
  }

  lemma FirstNote(w: Word, homes: seq<nat>)
    ensures Summarises(CacheEntry(w, homes, 0, 1), [Stored(w, homes)])
  {
    var ns := [Stored(w, homes)];
    assert (set i: nat | i < |ns| && !ns[i].Redirected?) == {0};
    assert (set i: nat | 0 < i < |ns| && News(ns, i)) == {};
    assert News(ns, 0);
  }

  /** The server is down, and the block is unknown or every server its entry names is down too. */
  ghost predicate Stranded(slot: RaceSlot, total: map<nat, seq<nat>>, size: nat, crashed: set<Byte>)
    requires Formed(slot) && size > 0
  {
    && slot.serverId in crashed
    && (KeyOf(slot, size) in total ==> forall o :: o in total[KeyOf(slot, size)] ==> CombinedSid(o) in crashed)
  }

  /** On a healthy server the slot stays; otherwise it moves where its block's entry names a healthy one. */
  ghost predicate MovedTo(slot: RaceSlot, to: RaceSlot, total: map<nat, seq<nat>>, size: nat, crashed: set<Byte>)
    requires Formed(slot) && size > 0
  {
    if slot.serverId !in crashed then to == slot
    else KeyOf(slot, size) in total && exists o :: o in total[KeyOf(slot, size)] && to == Moved(slot, size, o)
  }

  class Cache {
    var entries: map<string, CacheEntry>
    ghost var notes: History

    ghost predicate Valid()
      reads this
    {
      entries.Keys == notes.Keys && forall k :: k in entries ==> Summarises(entries[k], notes[k])
    }

    constructor ()
      ensures Valid() && notes == map[]
    {
      entries, notes := map[], map[];
    }

    /** The entry of `k` becomes `e`, which note `n` explains. */
    method Record(k: string, e: CacheEntry, ghost n: Note)
      requires Valid() && Summarises(e, (if k in notes then notes[k] else []) + [n])
      modifies this
      ensures Valid() && notes == Noted(old(notes), k, n)
    {
      entries := entries[k := e];
      notes := Noted(notes, k, n);
    }

    /** `update_cache` */
    method Update(k: string, slot: Word, homes: seq<nat>)
      requires Valid()
      modifies this
      ensures Valid() && notes == Noted(old(notes), k, Stored(slot, homes))
    {
      if k in entries {
        var e := entries[k];
        NoteNext(e, notes[k], Stored(slot, homes));
        if e.slot != slot {
          e := e.(misses := e.misses + 1, slot := slot, homes := homes);
        }
        Record(k, e.(accesses := e.accesses + 1), Stored(slot, homes));
      } else {
        FirstNote(slot, homes);
        assert [] + [Stored(slot, homes)] == [Stored(slot, homes)];
        Record(k, CacheEntry(slot, homes, 0, 1), Stored(slot, homes));
      }
    }

    /**
     `check_cache`.  `distrusted` stands for the comparison of the miss rate with its threshold; the
     rate is always a proper fraction, so there is no division by zero.  An entry with a null
     pointer is dropped.
    */
    method Check(k: string, distrusted: bool) returns (hit: Option<CacheEntry>)
      requires Valid()
      modifies this
      ensures Valid()
      ensures hit.Some? ==> k in old(notes) && Summarises(hit.value, old(notes)[k]) && notes == old(notes)
      ensures hit.Some? ==> hit.value.slot == Latest(old(notes)[k]) && HomesOf(old(notes)[k], hit.value.homes)
      ensures hit.Some? ==> hit.value.misses < hit.value.accesses && SlotAddr(WordSlot(hit.value.slot)) != 0
      ensures hit.Some? <==> k in old(notes) && SlotAddr(WordSlot(Latest(old(notes)[k]))) != 0 && !distrusted
      ensures notes == if k in old(notes) && SlotAddr(WordSlot(Latest(old(notes)[k]))) == 0 then old(notes) - {k} else old(notes)
    {
      if k !in entries { return None; }
      assert Summarises(entries[k], notes[k]);
      ChangesBelow(notes[k]);
      if SlotAddr(WordSlot(entries[k].slot)) == 0 {
        entries, notes := entries - {k}, notes - {k};
        return None;
      }
      if distrusted { return None; }
      return Some(entries[k]);
    }

    /** The cached object was valid and had the right key: the entry served the operation. */
    method Serve(k: string)
      requires Valid() && k in notes
      modifies this
      ensures Valid() && notes == Noted(old(notes), k, Served)
    {
      var e := entries[k];
      NoteNext(e, notes[k], Served);
      Record(k, e.(accesses := e.accesses + 1), Served);
    }

    /**
     After a crash: what `check_failed_cache` answers overwrites the cached slot, without a word to
     the counters.  It answers nothing when the block is unknown or no server holding it is healthy.
    */
    method Redirect(k: string, total: map<nat, seq<nat>>, size: nat, crashed: set<Byte>) returns (to: Option<Word>)
      requires Valid() && k in notes && size > 0
      modifies this
      ensures Valid()
      ensures to.None? ==> notes == old(notes) && Stranded(WordSlot(Latest(notes[k])), total, size, crashed)
      ensures to.Some? ==> notes == Noted(old(notes), k, Redirected(to.value)) && WordSlot(to.value).serverId !in crashed
      ensures to.Some? ==> MovedTo(WordSlot(Latest(old(notes)[k])), WordSlot(to.value), total, size, crashed)
    {
      var e := entries[k];
      assert Summarises(e, notes[k]);
      var slot := WordSlot(e.slot);
      if slot.serverId in crashed && KeyOf(slot, size) !in total { return None; }
      var healthy := CheckFailedCache(total, size, crashed, slot);
      if healthy.None? { return None; }
      WordRoundTrip(e.slot);
      SlotRoundTrip(healthy.value);
      var w := SlotWord(healthy.value);
      NoteNext(e, notes[k], Redirected(w));
      Record(k, e.(slot := w), Redirected(w));
      return Some(w);
    }

    /** `remove_cache` */
    method Remove(k: string)
      requires Valid()
      modifies this
      ensures Valid() && notes == old(notes) - {k}
    {
      if k in entries {
        entries := entries - {k};
      }
      notes := notes - {k};
    }
  }
}
