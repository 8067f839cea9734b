/** Vocabulary shared by every component: 64-bit words, optional values and counting in sequences. */
module Common {

  const WORD_LIMIT: nat := 0x1_0000_0000_0000_0000

  /** An 8-byte remote word, ordered as an unsigned integer. */
  type Word = w: nat | w < WORD_LIMIT

  datatype Option<+T> = None | Some(value: T)

  /** How often `x` occurs in `s`. */
  function Count<T(==)>(s: seq<T>, x: T): nat {
    if s == [] then 0
    else Count(s[..|s| - 1], x) + if s[|s| - 1] == x then 1 else 0
  }

  ghost predicate NoDup<T>(s: seq<T>) {
    forall i, j :: 0 <= i < j < |s| ==> s[i] != s[j]
  }

  lemma NoDupAppend<T>(s: seq<T>, x: T)
    requires NoDup(s) && x !in s
    ensures NoDup(s + [x]) && NoDup([x] + s)
  {
    var t := [x] + s;
    forall i, j | 0 <= i < j < |t| ensures t[i] != t[j] {
      assert t[j] == s[j - 1];
    }
  }

  lemma {:induction false} CountBound<T>(s: seq<T>, x: T)
    ensures Count(s, x) <= |s|
    ensures Count(s, x) == |s| <==> forall i :: 0 <= i < |s| ==> s[i] == x
    ensures Count(s, x) == 0 <==> x !in s
  {
    if s != [] {
      var t := s[..|s| - 1];
      CountBound(t, x);
      assert s == t + [s[|s| - 1]];
      assert forall i :: 0 <= i < |t| ==> t[i] == s[i];
    }
  }

  /** Two different elements never share a position. */
  lemma {:induction false} CountDisjoint<T>(s: seq<T>, x: T, y: T)
    requires x != y
    ensures Count(s, x) + Count(s, y) <= |s|
  {
    if s != [] {
      CountDisjoint(s[..|s| - 1], x, y);
    }
  }

  /** A sequence that holds `x` wherever another one does holds it at least as often. */
  lemma {:induction false} CountMonotone<T>(s: seq<T>, t: seq<T>, x: T)
    requires |s| == |t|
    requires forall i :: 0 <= i < |s| && s[i] == x ==> t[i] == x
    ensures Count(s, x) <= Count(t, x)
  {
    if s != [] {
      CountMonotone(s[..|s| - 1], t[..|t| - 1], x);
    }
  }
}
