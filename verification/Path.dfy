/** Path handling (`SplitPath`, `SeparateLastComponent`, `FormatPath`). */
module Path {
  import opened Common

  /** The components of `s`, with `cur` already read of the first one. */
  function Words(cur: string, s: string): seq<string>
    decreases |s|
  {
    if s == "" then Part(cur)
    else if s[0] == '/' then Part(cur) + Words("", s[1..])
    else Words(cur + [s[0]], s[1..])
  }

  /** A component, unless it is empty. */
  function Part(cur: string): seq<string> {
    if cur == "" then [] else [cur]
  }

  /** The nonempty pieces between slashes. */
  function Split(s: string): seq<string> {
    Words("", s)
  }

  predicate Plain(s: string) {
    '/' !in s
  }

  /** Reading on over characters that are not slashes. */
  lemma {:induction false} WordsPlain(cur: string, a: string, s: string)
    requires Plain(a)
    ensures Words(cur, a + s) == Words(cur + a, s)
    decreases |a|
  {
    if a == "" {
      assert a + s == s && cur + a == cur;
    } else {
      assert (a + s)[0] == a[0] && (a + s)[1..] == a[1..] + s;
      WordsPlain(cur + [a[0]], a[1..], s);
      assert cur + [a[0]] + a[1..] == cur + a;
    }
  }

  /** A slash separates: the two sides are split on their own. */
  lemma {:induction false} WordsSlash(cur: string, s: string, t: string)
    ensures Words(cur, s + "/" + t) == Words(cur, s) + Split(t)
    decreases |s|
  {
    if s == "" {
      assert s + "/" + t == "/" + t;
      assert ("/" + t)[1..] == t;
    } else {
      assert (s + "/" + t)[0] == s[0] && (s + "/" + t)[1..] == s[1..] + "/" + t;
      if s[0] == '/' {
        WordsSlash("", s[1..], t);
      } else {
        WordsSlash(cur + [s[0]], s[1..], t);
      }
    }
  }

  lemma SplitPlain(a: string)
    requires Plain(a)
    ensures Split(a) == Part(a)
  {
    WordsPlain("", a, "");
    assert a + "" == a && "" + a == a;
  }

  lemma SplitSlash(s: string, t: string)
    ensures Split(s + "/" + t) == Split(s) + Split(t)
  {
    WordsSlash("", s, t);
  }

  /** `SplitPath` */
  method SplitPath(path: string) returns (components: seq<string>)
    ensures components == Split(path)
  {
    components := [];
    var pos := 0;
    while pos < |path|
      invariant 0 <= pos <= |path| && components + Split(path[pos..]) == Split(path)
    {
      var end := pos;
      while end < |path| && path[end] != '/'
        invariant pos <= end <= |path| && Plain(path[pos..end])
      {
        end := end + 1;
      }
      var comp := path[pos..end];
      SplitPlain(comp);
      if end < |path| {
        SplitSlash(comp, path[end + 1..]);
        assert path[pos..] == comp + "/" + path[end + 1..];
      } else {
        assert path[pos..] == comp;
      }
      if comp != "" {
        components := components + [comp];
      }
      pos := if end < |path| then end + 1 else end;
    }
    assert path[pos..] == "";
  }

  /** The components a path can have. */
  predicate Components(cs: seq<string>) {
    forall i :: 0 <= i < |cs| ==> cs[i] != "" && Plain(cs[i])
  }

  lemma {:induction false} WordsComponents(cur: string, s: string)
    requires Plain(cur)
    ensures Components(Words(cur, s))
    decreases |s|
  {
    if s != "" {
      if s[0] == '/' { WordsComponents("", s[1..]); } else { WordsComponents(cur + [s[0]], s[1..]); }
    }
  }

  /** The path with these components. */
  function Join(cs: seq<string>): string {
    if cs == [] then "" else Join(cs[..|cs| - 1]) + "/" + cs[|cs| - 1]
  }

  /** Splitting undoes joining: `Split` loses nothing but slashes. */
  lemma {:induction false} SplitJoin(cs: seq<string>)
    requires Components(cs)
    ensures Split(Join(cs)) == cs
  {
    if cs != [] {
      var n := |cs| - 1;
      SplitJoin(cs[..n]);
      SplitSlash(Join(cs[..n]), cs[n]);
      SplitPlain(cs[n]);
      assert cs == cs[..n] + [cs[n]];
    }
  }

  // FormatPath.

  /** No two slashes in a row. */
  predicate Single(s: string) {
    forall i :: 0 < i < |s| ==> !(s[i] == '/' && s[i - 1] == '/')
  }

  /** Runs of slashes reduced to one. */
  function Squeeze(s: string): string {
    if |s| < 2 then s
    else if s[0] == '/' && s[1] == '/' then Squeeze(s[1..])
    else [s[0]] + Squeeze(s[1..])
  }

  lemma {:induction false} SqueezeSingle(s: string)
    requires Single(s)
    ensures Squeeze(s) == s
  {
    if |s| >= 2 {
      assert Single(s[1..]);
      SqueezeSingle(s[1..]);
      assert s == [s[0]] + s[1..];
    }
  }

  /** One slash of a pair erased. */
  lemma {:induction false} SqueezeErase(s: string, i: nat)
    requires 0 < i < |s| && s[i] == '/' && s[i - 1] == '/'
    ensures Squeeze(s[..i] + s[i + 1..]) == Squeeze(s)
  {
    var t := s[..i] + s[i + 1..];
    if i == 1 {
      assert t == s[1..];
    } else {
      SqueezeErase(s[1..], i - 1);
      assert t[1..] == s[1..][..i - 1] + s[1..][i..];
      assert t[0] == s[0] && t[1] == s[1];
    }
  }

  /** `FormatPath`'s result: a leading slash, one trailing slash dropped, runs of slashes reduced. */
  function Format(path: string): string {
    if path == "" then "" else Squeeze(Trimmed(Led(path)))
  }

  function Led(path: string): (r: string)
    requires path != ""
    ensures r != ""
  {
    if path[0] != '/' then "/" + path else path
  }

  function Trimmed(path: string): string
    requires path != ""
  {
    if path[|path| - 1] == '/' then path[..|path| - 1] else path
  }

  /** `FormatPath`: the loop that erases in place terminates, and leaves no adjacent slashes. */
  method FormatPath(path: string) returns (p: string)
    ensures p == Format(path) && Single(p)
  {
    p := path;
    if p == "" { return; }
    if p[0] != '/' { p := "/" + p; }
    if p[|p| - 1] == '/' { p := p[..|p| - 1]; }
    ghost var start := p;
    var i := 1;
    while i < |p|
      invariant 1 <= i && Squeeze(p) == Squeeze(start)
      invariant forall k :: 0 < k < i && k < |p| ==> !(p[k] == '/' && p[k - 1] == '/')
      decreases |p| - i
    {
      if p[i] == '/' && p[i - 1] == '/' {
        SqueezeErase(p, i);
        p := p[..i] + p[i + 1..];
      } else {
        i := i + 1;
      }
    }
    SqueezeSingle(p);
  }

  lemma {:induction false} WordsSqueeze(cur: string, s: string)
    ensures Words(cur, Squeeze(s)) == Words(cur, s)
    decreases |s|
  {
    if |s| >= 2 {
      if s[0] == '/' && s[1] == '/' {
        WordsSqueeze(cur, s[1..]);
      } else {
        var t := [s[0]] + Squeeze(s[1..]);
        assert t[0] == s[0] && t[1..] == Squeeze(s[1..]);
        if s[0] == '/' { WordsSqueeze("", s[1..]); } else { WordsSqueeze(cur + [s[0]], s[1..]); }
      }
    }
  }

  /** Normalising a path does not change its components. */
  lemma FormatPreservesSplit(path: string)
    ensures Split(Format(path)) == Split(path)
  {
    if path != "" {
      var led := Led(path);
      WordsSqueeze("", Trimmed(led));
      assert Split(led) == Split(path) by {
        if path[0] != '/' {
          SplitSlash("", path);
          assert "" + "/" + path == "/" + path;
        }
      }
      var n := |led| - 1;
      if led[n] == '/' {
        SplitSlash(led[..n], "");
        assert led == led[..n] + "/" + "";
      }
    }
  }

  // SeparateLastComponent.

  /** The position of the last slash, or -1. */
  function LastSlash(s: string): (p: int)
    ensures -1 <= p < |s|
    ensures p >= 0 ==> s[p] == '/'
    ensures forall i :: p < i < |s| ==> s[i] != '/'
  {
    if s == "" then -1
    else if s[|s| - 1] == '/' then |s| - 1
    else LastSlash(s[..|s| - 1])
  }

  /** `SeparateLastComponent` */
  function Separate(path: string): (r: (string, string))
    ensures Plain(r.1)
    ensures if Plain(path) then r == ("", path) else path == r.0 + "/" + r.1
  {
    var p := LastSlash(path);
    if p == -1 then ("", path) else (path[..p], path[p + 1..])
  }

  lemma Rejoin(path: string, p: nat)
    requires p < |path| && path[p] == '/'
    ensures path == path[..p] + "/" + path[p + 1..]
  {
  }

  /** The directory part and the last component together are the path. */
  lemma SeparateSplit(path: string)
    ensures Split(path) == Split(Separate(path).0) + Part(Separate(path).1)
  {
    var p := LastSlash(path);
    if p >= 0 {
      Rejoin(path, p);
      SplitSlash(path[..p], path[p + 1..]);
      SplitPlain(path[p + 1..]);
    } else {
      SplitPlain(path);
    }
  }

  lemma {:induction false} SqueezeLast(s: string)
    requires s != ""
    ensures Squeeze(s) != "" && Squeeze(s)[|Squeeze(s)| - 1] == s[|s| - 1]
  {
    if |s| >= 2 { SqueezeLast(s[1..]); }
  }

  /** `path` ends in at least two slashes. */
  predicate TwoSlashes(path: string) {
    |path| >= 2 && path[|path| - 1] == '/' && path[|path| - 2] == '/'
  }

  /**
   Normalising does not always leave a last component, because only one trailing slash is dropped:
   the last component of the formatted path is empty exactly for "", "/" and paths ending in "//".
  */
  lemma FormatLastEmpty(path: string)
    ensures Separate(Format(path)).1 == "" <==> path == "" || path == "/" || TwoSlashes(path)
  {
    if path != "" {
      SqueezedLastEmpty(Trimmed(Led(path)));
      TrimmedEnd(path);
    }
  }

  predicate Ended(s: string) {
    s == "" || s[|s| - 1] == '/'
  }

  lemma SqueezedLastEmpty(s: string)
    ensures Separate(Squeeze(s)).1 == "" <==> Ended(s)
  {
    if s != "" { SqueezeLast(s); }
  }

  lemma TrimmedEnd(path: string)
    requires path != ""
    ensures Ended(Trimmed(Led(path))) <==> path == "/" || TwoSlashes(path)
  {
    if |path| == 1 {
      assert path == "/" <==> path[0] == '/';
    }
  }

  /** Starting with a slash, unless empty. */
  predicate Rooted(s: string) {
    s == "" || s[0] == '/'
  }

  /** A rooted path without adjacent slashes is its components, each after a slash, and a last slash if it ends in one. */
  lemma {:induction false} SingleIs(p: string)
    requires Rooted(p) && Single(p)
    ensures p == Join(Split(p)) + if p != "" && Ended(p) then "/" else ""
    decreases |p|
  {
    if p != "" {
      var q := LastSlash(p);
      var dir, last := p[..q], p[q + 1..];
      Rejoin(p, q);
      assert Single(dir) && Rooted(dir) && (dir != "" ==> !Ended(dir));
      SingleIs(dir);
      SplitSlash(dir, last);
      SplitPlain(last);
      if last == "" {
        assert Split(p) == Split(dir) && p == dir + "/";
      } else {
        var cs := Split(p);
        assert cs == Split(dir) + [last] && cs[..|cs| - 1] == Split(dir);
        assert p[|p| - 1] == last[|last| - 1] && !Ended(p);
        assert Join(cs) == dir + "/" + last;
      }
    }
  }

  lemma {:induction false} SqueezeRooted(s: string)
    requires Rooted(s)
    ensures Rooted(Squeeze(s))
  {
    if |s| >= 2 && s[1] == '/' { SqueezeRooted(s[1..]); }
  }

  /**
   What `FormatPath` makes of a path: its components, each after one slash, and a slash at the end
   exactly if the path ended in two.
  */
  lemma FormatIs(path: string)
    ensures Format(path) == Join(Split(path)) + if TwoSlashes(path) then "/" else ""
  {
    if path == "" {
      assert Split(path) == [];
    } else {
      var s := Trimmed(Led(path));
      FormatSingle(path);
      FormatPreservesSplit(path);
      SqueezeRooted(s);
      SingleIs(Squeeze(s));
      TrimmedEnd(path);
      EndKept(s);
      assert path == "/" ==> s == "";
    }
  }

  lemma EndKept(s: string)
    ensures Squeeze(s) == "" <==> s == ""
    ensures Ended(Squeeze(s)) <==> Ended(s)
  {
    if s != "" { SqueezeLast(s); }
  }

  lemma {:induction false} SqueezedSingle(s: string)
    ensures Single(Squeeze(s)) && (s != "" ==> Squeeze(s) != "" && Squeeze(s)[0] == s[0])
  {
    if |s| >= 2 { SqueezedSingle(s[1..]); }
  }

  lemma FormatSingle(path: string)
    ensures Single(Format(path))
  {
    if path != "" { SqueezedSingle(Trimmed(Led(path))); }
  }
}
