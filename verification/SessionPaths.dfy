/** Session names as paths: what splitting a name at '/' gives, and the names of
    the folders it lies in. */
module SessionPaths {

  const SPLIT := '/'

  /** QString::lastIndexOf. */
  function LastSlash(s: string): (i: int)
    ensures -1 <= i < |s|
    ensures i >= 0 ==> s[i] == SPLIT
    ensures forall j :: i < j < |s| ==> s[j] != SPLIT
  {
    if s == "" then -1
    else if s[|s| - 1] == SPLIT then |s| - 1
    else LastSlash(s[..|s| - 1])
  }

  predicate HasSlash(s: string) { LastSlash(s) >= 0 }

  /** The folder a name lies in, "" for the root. */
  function Dir(s: string): (d: string)
    ensures HasSlash(s) ==> |d| < |s|
    ensures !HasSlash(s) ==> d == ""
  {
    if HasSlash(s) then s[..LastSlash(s)] else ""
  }

  /** The name inside that folder. */
  function Base(s: string): (b: string)
    ensures SPLIT !in b
    ensures s == if HasSlash(s) then Dir(s) + [SPLIT] + b else b
  {
    if HasSlash(s) then s[LastSlash(s) + 1..] else s
  }

  /** QString::split. */
  function Split(s: string): (parts: seq<string>)
    ensures |parts| >= 1
    decreases |s|
  {
    if HasSlash(s) then Split(Dir(s)) + [Base(s)] else [s]
  }

  function Join(parts: seq<string>): string {
    if parts == [] then ""
    else if |parts| == 1 then parts[0]
    else Join(parts[..|parts| - 1]) + [SPLIT] + parts[|parts| - 1]
  }

  lemma LastSlashAt(s: string, i: int)
    requires -1 <= i < |s| && (i >= 0 ==> s[i] == SPLIT)
    requires forall j :: i < j < |s| ==> s[j] != SPLIT
    ensures LastSlash(s) == i
  {
    hide LastSlash;
    var k := LastSlash(s);
    assert !(i < k);
    assert !(k < i);
  }

  lemma NoSlashAfter(d: string, b: string)
    requires SPLIT !in b
    ensures forall j :: |d| < j < |d + [SPLIT] + b| ==> (d + [SPLIT] + b)[j] != SPLIT
  {
    var s := d + [SPLIT] + b;
    forall j | |d| < j < |s| ensures s[j] != SPLIT {
      assert s[j] == b[j - |d| - 1];
      assert b[j - |d| - 1] in b;
    }
  }

  lemma LastSlashIs(d: string, b: string)
    requires SPLIT !in b
    ensures LastSlash(d + [SPLIT] + b) == |d|
    ensures LastSlash(b) == -1
  {
    hide LastSlash;
    NoSlashAfter(d, b);
    LastSlashAt(d + [SPLIT] + b, |d|);
    LastSlashAt(b, -1);
  }

  /** Splitting is the one way to write a name as components without slashes. */
  lemma {:induction false} SplitJoin(s: string)
    ensures Join(Split(s)) == s
    ensures forall i :: 0 <= i < |Split(s)| ==> SPLIT !in Split(s)[i]
    decreases |s|
  {
    if HasSlash(s) {
      SplitJoin(Dir(s));
      var parts := Split(s);
      assert parts[..|parts| - 1] == Split(Dir(s));
    } else {
      assert s == Base(s);
    }
  }

  lemma SplitOne(d: string, b: string)
    requires SPLIT !in b
    ensures Split(d + [SPLIT] + b) == Split(d) + [b]
    ensures Split(b) == [b]
  {
    LastSlashIs(d, b);
    var s := d + [SPLIT] + b;
    assert s[..|d|] == d && s[|d| + 1..] == b;
  }

  lemma {:induction false} JoinSplit(parts: seq<string>)
    requires |parts| >= 1 && forall i :: 0 <= i < |parts| ==> SPLIT !in parts[i]
    ensures Split(Join(parts)) == parts
  {
    hide Split;
    var front, b := parts[..|parts| - 1], parts[|parts| - 1];
    SplitOne(Join(front), b);
    if |parts| > 1 {
      JoinSplit(front);
      assert parts == front + [b];
    } else {
      assert parts == [b];
    }
  }

  /** The name of the folder `k` levels down on the way to `s`. */
  function Prefix(s: string, k: nat): string
    requires k <= |Split(s)|
    decreases |s|
  {
    if k == 0 then "" else if k == |Split(s)| then s else Prefix(Dir(s), k)
  }

  lemma {:induction false} PrefixIsJoin(s: string, k: nat)
    requires k <= |Split(s)|
    ensures Prefix(s, k) == Join(Split(s)[..k])
    decreases |s|
  {
    if k == |Split(s)| {
      SplitJoin(s);
      assert Split(s)[..k] == Split(s);
    } else if k > 0 {
      hide Join;
      PrefixIsJoin(Dir(s), k);
      assert Split(s)[..k] == Split(Dir(s))[..k];
    }
  }

  /** One level further down: the folder is the prefix before, and the name in
      it is the next component. */
  lemma {:induction false} PrefixStep(s: string, k: nat)
    requires k < |Split(s)|
    ensures Prefix(s, k + 1) == (if k == 0 then "" else Prefix(s, k) + [SPLIT]) + Split(s)[k]
    ensures Dir(Prefix(s, k + 1)) == Prefix(s, k) && Base(Prefix(s, k + 1)) == Split(s)[k]
    ensures HasSlash(Prefix(s, k + 1)) <==> k > 0
    decreases |s|
  {
    if k + 1 < |Split(s)| {
      PrefixStep(Dir(s), k);
    }
  }

  /** A name that can be reached from the root. */
  predicate Path(s: string) { s != "" && s[0] != SPLIT }

  lemma {:induction false} PrefixPath(s: string, k: nat)
    requires Path(s) && 0 < k <= |Split(s)|
    ensures Path(Prefix(s, k))
    decreases |s|
  {
    if k < |Split(s)| {
      assert s[..LastSlash(s)] != "" by { assert LastSlash(s) != 0; }
      PrefixPath(Dir(s), k);
    }
  }

  lemma {:induction false} FirstComponent(s: string)
    requires !Path(s)
    ensures Split(s)[0] == ""
    decreases |s|
  {
    if HasSlash(s) { FirstComponent(Dir(s)); }
  }

  lemma DirShorter(s: string)
    requires s != ""
    ensures |Dir(s)| < |s|
  {
  }

  /** A folder and a name in it make one path. */
  lemma PathByParts(a: string, b: string)
    requires Path(a) && Path(b) && Dir(a) == Dir(b) && Base(a) == Base(b)
    ensures a == b
  {
  }

  /** The nonempty prefixes of a name, down to `n` levels. */
  function PrefixesTo(s: string, n: nat): set<string>
    requires n <= |Split(s)|
  {
    set k: nat | 0 < k <= n :: Prefix(s, k)
  }

  function Prefixes(s: string): set<string> { PrefixesTo(s, |Split(s)|) }

  lemma PrefixesGrow(s: string, n: nat)
    requires n < |Split(s)|
    ensures PrefixesTo(s, n + 1) == PrefixesTo(s, n) + {Prefix(s, n + 1)}
  {
    hide Prefix, Split;
    forall k: nat | 0 < k <= n + 1 ensures Prefix(s, k) in PrefixesTo(s, n) + {Prefix(s, n + 1)} { }
  }

  lemma PrefixesOfDir(s: string)
    ensures Prefixes(s) == (if HasSlash(s) then Prefixes(Dir(s)) else {}) + {s}
  {
    var n := |Split(s)| - 1;
    PrefixesGrow(s, n);
    if HasSlash(s) {
      PrefixesToDir(s, n);
    }
  }

  lemma PrefixesToDir(s: string, n: nat)
    requires HasSlash(s) && n < |Split(s)|
    ensures n <= |Split(Dir(s))| && PrefixesTo(s, n) == PrefixesTo(Dir(s), n)
  {
    hide Dir, Base, LastSlash;
    assert forall k: nat :: k <= n ==> Prefix(s, k) == Prefix(Dir(s), k);
  }

  lemma {:induction false} PrefixShorter(s: string, k: nat)
    requires k < |Split(s)| && s != ""
    ensures |Prefix(s, k)| < |s|
    decreases |s|
  {
    if k > 0 && k < |Split(Dir(s))| { PrefixShorter(Dir(s), k); }
  }

  /** The last step of a name. */
  lemma LastStep(s: string)
    ensures Dir(s) == Prefix(s, |Split(s)| - 1) && Base(s) == Split(s)[|Split(s)| - 1]
    ensures Prefixes(s) == PrefixesTo(s, |Split(s)| - 1) + {s}
    ensures Prefix(s, 0) == "" && PrefixesTo(s, 0) == {} && (s != "" ==> s !in PrefixesTo(s, |Split(s)| - 1))
  {
    hide Dir, Base;
    forall k: nat | 0 < k < |Split(s)| && s != "" ensures Prefix(s, k) != s { PrefixShorter(s, k); }
    PrefixStep(s, |Split(s)| - 1);
    PrefixesGrow(s, |Split(s)| - 1);
  }

  /** A name without the slash it may end with. */
  function Chop(s: string): string {
    if s != "" && s[|s| - 1] == SPLIT then s[..|s| - 1] else s
  }

  /** An ordinary name: it neither begins nor ends with a slash. */
  predicate Proper(s: string) { s != "" ==> Path(s) && s[|s| - 1] != SPLIT }

  function AllPrefixes(names: seq<string>): set<string> {
    if names == [] then {} else AllPrefixes(names[..|names| - 1]) + Prefixes(names[|names| - 1])
  }

  lemma {:induction false} AllPrefixesMeans(names: seq<string>, p: string)
    ensures p in AllPrefixes(names) <==> exists i :: 0 <= i < |names| && p in Prefixes(names[i])
  {
    hide Prefixes, PrefixesTo;
    if names != [] {
      var n := |names| - 1;
      var front := names[..n];
      AllPrefixesMeans(front, p);
      if p in AllPrefixes(front) {
        var i :| 0 <= i < |front| && p in Prefixes(front[i]);
        assert p in Prefixes(names[i]);
      }
      if i :| 0 <= i < n && p in Prefixes(names[i]) {
        assert p in Prefixes(front[i]);
      }
    }
  }

  /** The paths that the names stand for, and the root. */
  function Index(names: seq<string>): set<string> {
    if names == [] then {""} else Index(names[..|names| - 1]) + Prefixes(Chop(names[|names| - 1]))
  }

  /** Whether a name does no harm to a tree of these paths: it does not begin
      with a slash; and if it ends with one, it is a path of the tree or becomes
      a new one. */
  predicate Loads(paths: set<string>, n: string) {
    n == "" || (n[0] != SPLIT && (n[|n| - 1] == SPLIT ==> n in paths || Chop(n) !in paths))
  }

  predicate Loadable(names: seq<string>) {
    forall i :: 0 <= i < |names| ==> Loads(Index(names[..i]), names[i])
  }

  lemma {:induction false} ProperLoadable(names: seq<string>)
    requires forall i :: 0 <= i < |names| ==> Proper(names[i])
    ensures Loadable(names) && Index(names) == {""} + AllPrefixes(names)
  {
    hide Prefixes;
    if names != [] {
      var n := |names| - 1;
      ProperLoadable(names[..n]);
      assert Chop(names[n]) == names[n];
      forall i | 0 <= i < |names| ensures Loads(Index(names[..i]), names[i]) { }
    }
  }

  /** All components are nonempty, but for the one before a first slash. */
  predicate Filled(s: string) {
    forall j :: 0 <= j < |Split(s)| && (j > 0 || Path(s)) ==> Split(s)[j] != ""
  }

  /** A step of the folder loop in terms of texts alone. */
  lemma StepText(s: string, k: nat)
    requires k < |Split(s)|
    ensures Prefix(s, k + 1) == (if k == 0 then "" else Prefix(s, k) + [SPLIT]) + Split(s)[k]
    ensures Filled(s) && (k > 0 || Path(s)) ==> Split(s)[k] != ""
    ensures Dir(Prefix(s, k + 1)) == Prefix(s, k) && Base(Prefix(s, k + 1)) == Split(s)[k]
  {
    hide Prefix, Split, Path, Dir, Base;
    PrefixStep(s, k);
  }

  lemma LastFilled(s: string)
    requires Filled(s) && s != ""
    ensures Base(s) != "" && Split(s)[|Split(s)| - 1] != ""
  {
    LastStep(s);
    if !HasSlash(s) { assert Split(s) == [s]; }
  }

  /** A name of nonempty components, but for a slash before or after them. */
  predicate Plain(n: string) {
    n == "" || (Chop(n) != "" && Filled(Chop(n)))
  }

  lemma NoNames()
    ensures Index([]) == {""} && Loadable([])
  {
  }

  lemma IndexSnoc(names: seq<string>, i: nat)
    requires i < |names|
    ensures Index(names[..i + 1]) == Index(names[..i]) + Prefixes(Chop(names[i]))
  {
    hide Prefixes, Chop;
    assert names[..i + 1][..i] == names[..i];
  }

  lemma LoadableSnoc(names: seq<string>, i: nat)
    requires i < |names|
    ensures Loadable(names[..i + 1]) <==> Loadable(names[..i]) && Loads(Index(names[..i]), names[i])
  {
    hide Loads, Index;
    var front, more := names[..i], names[..i + 1];
    assert forall k :: 0 <= k <= i ==> more[..k] == names[..k];
    assert forall k :: 0 <= k < i ==> front[..k] == names[..k];
    assert forall k :: 0 <= k < i ==> front[k] == more[k];
    assert more[..i] == front && more[i] == names[i];
    if Loadable(front) && Loads(Index(front), names[i]) {
      forall k | 0 <= k < |more| ensures Loads(Index(more[..k]), more[k]) {
        if k < i { assert Loads(Index(front[..k]), front[k]); }
      }
    }
    if Loadable(more) {
      assert Loads(Index(more[..i]), more[i]);
      forall k | 0 <= k < |front| ensures Loads(Index(front[..k]), front[k]) {
        assert Loads(Index(more[..k]), more[k]);
      }
    }
  }

  lemma ChopIsDir(s: string)
    requires Chop(s) != s
    ensures HasSlash(s) && Chop(s) == Dir(s)
  {
  }

  /** Names with a slash in front: neither may be loaded, and "/a" is among those
      that are then not found. */
  lemma SlashNames()
    ensures !Loadable(["/a"]) && Plain("/a") && !Path("/a")
    ensures !Loadable(["/"]) && Chop("/") == ""
  {
    assert ["/a"][..0] == [] && ["/"][..0] == [];
    SplitOne("", "a");
    assert "" + [SPLIT] + "a" == "/a";
    assert Split("") == [""];
  }

  /** A name that does not end with a slash, its folder, and the text in it. */
  predicate Parts(name: string, dir: string, text: string) {
    Chop(name) == name && Dir(name) == dir && Base(name) == text
  }

  lemma NamesInTheWay()
    ensures !Loadable(["/a", "a", "a/b"]) && Split("a") == ["a"] && Split("a/b") == ["a", "b"]
    ensures Parts("/a", "", "a") && Parts("a", "", "a") && Parts("a/b", "a", "b")
  {
    assert ["/a", "a", "a/b"][..0] == [];
    assert "" + [SPLIT] + "a" == "/a" && "a" + [SPLIT] + "b" == "a/b";
    LastSlashIs("", "a");
    LastSlashIs("a", "b");
    SplitOne("a", "b");
    SplitOne("", "a");
  }
}
