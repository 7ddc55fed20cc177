/** Renaming a session or moving it in the tree: the full names of everything
    below it change, and so do the keys of the configurations. */
module SessionRename {
  import opened SessionPaths
  import opened SessionTree

  /** A configuration and the name it carries. */
  datatype Session = Session(name: string, settings: string)

  /** The items below an item: the first, what is below it, and the others. */
  datatype Forest = Nil | Below(item: TreeItem, text: string, below: Forest, next: Forest)

  /** The items from the top down, and the names they have when the path of
      what is above them, with its slash, is `prefix`. */
  ghost function Items(f: Forest): seq<TreeItem> {
    if f.Nil? then [] else [f.item] + Items(f.below) + Items(f.next)
  }

  ghost function Names(f: Forest, prefix: string): (ns: seq<string>)
    ensures |ns| == |Items(f)|
  {
    if f.Nil? then []
    else [prefix + f.text] + Names(f.below, prefix + f.text + [SPLIT]) + Names(f.next, prefix)
  }

  ghost function SetOf(xs: seq<TreeItem>): set<TreeItem> { set x | x in xs }

  ghost predicate Distinct<T>(xs: seq<T>) {
    forall i, j :: 0 <= i < j < |xs| ==> xs[i] != xs[j]
  }

  /** The forest is what hangs below `par`; all its items are in `all`. */
  ghost predicate Hangs(f: Forest, par: TreeItem, kids: seq<TreeItem>, all: set<TreeItem>)
    reads all`text, all`parent, all`children
  {
    if f.Nil? then kids == []
    else
      && f.item in all && kids != [] && f.item == kids[0] && f.item.text == f.text && f.item.parent == par
      && Hangs(f.below, f.item, f.item.children, all) && Hangs(f.next, par, kids[1..], all)
  }

  ghost predicate Named(xs: seq<TreeItem>, ns: seq<string>)
    reads SetOf(xs)`full
  {
    |xs| == |ns| && forall k :: 0 <= k < |xs| ==> xs[k].full == ns[k]
  }

  lemma NamedAppend(xs: seq<TreeItem>, ns: seq<string>, ys: seq<TreeItem>, ms: seq<string>)
    requires |xs| == |ns| && |ys| == |ms|
    ensures Named(xs + ys, ns + ms) <==> Named(xs, ns) && Named(ys, ms)
  {
    if Named(xs + ys, ns + ms) {
      forall k | 0 <= k < |xs| ensures xs[k].full == ns[k] { assert (xs + ys)[k].full == (ns + ms)[k]; }
      forall k | 0 <= k < |ys| ensures ys[k].full == ms[k] { assert (xs + ys)[|xs| + k].full == (ns + ms)[|xs| + k]; }
    }
  }

  lemma NamedParts(f: Forest, prefix: string)
    requires f.Below?
    ensures Named(Items(f), Names(f, prefix)) <==>
            && Named([f.item], [prefix + f.text])
            && Named(Items(f.below), Names(f.below, prefix + f.text + [SPLIT]))
            && Named(Items(f.next), Names(f.next, prefix))
  {
    hide Named;
    var path := prefix + f.text;
    NamedAppend([f.item], [path], Items(f.below), Names(f.below, path + [SPLIT]));
    NamedAppend([f.item] + Items(f.below), [path] + Names(f.below, path + [SPLIT]), Items(f.next), Names(f.next, prefix));
  }

  ghost predicate Apart<T>(xs: seq<T>, ys: seq<T>) {
    forall x :: x in xs ==> x !in ys
  }

  lemma DistinctAppend<T>(xs: seq<T>, ys: seq<T>)
    ensures Distinct(xs + ys) <==> Distinct(xs) && Distinct(ys) && Apart(xs, ys)
  {
    var zs := xs + ys;
    if Distinct(zs) {
      forall i, j | 0 <= i < j < |xs| ensures xs[i] != xs[j] { assert zs[i] == xs[i] && zs[j] == xs[j]; }
      forall i, j | 0 <= i < j < |ys| ensures ys[i] != ys[j] { assert zs[|xs| + i] == ys[i] && zs[|xs| + j] == ys[j]; }
      forall i, j | 0 <= i < |xs| && 0 <= j < |ys| ensures xs[i] != ys[j] { assert zs[i] == xs[i] && zs[|xs| + j] == ys[j]; }
      assert Apart(xs, ys);
    }
    if Distinct(xs) && Distinct(ys) && Apart(xs, ys) {
      forall i, j | 0 <= i < j < |zs| ensures zs[i] != zs[j] {
        if i < |xs| <= j { assert zs[i] in xs && zs[j] == ys[j - |xs|]; }
      }
    }
  }

  /** What is distinct in a forest stays so in its parts. */
  lemma DistinctParts(f: Forest)
    requires f.Below?
    ensures Distinct(Items(f)) <==>
            Distinct([f.item] + Items(f.below)) && Distinct(Items(f.next)) && Apart([f.item] + Items(f.below), Items(f.next))
  {
    hide Distinct, Apart;
    DistinctAppend([f.item] + Items(f.below), Items(f.next));
  }

  // ------------------------------------------------ moving configurations

  /** What is stored under a name, a new default configuration if nothing is. */
  function Stored(config: map<string, Session>, o: string): Session {
    if o in config then config[o] else Session("", "")
  }

  function MoveOne(config: map<string, Session>, o: string, n: string): map<string, Session> {
    (config - {o})[n := Stored(config, o).(name := n)]
  }

  function Moved(config: map<string, Session>, os: seq<string>, ns: seq<string>): map<string, Session>
    requires |os| == |ns|
    decreases |os|
  {
    if os == [] then config else Moved(MoveOne(config, os[0], ns[0]), os[1..], ns[1..])
  }

  lemma {:induction false} MovedAppend(config: map<string, Session>, os: seq<string>, ns: seq<string>, os': seq<string>, ns': seq<string>)
    requires |os| == |ns| && |os'| == |ns'|
    ensures Moved(config, os + os', ns + ns') == Moved(Moved(config, os, ns), os', ns')
    decreases |os|
  {
    if os == [] {
      assert os + os' == os' && ns + ns' == ns';
    } else {
      MovedAppend(MoveOne(config, os[0], ns[0]), os[1..], ns[1..], os', ns');
      assert (os + os')[1..] == os[1..] + os' && (ns + ns')[1..] == ns[1..] + ns';
    }
  }

  /** Every session is found under its new name, with the settings it had. */
  ghost predicate AllMoved(was: map<string, Session>, now: map<string, Session>, os: seq<string>, ns: seq<string>)
    requires |os| == |ns|
  {
    forall k :: 0 <= k < |os| ==> ns[k] in now && now[ns[k]] == Stored(was, os[k]).(name := ns[k])
  }

  /** No name is given to one session while another still has to give it up. */
  ghost predicate NoneInTheWay(os: seq<string>, ns: seq<string>)
    requires |os| == |ns|
  {
    forall i, j :: 0 <= i < j < |os| ==> ns[i] != os[j]
  }

  /** What a run of moves leaves alone and what it takes away. */
  lemma {:induction false} MovedKeys(config: map<string, Session>, os: seq<string>, ns: seq<string>, p: string)
    requires |os| == |ns|
    ensures p !in os && p !in ns ==> (p in Moved(config, os, ns) <==> p in config) && (p in config ==> Moved(config, os, ns)[p] == config[p])
    ensures p in os && p !in ns ==> p !in Moved(config, os, ns)
    decreases |os|
  {
    if os != [] {
      var c := MoveOne(config, os[0], ns[0]);
      MovedKeys(c, os[1..], ns[1..], p);
      if p in os && p !in ns && p !in os[1..] {
        assert p == os[0];
      }
    }
  }

  lemma {:induction false} MovedMeans(config: map<string, Session>, os: seq<string>, ns: seq<string>)
    requires |os| == |ns| && Distinct(os) && Distinct(ns) && NoneInTheWay(os, ns)
    ensures AllMoved(config, Moved(config, os, ns), os, ns)
    decreases |os|
  {
    if os != [] {
      var c := MoveOne(config, os[0], ns[0]);
      MovedMeans(c, os[1..], ns[1..]);
      MovedKeys(c, os[1..], ns[1..], ns[0]);
      var now := Moved(config, os, ns);
      forall k | 0 <= k < |os| ensures ns[k] in now && now[ns[k]] == Stored(config, os[k]).(name := ns[k]) {
        if k > 0 {
          assert ns[k] == ns[1..][k - 1] && os[k] == os[1..][k - 1];
          assert Stored(c, os[k]) == Stored(config, os[k]);
        }
      }
    }
  }

  /** Only the name `p` may hold these settings. */
  ghost predicate OnlyAt(config: map<string, Session>, settings: string, p: string) {
    forall q :: q in config && q != p ==> config[q].settings != settings
  }

  /** A session whose name is taken by move `i`, before it is moved itself, is lost. */
  lemma {:induction false} Overwritten(config: map<string, Session>, settings: string, os: seq<string>, ns: seq<string>, i: nat)
    requires |os| == |ns| && i < |os| && settings != "" && OnlyAt(config, settings, ns[i])
    requires forall k :: 0 <= k <= i ==> os[k] != ns[i]
    ensures forall q :: q in Moved(config, os, ns) ==> Moved(config, os, ns)[q].settings != settings
    decreases |os|
  {
    var c := MoveOne(config, os[0], ns[0]);
    assert OnlyAt(c, settings, ns[i]);
    if i > 0 {
      Overwritten(c, settings, os[1..], ns[1..], i - 1);
    } else {
      StaysLost(c, settings, os[1..], ns[1..]);
    }
  }

  lemma {:induction false} StaysLost(config: map<string, Session>, settings: string, os: seq<string>, ns: seq<string>)
    requires |os| == |ns| && settings != "" && forall q :: q in config ==> config[q].settings != settings
    ensures forall q :: q in Moved(config, os, ns) ==> Moved(config, os, ns)[q].settings != settings
    decreases |os|
  {
    if os != [] { StaysLost(MoveOne(config, os[0], ns[0]), settings, os[1..], ns[1..]); }
  }

  /** Distinct sessions go to distinct new names, none of them taken too early. */
  ghost predicate InOrder(os: seq<string>, ns: seq<string>)
    requires |os| == |ns|
  {
    Distinct(os) && Distinct(ns) && NoneInTheWay(os, ns)
  }

  /** All sessions arrive, whatever any of them holds. */
  ghost predicate AlwaysMoved(os: seq<string>, ns: seq<string>)
    requires |os| == |ns|
  {
    forall config: map<string, Session> :: AllMoved(config, Moved(config, os, ns), os, ns)
  }

  /** The exact condition, for any moves that are moves: the sessions reach their
      new names unharmed, whatever they hold, just when old names and new names are
      distinct and no name is taken too early. */
  lemma MovedExactly(os: seq<string>, ns: seq<string>)
    requires |os| == |ns| && forall k :: 0 <= k < |os| ==> os[k] != ns[k]
    ensures InOrder(os, ns) <==> AlwaysMoved(os, ns)
  {
    hide Moved, AllMoved;
    if InOrder(os, ns) {
      forall config: map<string, Session> ensures AllMoved(config, Moved(config, os, ns), os, ns) {
        MovedMeans(config, os, ns);
      }
    }
    if AlwaysMoved(os, ns) {
      MovedFromDistinct(os, ns);
      MovedToDistinct(os, ns);
      forall i, j | 0 <= i < j < |os| ensures ns[i] != os[j] {
        if ns[i] == os[j] { var k := MovedBefore(os, ns, i, j); }
      }
    }
  }

  lemma ArrivesSo(config: map<string, Session>, os: seq<string>, ns: seq<string>)
    requires |os| == |ns| && AlwaysMoved(os, ns)
    ensures AllMoved(config, Moved(config, os, ns), os, ns)
  {
  }

  /** If a new name belongs to a session that is moved too, that session has gone
      before. */
  lemma MovedBefore(os: seq<string>, ns: seq<string>, i: nat, j: nat) returns (k: nat)
    requires |os| == |ns| && AlwaysMoved(os, ns) && i < |os| && j < |os| && ns[i] == os[j]
    ensures k <= i && os[k] == ns[i]
  {
    hide Moved;
    if !exists k :: 0 <= k <= i && os[k] == ns[i] {
      var config := map[os[j] := Session(os[j], "x")];
      assert AllMoved(config, Moved(config, os, ns), os, ns);
      assert Moved(config, os, ns)[ns[j]].settings == "x";
      Overwritten(config, "x", os, ns, i);
    }
    k :| 0 <= k <= i && os[k] == ns[i];
  }

  /** Two sessions cannot both arrive under one name. */
  lemma MovedToDistinct(os: seq<string>, ns: seq<string>)
    requires |os| == |ns| && AlwaysMoved(os, ns) && Distinct(os)
    ensures Distinct(ns)
  {
    hide Moved;
    forall i, j | 0 <= i < j < |ns| ensures ns[i] != ns[j] {
      var config := map[os[i] := Session(os[i], "x"), os[j] := Session(os[j], "y")];
      assert AllMoved(config, Moved(config, os, ns), os, ns);
    }
  }

  /** No session can be moved twice: the second time its name holds nothing, and
      that goes where the session has just arrived. */
  lemma MovedFromDistinct(os: seq<string>, ns: seq<string>)
    requires |os| == |ns| && AlwaysMoved(os, ns) && forall k :: 0 <= k < |os| ==> os[k] != ns[k]
    ensures Distinct(os)
  {
    if !Distinct(os) {
      var i, j := FirstTwice(os);
      forall k | i <= k <= j ensures os[k] != ns[i] {
        if os[k] == ns[i] {
          forall k' | 0 <= k' < i ensures os[k'] != os[k] { assert !TwiceAt(os, k', k); }
          var k' := MovedBefore(os, ns, i, k);
        }
      }
      forall k | 0 <= k < i ensures os[k] != os[i] { assert !TwiceAt(os, k, i); }
      MovedTwice(os, ns, i, j);
    }
  }

  ghost predicate TwiceAt(os: seq<string>, i: nat, j: nat) { i < j < |os| && os[i] == os[j] }

  lemma FirstTwice(os: seq<string>) returns (i: nat, j: nat)
    requires !Distinct(os)
    ensures TwiceAt(os, i, j) && forall k: nat, l: nat :: k < i ==> !TwiceAt(os, k, l)
  {
    i := 0;
    while i < |os| && !exists l: nat :: TwiceAt(os, i, l)
      invariant i <= |os| && forall k: nat, l: nat :: k < i ==> !TwiceAt(os, k, l)
    {
      i := i + 1;
    }
    if i == |os| {
      forall k, l | 0 <= k < l < |os| ensures os[k] != os[l] { assert !TwiceAt(os, k, l); }
    }
    j :| TwiceAt(os, i, j);
  }

  lemma MovedTwice(os: seq<string>, ns: seq<string>, i: nat, j: nat)
    requires |os| == |ns| && TwiceAt(os, i, j)
    requires (forall k :: 0 <= k < i ==> os[k] != os[i]) && forall k :: i <= k <= j ==> os[k] != ns[i]
    ensures !AlwaysMoved(os, ns)
  {
    hide Moved;
    var o, n := os[i], ns[i];
    var config := map[o := Session(o, "x")];
    var c, os', ns' := Moved(config, os[..i], ns[..i]), os[i + 1..], ns[i + 1..];
    var now := Moved(config, os, ns);
    OnlyStays(config, "x", os[..i], ns[..i], o);
    MovedFrom(config, os, ns, i);
    OnceStays(config, "x", os, ns);
    if AlwaysMoved(os, ns) {
      assert AllMoved(config, now, os, ns);
      assert now[ns[i]].settings == "x" && now[ns[j]].settings == "x";
      Overwritten(MoveOne(c, o, n), "x", os', ns', j - i - 1);
    }
  }

  lemma MovedFrom(config: map<string, Session>, os: seq<string>, ns: seq<string>, i: nat)
    requires |os| == |ns| && i < |os|
    ensures Moved(config, os, ns) == Moved(MoveOne(Moved(config, os[..i], ns[..i]), os[i], ns[i]), os[i + 1..], ns[i + 1..])
  {
    MovedAppend(config, os[..i], ns[..i], os[i..], ns[i..]);
    assert os == os[..i] + os[i..] && ns == ns[..i] + ns[i..];
    assert os[i..][1..] == os[i + 1..] && ns[i..][1..] == ns[i + 1..];
  }

  lemma {:induction false} OnlyStays(config: map<string, Session>, settings: string, os: seq<string>, ns: seq<string>, p: string)
    requires |os| == |ns| && settings != "" && OnlyAt(config, settings, p) && p !in os
    ensures OnlyAt(Moved(config, os, ns), settings, p)
    decreases |os|
  {
    if os != [] { OnlyStays(MoveOne(config, os[0], ns[0]), settings, os[1..], ns[1..], p); }
  }

  /** At most one name holds these settings. */
  ghost predicate Once(config: map<string, Session>, settings: string) {
    forall p, q :: p in config && q in config && config[p].settings == settings && config[q].settings == settings ==> p == q
  }

  lemma {:induction false} OnceStays(config: map<string, Session>, settings: string, os: seq<string>, ns: seq<string>)
    requires |os| == |ns| && settings != "" && Once(config, settings)
    ensures Once(Moved(config, os, ns), settings)
    decreases |os|
  {
    if os != [] { OnceStays(MoveOne(config, os[0], ns[0]), settings, os[1..], ns[1..]); }
  }

  /** Every session that is not moved is still there, as it was. */
  ghost predicate OthersKept(was: map<string, Session>, now: map<string, Session>, os: seq<string>) {
    forall p :: p in was && p !in os ==> p in now && now[p] == was[p]
  }

  /** No new name belongs to a session that is not moved itself. */
  ghost predicate NoneTaken(keys: set<string>, os: seq<string>, ns: seq<string>) {
    forall p :: p in keys && p in ns ==> p in os
  }

  /** The exact condition for the sessions that are not moved: whatever the
      sessions of these names hold, all the others stay as they are. */
  lemma OthersExactly(keys: set<string>, os: seq<string>, ns: seq<string>)
    requires |os| == |ns|
    ensures NoneTaken(keys, os, ns) <==>
            forall config: map<string, Session> :: config.Keys == keys ==> OthersKept(config, Moved(config, os, ns), os)
  {
    hide Moved;
    if NoneTaken(keys, os, ns) {
      forall config: map<string, Session> | config.Keys == keys ensures OthersKept(config, Moved(config, os, ns), os) {
        OthersStay(config, os, ns);
      }
    } else {
      var p :| p in keys && p in ns && p !in os;
      var i :| 0 <= i < |ns| && ns[i] == p;
      var config := map q | q in keys :: Session(q, if q == p then "x" else "");
      Overwritten(config, "x", os, ns, i);
      assert config[p].settings == "x" && config.Keys == keys;
      assert !OthersKept(config, Moved(config, os, ns), os);
    }
  }

  lemma OthersStay(config: map<string, Session>, os: seq<string>, ns: seq<string>)
    requires |os| == |ns| && NoneTaken(config.Keys, os, ns)
    ensures OthersKept(config, Moved(config, os, ns), os)
  {
    hide Moved;
    forall p | p in config && p !in os ensures p in Moved(config, os, ns) && Moved(config, os, ns)[p] == config[p] {
      MovedKeys(config, os, ns, p);
    }
  }

  // --------------------------------------------------- names in the tree

  /** Siblings have different texts, without slashes. */
  ghost predicate Tidy(f: Forest) {
    f.Below? ==> SPLIT !in f.text && (forall g :: g in Tops(f.next) ==> g != f.text) && Tidy(f.below) && Tidy(f.next)
  }

  ghost function Tops(f: Forest): seq<string> {
    if f.Nil? then [] else [f.text] + Tops(f.next)
  }

  /** A name below `prefix` begins with it and with the text of one of the tops. */
  lemma {:induction false} NameShape(f: Forest, prefix: string, k: nat) returns (text: string)
    requires k < |Names(f, prefix)|
    ensures text in Tops(f)
    ensures prefix + text + [SPLIT] <= Names(f, prefix)[k] + [SPLIT]
    decreases f
  {
    var path, lower := prefix + f.text, Names(f.below, prefix + f.text + [SPLIT]);
    assert Names(f, prefix) == [path] + lower + Names(f.next, prefix);
    if k == 0 {
      text := f.text;
    } else if k <= |lower| {
      var t := NameShape(f.below, path + [SPLIT], k - 1);
      text := f.text;
      assert path + [SPLIT] <= path + [SPLIT] + t + [SPLIT];
    } else {
      text := NameShape(f.next, prefix, k - 1 - |lower|);
    }
  }

  lemma SameTop(prefix: string, a: string, b: string, name: string)
    requires SPLIT !in a && SPLIT !in b
    requires prefix + a + [SPLIT] <= name + [SPLIT] && prefix + b + [SPLIT] <= name + [SPLIT]
    ensures a == b
  {
    var n, i := name + [SPLIT], |prefix|;
    assert forall k :: 0 <= k < |a| ==> n[i + k] == a[k];
    assert forall k :: 0 <= k < |b| ==> n[i + k] == b[k];
    assert n[i + |a|] == SPLIT && n[i + |b|] == SPLIT;
  }

  lemma {:induction false} TopsTidy(f: Forest)
    requires Tidy(f)
    ensures forall t :: t in Tops(f) ==> SPLIT !in t
  {
    if f.Below? { TopsTidy(f.next); }
  }

  /** In a tidy tree every item has a name of its own. */
  lemma {:induction false} NamesDistinct(f: Forest, prefix: string)
    requires Tidy(f)
    ensures Distinct(Names(f, prefix))
    decreases f
  {
    if f.Below? {
      var path := prefix + f.text;
      var lower, later := Names(f.below, path + [SPLIT]), Names(f.next, prefix);
      NamesDistinct(f.below, path + [SPLIT]);
      NamesDistinct(f.next, prefix);
      TopsTidy(f.next);
      OwnNameDistinct(f.below, path);
      forall i, j | 0 <= i < |[path] + lower| && 0 <= j < |later| ensures ([path] + lower)[i] != later[j] {
        var t := NameShape(f.next, prefix, j);
        if i > 0 {
          var u := NameShape(f.below, path + [SPLIT], i - 1);
          assert path + [SPLIT] <= path + [SPLIT] + u + [SPLIT];
        }
        if ([path] + lower)[i] == later[j] { SameTop(prefix, f.text, t, later[j]); }
      }
      var all := Names(f, prefix);
      assert all == ([path] + lower) + later;
      forall i, j | 0 <= i < j < |all| ensures all[i] != all[j] {
        var m := |lower| + 1;
        if m <= i { assert all[i] == later[i - m] && all[j] == later[j - m]; }
        else if j < m { assert all[i] == ([path] + lower)[i] && all[j] == ([path] + lower)[j]; }
        else { assert all[i] == ([path] + lower)[i] && all[j] == later[j - m]; }
      }
    }
  }

  /** With the item the forest hangs below, whose name is shorter. */
  lemma OwnNameDistinct(below: Forest, path: string)
    requires Distinct(Names(below, path + [SPLIT]))
    ensures Distinct([path] + Names(below, path + [SPLIT]))
  {
    var lower := Names(below, path + [SPLIT]);
    var all := [path] + lower;
    forall i, j | 0 <= i < j < |all| ensures all[i] != all[j] {
      assert all[j] == lower[j - 1];
      if i == 0 {
        var t := NameShape(below, path + [SPLIT], j - 1);
        assert |path + [SPLIT] + t + [SPLIT]| > |path| + 1;
      }
    }
  }

  /** Neither path lies below the other. */
  predicate Unrelated(o: string, n: string) {
    !(o + [SPLIT] <= n + [SPLIT]) && !(n + [SPLIT] <= o + [SPLIT])
  }

  lemma BothBegin(o: string, n: string, name: string)
    requires o + [SPLIT] <= name + [SPLIT] && n + [SPLIT] <= name + [SPLIT]
    ensures !Unrelated(o, n)
  {
    var a, b, c := o + [SPLIT], n + [SPLIT], name + [SPLIT];
    assert a == c[..|a|] && b == c[..|b|];
    if |a| <= |b| { assert a == b[..|a|]; } else { assert b == a[..|b|]; }
  }

  /** The old and the new names of an item and of what is below it. */
  ghost function Own(below: Forest, path: string): (ns: seq<string>)
    ensures |ns| == |Items(below)| + 1
  {
    [path] + Names(below, path + [SPLIT])
  }

  /** No text holds a slash. */
  ghost predicate Slashless(f: Forest) {
    f.Below? ==> SPLIT !in f.text && Slashless(f.below) && Slashless(f.next)
  }

  lemma {:induction false} TopIsNamed(f: Forest, prefix: string, text: string)
    requires text in Tops(f)
    ensures prefix + text in Names(f, prefix)
  {
    if text != f.text { TopIsNamed(f.next, prefix, text); }
  }

  /** Among texts without slashes, different names mean different siblings. */
  lemma {:induction false} DistinctIsTidy(f: Forest, prefix: string)
    requires Slashless(f) && Distinct(Names(f, prefix))
    ensures Tidy(f)
    decreases f
  {
    if f.Below? {
      var path, lower, later := prefix + f.text, Names(f.below, prefix + f.text + [SPLIT]), Names(f.next, prefix);
      DistinctAppend([path] + lower, later);
      DistinctAppend([path], lower);
      forall g | g in Tops(f.next) ensures g != f.text {
        TopIsNamed(f.next, prefix, g);
        assert ([path] + lower)[0] in [path] + lower;
      }
      DistinctIsTidy(f.below, path + [SPLIT]);
      DistinctIsTidy(f.next, prefix);
    }
  }

  lemma {:induction false} TidyIsSlashless(f: Forest)
    requires Tidy(f)
    ensures Slashless(f)
    decreases f
  {
    if f.Below? {
      TidyIsSlashless(f.below);
      TidyIsSlashless(f.next);
    }
  }

  lemma TidyExactly(below: Forest, path: string)
    requires Slashless(below)
    ensures Tidy(below) <==> Distinct(Own(below, path))
  {
    var lower := Names(below, path + [SPLIT]);
    DistinctAppend([path], lower);
    if Tidy(below) {
      NamesDistinct(below, path + [SPLIT]);
      OwnNameDistinct(below, path);
    } else if Distinct(lower) {
      DistinctIsTidy(below, path + [SPLIT]);
    }
  }

  /** Every name below changes if the first does. */
  lemma {:induction false} NamesDiffer(f: Forest, a: string, b: string, k: nat)
    requires a != b && k < |Names(f, a)|
    ensures Names(f, a)[k] != Names(f, b)[k]
    decreases f
  {
    var n := |Names(f.below, a + f.text + [SPLIT])|;
    SameEnd(a, b, f.text);
    SameEnd(a + f.text, b + f.text, [SPLIT]);
    if 0 < k <= n {
      NamesDiffer(f.below, a + f.text + [SPLIT], b + f.text + [SPLIT], k - 1);
    } else if n < k {
      NamesDiffer(f.next, a, b, k - 1 - n);
    }
  }

  lemma SameEnd(a: string, b: string, end: string)
    ensures a + end == b + end ==> a == b
  {
    assert (a + end)[..|a|] == a && (b + end)[..|b|] == b;
  }

  lemma OwnDiffer(below: Forest, o: string, n: string)
    requires o != n
    ensures forall k :: 0 <= k < |Own(below, o)| ==> Own(below, o)[k] != Own(below, n)[k]
  {
    SameEnd(o, n, [SPLIT]);
    forall k | 0 <= k < |Own(below, o)| ensures Own(below, o)[k] != Own(below, n)[k] {
      if k > 0 { NamesDiffer(below, o + [SPLIT], n + [SPLIT], k - 1); }
    }
  }

  lemma OwnApart(below: Forest, o: string, n: string)
    requires Unrelated(o, n)
    ensures forall i, j :: 0 <= i < |Own(below, o)| && 0 <= j < |Own(below, n)| ==> Own(below, o)[i] != Own(below, n)[j]
  {
    hide Unrelated;
    var os, ns := Own(below, o), Own(below, n);
    forall i, j | 0 <= i < |os| && 0 <= j < |ns| ensures os[i] != ns[j] {
      OwnShape(below, o, i);
      OwnShape(below, n, j);
      if os[i] == ns[j] { BothBegin(o, n, os[i]); }
    }
  }

  /** An item goes to another path, and all below it with it: when their sessions
      arrive unharmed, whatever they hold. To a path unrelated to the old one, and
      with texts without slashes, that is exactly when siblings have different
      texts; the old names are gone in any case. No other session comes to harm if
      and only if none has one of the new names. */
  lemma RenameMeans(config: map<string, Session>, below: Forest, o: string, n: string)
    requires o != n
    ensures
      var os, ns := Own(below, o), Own(below, n);
      var now := Moved(config, os, ns);
      && (InOrder(os, ns) <==> AlwaysMoved(os, ns))
      && (Unrelated(o, n) && Slashless(below) ==> (Tidy(below) <==> AlwaysMoved(os, ns)))
      && (Unrelated(o, n) ==> forall p :: p in os ==> p !in now)
      && (forall p :: p !in os && p !in ns ==> (p in now <==> p in config))
      && (Unrelated(o, n) ==> (NoneTaken(config.Keys, os, ns) <==> forall p :: p in config ==> p !in ns))
      && (NoneTaken(config.Keys, os, ns) <==>
            forall c: map<string, Session> :: c.Keys == config.Keys ==> OthersKept(c, Moved(c, os, ns), os))
  {
    hide Moved, Tidy, AllMoved, AlwaysMoved, Unrelated, Slashless, OthersKept, Own;
    var os, ns := Own(below, o), Own(below, n);
    OwnDiffer(below, o, n);
    MovedExactly(os, ns);
    if Unrelated(o, n) { OwnApart(below, o, n); }
    if Slashless(below) {
      TidyExactly(below, o);
      TidyExactly(below, n);
    }
    forall p ensures p in os && p !in ns ==> p !in Moved(config, os, ns) {
      MovedKeys(config, os, ns, p);
    }
    forall p | p !in os && p !in ns ensures p in Moved(config, os, ns) <==> p in config {
      MovedKeys(config, os, ns, p);
    }
    OthersExactly(config.Keys, os, ns);
  }

  /** A folder with two items of one text, as that drag leaves it: moving it loses
      the session they stand for. */
  lemma TwiceLosesSession(first: TreeItem, second: TreeItem)
    ensures
      var below := Below(first, "a", Nil, Below(second, "a", Nil, Nil));
      var config := map["b" := Session("b", "1"), "b/a" := Session("b/a", "2")];
      var now := Moved(config, Own(below, "b"), Own(below, "c/b"));
      && Unrelated("b", "c/b") && Slashless(below) && !Tidy(below)
      && now == map["c/b" := Session("c/b", "1"), "c/b/a" := Session("c/b/a", "")]
  {
    var below := Below(first, "a", Nil, Below(second, "a", Nil, Nil));
    var config := map["b" := Session("b", "1"), "b/a" := Session("b/a", "2")];
    assert ("c/b" + [SPLIT])[0] != ("b" + [SPLIT])[0];
    assert Tops(below.next) == ["a"] && "a" in Tops(below.next);
    TwoBelow(first, second, "b", "b/a");
    TwoBelow(first, second, "c/b", "c/b/a");
    MovedOne(config, "b", "c/b", ["b/a", "b/a"], ["c/b/a", "c/b/a"]);
    var c := MoveOne(config, "b", "c/b");
    MovedOne(c, "b/a", "c/b/a", ["b/a"], ["c/b/a"]);
    var d := MoveOne(c, "b/a", "c/b/a");
    assert d == map["c/b" := Session("c/b", "1"), "c/b/a" := Session("c/b/a", "2")];
    MovedOne(d, "b/a", "c/b/a", [], []);
    NoneYet(MoveOne(d, "b/a", "c/b/a"));
    assert MoveOne(d, "b/a", "c/b/a") == map["c/b" := Session("c/b", "1"), "c/b/a" := Session("c/b/a", "")];
    assert ["b/a"] + ["b/a"] == ["b/a", "b/a"] && ["c/b/a"] + ["c/b/a"] == ["c/b/a", "c/b/a"];
  }

  lemma TwoBelow(first: TreeItem, second: TreeItem, path: string, name: string)
    requires name == path + [SPLIT] + "a"
    ensures Own(Below(first, "a", Nil, Below(second, "a", Nil, Nil)), path) == [path] + [name, name]
  {
    var next := Below(second, "a", Nil, Nil);
    Finished(Nil);
    assert Names(next, path + [SPLIT]) == [name];
    assert Names(Below(first, "a", Nil, next), path + [SPLIT]) == [name] + [] + [name];
  }

  /** An item dragged to a folder that has one of the same text: the session that
      was there is lost. */
  lemma DragLosesSession()
    ensures
      var config := map["a" := Session("a", "1"), "b/a" := Session("b/a", "2")];
      var now := Moved(config, Own(Nil, "a"), Own(Nil, "b/a"));
      Tidy(Nil) && Unrelated("a", "b/a") && now == map["b/a" := Session("b/a", "1")]
  {
    var config := map["a" := Session("a", "1"), "b/a" := Session("b/a", "2")];
    assert ("b/a" + [SPLIT])[0] != ("a" + [SPLIT])[0];
    assert Own(Nil, "a") == ["a"] && Own(Nil, "b/a") == ["b/a"];
    assert Moved(config, ["a"], ["b/a"]) == MoveOne(config, "a", "b/a");
  }

  lemma OwnShape(below: Forest, path: string, k: nat)
    requires k <= |Names(below, path + [SPLIT])|
    ensures path + [SPLIT] <= ([path] + Names(below, path + [SPLIT]))[k] + [SPLIT]
  {
    if k > 0 {
      var t := NameShape(below, path + [SPLIT], k - 1);
      assert path + [SPLIT] <= path + [SPLIT] + t + [SPLIT];
    }
  }

  /** A new name with a slash in it can fall on a session below: then that
      session is lost, and its new name holds a copy of the other. */
  lemma SlashLosesSession(child: TreeItem)
    ensures
      var below := Below(child, "x", Nil, Nil);
      var config := map["a" := Session("a", "1"), "a/x" := Session("a/x", "2")];
      var now := Moved(config, ["a"] + Names(below, "a/"), ["a/x"] + Names(below, "a/x/"));
      Tidy(below) && now == map["a/x/x" := Session("a/x/x", "1")]
  {
    var below := Below(child, "x", Nil, Nil);
    var config := map["a" := Session("a", "1"), "a/x" := Session("a/x", "2")];
    assert "a/" + "x" == "a/x" && "a/x/" + "x" == "a/x/x";
    assert Names(Nil, "a/" + "x" + [SPLIT]) == [] && Names(Nil, "a/x/" + "x" + [SPLIT]) == [] && Names(Nil, "a/") == [] && Names(Nil, "a/x/") == [];
    assert Names(below, "a/") == ["a/x"] && Names(below, "a/x/") == ["a/x/x"];
    var c := MoveOne(config, "a", "a/x");
    assert c == map["a/x" := Session("a/x", "1")];
    assert (["a"] + ["a/x"])[1..] == ["a/x"] && (["a/x"] + ["a/x/x"])[1..] == ["a/x/x"];
    assert MoveOne(c, "a/x", "a/x/x") == map["a/x/x" := Session("a/x/x", "1")];
    assert Moved(c, ["a/x"], ["a/x/x"]) == MoveOne(c, "a/x", "a/x/x");
  }

  // ------------------------------------------------------------- the tree

  class SessionList {
    /** The invisible root item. */
    const root: TreeItem
    var config: map<string, Session>
    var pendingSessionChanges: bool

    constructor (root: TreeItem, config: map<string, Session>)
      ensures this.root == root && this.config == config && !pendingSessionChanges
    {
      this.root, this.config, pendingSessionChanges := root, config, false;
    }

    /** QTreeWidgetItem::parent, which is null at the top. */
    function ParentOf(item: TreeItem): (par: TreeItem?)
      reads item
      ensures par != root
    {
      if item.parent == root then null else item.parent
    }

    /** The full name that belongs to an item's place and text. */
    ghost function PathOf(item: TreeItem): string
      reads item, ParentOf(item)
    {
      var par := ParentOf(item);
      if par == null then item.text else par.full + [SPLIT] + item.text
    }

    /** slot_sessname_hierarchy_changed, after a drop: the item and all below it
        still carry the names they had when its own was `o`. */
    method SlotSessnameHierarchyChanged(item: TreeItem, ghost below: Forest, ghost o: string, ghost all: set<TreeItem>)
      requires Hangs(below, item, item.children, all) && Distinct([item] + Items(below)) && root !in [item] + Items(below)
      requires ParentOf(item) != null ==> ParentOf(item) !in [item] + Items(below)
      requires item.full == o && Named(Items(below), Names(below, o + [SPLIT]))
      modifies `config, `pendingSessionChanges, item`full, SetOf(Items(below))`full
      ensures pendingSessionChanges && item.full == PathOf(item)
      ensures item.full == o ==> config == old(config)
      ensures
        var os, ns := Own(below, o), Own(below, item.full);
        item.full != o ==>
          && Named(Items(below), Names(below, item.full + [SPLIT]))
          && (InOrder(os, ns) ==> AllMoved(old(config), config, os, ns))
          && (InOrder(os, ns) <==> AlwaysMoved(os, ns))
          && (Unrelated(o, item.full) && Slashless(below) ==> (Tidy(below) <==> AlwaysMoved(os, ns)))
          && (Unrelated(o, item.full) ==> forall p :: p in os ==> p !in config)
          && (NoneTaken(old(config.Keys), os, ns) ==> OthersKept(old(config), config, os))
    {
      hide Moved, Named, AllMoved, AlwaysMoved, InOrder, OthersKept, NoneTaken, Tidy, Slashless, Unrelated;
      ghost var was := config;
      AdjustHierarchy(item, below, o, all);
      pendingSessionChanges := true;
      if item.full != o {
        ghost var os, ns := Own(below, o), Own(below, item.full);
        RenameMeans(was, below, o, item.full);
        if InOrder(os, ns) { ArrivesSo(was, os, ns); }
        if NoneTaken(was.Keys, os, ns) { OthersStay(was, os, ns); }
      }
    }

    /** adjust_sessname_hierarchy. */
    method AdjustHierarchy(item: TreeItem, ghost below: Forest, ghost o: string, ghost all: set<TreeItem>)
      requires Hangs(below, item, item.children, all) && Distinct([item] + Items(below)) && root !in [item] + Items(below)
      requires ParentOf(item) != null ==> ParentOf(item) !in [item] + Items(below)
      requires item.full == o && Named(Items(below), Names(below, o + [SPLIT]))
      modifies `config, item`full, SetOf(Items(below))`full
      ensures
        var n := PathOf(item);
        && item.full == n
        && (n != o ==> Named(Items(below), Names(below, n + [SPLIT])))
        && (n == o ==> unchanged(`config, item`full, SetOf(Items(below))`full))
        && (n != o ==> config == Moved(old(config), Own(below, o), Own(below, n)))
      decreases below, 3
    {
      hide Moved, Named;
      var par := ParentOf(item);
      var fullname := "";
      if par != null { fullname := par.full + [SPLIT]; }
      fullname := fullname + item.text;
      var oldfullname := item.full;
      if fullname == oldfullname { return; }
      Rename(item, fullname, below);
      assert item in [item];
      ghost var os, ns := Names(below, o + [SPLIT]), Names(below, fullname + [SPLIT]);
      MovedOne(old(config), o, fullname, os, ns);
      AdjustChildren(item, below, o, fullname, all);
    }

    /** The item's own part of it. */
    method Rename(item: TreeItem, fullname: string, ghost below: Forest)
      requires item.full != fullname && Distinct([item] + Items(below))
      modifies `config, item`full
      ensures item.full == fullname && config == MoveOne(old(config), old(item.full), fullname)
      ensures item !in Items(below) && Distinct(Items(below))
      ensures forall ns :: old(Named(Items(below), ns)) ==> Named(Items(below), ns)
    {
      DistinctAppend([item], Items(below));
      assert item in [item];
      var oldfullname := item.full;
      item.full := fullname;
      var cfg := Stored(config, oldfullname);
      cfg := cfg.(name := fullname);
      config := config - {oldfullname};
      config := config[fullname := cfg];
    }

    /** Its loop over the children. */
    method AdjustChildren(item: TreeItem, ghost below: Forest, ghost o: string, ghost n: string, ghost all: set<TreeItem>)
      requires Hangs(below, item, item.children, all) && Distinct(Items(below)) && item !in Items(below) && item != root && root !in Items(below)
      requires item.full == n && n != o && Named(Items(below), Names(below, o + [SPLIT]))
      modifies `config, SetOf(Items(below))`full
      ensures item.full == n && Named(Items(below), Names(below, n + [SPLIT]))
      ensures config == Moved(old(config), Names(below, o + [SPLIT]), Names(below, n + [SPLIT]))
      decreases below, 2
    {
      hide Moved, Distinct, Names, Items;
      ghost var rest, done, os, ns := below, [], [], [];
      NoneYet(old(config));
      var i := 0;
      while i < |item.children|
        invariant 0 <= i <= |item.children| && Hangs(rest, item, item.children[i..], all)
        invariant rest == below || rest < below
        invariant done + Items(rest) == Items(below) && |os| == |ns| == |done|
        invariant os + Names(rest, o + [SPLIT]) == Names(below, o + [SPLIT])
        invariant ns + Names(rest, n + [SPLIT]) == Names(below, n + [SPLIT])
        invariant item.full == n && Named(Items(rest), Names(rest, o + [SPLIT])) && Named(done, ns)
        invariant config == Moved(old(config), os, ns)
      {
        hide Named;
        var child := item.children[i];
        assert item.children[i..][1..] == item.children[i + 1..];
        Within(rest, done);
        os, ns, done := AdjustChild(item, child, rest, done, os, ns, o, n, all, old(config));
        rest := rest.next;
        i := i + 1;
      }
      Finished(rest);
      assert done == Items(below) && os == Names(below, o + [SPLIT]) && ns == Names(below, n + [SPLIT]);
    }

    /** One child, with the others left as they are. */
    method AdjustChild(item: TreeItem, child: TreeItem, ghost rest: Forest, ghost done: seq<TreeItem>,
                       ghost os: seq<string>, ghost ns: seq<string>, ghost o: string, ghost n: string,
                       ghost all: set<TreeItem>, ghost was: map<string, Session>)
      returns (ghost os1: seq<string>, ghost ns1: seq<string>, ghost done1: seq<TreeItem>)
      requires rest.Below? && child == rest.item && child.parent == item && child.text == rest.text
      requires Hangs(rest.below, child, child.children, all)
      requires Distinct(done + Items(rest)) && item !in done + Items(rest) && item.full == n && n != o && item != root && root !in done + Items(rest)
      requires Named(Items(rest), Names(rest, o + [SPLIT])) && Named(done, ns) && |os| == |ns| && config == Moved(was, os, ns)
      modifies `config, child`full, SetOf(Items(rest.below))`full
      ensures item.full == n && Named(Items(rest.next), Names(rest.next, o + [SPLIT])) && Named(done1, ns1) && |os1| == |ns1|
      ensures done1 + Items(rest.next) == done + Items(rest) && config == Moved(was, os1, ns1)
      ensures os1 + Names(rest.next, o + [SPLIT]) == os + Names(rest, o + [SPLIT])
      ensures ns1 + Names(rest.next, n + [SPLIT]) == ns + Names(rest, n + [SPLIT])
      decreases rest.below, 4
    {
      hide Moved, Distinct, Items, Names;
      ghost var o', n' := o + [SPLIT] + rest.text, n + [SPLIT] + rest.text;
      ghost var later, laterNames := Items(rest.next), Names(rest.next, o + [SPLIT]);
      ghost var lower, lowerNames := Items(rest.below), Names(rest.below, n' + [SPLIT]);
      ghost var os', ns' := [o'] + Names(rest.below, o' + [SPLIT]), [n'] + lowerNames;
      StepPre(item, rest, done, o, n, o', n');
      Within(rest, done);
      NotAmong(root, rest.item, Items(rest.below), done + Items(rest));
      assert Named(later, laterNames);
      AdjustHierarchy(child, rest.below, o', all);
      assert Named(later, laterNames) && Named(done, ns);
      MovedAppend(was, os, ns, os', ns');
      NamedAppend([child], [n'], lower, lowerNames);
      NamedAppend(done, ns, [child] + lower, ns');
      os1, ns1, done1 := os + os', ns + ns', done + ([child] + lower);
      Onward(rest, o + [SPLIT], os, done);
      Onward(rest, n + [SPLIT], ns, done);
    }
  }

  lemma NotAmong(x: TreeItem, item: TreeItem, xs: seq<TreeItem>, all: seq<TreeItem>)
    requires x !in all && item in all && SetOf(xs) <= SetOf(all)
    ensures x !in [item] + xs && x !in xs
  {
    forall y | y in xs ensures y in all { assert y in SetOf(xs); }
  }

  lemma NoneYet(config: map<string, Session>)
    ensures Moved(config, [], []) == config && Named([], [])
  {
  }

  lemma Finished(f: Forest)
    requires f.Nil?
    ensures Items(f) == [] && forall p :: Names(f, p) == []
  {
  }

  lemma Within(f: Forest, done: seq<TreeItem>)
    requires f.Below?
    ensures f.item in done + Items(f) && SetOf(Items(f.below)) <= SetOf(done + Items(f))
  {
  }

  /** What is done grows by the first item and what is below it. */
  lemma Onward(f: Forest, prefix: string, ns: seq<string>, done: seq<TreeItem>)
    requires f.Below?
    ensures done + ([f.item] + Items(f.below)) + Items(f.next) == done + Items(f)
    ensures ns + ([prefix + f.text] + Names(f.below, prefix + f.text + [SPLIT])) + Names(f.next, prefix) == ns + Names(f, prefix)
  {
    Regroup(done, [f.item] + Items(f.below), Items(f.next));
    Regroup(ns, [prefix + f.text] + Names(f.below, prefix + f.text + [SPLIT]), Names(f.next, prefix));
  }

  lemma Regroup<T>(xs: seq<T>, ys: seq<T>, zs: seq<T>)
    ensures (xs + ys) + zs == xs + (ys + zs)
  {
  }

  lemma MovedOne(config: map<string, Session>, o: string, n: string, os: seq<string>, ns: seq<string>)
    requires |os| == |ns|
    ensures Moved(config, [o] + os, [n] + ns) == Moved(MoveOne(config, o, n), os, ns)
  {
    assert ([o] + os)[1..] == os && ([n] + ns)[1..] == ns;
  }

  lemma StepPre(item: TreeItem, rest: Forest, done: seq<TreeItem>, o: string, n: string, o': string, n': string)
    requires rest.Below? && Distinct(done + Items(rest)) && item !in done + Items(rest) && o != n
    requires Named(Items(rest), Names(rest, o + [SPLIT]))
    requires o' == o + [SPLIT] + rest.text && n' == n + [SPLIT] + rest.text
    ensures rest.item.full == o' && o' != n'
    ensures Named(Items(rest.below), Names(rest.below, o' + [SPLIT])) && Named(Items(rest.next), Names(rest.next, o + [SPLIT]))
    ensures Distinct([rest.item] + Items(rest.below)) && item !in [rest.item] + Items(rest.below)
    ensures rest.item !in done && rest.item !in Items(rest.next) && rest.item != item
    ensures forall x :: x in Items(rest.below) ==> x !in done && x !in Items(rest.next) && x != item
  {
    DistinctAppend(done, Items(rest));
    DistinctParts(rest);
    NamedParts(rest, o + [SPLIT]);
    assert [rest.item][0].full == [o'][0];
    assert Items(rest) == [rest.item] + Items(rest.below) + Items(rest.next);
    assert rest.item in [rest.item] + Items(rest.below);
    if o' == n' { SameStart(o, n, rest.text); }
  }

  lemma SameStart(o: string, n: string, text: string)
    requires o + [SPLIT] + text == n + [SPLIT] + text
    ensures o == n
  {
    assert o == (o + [SPLIT] + text)[..|o|] && n == (n + [SPLIT] + text)[..|n|];
  }
}
