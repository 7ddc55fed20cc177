/** Preference lists of settings.c: completing the list that a settings string
    names, and writing a list out as such a string. */
module PrefsRules {

  /** struct keyvalwhere. */
  datatype KeyVal = KeyVal(s: string, v: int, vrel: int, position: int)

  type Table = seq<KeyVal>

  /** Each value has one entry and fits the bitmap, anchors are values of the
      table, and following anchors leads nowhere in circles: some rank goes down
      along them. */
  ghost predicate Ranked(tab: Table, rank: seq<nat>) {
    && |rank| == |tab|
    && forall i, j :: 0 <= i < |tab| && 0 <= j < |tab| && tab[i].vrel == tab[j].v ==> rank[j] < rank[i]
  }

  ghost predicate TableOk(tab: Table) {
    && (forall i :: 0 <= i < |tab| ==> 0 <= tab[i].v < 32)
    && (forall i, j :: 0 <= i < j < |tab| ==> tab[i].v != tab[j].v)
    && (forall i :: 0 <= i < |tab| ==> tab[i].vrel == -1 || InTable(tab, tab[i].vrel))
    && exists rank :: Ranked(tab, rank)
  }

  predicate InTable(tab: Table, v: int) { exists j :: 0 <= j < |tab| && tab[j].v == v }

  /** key2val. */
  function Key2Val(tab: Table, key: string): int {
    if tab == [] then -1 else if tab[0].s == key then tab[0].v else Key2Val(tab[1..], key)
  }

  /** val2key; the empty option is a value without an entry. */
  function Val2Key(tab: Table, v: int): (r: seq<string>)
    ensures |r| <= 1
  {
    if tab == [] then [] else if tab[0].v == v then [tab[0].s] else Val2Key(tab[1..], v)
  }

  // ----------------------------------------------------------- the named part

  function Word(s: string): (w: string)
    ensures |w| <= |s| && (s != "" && s[0] != ',' ==> w != "")
  {
    if s == "" || s[0] == ',' then "" else [s[0]] + Word(s[1..])
  }

  /** The words between commas; empty ones do not count. */
  function Words(s: string): seq<string>
    decreases |s|
  {
    if s == "" then []
    else if s[0] == ',' then Words(s[1..])
    else [Word(s)] + Words(s[|Word(s)|..])
  }

  /** The values that the words name, each where it is named first. */
  function Named(tab: Table, words: seq<string>, list: seq<int>): seq<int>
    decreases |words|
  {
    if words == [] then list
    else
      var v := Key2Val(tab, words[0]);
      Named(tab, words[1..], if v != -1 && v !in list then list + [v] else list)
  }

  // ------------------------------------------------------------ the completion

  function InsertAt(list: seq<int>, pos: nat, v: int): seq<int>
    requires pos <= |list|
  {
    list[..pos] + [v] + list[pos..]
  }

  function Find(list: seq<int>, v: int): (j: nat)
    ensures j <= |list| && (j < |list| ==> list[j] == v) && forall k :: 0 <= k < j ==> list[k] != v
  {
    if list == [] || list[0] == v then 0
    else
      var j := Find(list[1..], v);
      assert forall k :: 0 < k < j + 1 ==> list[k] == list[1..][k - 1];
      j + 1
  }

  /** Where an entry goes that is not in the list yet. */
  function Position(e: KeyVal, list: seq<int>): (pos: nat)
    requires e.vrel == -1 || e.vrel in list
    ensures pos <= |list|
  {
    if e.vrel == -1 then (if e.position < 0 then |list| else 0)
    else
      var j := Find(list, e.vrel);
      if e.position < 0 then j else j + 1
  }

  predicate Ready(e: KeyVal, list: seq<int>) { e.v !in list && (e.vrel == -1 || e.vrel in list) }

  function Step(e: KeyVal, list: seq<int>): (r: seq<int>)
    ensures |r| == |list| + if Ready(e, list) then 1 else 0
  {
    if Ready(e, list) then InsertAt(list, Position(e, list), e.v) else list
  }

  /** One pass over the table from entry `i` on. */
  function Pass(tab: Table, list: seq<int>, i: nat): (r: seq<int>)
    requires i <= |tab|
    ensures |r| >= |list|
    decreases |tab| - i
  {
    if i == |tab| then list else Pass(tab, Step(tab[i], list), i + 1)
  }

  // ------------------------------------------------------------------ order

  predicate Distinct(list: seq<int>) { forall i, j :: 0 <= i < j < |list| ==> list[i] != list[j] }

  predicate Before(list: seq<int>, a: int, b: int) {
    exists i, j :: 0 <= i < j < |list| && list[i] == a && list[j] == b
  }

  /** Some of the table's values, each once. */
  ghost predicate Some(tab: Table, list: seq<int>) {
    Distinct(list) && forall v :: v in list ==> InTable(tab, v)
  }

  /** `list'` has everything of `list` in the same order. */
  ghost predicate Extends(list: seq<int>, list': seq<int>) {
    && (forall v :: v in list ==> v in list')
    && (forall a, b :: Before(list, a, b) ==> Before(list', a, b))
  }

  /** An entry that the string did not name is where its table row wants it: on
      the right side of its anchor, or at the right end of the named ones. */
  ghost predicate Placed(e: KeyVal, named: seq<int>, list: seq<int>) {
    if e.vrel == -1 then
      if e.position < 0 then forall a :: a in named ==> Before(list, a, e.v)
      else forall a :: a in named ==> Before(list, e.v, a)
    else if e.position < 0 then Before(list, e.v, e.vrel)
    else Before(list, e.vrel, e.v)
  }

  ghost predicate Good(tab: Table, named: seq<int>, list: seq<int>) {
    && Some(tab, list)
    && Extends(named, list)
    && forall i :: 0 <= i < |tab| && tab[i].v in list && tab[i].v !in named ==> Placed(tab[i], named, list)
  }

  lemma InsertAtIndex(list: seq<int>, pos: nat, v: int, i: nat)
    requires pos <= |list| && i < |list|
    ensures InsertAt(list, pos, v)[if i < pos then i else i + 1] == list[i]
    ensures InsertAt(list, pos, v)[pos] == v
  {
  }

  lemma InsertMembers(list: seq<int>, pos: nat, v: int)
    requires pos <= |list|
    ensures forall x :: x in InsertAt(list, pos, v) <==> x in list || x == v
  {
    assert list == list[..pos] + list[pos..];
  }

  lemma InsertDistinct(list: seq<int>, pos: nat, v: int)
    requires pos <= |list| && Distinct(list) && v !in list
    ensures Distinct(InsertAt(list, pos, v))
  {
    var r := InsertAt(list, pos, v);
    forall i, j | 0 <= i < j < |r| ensures r[i] != r[j] {
      var i', j' := if i < pos then i else i - 1, if j < pos then j else j - 1;
      if i != pos { assert r[i] == list[i']; }
      if j != pos { assert r[j] == list[j']; }
    }
  }

  lemma InsertKeepsOrder(list: seq<int>, pos: nat, v: int, a: int, b: int)
    requires pos <= |list| && Before(list, a, b)
    ensures Before(InsertAt(list, pos, v), a, b)
  {
    var i, j :| 0 <= i < j < |list| && list[i] == a && list[j] == b;
    InsertAtIndex(list, pos, v, i);
    InsertAtIndex(list, pos, v, j);
    var r := InsertAt(list, pos, v);
    var i', j' := if i < pos then i else i + 1, if j < pos then j else j + 1;
    assert 0 <= i' < j' < |r| && r[i'] == a && r[j'] == b;
  }

  /** The new value comes after everything before its position, and before
      everything from there on. */
  lemma InsertSides(list: seq<int>, pos: nat, v: int, i: nat)
    requires pos <= |list| && i < |list|
    ensures if i < pos then Before(InsertAt(list, pos, v), list[i], v) else Before(InsertAt(list, pos, v), v, list[i])
  {
    InsertAtIndex(list, pos, v, i);
    var r := InsertAt(list, pos, v);
    if i < pos { assert r[i] == list[i] && r[pos] == v; } else { assert r[pos] == v && r[i + 1] == list[i]; }
  }

  lemma StepPlaced(e: KeyVal, named: seq<int>, list: seq<int>)
    requires Ready(e, list) && Extends(named, list)
    ensures Placed(e, named, Step(e, list))
  {
    var pos := Position(e, list);
    if e.vrel == -1 {
      forall a | a in named ensures if e.position < 0 then Before(Step(e, list), a, e.v) else Before(Step(e, list), e.v, a) {
        var i :| 0 <= i < |list| && list[i] == a;
        InsertSides(list, pos, e.v, i);
      }
    } else {
      InsertSides(list, pos, e.v, Find(list, e.vrel));
    }
  }

  /** Placing one entry keeps everything that was settled before. */
  lemma StepGood(tab: Table, named: seq<int>, list: seq<int>, i: nat)
    requires TableOk(tab) && i < |tab| && Good(tab, named, list)
    ensures Good(tab, named, Step(tab[i], list))
  {
    if !Ready(tab[i], list) { return; }
    var e, list' := tab[i], Step(tab[i], list);
    var pos := Position(e, list);
    hide Step, Position;
    assert list' == InsertAt(list, pos, e.v) by { StepIs(e, list); }
    InsertMembers(list, pos, e.v);
    InsertDistinct(list, pos, e.v);
    assert Some(tab, list') by { assert InTable(tab, e.v); }
    forall a, b | Before(named, a, b) ensures Before(list', a, b) { InsertKeepsOrder(list, pos, e.v, a, b); }
    StepPlaced(e, named, list);
    forall k | 0 <= k < |tab| && tab[k].v in list' && tab[k].v !in named ensures Placed(tab[k], named, list') {
      if tab[k].v in list { PlacedStays(tab[k], named, list, pos, e.v); }
    }
  }

  lemma StepIs(e: KeyVal, list: seq<int>)
    requires Ready(e, list)
    ensures Step(e, list) == InsertAt(list, Position(e, list), e.v)
  {
  }

  lemma PlacedStays(d: KeyVal, named: seq<int>, list: seq<int>, pos: nat, v: int)
    requires pos <= |list| && Placed(d, named, list)
    ensures Placed(d, named, InsertAt(list, pos, v))
  {
    hide InsertAt, Before;
    forall a, b | Before(list, a, b) ensures Before(InsertAt(list, pos, v), a, b) { InsertKeepsOrder(list, pos, v, a, b); }
  }

  lemma {:induction false} PassGood(tab: Table, named: seq<int>, list: seq<int>, i: nat)
    requires TableOk(tab) && i <= |tab| && Good(tab, named, list)
    ensures Good(tab, named, Pass(tab, list, i))
    decreases |tab| - i
  {
    hide Good, Step, TableOk;
    if i < |tab| {
      StepGood(tab, named, list, i);
      PassGood(tab, named, Step(tab[i], list), i + 1);
    }
  }

  // --------------------------------------------------------------- progress

  function ValuesOf(tab: Table): (vs: seq<int>)
    ensures |vs| == |tab|
  {
    seq(|tab|, i requires 0 <= i < |tab| => tab[i].v)
  }

  lemma {:induction false} DistinctSize(list: seq<int>)
    requires Distinct(list)
    ensures |set v | v in list| == |list|
  {
    if list != [] {
      var n := |list| - 1;
      var front := list[..n];
      DistinctSize(front);
      assert list == front + [list[n]];
      assert list[n] !in front;
      assert (set v | v in list) == (set v | v in front) + {list[n]};
    }
  }

  lemma ValuesFacts(tab: Table)
    requires TableOk(tab)
    ensures Distinct(ValuesOf(tab)) && forall v :: v in ValuesOf(tab) <==> InTable(tab, v)
  {
    forall v | InTable(tab, v) ensures v in ValuesOf(tab) {
      var j :| 0 <= j < |tab| && tab[j].v == v;
      assert ValuesOf(tab)[j] == v;
    }
  }

  /** A list of table values without repetition is no longer than the table, and
      as long only if it has every value. */
  lemma SomeSize(tab: Table, list: seq<int>)
    requires TableOk(tab) && Some(tab, list)
    ensures |list| <= |tab|
    ensures |list| == |tab| <==> forall v :: InTable(tab, v) ==> v in list
    ensures |list| == |tab| ==> multiset(list) == multiset(ValuesOf(tab))
  {
    ValuesFacts(tab);
    var all, some := set v | v in ValuesOf(tab), set v | v in list;
    DistinctSize(ValuesOf(tab));
    DistinctSize(list);
    assert some <= all;
    SubsetSize(some, all);
    if |list| == |tab| {
      assert some == all;
      forall v | InTable(tab, v) ensures v in list { assert v in some; }
      DistinctMultiset(list);
      DistinctMultiset(ValuesOf(tab));
    } else {
      if forall v :: InTable(tab, v) ==> v in list { assert all <= some; SubsetSize(all, some); }
    }
  }

  lemma SubsetSize(a: set<int>, b: set<int>)
    requires a <= b
    ensures |a| <= |b| && (|a| == |b| ==> a == b)
  {
    assert b == a + (b - a);
    assert |b| == |a| + |b - a|;
  }

  lemma {:induction false} DistinctMultiset(list: seq<int>)
    requires Distinct(list)
    ensures multiset(list) == multiset(set v | v in list)
  {
    if list != [] {
      var n := |list| - 1;
      DistinctMultiset(list[..n]);
      assert list == list[..n] + [list[n]];
      assert list[n] !in list[..n];
      assert (set v | v in list) == (set v | v in list[..n]) + {list[n]};
    }
  }

  /** Following anchors from an entry that is missing leads to one that can be
      placed now. */
  lemma {:induction false} FollowAnchors(tab: Table, rank: seq<nat>, list: seq<int>, i: nat) returns (k: nat)
    requires TableOk(tab) && Ranked(tab, rank) && i < |tab| && tab[i].v !in list
    ensures k < |tab| && Ready(tab[k], list)
    decreases rank[i]
  {
    if tab[i].vrel == -1 || tab[i].vrel in list { return i; }
    var j :| 0 <= j < |tab| && tab[j].v == tab[i].vrel;
    k := FollowAnchors(tab, rank, list, j);
  }

  lemma {:induction false} PassGrows(tab: Table, list: seq<int>, i: nat, k: nat)
    requires i <= k < |tab| && Ready(tab[k], list)
    ensures |Pass(tab, list, i)| > |list|
    decreases k - i
  {
    if i < k && !Ready(tab[i], list) { PassGrows(tab, list, i + 1, k); }
  }

  /** While an entry is missing, a pass over the table adds at least one. */
  lemma PassProgress(tab: Table, list: seq<int>)
    requires TableOk(tab) && Some(tab, list) && |list| < |tab|
    ensures |Pass(tab, list, 0)| > |list|
  {
    SomeSize(tab, list);
    var v :| InTable(tab, v) && v !in list;
    var i :| 0 <= i < |tab| && tab[i].v == v;
    var rank :| Ranked(tab, rank);
    var k := FollowAnchors(tab, rank, list, i);
    PassGrows(tab, list, 0, k);
  }

  lemma PassSome(tab: Table, list: seq<int>)
    requires TableOk(tab) && Some(tab, list)
    ensures Some(tab, Pass(tab, list, 0))
  {
    assert Good(tab, list, list);
    PassGood(tab, list, list, 0);
  }

  /** gprefs_from_str's completion: passes until nothing is missing. */
  ghost function Complete(tab: Table, list: seq<int>): seq<int>
    requires TableOk(tab) && Some(tab, list)
    decreases |tab| - |list|
  {
    if |list| >= |tab| then list
    else
      PassProgress(tab, list);
      PassSome(tab, list);
      Complete(tab, Pass(tab, list, 0))
  }

  lemma {:induction false} CompleteKeeps(tab: Table, named: seq<int>, list: seq<int>)
    requires TableOk(tab) && Good(tab, named, list)
    ensures Good(tab, named, Complete(tab, list)) && |Complete(tab, list)| == |tab|
    decreases |tab| - |list|
  {
    SomeSize(tab, list);
    if |list| < |tab| {
      PassProgress(tab, list);
      PassGood(tab, named, list, 0);
      CompleteKeeps(tab, named, Pass(tab, list, 0));
    }
  }

  /** Completion yields every value once, keeps the named ones in their order,
      and puts each of the others where its table row wants it, whatever is
      inserted after it. */
  lemma Completion(tab: Table, named: seq<int>)
    requires TableOk(tab) && Some(tab, named)
    ensures
      var list := Complete(tab, named);
      && multiset(list) == multiset(ValuesOf(tab)) && Extends(named, list)
      && forall i :: 0 <= i < |tab| && tab[i].v !in named ==> Placed(tab[i], named, list)
  {
    assert Good(tab, named, named);
    CompleteKeeps(tab, named, named);
    SomeSize(tab, Complete(tab, named));
    forall i | 0 <= i < |tab| ensures tab[i].v in Complete(tab, named) { assert InTable(tab, tab[i].v); }
  }

  // -------------------------------------------------------- the named values

  lemma {:induction false} NamedSnoc(tab: Table, words: seq<string>, w: string, list: seq<int>)
    ensures
      var before, v := Named(tab, words, list), Key2Val(tab, w);
      Named(tab, words + [w], list) == if v != -1 && v !in before then before + [v] else before
    decreases |words|
  {
    if words == [] {
      assert words + [w] == [w] && [w][1..] == [];
    } else {
      assert (words + [w])[1..] == words[1..] + [w];
      var v := Key2Val(tab, words[0]);
      NamedSnoc(tab, words[1..], w, if v != -1 && v !in list then list + [v] else list);
    }
  }

  /** The first word that names `v`. */
  function FirstUse(tab: Table, words: seq<string>, v: int): (i: nat)
    ensures i <= |words| && (i < |words| ==> Key2Val(tab, words[i]) == v)
    ensures forall k :: 0 <= k < i ==> Key2Val(tab, words[k]) != v
  {
    if words == [] || Key2Val(tab, words[0]) == v then 0
    else
      var i := FirstUse(tab, words[1..], v);
      assert forall k :: 0 < k < i + 1 ==> words[k] == words[1..][k - 1];
      i + 1
  }

  lemma Key2ValInTable(tab: Table, key: string)
    ensures Key2Val(tab, key) == -1 || InTable(tab, Key2Val(tab, key))
  {
    if tab != [] && tab[0].s != key {
      Key2ValInTable(tab[1..], key);
      if Key2Val(tab[1..], key) != -1 {
        var j :| 0 <= j < |tab| - 1 && tab[1..][j].v == Key2Val(tab, key);
        assert tab[j + 1].v == Key2Val(tab, key);
      }
    }
  }

  ghost predicate NamedOk(tab: Table, words: seq<string>, list: seq<int>) {
    && Some(tab, list)
    && (forall v :: v in list <==> v != -1 && FirstUse(tab, words, v) < |words|)
    && (forall i, j :: 0 <= i < j < |list| ==> FirstUse(tab, words, list[i]) < FirstUse(tab, words, list[j]))
  }

  function AddNamed(tab: Table, w: string, list: seq<int>): seq<int> {
    var v := Key2Val(tab, w);
    if v != -1 && v !in list then list + [v] else list
  }

  lemma NamedMembersSnoc(tab: Table, front: seq<string>, w: string, list: seq<int>)
    requires NamedOk(tab, front, list)
    ensures Some(tab, AddNamed(tab, w, list))
    ensures forall x :: x in AddNamed(tab, w, list) <==> x != -1 && FirstUse(tab, front + [w], x) < |front| + 1
  {
    hide FirstUse, Key2Val;
    Key2ValInTable(tab, w);
    forall x ensures x in AddNamed(tab, w, list) <==> x != -1 && FirstUse(tab, front + [w], x) < |front| + 1 {
      FirstUseSnoc(tab, front, w, x);
      assert x in list <==> x != -1 && FirstUse(tab, front, x) < |front|;
    }
  }

  lemma NamedOrderSnoc(tab: Table, front: seq<string>, w: string, list: seq<int>, i: nat, j: nat)
    requires NamedOk(tab, front, list) && i < j < |AddNamed(tab, w, list)|
    ensures
      var list' := AddNamed(tab, w, list);
      FirstUse(tab, front + [w], list'[i]) < FirstUse(tab, front + [w], list'[j])
  {
    hide FirstUse, Key2Val, Some;
    var list' := AddNamed(tab, w, list);
    FirstUseSnoc(tab, front, w, list'[i]);
    FirstUseSnoc(tab, front, w, list'[j]);
    assert list'[i] == list[i] && list[i] in list;
    if j < |list| { assert list'[j] == list[j] && list[j] in list; }
  }

  lemma NamedOkSnoc(tab: Table, front: seq<string>, w: string, list: seq<int>)
    requires NamedOk(tab, front, list)
    ensures NamedOk(tab, front + [w], AddNamed(tab, w, list))
  {
    hide FirstUse, AddNamed, Some;
    NamedMembersSnoc(tab, front, w, list);
    var list' := AddNamed(tab, w, list);
    forall i, j | 0 <= i < j < |list'|
      ensures FirstUse(tab, front + [w], list'[i]) < FirstUse(tab, front + [w], list'[j])
    {
      NamedOrderSnoc(tab, front, w, list, i, j);
    }
  }

  /** The named list has exactly the values that some word names, each once, in
      the order in which they are first named. */
  lemma {:induction false} NamedMeans(tab: Table, words: seq<string>)
    ensures NamedOk(tab, words, Named(tab, words, []))
    decreases |words|
  {
    hide NamedOk;
    if words == [] {
      NamedNothing(tab);
    } else {
      var n := |words| - 1;
      assert words == words[..n] + [words[n]];
      NamedMeans(tab, words[..n]);
      NamedSnoc(tab, words[..n], words[n], []);
      NamedOkSnoc(tab, words[..n], words[n], Named(tab, words[..n], []));
    }
  }

  lemma NamedNothing(tab: Table)
    ensures NamedOk(tab, [], [])
  {
  }

  lemma FirstUseSnoc(tab: Table, front: seq<string>, w: string, v: int)
    ensures
      var n := |front|;
      FirstUse(tab, front + [w], v) ==
      if FirstUse(tab, front, v) < n then FirstUse(tab, front, v) else if Key2Val(tab, w) == v then n else n + 1
  {
    var words := front + [w];
    var i, f := FirstUse(tab, words, v), FirstUse(tab, front, v);
    assert forall k :: 0 <= k < |front| ==> words[k] == front[k];
    assert words[|front|] == w;
  }

  // ------------------------------------------------------ writing and reading

  /** wprefs' buffer after the values `list` have been added to `sb`. */
  function WriteOn(tab: Table, sb: string, list: seq<int>): string
    decreases |list|
  {
    if list == [] then sb
    else
      var name := Val2Key(tab, list[0]);
      WriteOn(tab, if name == [] then sb else sb + (if sb == "" then "" else ",") + name[0], list[1..])
  }

  /** Names that can be told apart in the written string. */
  ghost predicate NamesOk(tab: Table) {
    && (forall i :: 0 <= i < |tab| ==> tab[i].s != "" && ',' !in tab[i].s)
    && (forall i, j :: 0 <= i < j < |tab| ==> tab[i].s != tab[j].s)
  }

  lemma {:induction false} NameOf(tab: Table, j: nat)
    requires TableOk(tab) && NamesOk(tab) && j < |tab|
    ensures Val2Key(tab, tab[j].v) == [tab[j].s] && Key2Val(tab, tab[j].s) == tab[j].v
  {
    NameOfRow(tab, j);
  }

  lemma {:induction false} NameOfRow(tab: Table, j: nat)
    requires j < |tab|
    requires forall i, j :: 0 <= i < j < |tab| ==> tab[i].v != tab[j].v && tab[i].s != tab[j].s
    ensures Val2Key(tab, tab[j].v) == [tab[j].s] && Key2Val(tab, tab[j].s) == tab[j].v
  {
    if j > 0 { NameOfRow(tab[1..], j - 1); }
  }

  function NamesOf(tab: Table, list: seq<int>): (ws: seq<string>)
    requires forall v :: v in list ==> Val2Key(tab, v) != []
    ensures |ws| == |list|
  {
    seq(|list|, i requires 0 <= i < |list| => assert list[i] in list; Val2Key(tab, list[i])[0])
  }

  /** Words joined by commas. */
  function Joined(ws: seq<string>): string {
    if ws == [] then "" else if |ws| == 1 then ws[0] else Joined(ws[..|ws| - 1]) + "," + ws[|ws| - 1]
  }

  lemma {:induction false} WordCut(w: string, rest: string)
    requires ',' !in w && (rest == "" || rest[0] == ',')
    ensures Word(w + rest) == w
  {
    if w != "" { assert (w + rest)[1..] == w[1..] + rest; WordCut(w[1..], rest); }
    else { assert w + rest == rest; }
  }

  lemma {:induction false} WordsCat(s: string, t: string)
    requires t == "" || t[0] == ','
    ensures Words(s + t) == Words(s) + Words(t)
    decreases |s|
  {
    if s == "" { assert s + t == t; }
    else if s[0] == ',' { assert (s + t)[1..] == s[1..] + t; WordsCat(s[1..], t); }
    else {
      WordIsPrefix(s);
      var w := Word(s);
      assert s + t == w + (s[|w|..] + t);
      WordCut(w, s[|w|..] + t);
      assert (s + t)[|w|..] == s[|w|..] + t;
      WordsCat(s[|w|..], t);
    }
  }

  lemma {:induction false} WordIsPrefix(s: string)
    ensures s == Word(s) + s[|Word(s)|..] && ',' !in Word(s) && (|Word(s)| < |s| ==> s[|Word(s)|] == ',')
  {
    if s != "" && s[0] != ',' { WordIsPrefix(s[1..]); assert s == [s[0]] + s[1..]; }
  }

  lemma WordsOne(w: string)
    requires w != "" && ',' !in w
    ensures Words(w) == [w] && Words("," + w) == [w]
  {
    WordCut(w, "");
    assert w + "" == w;
    assert w[0] in w;
    assert w[|w|..] == "";
    assert ("," + w)[1..] == w;
  }

  lemma {:induction false} WordsJoined(ws: seq<string>)
    requires forall w :: w in ws ==> w != "" && ',' !in w
    ensures Words(Joined(ws)) == ws
  {
    if ws != [] {
      var n := |ws| - 1;
      assert ws == ws[..n] + [ws[n]];
      assert ws[n] in ws;
      WordsOne(ws[n]);
      if n > 0 {
        WordsJoined(ws[..n]);
        WordsCat(Joined(ws[..n]), "," + ws[n]);
        assert Joined(ws) == Joined(ws[..n]) + ("," + ws[n]);
      }
    }
  }

  lemma {:induction false} JoinedSnoc(ws: seq<string>, w: string)
    requires forall x :: x in ws ==> x != ""
    ensures Joined(ws + [w]) == Joined(ws) + (if Joined(ws) == "" then "" else ",") + w
  {
    assert (ws + [w])[..|ws|] == ws;
    if ws == [] { assert "" + "" + w == w; }
    else { JoinedNonempty(ws); }
  }

  lemma JoinedNonempty(ws: seq<string>)
    requires ws != [] && forall x :: x in ws ==> x != ""
    ensures Joined(ws) != ""
  {
    assert ws[|ws| - 1] in ws;
  }

  lemma {:induction false} WriteIsJoined(tab: Table, done: seq<string>, list: seq<int>)
    requires TableOk(tab) && NamesOk(tab)
    requires forall v :: v in list ==> InTable(tab, v)
    requires forall w :: w in done ==> w != ""
    requires forall v :: v in list ==> Val2Key(tab, v) != [] && Val2Key(tab, v)[0] != ""
    ensures WriteOn(tab, Joined(done), list) == Joined(done + NamesOf(tab, list))
    decreases |list|
  {
    if list == [] {
      assert done + NamesOf(tab, list) == done;
    } else {
      assert list[0] in list;
      var w := Val2Key(tab, list[0])[0];
      JoinedSnoc(done, w);
      assert done + NamesOf(tab, list) == (done + [w]) + NamesOf(tab, list[1..]);
      WriteIsJoined(tab, done + [w], list[1..]);
    }
  }

  lemma {:induction false} NamedNames(tab: Table, list: seq<int>, done: seq<int>)
    requires forall v :: v in list ==> Val2Key(tab, v) != [] && Key2Val(tab, Val2Key(tab, v)[0]) == v && v != -1
    requires Distinct(done + list)
    ensures Named(tab, NamesOf(tab, list), done) == done + list
    decreases |list|
  {
    if list == [] {
      assert done + list == done;
    } else {
      assert list[0] in list;
      assert NamesOf(tab, list)[1..] == NamesOf(tab, list[1..]);
      assert (done + list)[|done|] == list[0];
      forall i | 0 <= i < |done| ensures done[i] != list[0] { assert (done + list)[i] == done[i]; }
      assert done + list == (done + [list[0]]) + list[1..];
      NamedNames(tab, list[1..], done + [list[0]]);
    }
  }

  lemma ValueNames(tab: Table, v: int)
    requires TableOk(tab) && NamesOk(tab) && InTable(tab, v)
    ensures v != -1 && Val2Key(tab, v) != [] && Key2Val(tab, Val2Key(tab, v)[0]) == v
    ensures Val2Key(tab, v)[0] != "" && ',' !in Val2Key(tab, v)[0]
  {
    var j :| 0 <= j < |tab| && tab[j].v == v;
    NameOf(tab, j);
  }

  /** A complete list written out and read back is the same list. */
  lemma PrefsRoundTrip(tab: Table, list: seq<int>)
    requires TableOk(tab) && NamesOk(tab) && Some(tab, list) && |list| == |tab|
    ensures
      var named := Named(tab, Words(WriteOn(tab, "", list)), []);
      named == list && Complete(tab, named) == list
  {
    hide Named, Words, WriteOn, Joined, NamesOf, Val2Key, Key2Val, TableOk, NamesOk;
    NamesWritten(tab, list);
    WriteIsJoined(tab, [], list);
    var ws := NamesOf(tab, list);
    assert [] + ws == ws && [] + list == list;
    WordsJoined(ws);
    NamedNames(tab, list, []);
  }

  /** The names of a list that go into the string. */
  lemma NamesWritten(tab: Table, list: seq<int>)
    requires TableOk(tab) && NamesOk(tab) && Some(tab, list)
    ensures forall v :: v in list ==>
              v != -1 && Val2Key(tab, v) != [] && Key2Val(tab, Val2Key(tab, v)[0]) == v && Val2Key(tab, v)[0] != ""
    ensures forall w :: w in NamesOf(tab, list) ==> w != "" && ',' !in w
    ensures Distinct(list) && (forall v :: v in list ==> InTable(tab, v)) && Joined([]) == ""
  {
    hide Val2Key, Key2Val, TableOk, NamesOk;
    forall v | v in list ensures v != -1 && Val2Key(tab, v) != [] && Key2Val(tab, Val2Key(tab, v)[0]) == v
                                 && Val2Key(tab, v)[0] != "" && ',' !in Val2Key(tab, v)[0]
    {
      ValueNames(tab, v);
    }
    NamesAre(tab, list);
  }

  lemma {:induction false} NamesAre(tab: Table, list: seq<int>)
    requires forall v :: v in list ==> Val2Key(tab, v) != []
    requires forall v :: v in list ==> Val2Key(tab, v)[0] != "" && ',' !in Val2Key(tab, v)[0]
    ensures forall w :: w in NamesOf(tab, list) ==> w != "" && ',' !in w
  {
    var ws := NamesOf(tab, list);
    forall w | w in ws ensures w != "" && ',' !in w {
      var i :| 0 <= i < |ws| && ws[i] == w;
      assert list[i] in list;
    }
  }
}
