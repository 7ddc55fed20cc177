/** gprefs_from_str and wprefs as settings.c runs them: the list lives in the
    integer subkeys of a Conf and is shifted in place, and a bitmap tells which
    values are in it. */
module PrefsConf {
  import opened PrefsRules

  function Bit(v: nat): bv32
    requires v < 32
  {
    1 << v
  }

  lemma SetBit(seen: bv32, v: nat, w: nat)
    requires v < 32 && w < 32
    ensures ((seen | Bit(v)) & Bit(w)) != 0 <==> (seen & Bit(w)) != 0 || v == w
  {
  }

  lemma NoBits(w: nat)
    requires w < 32
    ensures (0 as bv32) & Bit(w) == 0
  {
  }

  predicate Has(seen: bv32, v: int) { 0 <= v < 32 && seen & Bit(v) != 0 }

  /** `seen |= (1 << v)`. */
  function Mark(seen: bv32, v: int): bv32
    requires 0 <= v < 32
  {
    seen | Bit(v)
  }

  /** The bitmap holds exactly the values of the list. */
  ghost predicate SeenIs(seen: bv32, list: seq<int>) {
    forall v :: 0 <= v < 32 ==> (Has(seen, v) <==> v in list)
  }

  lemma SeenGrows(seen: bv32, list: seq<int>, list': seq<int>, v: int)
    requires SeenIs(seen, list) && 0 <= v < 32 && forall x :: x in list' <==> x in list || x == v
    ensures SeenIs(Mark(seen, v), list')
  {
    forall w | 0 <= w < 32 ensures Has(Mark(seen, v), w) <==> w in list' { SetBit(seen, v, w); }
  }

  /** Positions 0, 1, ... of the conf key hold the list. */
  ghost predicate Stored(m: map<int, int>, list: seq<int>) {
    forall j :: 0 <= j < |list| ==> j in m && m[j] == list[j]
  }

  /** Nothing from position `n` on has changed. */
  ghost predicate SameBeyond(m: map<int, int>, m': map<int, int>, n: int) {
    forall k :: !(0 <= k < n) ==> (k in m <==> k in m') && (k in m ==> m[k] == m'[k])
  }

  /** The list, with what follows position `j` moved up by one. */
  ghost predicate Shifting(m: map<int, int>, list: seq<int>, j: int) {
    && (forall k :: 0 <= k <= j && k < |list| ==> k in m && m[k] == list[k])
    && (forall k :: 0 < k && j + 1 < k <= |list| ==> k in m && m[k] == list[k - 1])
  }

  lemma ShiftStarts(m: map<int, int>, list: seq<int>, pos: nat)
    requires Stored(m, list)
    ensures Shifting(m, list, |list| - 1) && SameBeyond(m, m, |list| + 1)
  {
  }

  lemma ShiftStep(was: map<int, int>, m: map<int, int>, list: seq<int>, j: int)
    requires 0 <= j < |list| && Shifting(m, list, j) && SameBeyond(was, m, |list| + 1)
    ensures j in m && Shifting(m[j + 1 := m[j]], list, j - 1) && SameBeyond(was, m[j + 1 := m[j]], |list| + 1)
  {
  }

  lemma ShiftEnds(was: map<int, int>, m: map<int, int>, list: seq<int>, pos: nat, v: int)
    requires pos <= |list| && Shifting(m, list, pos - 1) && SameBeyond(was, m, |list| + 1)
    ensures Stored(m[pos := v], InsertAt(list, pos, v)) && SameBeyond(was, m[pos := v], |list| + 1)
  {
    var more := InsertAt(list, pos, v);
    forall k | 0 <= k < |more| ensures k in m[pos := v] && m[pos := v][k] == more[k] {
      if k > pos { assert more[k] == list[k - 1]; }
    }
  }

  class IntConf {
    var ints: map<int, int>

    /** Makes room at `pos` and puts `v` there. */
    method Shift(n: nat, pos: nat, v: int, ghost list: seq<int>)
      requires Stored(ints, list) && |list| == n && pos <= n
      modifies this
      ensures Stored(ints, InsertAt(list, pos, v)) && SameBeyond(old(ints), ints, n + 1)
    {
      hide Shifting, Stored, SameBeyond, InsertAt;
      ShiftStarts(ints, list, pos);
      var j: int := n - 1;
      while j >= pos
        invariant pos - 1 <= j <= n - 1
        invariant Shifting(ints, list, j) && SameBeyond(old(ints), ints, n + 1)
      {
        ShiftStep(old(ints), ints, list, j);
        ints := ints[j + 1 := ints[j]];
        j := j - 1;
      }
      ShiftEnds(old(ints), ints, list, pos, v);
      ints := ints[pos := v];
    }

    /** The search for the anchor. */
    method FindStored(n: nat, v: int, ghost list: seq<int>) returns (j: nat)
      requires Stored(ints, list) && |list| == n && v in list
      ensures j == Find(list, v) < n
    {
      j := 0;
      ghost var at :| 0 <= at < n && list[at] == v;
      while j < n && ints[j] != v
        invariant j <= at && forall k :: 0 <= k < j ==> list[k] != v
      {
        j := j + 1;
      }
    }

    method PositionOf(e: KeyVal, n: nat, ghost list: seq<int>) returns (pos: nat)
      requires Stored(ints, list) && |list| == n && (e.vrel == -1 || e.vrel in list)
      ensures pos == Position(e, list) <= n
    {
      if e.vrel == -1 {
        pos := if e.position < 0 then n else 0;
      } else {
        var j := FindStored(n, e.vrel, list);
        pos := if e.position < 0 then j else j + 1;
      }
    }

    /** One row of the table. */
    method PlaceRow(e: KeyVal, n0: nat, seen0: bv32, ghost list: seq<int>) returns (n: nat, seen: bv32)
      requires 0 <= e.v < 32 && (e.vrel == -1 || 0 <= e.vrel < 32)
      requires Stored(ints, list) && |list| == n0 && SeenIs(seen0, list)
      modifies this
      ensures n == |Step(e, list)| && Stored(ints, Step(e, list)) && SeenIs(seen, Step(e, list))
      ensures SameBeyond(old(ints), ints, n)
    {
      hide InsertAt, Has, Stored, Position, Mark, Bit, Step;
      n, seen := n0, seen0;
      StepCases(e, list);
      assert Has(seen, e.v) <==> e.v in list;
      if Has(seen, e.v) { return; }
      assert e.vrel != -1 ==> (Has(seen, e.vrel) <==> e.vrel in list);
      if e.vrel != -1 && !Has(seen, e.vrel) { return; }
      var pos := PositionOf(e, n, list);
      InsertMembers(list, pos, e.v);
      SeenGrows(seen, list, InsertAt(list, pos, e.v), e.v);
      Shift(n, pos, e.v, list);
      seen := Mark(seen, e.v);
      n := n + 1;
    }

    /** The for loop over the table. */
    method PassOver(tab: Table, n0: nat, seen0: bv32, ghost list0: seq<int>) returns (n: nat, seen: bv32)
      requires TableOk(tab) && Some(tab, list0) && Stored(ints, list0) && |list0| == n0 && SeenIs(seen0, list0)
      modifies this
      ensures n == |Pass(tab, list0, 0)| <= |tab|
      ensures Stored(ints, Pass(tab, list0, 0)) && SeenIs(seen, Pass(tab, list0, 0))
      ensures SameBeyond(old(ints), ints, |tab|)
    {
      hide Step, TableOk, SeenIs, Some, Stored;
      n, seen := n0, seen0;
      var i := 0;
      ghost var list := list0;
      SomeLists(tab, list0, list0);
      while i < |tab|
        invariant 0 <= i <= |tab| && Pass(tab, list, i) == Pass(tab, list0, 0) && Good(tab, list0, list)
        invariant Stored(ints, list) && |list| == n && SeenIs(seen, list)
        invariant SameBeyond(old(ints), ints, |tab|)
      {
        RowFits(tab, i);
        StepGood(tab, list0, list, i);
        GoodSize(tab, list0, Step(tab[i], list));
        n, seen := PlaceRow(tab[i], n, seen, list);
        list := Step(tab[i], list);
        i := i + 1;
      }
      GoodSize(tab, list0, list);
    }

    /** The completion loop. */
    method FillIn(tab: Table, n0: nat, seen0: bv32, ghost named: seq<int>)
      requires TableOk(tab) && Some(tab, named) && Stored(ints, named) && |named| == n0 && SeenIs(seen0, named)
      modifies this
      ensures Stored(ints, Complete(tab, named)) && SameBeyond(old(ints), ints, |tab|)
    {
      hide TableOk, SeenIs, Some, Stored, Pass;
      var n, seen := n0, seen0;
      ghost var list := named;
      while n < |tab|
        invariant Some(tab, list) && Stored(ints, list) && |list| == n && SeenIs(seen, list)
        invariant Complete(tab, list) == Complete(tab, named)
        invariant SameBeyond(old(ints), ints, |tab|)
        decreases |tab| - n
      {
        PassProgress(tab, list);
        PassSome(tab, list);
        n, seen := PassOver(tab, n, seen, list);
        list := Pass(tab, list, 0);
      }
    }

    /** A named value joins the list unless it is in it. */
    method AddValue(tab: Table, v: int, n0: nat, seen0: bv32, ghost list: seq<int>, ghost w: string) returns (n: nat, seen: bv32)
      requires TableOk(tab) && Some(tab, list) && Stored(ints, list) && |list| == n0 && SeenIs(seen0, list)
      requires v == Key2Val(tab, w)
      modifies this
      ensures
        var list' := AddNamed(tab, w, list);
        Some(tab, list') && Stored(ints, list') && |list'| == n <= |tab| && SeenIs(seen, list')
      ensures SameBeyond(old(ints), ints, |tab|)
    {
      hide TableOk, Has, Mark, Bit, Key2Val;
      n, seen := n0, seen0;
      ValueFits(tab, w);
      AddedSize(tab, w, list);
      if v != -1 && !Has(seen, v) {
        SeenGrows(seen, list, list + [v], v);
        seen := Mark(seen, v);
        ints := ints[n := v];
        n := n + 1;
      }
    }

    /** The loop of gprefs_from_str over the words of the string. */
    method ReadNamed(tab: Table, str: string) returns (n: nat, seen: bv32, ghost list: seq<int>)
      requires TableOk(tab)
      modifies this
      ensures list == Named(tab, Words(str), []) && Some(tab, list)
      ensures Stored(ints, list) && |list| == n && SeenIs(seen, list) && SameBeyond(old(ints), ints, |tab|)
    {
      hide TableOk, SeenIs, Stored, Named, Words, AddNamed;
      n, seen, list := 0, 0, [];
      NothingYet(tab, ints);
      var p := SkipCommas(str, 0);
      while p < |str|
        invariant p <= |str| && (p < |str| ==> str[p] != ',')
        invariant Named(tab, Words(str[p..]), list) == Named(tab, Words(str), [])
        invariant Some(tab, list) && Stored(ints, list) && |list| == n && SeenIs(seen, list)
        invariant SameBeyond(old(ints), ints, |tab|)
        decreases |str| - p
      {
        var q := NextWord(str, p);
        NamedStep(tab, str, p, q, list);
        var v := KeyToVal(tab, str[p..q]);
        n, seen := AddValue(tab, v, n, seen, list, str[p..q]);
        list := AddNamed(tab, str[p..q], list);
        p := SkipCommas(str, if q < |str| then q + 1 else q);
      }
      NamedEnd(tab, str[p..], list);
    }

    /** gprefs_from_str: whatever the conf key held before, it then holds the
        completed list. */
    method GprefsFromStr(str: string, tab: Table)
      requires TableOk(tab)
      modifies this
      ensures
        var named := Named(tab, Words(str), []);
        Some(tab, named) && Stored(ints, Complete(tab, named))
      ensures SameBeyond(old(ints), ints, |tab|)
    {
      hide TableOk, SeenIs, Some, Stored, Named, Words, Complete;
      var n, seen, list := ReadNamed(tab, str);
      FillIn(tab, n, seen, list);
    }

    /** wprefs. */
    method Wprefs(tab: Table, ghost list: seq<int>) returns (sb: string)
      requires Stored(ints, list) && |list| == |tab|
      ensures sb == WriteOn(tab, "", list)
    {
      hide Val2Key;
      sb := "";
      var i := 0;
      assert list[0..] == list;
      while i < |tab|
        invariant 0 <= i <= |tab| && WriteOn(tab, sb, list[i..]) == WriteOn(tab, "", list)
      {
        assert list[i..][1..] == list[i + 1..];
        var name := ValToKey(tab, ints[i]);
        if name != [] { sb := sb + (if sb == "" then "" else ",") + name[0]; }
        i := i + 1;
      }
    }

    /** A complete list is written and read back into another conf, whatever that
        holds. */
    method WriteAndRead(tab: Table, ghost list: seq<int>, other: IntConf)
      requires TableOk(tab) && NamesOk(tab) && Some(tab, list) && |list| == |tab| && Stored(ints, list)
      modifies other
      ensures Stored(other.ints, list) && SameBeyond(old(other.ints), other.ints, |tab|)
    {
      hide TableOk, NamesOk, Some, Stored, Named, Words, Complete, WriteOn;
      PrefsRoundTrip(tab, list);
      var sb := Wprefs(tab, list);
      other.GprefsFromStr(sb, tab);
    }
  }

  /** `while (*p && *p == ',') p++`. */
  method SkipCommas(str: string, p0: nat) returns (p: nat)
    requires p0 <= |str|
    ensures p0 <= p <= |str| && (p < |str| ==> str[p] != ',') && Words(str[p..]) == Words(str[p0..])
  {
    p := p0;
    while p < |str| && str[p] == ','
      invariant p0 <= p <= |str| && Words(str[p..]) == Words(str[p0..])
    {
      assert str[p..][1..] == str[p + 1..];
      p := p + 1;
    }
  }

  /** `while (*p && *p != ',') p++`. */
  method NextWord(str: string, p: nat) returns (q: nat)
    requires p < |str| && str[p] != ','
    ensures p < q <= |str| && str[p..q] == Word(str[p..]) && (q < |str| ==> str[q] == ',')
  {
    q := p;
    while q < |str| && str[q] != ','
      invariant p <= q <= |str| && Word(str[p..]) == str[p..q] + Word(str[q..]) && (q == p ==> str[p] != ',')
    {
      assert str[q..][1..] == str[q + 1..];
      assert str[p..q + 1] == str[p..q] + [str[q]];
      q := q + 1;
    }
    assert Word(str[q..]) == "";
  }

  /** key2val. */
  method KeyToVal(tab: Table, key: string) returns (v: int)
    ensures v == Key2Val(tab, key)
    ensures v == -1 || exists j :: 0 <= j < |tab| && tab[j].s == key && tab[j].v == v && forall k :: 0 <= k < j ==> tab[k].s != key
    ensures (forall k :: 0 <= k < |tab| ==> tab[k].s != key) ==> v == -1
    ensures v == -1 ==> forall k :: 0 <= k < |tab| && tab[k].s == key ==> exists j :: 0 <= j <= k && tab[j].s == key && tab[j].v == -1
  {
    var i := 0;
    assert tab[0..] == tab;
    while i < |tab|
      invariant 0 <= i <= |tab| && Key2Val(tab[i..], key) == Key2Val(tab, key)
      invariant forall k :: 0 <= k < i ==> tab[k].s != key
    {
      if tab[i].s == key { return tab[i].v; }
      assert tab[i..][1..] == tab[i + 1..];
      i := i + 1;
    }
    return -1;
  }

  /** val2key. */
  method ValToKey(tab: Table, v: int) returns (name: seq<string>)
    ensures name == Val2Key(tab, v)
    ensures name == [] <==> forall k :: 0 <= k < |tab| ==> tab[k].v != v
    ensures name != [] ==> exists j :: 0 <= j < |tab| && tab[j].v == v && name == [tab[j].s] && forall k :: 0 <= k < j ==> tab[k].v != v
  {
    var i := 0;
    assert tab[0..] == tab;
    while i < |tab|
      invariant 0 <= i <= |tab| && Val2Key(tab[i..], v) == Val2Key(tab, v)
      invariant forall k :: 0 <= k < i ==> tab[k].v != v
    {
      if tab[i].v == v { return [tab[i].s]; }
      assert tab[i..][1..] == tab[i + 1..];
      i := i + 1;
    }
    return [];
  }

  lemma NothingYet(tab: Table, m: map<int, int>)
    ensures Some(tab, []) && Stored(m, []) && SeenIs(0, []) && SameBeyond(m, m, |tab|)
  {
    forall w | 0 <= w < 32 ensures !Has(0, w) { NoBits(w); }
  }

  lemma NamedEnd(tab: Table, s: string, list: seq<int>)
    requires s == ""
    ensures Named(tab, Words(s), list) == list
  {
  }

  /** Reading one word and the comma after it. */
  lemma NamedStep(tab: Table, str: string, p: nat, q: nat, list: seq<int>)
    requires p < q <= |str| && str[p] != ',' && str[p..q] == Word(str[p..]) && (q < |str| ==> str[q] == ',')
    ensures
      var q' := if q < |str| then q + 1 else q;
      Named(tab, Words(str[p..]), list) == Named(tab, Words(str[q'..]), AddNamed(tab, str[p..q], list))
  {
    var w := str[p..q];
    assert str[p..][|w|..] == str[q..];
    if q < |str| { assert str[q..][1..] == str[q + 1..]; }
    assert Words(str[p..])[1..] == Words(str[q..]);
  }

  lemma ValueFits(tab: Table, w: string)
    requires TableOk(tab)
    ensures Key2Val(tab, w) == -1 || 0 <= Key2Val(tab, w) < 32
  {
    Key2ValInTable(tab, w);
  }

  lemma AddedSize(tab: Table, w: string, list: seq<int>)
    requires TableOk(tab) && Some(tab, list)
    ensures Some(tab, AddNamed(tab, w, list)) && |AddNamed(tab, w, list)| <= |tab|
  {
    Key2ValInTable(tab, w);
    SomeSize(tab, AddNamed(tab, w, list));
  }

  lemma StepCases(e: KeyVal, list: seq<int>)
    ensures Ready(e, list) ==> Step(e, list) == InsertAt(list, Position(e, list), e.v) && |Step(e, list)| == |list| + 1
    ensures !Ready(e, list) ==> Step(e, list) == list
  {
  }

  lemma SomeLists(tab: Table, named: seq<int>, list: seq<int>)
    requires Some(tab, list) && named == list
    ensures Good(tab, named, list)
  {
  }

  lemma GoodSize(tab: Table, named: seq<int>, list: seq<int>)
    requires TableOk(tab) && Good(tab, named, list)
    ensures |list| <= |tab|
  {
    SomeSize(tab, list);
  }

  lemma RowFits(tab: Table, i: nat)
    requires TableOk(tab) && i < |tab|
    ensures 0 <= tab[i].v < 32 && (tab[i].vrel == -1 || 0 <= tab[i].vrel < 32)
  {
  }
}
