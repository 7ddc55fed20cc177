/** A main window's pane layout as the program keeps it: parent pointers and two
    collections per splitter, changed in place while panes are split, dropped
    and closed. Every method is proved against the forest of PaneForest. */
module PaneWindow {
  import opened PaneForest

  datatype SplitType = TypeUp | TypeLeft | TypeDown | TypeRight {
    predicate After() { this.TypeDown? || this.TypeRight? }
    function Orient(): Orientation { if this.TypeDown? || this.TypeUp? then Vertical else Horizontal }
  }

  /** What the heap holds for each pane. */
  datatype Cell = Cell(parentSplit: Pane?, child: seq<Pane>, widgets: seq<Pane>)

  ghost function Heap(ps: set<Pane>): (h: map<Pane, Cell>)
    reads ps
    ensures h.Keys == ps
  {
    map p | p in ps :: Cell(p.parentSplit, p.child, p.widgets)
  }

  /** These cells make up exactly this forest: parent pointers match, `child` and
      the visual order have the same members, and the visual order is the
      forest's. */
  ghost predicate Holds(f: Forest, top: Pane?, h: map<Pane, Cell>) {
    match f
    case Nil => true
    case Term(t, next) => t in h && h[t].parentSplit == top && h[t].child == [] && Holds(next, top, h)
    case Split(s, kids, next) =>
      && s in h
      && h[s].parentSplit == top
      && h[s].widgets == Roots(kids)
      && multiset(h[s].child) == multiset(h[s].widgets)
      && Holds(kids, s, h)
      && Holds(next, top, h)
  }

  ghost predicate Unchanged(ps: set<Pane>, h: map<Pane, Cell>, h': map<Pane, Cell>) {
    forall p :: p in ps && p in h ==> p in h' && h'[p] == h[p]
  }

  lemma {:induction false} SameHolds(f: Forest, top: Pane?, h: map<Pane, Cell>, h': map<Pane, Cell>)
    requires Holds(f, top, h) && Unchanged(Panes(f), h, h')
    ensures Holds(f, top, h')
  {
    match f
    case Nil =>
    case Term(_, next) => SameHolds(next, top, h, h');
    case Split(s, kids, next) => SameHolds(kids, s, h, h'); SameHolds(next, top, h, h');
  }

  lemma {:induction false} HoldsParent(f: Forest, top: Pane?, h: map<Pane, Cell>, x: Pane)
    requires Holds(f, top, h) && x in Panes(f)
    ensures x in h && h[x].parentSplit == ParentOf(f, top, x)
  {
    match f
    case Term(t, next) => if t != x { HoldsParent(next, top, h, x); }
    case Split(s, kids, next) =>
      if s != x { if x in Panes(kids) { HoldsParent(kids, s, h, x); } else { HoldsParent(next, top, h, x); } }
  }

  lemma {:induction false} HoldsKids(f: Forest, top: Pane?, h: map<Pane, Cell>, x: Pane)
    requires Holds(f, top, h) && Kinds(f) && x in Panes(f) && x.isSplitter
    ensures x in h && h[x].widgets == Roots(KidsOf(f, x)) && multiset(h[x].child) == multiset(h[x].widgets)
    ensures Holds(KidsOf(f, x), x, h)
    ensures SubtreeOf(f, x) == Split(x, KidsOf(f, x), Nil)
  {
    match f
    case Term(t, next) => HoldsKids(next, top, h, x);
    case Split(s, kids, next) =>
      if s != x { if x in Panes(kids) { HoldsKids(kids, s, h, x); } else { HoldsKids(next, top, h, x); } }
  }

  lemma HoldsCat(a: Forest, b: Forest, top: Pane?, h: map<Pane, Cell>)
    ensures Holds(Cat(a, b), top, h) <==> Holds(a, top, h) && Holds(b, top, h)
  {
  }

  /** The panes that replacing the subtree of `x` has no business with. */
  ghost function Others(f: Forest, top: Pane?, x: Pane): set<Pane> {
    set p | p in Panes(f) && p !in Panes(SubtreeOf(f, x)) && p != ParentOf(f, top, x)
  }

  /** The container of `x` now shows `ys` in the place of `x`. */
  ghost predicate Replaced(p: Pane?, h: map<Pane, Cell>, h': map<Pane, Cell>, x: Pane, ys: Forest) {
    && p != null && p in h && p in h'
    && h'[p].parentSplit == h[p].parentSplit
    && h'[p].widgets == ReplaceIn(h[p].widgets, x, Roots(ys))
    && multiset(h'[p].child) == multiset(h'[p].widgets)
  }

  /** Replacing the subtree of `x` by `ys` needs work at the container of `x`
      and inside `ys`, and nowhere else. */
  lemma {:induction false} HoldsSubst(f: Forest, top: Pane?, h: map<Pane, Cell>, h': map<Pane, Cell>, x: Pane, ys: Forest)
    requires Holds(f, top, h) && Distinct(f) && x in Panes(f) && (top == null || top !in Panes(f))
    requires Holds(ys, ParentOf(f, top, x), h')
    requires Unchanged(Others(f, top, x), h, h')
    requires x in Roots(f) || Replaced(ParentOf(f, top, x), h, h', x, ys)
    ensures Holds(Subst(f, x, ys), top, h')
  {
    match f
    case Term(t, next) =>
      if t == x { HoldsSubstHere(f, top, h, h', x, ys); }
      else {
        HoldsSubstNext(f, top, h, h', x, ys);
        HoldsSubst(next, top, h, h', x, ys);
      }
    case Split(s, kids, next) =>
      if s == x { HoldsSubstHere(f, top, h, h', x, ys); }
      else if x in Panes(kids) {
        HoldsSubstBelow(f, top, h, h', x, ys);
        HoldsSubst(kids, s, h, h', x, ys);
      } else {
        HoldsSubstNext(f, top, h, h', x, ys);
        HoldsSubst(next, top, h, h', x, ys);
      }
  }

  lemma HoldsSubstHere(f: Forest, top: Pane?, h: map<Pane, Cell>, h': map<Pane, Cell>, x: Pane, ys: Forest)
    requires f != Nil && Holds(f, top, h) && Distinct(f) && (top == null || top !in Panes(f))
    requires x == Roots(f)[0] && Holds(ys, top, h') && Unchanged(Others(f, top, x), h, h')
    ensures Holds(Subst(f, x, ys), top, h')
  {
    var next := f.next;
    assert Panes(Nil) == {};
    assert f.Term? ==> x == f.t;
    assert f.Split? ==> x == f.s;
    assert Panes(next) <= Others(f, top, x);
    SameHolds(next, top, h, h');
    HoldsCat(ys, next, top, h');
  }

  lemma HoldsSubstNext(f: Forest, top: Pane?, h: map<Pane, Cell>, h': map<Pane, Cell>, x: Pane, ys: Forest)
    requires f != Nil && Holds(f, top, h) && Distinct(f) && x in Panes(f.next) && (top == null || top !in Panes(f))
    requires Unchanged(Others(f, top, x), h, h')
    requires x in Roots(f) || Replaced(ParentOf(f, top, x), h, h', x, ys)
    ensures Unchanged(Others(f.next, top, x), h, h')
    ensures x in Roots(f.next) || Replaced(ParentOf(f.next, top, x), h, h', x, ys)
    ensures f.Term? ==> f.t in h' && h'[f.t] == h[f.t]
    ensures f.Split? ==> f.s in h' && h'[f.s] == h[f.s] && Holds(f.kids, f.s, h')
  {
    var next := f.next;
    RootsArePanes(next);
    SubtreeFacts(next, x);
    ParentFacts(next, top, x);
    assert Others(next, top, x) <= Others(f, top, x);
    if f.Split? {
      assert {f.s} + Panes(f.kids) <= Others(f, top, x);
      SameHolds(f.kids, f.s, h, h');
    } else {
      assert f.t in Others(f, top, x);
    }
  }

  lemma OthersBelow(f: Forest, top: Pane?, x: Pane)
    requires f.Split? && Distinct(f) && x in Panes(f.kids) && (top == null || top !in Panes(f))
    ensures Others(f.kids, f.s, x) <= Others(f, top, x)
    ensures Panes(f.next) <= Others(f, top, x)
    ensures x !in Roots(f.kids) ==> f.s in Others(f, top, x)
    ensures x !in Roots(f) && f.s in Panes(f) && (x in Roots(f.kids) ==> ParentOf(f, top, x) == f.s)
    ensures ParentOf(f, top, x) == ParentOf(f.kids, f.s, x)
  {
    RootsArePanes(f.next);
    SubtreeFacts(f.kids, x);
    ParentFacts(f.kids, f.s, x);
  }

  lemma HoldsSubstBelow(f: Forest, top: Pane?, h: map<Pane, Cell>, h': map<Pane, Cell>, x: Pane, ys: Forest)
    requires f.Split? && Holds(f, top, h) && Distinct(f) && x in Panes(f.kids) && (top == null || top !in Panes(f))
    requires Unchanged(Others(f, top, x), h, h')
    requires x in Roots(f) || Replaced(ParentOf(f, top, x), h, h', x, ys)
    ensures Unchanged(Others(f.kids, f.s, x), h, h')
    ensures Holds(f.next, top, h')
    ensures x in Roots(f.kids) || Replaced(ParentOf(f.kids, f.s, x), h, h', x, ys)
    ensures f.s in h' && h'[f.s].parentSplit == top && h'[f.s].widgets == Roots(Subst(f.kids, x, ys))
    ensures multiset(h'[f.s].child) == multiset(h'[f.s].widgets)
  {
    OthersBelow(f, top, x);
    SubstRoots(f.kids, x, ys);
    SameHolds(f.next, top, h, h');
  }

  /** The cells after `base` leaves splitter `s`. */
  function Left(h: map<Pane, Cell>, s: Pane, base: Pane): map<Pane, Cell>
    requires s in h && base in h
  {
    h[s := Cell(h[s].parentSplit, ReplaceIn(h[s].child, base, []), ReplaceIn(h[s].widgets, base, []))]
     [base := h[base].(parentSplit := null)]
  }

  /** GuiSplitter::addBaseWidget. */
  method AddBaseWidget(s: Pane, ind: nat, base: Pane)
    requires s != base && ind <= |s.widgets|
    modifies s`child, s`widgets, base`parentSplit
    ensures s.child == old(s.child) + [base] && base.parentSplit == s
    ensures s.widgets == old(s.widgets)[..ind] + [base] + old(s.widgets)[ind..]
  {
    s.child := s.child + [base];
    base.parentSplit := s;
    s.widgets := s.widgets[..ind] + [base] + s.widgets[ind..];
  }

  /** GuiSplitter::removeBaseWidget. */
  method RemoveBaseWidget(s: Pane, base: Pane, ghost all: set<Pane>)
    requires s != base && s in all && base in all
    modifies s`child, s`widgets, base`parentSplit
    ensures Heap(all) == Left(old(Heap(all)), s, base)
  {
    s.child := ReplaceIn(s.child, base, []);
    base.parentSplit := null;
    s.widgets := ReplaceIn(s.widgets, base, []);
  }

  method IndexOf(ws: seq<Pane>, x: Pane) returns (i: nat)
    requires x in ws
    ensures i < |ws| && ws[i] == x && x !in ws[..i] && i == IndexIn(ws, x)
  {
    i := 0;
    assert ws[0..] == ws;
    while ws[i] != x
      invariant i < |ws| && x in ws[i..] && x !in ws[..i] && IndexIn(ws, x) == i + IndexIn(ws[i..], x)
      decreases |ws| - i
    {
      i := i + 1;
    }
  }

  /** Taking pane `x` out of its splitter. */
  lemma TakenOut(f: Forest, h: map<Pane, Cell>, s: Pane, x: Pane)
    requires WellFormed(f) && Holds(f, null, h) && x in Panes(f) && ParentOf(f, null, x) == s
    requires s in h && x in h
    ensures Holds(Subst(f, x, Nil), null, Left(h, s, x))
  {
    var h' := Left(h, s, x);
    ParentFacts(f, null, x);
    ContainerCell(f, h, s, x);
    ReplacedByTaking(h, s, x);
    assert Unchanged(Others(f, null, x), h, h') by { SubtreeFacts(f, x); }
    HoldsSubst(f, null, h, h', x, Nil);
  }

  lemma ContainerCell(f: Forest, h: map<Pane, Cell>, s: Pane, x: Pane)
    requires WellFormed(f) && Holds(f, null, h) && x in Roots(KidsOf(f, s))
    ensures s in h && x in h[s].widgets && multiset(h[s].child) == multiset(h[s].widgets)
  {
    KidsAreSplit(f, s, x);
    HoldsKids(f, null, h, s);
  }

  lemma ReplacedByTaking(h: map<Pane, Cell>, s: Pane, x: Pane)
    requires s in h && x in h && s != x
    requires x in h[s].widgets && multiset(h[s].child) == multiset(h[s].widgets)
    ensures Replaced(s, h, Left(h, s, x), x, Nil)
  {
    assert x in multiset(h[s].child);
    ReplaceMultiset(h[s].child, x, []);
    ReplaceMultiset(h[s].widgets, x, []);
  }

  /** What is left in the splitter then. */
  lemma LeftBehind(f: Forest, h': map<Pane, Cell>, s: Pane, x: Pane)
    requires WellFormed(f) && x in Panes(f) && ParentOf(f, null, x) == s
    requires Holds(Subst(f, x, Nil), null, h')
    ensures
      var g := Subst(f, x, Nil);
      && Distinct(g) && Kinds(g) && s in Panes(g) && s.isSplitter && Roots(g) == Roots(f) && s in h'
      && h'[s].widgets == Roots(KidsOf(g, s)) && multiset(h'[s].child) == multiset(h'[s].widgets)
      && h'[s].parentSplit == ParentOf(g, null, s)
  {
    var g := Subst(f, x, Nil);
    ParentFacts(f, null, x);
    KidsAreSplit(f, s, x);
    SubstPanes(f, x, Nil);
    SubstDistinct(f, x, Nil);
    SubstKindsKept(f, x, Nil);
    SubstRoots(f, x, Nil);
    HoldsKids(g, null, h', s);
    HoldsParent(g, null, h', s);
  }

  lemma {:induction false} KidsAreSplit(f: Forest, s: Pane, x: Pane)
    requires Kinds(f) && x in Roots(KidsOf(f, s))
    ensures s.isSplitter && s in Panes(f)
  {
    match f
    case Term(_, next) => KidsAreSplit(next, s, x);
    case Split(s', kids, next) =>
      if s' != s { if s in Panes(kids) { KidsAreSplit(kids, s, x); } else { KidsAreSplit(next, s, x); } }
  }

  /** The cells after `p` shows `b` where it showed splitter `s`. */
  function Given(h: map<Pane, Cell>, s: Pane, b: Pane, p: Pane): map<Pane, Cell>
    requires s in h && b in h && p in h
  {
    h[p := Cell(h[p].parentSplit, ReplaceIn(h[p].child, s, []) + [b], ReplaceIn(h[p].widgets, s, [b]))]
     [b := h[b].(parentSplit := p)]
     [s := h[s].(parentSplit := null)]
  }

  /** The cells after splitter `s`, left with `b` only, gives way to it in `p`. */
  function GivenWay(h: map<Pane, Cell>, s: Pane, b: Pane, p: Pane?): map<Pane, Cell>
    requires s in h && b in h && (p == null || p in h)
  {
    if p == null then Left(h, s, b) else Given(Left(h, s, b), s, b, p)
  }

  /** The only pane left in splitter `s` takes its place. */
  lemma Collapsed(g: Forest, h: map<Pane, Cell>, s: Pane, b: Pane, p: Pane?)
    requires Distinct(g) && Kinds(g) && Holds(g, null, h) && s in Panes(g) && s.isSplitter
    requires Roots(KidsOf(g, s)) == [b] && b in h && s in h && p == ParentOf(g, null, s) && (p == null || p in h)
    ensures Holds(Subst(g, s, KidsOf(g, s)), null, GivenWay(h, s, b, p))
  {
    hide Holds, Panes, Distinct, Kinds, Subst, SubtreeOf, ParentOf, ReplaceIn;
    var h' := GivenWay(h, s, b, p);
    var k := KidsOf(g, s);
    HoldsKids(g, null, h, s);
    RootsArePanes(k);
    SplitterParts(g, s, p, b);
    Retopped(k, s, p, h, h', b);
    if p != null {
      ContainerOf(g, h, p, s);
      ReplacedByGiving(h, s, b, p, k);
    }
    HoldsSubst(g, null, h, h', s, k);
  }

  lemma ReplacedByGiving(h: map<Pane, Cell>, s: Pane, b: Pane, p: Pane, k: Forest)
    requires s in h && b in h && p in h && p != s && p != b && b != s && Roots(k) == [b]
    requires s in h[p].widgets && s in h[p].child && multiset(h[p].child) == multiset(h[p].widgets)
    ensures Replaced(p, h, GivenWay(h, s, b, p), s, k)
  {
    ReplaceMultiset(h[p].child, s, []);
    ReplaceMultiset(h[p].widgets, s, [b]);
  }

  lemma SplitterParts(g: Forest, s: Pane, p: Pane?, b: Pane)
    requires Distinct(g) && s in Panes(g) && b in Panes(KidsOf(g, s)) && p == ParentOf(g, null, s)
    requires SubtreeOf(g, s) == Split(s, KidsOf(g, s), Nil)
    ensures Distinct(KidsOf(g, s)) && s !in Panes(KidsOf(g, s)) && b != s
    ensures p == null <==> s in Roots(g)
    ensures p != null ==> p !in Panes(KidsOf(g, s)) && p != s && s in Roots(KidsOf(g, p))
    ensures s !in Others(g, null, s) && b !in Others(g, null, s) && (p != null ==> p !in Others(g, null, s))
  {
    SubtreeFacts(g, s);
    ParentFacts(g, null, s);
    assert Panes(Nil) == {};
    assert Panes(SubtreeOf(g, s)) == {s} + Panes(KidsOf(g, s));
  }

  lemma ContainerOf(g: Forest, h: map<Pane, Cell>, p: Pane, s: Pane)
    requires Kinds(g) && Holds(g, null, h) && s in Roots(KidsOf(g, p))
    ensures p in h && s in h[p].widgets && s in h[p].child && multiset(h[p].child) == multiset(h[p].widgets)
  {
    KidsAreSplit(g, p, s);
    HoldsKids(g, null, h, p);
    assert s in multiset(h[p].widgets);
  }

  lemma Retopped(k: Forest, top: Pane?, top': Pane?, h: map<Pane, Cell>, h': map<Pane, Cell>, b: Pane)
    requires Distinct(k) && Holds(k, top, h) && Roots(k) == [b] && b in h && b in h'
    requires h'[b] == h[b].(parentSplit := top')
    requires Unchanged(Panes(k) - {b}, h, h')
    ensures Holds(k, top', h')
  {
    match k
    case Term(t, next) => assert Roots(k)[0] == t && next == Nil;
    case Split(s, kids, next) =>
      assert Roots(k)[0] == s && next == Nil;
      assert Panes(kids) <= Panes(k) - {b};
      SameHolds(kids, s, h, h');
  }

  /** When two or more panes are left in its splitter, `x` alone is gone. */
  lemma OnlyOneGone(f: Forest, s: Pane, x: Pane)
    requires WellFormed(f) && x in Panes(f) && !x.isSplitter && ParentOf(f, null, x) == s
    requires |Roots(KidsOf(Subst(f, x, Nil), s))| != 1
    ensures Subst(f, x, Nil) == Remove(f, x) && Panes(Remove(f, x)) == Panes(f) - {x}
  {
    RemoveIsTwoSteps(f, null, x);
    ParentFacts(f, null, x);
    SubstPanes(f, x, Nil);
    TerminalSubtree(f, x);
  }

  lemma {:induction false} TerminalSubtree(f: Forest, x: Pane)
    requires Distinct(f) && Kinds(f) && x in Panes(f) && !x.isSplitter
    ensures SubtreeOf(f, x) == Term(x, Nil) && Panes(SubtreeOf(f, x)) == {x}
  {
    assert Panes(Nil) == {};
    match f
    case Term(t, next) => if t != x { TerminalSubtree(next, x); }
    case Split(s, kids, next) =>
      if x in Panes(kids) { TerminalSubtree(kids, x); } else { TerminalSubtree(next, x); }
  }

  /** When one pane is left, the splitter is gone as well. */
  lemma SplitterGone(f: Forest, s: Pane, x: Pane, b: Pane)
    requires WellFormed(f) && x in Panes(f) && !x.isSplitter && ParentOf(f, null, x) == s
    requires var g := Subst(f, x, Nil);
      && Distinct(g) && s in Panes(g) && Roots(KidsOf(g, s)) == [b] && Roots(g) == Roots(f)
      && SubtreeOf(g, s) == Split(s, KidsOf(g, s), Nil)
    ensures var g := Subst(f, x, Nil);
      && Subst(g, s, KidsOf(g, s)) == Remove(f, x)
      && Panes(Remove(f, x)) == Panes(f) - {x, s}
      && Roots(Remove(f, x)) == ReplaceIn(Roots(f), s, [b])
  {
    var g := Subst(f, x, Nil);
    RemoveIsTwoSteps(f, null, x);
    ParentFacts(f, null, x);
    SubstPanes(f, x, Nil);
    TerminalSubtree(f, x);
    SubstRoots(g, s, KidsOf(g, s));
    GonePanes(g, s);
  }

  lemma GonePanes(g: Forest, s: Pane)
    requires Distinct(g) && s in Panes(g) && SubtreeOf(g, s) == Split(s, KidsOf(g, s), Nil)
    ensures Panes(Subst(g, s, KidsOf(g, s))) == Panes(g) - {s}
  {
    SubstPanes(g, s, KidsOf(g, s));
    SubtreeFacts(g, s);
    assert Panes(Nil) == {};
    assert Panes(SubtreeOf(g, s)) == {s} + Panes(KidsOf(g, s));
    assert s !in Panes(KidsOf(g, s));
  }

  lemma InsertBefore(ws: seq<Pane>, i: nat, b: Pane)
    requires i < |ws| && ws[i] !in ws[..i] && b != ws[i]
    ensures ReplaceIn(ws[..i] + [b] + ws[i..], ws[i], []) == ReplaceIn(ws, ws[i], [b])
  {
    hide ReplaceIn;
    ReplaceAt(ws, i, [b]);
    var v := ws[..i] + [b] + ws[i..];
    assert v[i + 1] == ws[i] && v[..i + 1] == ws[..i] + [b];
    assert v[i + 2..] == ws[i + 1..];
    assert v[..i + 1] + [] + v[i + 2..] == ws[..i] + [b] + ws[i + 1..];
    ReplaceAt(v, i + 1, []);
  }

  /** The splitter's parent takes `b` in its place; the closed splitter is
      treated as gone from its parent's widgets. */
  method GiveWay(p: Pane, s: Pane, b: Pane, ghost all: set<Pane>)
    requires p != s && p != b && s != b && {p, s, b} <= all && s in p.widgets && s.parentSplit == p
    modifies p`child, p`widgets, b`parentSplit, s`parentSplit
    ensures Heap(all) == Given(old(Heap(all)), s, b, p)
  {
    p.child := ReplaceIn(p.child, s, []);
    var ind := IndexOf(p.widgets, s);
    InsertBefore(p.widgets, ind, b);
    AddBaseWidget(p, ind, b);
    s.parentSplit := null;
    p.widgets := ReplaceIn(p.widgets, s, []);
  }

  /** Splitter `s` lets go of `b`, and its parent, if any, takes `b` instead. */
  method HandOver(s: Pane, b: Pane, p: Pane?, ghost all: set<Pane>)
    requires s != b && {s, b} <= all && s.parentSplit == p
    requires p != null ==> p in all && p !in {s, b} && s in p.widgets
    modifies s, b, p
    ensures Heap(all) == GivenWay(old(Heap(all)), s, b, p)
  {
    RemoveBaseWidget(s, b, all);
    if p != null {
      GiveWay(p, s, b, all);
    }
  }

  /** What taking terminal `x` out of its splitter needs and gives. */
  lemma TakeOutFacts(f: Forest, h: map<Pane, Cell>, s: Pane, x: Pane)
    requires WellFormed(f) && Holds(f, null, h) && x in Panes(f) && !x.isSplitter && x in h && h[x].parentSplit == s
    ensures s in h && s != x && h[x].child == [] && ParentOf(f, null, x) == s
    ensures Holds(Subst(f, x, Nil), null, Left(h, s, x))
    ensures
      var g := Subst(f, x, Nil);
      && Distinct(g) && Kinds(g) && Roots(g) == Roots(f) && Panes(g) == Panes(f) - {x}
      && s in Panes(g) && s.isSplitter
  {
    HoldsParent(f, null, h, x);
    ParentFacts(f, null, x);
    HoldsParent(f, null, h, s);
    TerminalCell(f, null, h, x);
    TerminalSubtree(f, x);
    TakenOut(f, h, s, x);
    LeftBehind(f, Left(h, s, x), s, x);
    SubstPanes(f, x, Nil);
  }

  /** What collapsing splitter `s` to its only pane `b` needs and gives. */
  lemma CollapseFacts(g: Forest, h: map<Pane, Cell>, s: Pane, b: Pane)
    requires Distinct(g) && Kinds(g) && Holds(g, null, h) && s in Panes(g) && s.isSplitter
    requires s in h && h[s].child == [b]
    ensures Roots(KidsOf(g, s)) == [b] && h[s].widgets == [b] && b in h && b != s
    ensures
      var p := h[s].parentSplit;
      && (p == null <==> s in Roots(g))
      && (p != null ==> p in h && p != s && p != b && s in h[p].widgets)
      && Holds(Subst(g, s, KidsOf(g, s)), null, GivenWay(h, s, b, p))
      && s in GivenWay(h, s, b, p) && GivenWay(h, s, b, p)[s].child == []
    ensures
      var f := Subst(g, s, KidsOf(g, s));
      && Distinct(f) && Kinds(f) && Panes(f) == Panes(g) - {s}
      && Roots(f) == if s in Roots(g) then ReplaceIn(Roots(g), s, [b]) else Roots(g)
  {
    HoldsKids(g, null, h, s);
    HoldsParent(g, null, h, s);
    var p, k := h[s].parentSplit, KidsOf(g, s);
    OnlyMember(h[s].child, h[s].widgets, b);
    RootsArePanes(k);
    SplitterParts(g, s, p, b);
    KidCell(g, h, s, b);
    if p != null { ContainerOf(g, h, p, s); }
    Collapsed(g, h, s, b, p);
    SubstRoots(g, s, k);
    GonePanes(g, s);
    CollapseShape(g, s);
  }

  lemma OnlyMember(child: seq<Pane>, widgets: seq<Pane>, b: Pane)
    requires child == [b] && multiset(child) == multiset(widgets)
    ensures widgets == [b]
  {
    assert |multiset(widgets)| == 1;
    assert widgets[0] in multiset(widgets);
  }

  lemma KidCell(g: Forest, h: map<Pane, Cell>, s: Pane, b: Pane)
    requires Kinds(g) && Holds(g, null, h) && s in Panes(g) && s.isSplitter && b in Panes(KidsOf(g, s))
    ensures b in h
  {
    HoldsKids(g, null, h, s);
    HoldsParent(KidsOf(g, s), s, h, b);
  }

  lemma CollapseShape(g: Forest, s: Pane)
    requires Distinct(g) && Kinds(g) && s in Panes(g) && SubtreeOf(g, s) == Split(s, KidsOf(g, s), Nil)
    ensures Distinct(Subst(g, s, KidsOf(g, s))) && Kinds(Subst(g, s, KidsOf(g, s)))
  {
    SubtreeFacts(g, s);
    assert Panes(SubtreeOf(g, s)) >= Panes(KidsOf(g, s));
    SubstDistinct(g, s, KidsOf(g, s));
    SubstKindsKept(g, s, KidsOf(g, s));
  }

  lemma {:induction false} SubstKindsKept(f: Forest, x: Pane, ys: Forest)
    requires Kinds(f) && Kinds(ys)
    ensures Kinds(Subst(f, x, ys))
  {
    match f
    case Nil =>
    case Term(_, next) => CatWellFormed(ys, next); SubstKindsKept(next, x, ys);
    case Split(_, kids, next) => CatWellFormed(ys, next); SubstKindsKept(kids, x, ys); SubstKindsKept(next, x, ys);
  }

  /** The cells after `added` joined splitter `p` beside `term`. */
  function JoinedBeside(h: map<Pane, Cell>, p: Pane, term: Pane, added: Pane, after: bool): map<Pane, Cell>
    requires p in h && added in h
  {
    var pair := Roots(Beside(term, added, after));
    h[p := Cell(h[p].parentSplit, h[p].child + [added], ReplaceIn(h[p].widgets, term, pair))]
     [added := h[added].(parentSplit := p)]
  }

  /** The cells after `term` and `added` moved into the new splitter `sp`, which
      took the place of `term`. */
  function Nested(h: map<Pane, Cell>, p: Pane?, sp: Pane, term: Pane, added: Pane, after: bool): map<Pane, Cell>
    requires (p == null || p in h) && term in h && added in h
  {
    var pair := Roots(Beside(term, added, after));
    var h' := h[sp := Cell(p, pair, pair)]
               [term := h[term].(parentSplit := sp)]
               [added := h[added].(parentSplit := sp)];
    if p == null then h'
    else h'[p := Cell(h[p].parentSplit, ReplaceIn(h[p].child + [sp], term, []), ReplaceIn(h[p].widgets, term, [sp]))]
  }

  /** Both new layouts are well formed and show the new terminal right beside
      the old one. */
  lemma SplitShapes(f: Forest, term: Pane, ys: Forest, sp: Pane, added: Pane, after: bool)
    requires WellFormed(f) && term in Panes(f) && !term.isSplitter && added !in Panes(f) && !added.isSplitter
    requires ys == Beside(term, added, after)
             || (ys == Split(sp, Beside(term, added, after), Nil) && sp !in Panes(f) && sp != added && sp.isSplitter)
    ensures WellFormed(Subst(f, term, ys)) && Panes(Subst(f, term, ys)) == Panes(f) + Panes(ys)
    ensures Roots(Subst(f, term, ys)) == ReplaceIn(Roots(f), term, Roots(ys))
    ensures Leaves(Subst(f, term, ys)) ==
            LeavesBefore(f, term) + (if after then [term, added] else [added, term]) + LeavesAfter(f, term)
    ensures Leaves(f) == LeavesBefore(f, term) + [term] + LeavesAfter(f, term)
  {
    BesideWellFormed(term, added, after, sp);
    TerminalSubtree(f, term);
    SubstWellFormed(f, term, ys);
    SubstPanes(f, term, ys);
    SubstRoots(f, term, ys);
    SubstLeaves(f, term, ys);
    LeavesAround(f, term);
    assert Leaves(Nil) == [];
    assert Leaves(Term(term, Nil)) == [term];
  }

  lemma BesideWellFormed(term: Pane, added: Pane, after: bool, sp: Pane)
    requires term != added && !term.isSplitter && !added.isSplitter
    ensures WellFormed(Beside(term, added, after))
    ensures Panes(Beside(term, added, after)) == {term, added}
    ensures Leaves(Beside(term, added, after)) == if after then [term, added] else [added, term]
    ensures Roots(Beside(term, added, after)) == Leaves(Beside(term, added, after))
    ensures
      var ys := Split(sp, Beside(term, added, after), Nil);
      && (sp.isSplitter && sp !in {term, added} ==> WellFormed(ys))
      && Leaves(ys) == Leaves(Beside(term, added, after)) && Panes(ys) == {sp, term, added} && Roots(ys) == [sp]
  {
    BesideFacts(term, added, after);
    assert Panes(Nil) == {} && Roots(Nil) == [] && Leaves(Nil) == [];
    assert WellFormed(Term(term, Nil)) && WellFormed(Term(added, Nil));
  }

  /** Where a terminal stands before it is split. */
  lemma TerminalPlace(f: Forest, h: map<Pane, Cell>, term: Pane)
    requires WellFormed(f) && Holds(f, null, h) && term in Panes(f) && !term.isSplitter && term in h
    ensures
      var p := h[term].parentSplit;
      && p == ParentOf(f, null, term)
      && (p == null <==> term in Roots(f))
      && (p != null ==> p in h && p in Panes(f) && p != term && term in h[p].widgets && term in h[p].child
                        && multiset(h[p].child) == multiset(h[p].widgets))
    ensures h[term].child == [] && term in Panes(SubtreeOf(f, term))
  {
    HoldsParent(f, null, h, term);
    ParentFacts(f, null, term);
    TerminalCell(f, null, h, term);
    SubtreeFacts(f, term);
    if h[term].parentSplit != null { ContainerOf(f, h, h[term].parentSplit, term); }
  }

  /** The split inside a splitter of the same orientation. */
  lemma JoinFacts(f: Forest, h: map<Pane, Cell>, p: Pane, term: Pane, added: Pane, after: bool)
    requires WellFormed(f) && Holds(f, null, h) && term in Panes(f) && !term.isSplitter
    requires term in h && h[term].parentSplit == p && added !in Panes(f) && added in h && h[added].child == []
    ensures p in h && p in Panes(f) && p != added && term in h[p].widgets && term !in Roots(f)
    ensures Holds(Subst(f, term, Beside(term, added, after)), null, JoinedBeside(h, p, term, added, after))
  {
    hide Holds, Panes, Distinct, Bushy, Kinds, ParentOf, SubtreeOf, Subst;
    TerminalPlace(f, h, term);
    var h' := JoinedBeside(h, p, term, added, after);
    JoinReplaced(h, p, term, added, after);
    assert Unchanged(Others(f, null, term), h, h');
    BesideHolds(term, added, after, p, h');
    HoldsSubst(f, null, h, h', term, Beside(term, added, after));
  }

  lemma JoinReplaced(h: map<Pane, Cell>, p: Pane, term: Pane, added: Pane, after: bool)
    requires p in h && added in h && p != added && term in h[p].widgets && multiset(h[p].child) == multiset(h[p].widgets)
    ensures Replaced(p, h, JoinedBeside(h, p, term, added, after), term, Beside(term, added, after))
  {
    BesideFacts(term, added, after);
    ReplaceMultiset(h[p].widgets, term, Roots(Beside(term, added, after)));
  }

  lemma BesideHolds(term: Pane, added: Pane, after: bool, p: Pane?, h: map<Pane, Cell>)
    requires term in h && added in h && h[term].child == [] && h[added].child == []
    requires h[term].parentSplit == p && h[added].parentSplit == p
    ensures Holds(Beside(term, added, after), p, h)
  {
    assert Holds(Nil, p, h);
    assert Holds(Term(term, Nil), p, h) && Holds(Term(added, Nil), p, h);
  }

  /** The split that makes a new splitter. */
  lemma NestFacts(f: Forest, h: map<Pane, Cell>, sp: Pane, term: Pane, added: Pane, after: bool)
    requires WellFormed(f) && Holds(f, null, h) && term in Panes(f) && !term.isSplitter && sp != added
    requires term in h && added !in Panes(f) && sp !in Panes(f) && added in h && h[added].child == []
    ensures
      var p := h[term].parentSplit;
      && (p == null <==> term in Roots(f))
      && (p != null ==> p in h && p in Panes(f) && p !in {sp, added, term} && term in h[p].widgets && term in h[p].child)
      && Holds(Subst(f, term, Split(sp, Beside(term, added, after), Nil)), null, Nested(h, p, sp, term, added, after))
  {
    hide Holds, Panes, Distinct, Bushy, Kinds, ParentOf, SubtreeOf, Subst;
    var p := h[term].parentSplit;
    TerminalPlace(f, h, term);
    if p != null { NestReplaced(h, p, sp, term, added, after); }
    var h' := Nested(h, p, sp, term, added, after);
    var ys := Split(sp, Beside(term, added, after), Nil);
    NestHolds(h', p, sp, term, added, after);
    assert Unchanged(Others(f, null, term), h, h');
    HoldsSubst(f, null, h, h', term, ys);
  }

  lemma NestHolds(h: map<Pane, Cell>, p: Pane?, sp: Pane, term: Pane, added: Pane, after: bool)
    requires term in h && added in h && sp in h && h[term].child == [] && h[added].child == []
    requires h[term].parentSplit == sp && h[added].parentSplit == sp
    requires h[sp] == Cell(p, Roots(Beside(term, added, after)), Roots(Beside(term, added, after)))
    ensures Holds(Split(sp, Beside(term, added, after), Nil), p, h)
  {
    BesideHolds(term, added, after, sp, h);
    assert Holds(Nil, p, h);
  }

  lemma NestReplaced(h: map<Pane, Cell>, p: Pane, sp: Pane, term: Pane, added: Pane, after: bool)
    requires p in h && term in h && added in h && p !in {sp, term, added}
    requires term in h[p].widgets && term in h[p].child && multiset(h[p].child) == multiset(h[p].widgets)
    ensures Replaced(p, h, Nested(h, p, sp, term, added, after), term, Split(sp, Beside(term, added, after), Nil))
  {
    var ys := Split(sp, Beside(term, added, after), Nil);
    assert Roots(Nil) == [] && Roots(ys) == [sp];
    var c := h[p].child + [sp];
    ReplaceMultiset(c, term, []);
    ReplaceMultiset(h[p].widgets, term, [sp]);
    assert multiset(c) == multiset(h[p].child) + multiset{sp};
  }

  /** The new terminal joins splitter `p`, next to `term`. */
  method JoinBeside(p: Pane, term: Pane, added: Pane, after: bool, ghost all: set<Pane>)
    requires {p, term, added} <= all && p != added && term != added && term in p.widgets
    modifies p`child, p`widgets, added`parentSplit
    ensures Heap(all) == JoinedBeside(old(Heap(all)), p, term, added, after)
  {
    hide ReplaceIn, Beside, Roots;
    var ind := IndexOf(p.widgets, term);
    InsertBeside(p.widgets, ind, term, added, after);
    AddBaseWidget(p, if after then ind + 1 else ind, added);
  }

  lemma InsertBeside(ws: seq<Pane>, i: nat, term: Pane, added: Pane, after: bool)
    requires i < |ws| && ws[i] == term && term !in ws[..i]
    ensures
      var k := if after then i + 1 else i;
      ws[..k] + [added] + ws[k..] == ReplaceIn(ws, term, Roots(Beside(term, added, after)))
  {
    hide ReplaceIn, Beside, Roots;
    BesideFacts(term, added, after);
    ReplaceAt(ws, i, Roots(Beside(term, added, after)));
    AroundOne(ws[..i], term, ws[i + 1..], added);
    SplitAt(ws, i);
  }

  lemma SplitAt(ws: seq<Pane>, i: nat)
    requires i < |ws|
    ensures ws[..i + 1] == ws[..i] + [ws[i]] && ws[i..] == [ws[i]] + ws[i + 1..]
  {
  }

  lemma AroundOne(pre: seq<Pane>, term: Pane, post: seq<Pane>, added: Pane)
    ensures (pre + [term]) + [added] + post == pre + [term, added] + post
    ensures pre + [added] + ([term] + post) == pre + [added, term] + post
  {
  }

  /** A new splitter, at first empty, takes the place of `term` in `p`. */
  method NewSplitter(p: Pane?, term: Pane, orient: Orientation, ghost all: set<Pane>) returns (sp: Pane)
    requires term in all && (p != null ==> p in all && p != term && term in p.widgets)
    modifies p, term`parentSplit
    ensures fresh(sp) && sp.isSplitter && sp.orientation == orient && sp.child == [] && sp.widgets == []
    ensures sp.parentSplit == p && forall q :: q in all - {term} ==> q.parentSplit == old(q.parentSplit)
    ensures forall q :: q in all && q != p ==> q.child == old(q.child) && q.widgets == old(q.widgets)
    ensures p != null ==> p.child == ReplaceIn(old(p.child) + [sp], term, [])
                          && p.widgets == ReplaceIn(old(p.widgets), term, [sp])
  {
    sp := new Pane.Splitter(orient);
    if p != null {
      var ind := IndexOf(p.widgets, term);
      InsertBefore(p.widgets, ind, sp);
      AddBaseWidget(p, ind, sp);
      RemoveBaseWidget(p, term, {p, term});
    }
  }

  /** The new splitter takes in both terminals. */
  method FillSplitter(sp: Pane, term: Pane, added: Pane, after: bool)
    requires sp.child == [] && sp.widgets == [] && term != added && sp !in {term, added}
    modifies sp`child, sp`widgets, term`parentSplit, added`parentSplit
    ensures sp.child == Roots(Beside(term, added, after)) && sp.widgets == sp.child
    ensures term.parentSplit == sp && added.parentSplit == sp
  {
    BesideFacts(term, added, after);
    if after {
      AddBaseWidget(sp, 0, term);
      AddBaseWidget(sp, 1, added);
    } else {
      AddBaseWidget(sp, 0, added);
      AddBaseWidget(sp, 1, term);
    }
  }

  method NestBoth(p: Pane?, term: Pane, added: Pane, after: bool, orient: Orientation, ghost all: set<Pane>) returns (sp: Pane)
    requires {term, added} <= all && term != added && term.parentSplit == p
    requires p != null ==> p in all && p !in {term, added} && term in p.widgets
    modifies p, term, added
    ensures fresh(sp) && sp.isSplitter && sp.orientation == orient
    ensures Heap(all + {sp}) == Nested(old(Heap(all)), p, sp, term, added, after)
  {
    sp := NewSplitter(p, term, orient, all);
    FillSplitter(sp, term, added, after);
  }

  lemma NestPlace(f: Forest, h: map<Pane, Cell>, term: Pane)
    requires WellFormed(f) && Holds(f, null, h) && term in Panes(f) && !term.isSplitter && term in h
    ensures h[term].parentSplit == null <==> term in Roots(f)
    ensures
      var p := h[term].parentSplit;
      p != null ==> p in h && p in Panes(f) && p != term && term in h[p].widgets
  {
    TerminalPlace(f, h, term);
  }

  /** Everything the split inside a splitter needs and gives. */
  lemma JoinAll(f: Forest, h0: map<Pane, Cell>, h: map<Pane, Cell>, p: Pane, term: Pane, added: Pane, after: bool)
    requires WellFormed(f) && Holds(f, null, h0) && Unchanged(Panes(f), h0, h) && term in Panes(f) && !term.isSplitter
    requires term in h && h[term].parentSplit == p && added !in Panes(f) && !added.isSplitter && added in h && h[added].child == []
    ensures p in h && p in Panes(f) && p != added && term in h[p].widgets
    ensures
      var g := Subst(f, term, Beside(term, added, after));
      && WellFormed(g) && Roots(g) == Roots(f) && Panes(g) == Panes(f) + {added}
      && Holds(g, null, JoinedBeside(h, p, term, added, after))
  {
    hide Holds, Panes, Distinct, Bushy, Kinds, ParentOf, SubtreeOf, Subst, Roots, JoinedBeside, WellFormed, Beside;
    var ys := Beside(term, added, after);
    SameHolds(f, null, h0, h);
    JoinFacts(f, h, p, term, added, after);
    SplitShapes(f, term, ys, p, added, after);
    BesideFacts(term, added, after);
    ReplaceAbsent(Roots(f), term, Roots(ys));
  }

  /** Everything the split that makes a new splitter gives. */
  lemma NestAll(f: Forest, h0: map<Pane, Cell>, h: map<Pane, Cell>, sp: Pane, term: Pane, added: Pane, after: bool)
    requires WellFormed(f) && Holds(f, null, h0) && Unchanged(Panes(f), h0, h) && term in Panes(f) && !term.isSplitter
    requires sp != added && sp !in Panes(f) && sp.isSplitter
    requires term in h && added !in Panes(f) && !added.isSplitter && added in h && h[added].child == []
    ensures h[term].parentSplit == null || h[term].parentSplit in h
    ensures
      var g := Subst(f, term, Split(sp, Beside(term, added, after), Nil));
      && WellFormed(g) && Panes(g) == Panes(f) + {added, sp}
      && Roots(g) == (if h[term].parentSplit == null then ReplaceIn(Roots(f), term, [sp]) else Roots(f))
      && Holds(g, null, Nested(h, h[term].parentSplit, sp, term, added, after))
  {
    hide Holds, Panes, Distinct, Bushy, Kinds, ParentOf, SubtreeOf, Subst, Roots, Nested, WellFormed, Beside, ReplaceIn;
    var ys := Split(sp, Beside(term, added, after), Nil);
    SameHolds(f, null, h0, h);
    NestFacts(f, h, sp, term, added, after);
    SplitShapes(f, term, ys, sp, added, after);
    BesideWellFormed(term, added, after, sp);
    if h[term].parentSplit != null { ReplaceAbsent(Roots(f), term, [sp]); }
  }

  lemma InsertTopHolds(f: Forest, n: nat, t: Forest, h: map<Pane, Cell>, ht: map<Pane, Cell>, h': map<Pane, Cell>)
    requires n <= |Roots(f)| && Holds(f, null, h) && Holds(t, null, ht)
    requires Unchanged(Panes(f), h, h') && Unchanged(Panes(t), ht, h')
    ensures Holds(InsertTop(f, n, t), null, h')
  {
    hide Holds, Roots, Panes, TakeTop, DropTop, Cat;
    SameHolds(f, null, h, h');
    SameHolds(t, null, ht, h');
    TopFacts(f, n);
    HoldsCat(TakeTop(f, n), DropTop(f, n), null, h');
    HoldsCat(t, DropTop(f, n), null, h');
    HoldsCat(TakeTop(f, n), Cat(t, DropTop(f, n)), null, h');
  }

  lemma OneTab(x: Pane, h: map<Pane, Cell>)
    requires !x.isSplitter && x in h && h[x].child == [] && h[x].parentSplit == null
    ensures
      var t := Term(x, Nil);
      WellFormed(t) && Roots(t) == [x] && Panes(t) == {x} && Holds(t, null, h) && Leaves(t) == [x]
  {
  }

  /** QTabWidget::insertTab: an index out of range means the end. */
  function TabSlot(tabind: int, n: nat): (i: nat)
    ensures i <= n
  {
    if 0 <= tabind <= n then tabind else n
  }

  lemma SlotTabs(ws: seq<Pane>, tabind: int, w: Pane)
    ensures
      var i := TabSlot(tabind, |ws|);
      ws[..i] + [w] + ws[i..] == if 0 <= tabind < |ws| then ws[..tabind] + [w] + ws[tabind..] else ws + [w]
  {
  }

  /** What a drop of tab `dropped` on tab `dst` leaves: the index of `dst` is
      taken before either of them is gone from the tabs. */
  ghost function DroppedTabs(f: Forest, dst: Pane, dropped: Pane, t: Forest): Forest {
    InsertTop(Remove(Remove(f, dst), dropped), TabSlot(IndexIn(Roots(f), dst), |Roots(Remove(Remove(f, dst), dropped))|), t)
  }

  /** The terminals with `pair` in the place where a drop on `dst` puts it. */
  ghost function LeavesWithDrop(f: Forest, dst: Pane, dropped: Pane, pair: seq<Pane>): seq<Pane> {
    if dst in Roots(f) && dropped in Roots(f) then
      var g := Remove(Remove(f, dst), dropped);
      var i := TabSlot(IndexIn(Roots(f), dst), |Roots(g)|);
      Leaves(TakeTop(g, i)) + pair + Leaves(DropTop(g, i))
    else LeavesWith(Remove(f, dropped), dst, pair)
  }

  lemma BesideDrop(f: Forest, dst: Pane, dropped: Pane)
    requires !(dst in Roots(f) && dropped in Roots(f))
    ensures forall pair :: LeavesWithDrop(f, dst, dropped, pair) == LeavesWith(Remove(f, dropped), dst, pair)
  {
  }

  lemma DroppedTabsLeaves(f: Forest, dst: Pane, dropped: Pane, sp: Pane, after: bool)
    requires dst in Roots(f) && dropped in Roots(f)
    ensures Leaves(DroppedTabs(f, dst, dropped, Split(sp, Beside(dst, dropped, after), Nil))) ==
            LeavesWithDrop(f, dst, dropped, if after then [dst, dropped] else [dropped, dst])
  {
    hide Remove, Roots, InsertTop, TakeTop, DropTop, IndexIn, Beside, Leaves;
    var t, g := Split(sp, Beside(dst, dropped, after), Nil), Remove(Remove(f, dst), dropped);
    var i := TabSlot(IndexIn(Roots(f), dst), |Roots(g)|);
    BesideFacts(dst, dropped, after);
    LeavesOfOne(sp, Beside(dst, dropped, after));
    InsertTopLeaves(g, i, t);
  }

  lemma LeavesOfOne(sp: Pane, kids: Forest)
    ensures Leaves(Split(sp, kids, Nil)) == Leaves(kids)
  {
    assert Leaves(Nil) == [];
  }

  lemma InsertTopLeaves(f: Forest, n: nat, t: Forest)
    ensures Leaves(InsertTop(f, n, t)) == Leaves(TakeTop(f, n)) + Leaves(t) + Leaves(DropTop(f, n))
  {
    hide TakeTop, DropTop, Leaves;
    CatLeaves(t, DropTop(f, n));
    CatLeaves(TakeTop(f, n), Cat(t, DropTop(f, n)));
  }

  function TabsAfter(ws: seq<Pane>, dst: Pane, dropped: Pane, sp: Pane): seq<Pane> {
    var rest := ReplaceIn(ReplaceIn(ws, dst, []), dropped, []);
    var i := TabSlot(IndexIn(ws, dst), |rest|);
    rest[..i] + [sp] + rest[i..]
  }

  /** What taking both tabs out needs and gives. */
  lemma TwoTabs(f: Forest, h: map<Pane, Cell>, dst: Pane, dropped: Pane)
    requires WellFormed(f) && Holds(f, null, h) && dst in Roots(f) && dropped in Roots(f) && dst != dropped
    requires !dst.isSplitter && !dropped.isSplitter
    ensures dst in h && h[dst].child == [] && dropped in h && h[dropped].child == []
    ensures dropped in Roots(Remove(f, dst)) && Roots(Remove(f, dst)) == ReplaceIn(Roots(f), dst, [])
    ensures
      var g := Remove(Remove(f, dst), dropped);
      && Roots(g) == ReplaceIn(Roots(Remove(f, dst)), dropped, [])
      && multiset(Leaves(g)) + multiset{dst, dropped} == multiset(Leaves(f))
  {
    hide Holds, Panes, Roots, Distinct, Bushy, Kinds, Leaves, Remove, ReplaceIn, IndexIn;
    RootsArePanes(f);
    CloseTerminalFacts(f, h, dst);
    CloseTerminalFacts(f, h, dropped);
    RootRemoved(f, dst);
    IndexAfter(Roots(f), dst, dropped);
    RemoveFacts(f, dst);
    RootRemoved(Remove(f, dst), dropped);
    RootsArePanes(Remove(f, dst));
    TerminalGone(Remove(f, dst), dropped);
  }

  /** A new splitter with two terminals, as a piece of layout of its own. */
  lemma SplitTab(sp: Pane, term: Pane, added: Pane, after: bool, h: map<Pane, Cell>)
    requires sp.isSplitter && !term.isSplitter && !added.isSplitter && term != added && {sp, term, added} <= h.Keys
    requires h[sp].parentSplit == null && h[sp].widgets == h[sp].child == Roots(Beside(term, added, after))
    requires h[term].parentSplit == sp && h[added].parentSplit == sp && h[term].child == [] && h[added].child == []
    ensures
      var t := Split(sp, Beside(term, added, after), Nil);
      && WellFormed(t) && Roots(t) == [sp] && Panes(t) == {sp, term, added} && Holds(t, null, h)
      && multiset(Leaves(t)) == multiset{term, added}
  {
    hide Holds, Leaves, Roots, Panes, WellFormed, Beside;
    BesideWellFormed(term, added, after, sp);
    NestHolds(h, null, sp, term, added, after);
  }

  /** The splitter gets the place of `dst` if and only if the dropped tab came
      after it or it was the last tab; otherwise it comes out one place too far
      to the right. */
  lemma DropOnTabPlace(f: Forest, dst: Pane, dropped: Pane, t: Forest)
    requires WellFormed(f) && dst in Roots(f) && dropped in Roots(f) && dst != dropped
    requires |Roots(t)| == 1 && Roots(t)[0] !in Roots(f)
    ensures
      DroppedTabs(f, dst, dropped, t) == Subst(Remove(f, dropped), dst, t) <==>
      IndexIn(Roots(f), dropped) > IndexIn(Roots(f), dst) || IndexIn(Roots(f), dst) == |Roots(f)| - 1
  {
    hide Subst, Remove, InsertTop, Roots, Distinct, Bushy, Kinds, IndexIn, ReplaceIn;
    var i, d := IndexIn(Roots(f), dst), IndexIn(Roots(f), dropped);
    RemoveTwo(f, dst, dropped);
    RootRemoved(f, dropped);
    RootRemoved(f, dst);
    IndexAfter(Roots(f), dropped, dst);
    IndexAfter(Roots(f), dst, dropped);
    SubstIsInsert(Remove(f, dropped), dst, t);
    var g := Remove(Remove(f, dst), dropped);
    RootRemoved(Remove(f, dst), dropped);
    var k, k' := TabSlot(i, |Roots(g)|), if d < i then i - 1 else i;
    assert Subst(Remove(f, dropped), dst, t) == InsertTop(g, k', t);
    IndexesDiffer(Roots(f), dst, dropped);
    if InsertTop(g, k, t) == InsertTop(g, k', t) {
      RootsFrom(f, dst, dropped);
      SamePlace(g, t, k, k');
    }
  }

  /** Four tabs, of which the first is dropped on the third: the new splitter comes
      out behind the fourth. */
  lemma TabAstray(a: Pane, b: Pane, c: Pane, d: Pane, sp: Pane)
    requires a !in {b, c, d, sp} && b !in {c, d, sp} && c !in {d, sp} && d != sp
    ensures
      var f, t := Term(a, Term(b, Term(c, Term(d, Nil)))), Split(sp, Beside(c, a, true), Nil);
      DroppedTabs(f, c, a, t) == Term(b, Term(d, t)) && Subst(Remove(f, a), c, t) == Term(b, Split(sp, t.kids, Term(d, Nil)))
  {
    hide Beside;
    var f, g, last := Term(a, Term(b, Term(c, Term(d, Nil)))), Term(b, Term(d, Nil)), Term(d, Nil);
    var t := Split(sp, Beside(c, a, true), Nil);
    assert Roots(last) == [d] && Roots(Term(c, last)) == [c, d] && Roots(Term(b, Term(c, last))) == [b, c, d];
    assert Roots(g) == [b, d] && Roots(f) == [a, b, c, d];
    assert Remove(Term(b, Term(c, last)), c) == g && Remove(f, c) == Term(a, g) && Remove(Term(a, g), a) == g;
    assert IndexIn(Roots(f), c) == 2 by { assert Roots(f)[1..] == [b, c, d] && [b, c, d][1..] == [c, d]; }
    assert TakeTop(last, 1) == last && DropTop(last, 1) == Nil && TakeTop(g, 2) == g && DropTop(g, 2) == Nil;
    assert Cat(Nil, t) == t && Cat(t, Nil) == t && Cat(last, t) == Term(d, t) && Cat(g, t) == Term(b, Term(d, t));
    assert Cat(Nil, last) == last && Cat(t, last) == Split(sp, t.kids, last);
    assert Remove(f, a) == Term(b, Term(c, last)) && Subst(Term(c, last), c, t) == Cat(t, last);
  }

  lemma IndexesDiffer(ws: seq<Pane>, x: Pane, y: Pane)
    requires x in ws && y in ws && x != y
    ensures IndexIn(ws, x) != IndexIn(ws, y) && IndexIn(ws, x) < |ws| && IndexIn(ws, y) < |ws|
  {
  }

  lemma RootsFrom(f: Forest, x: Pane, y: Pane)
    requires WellFormed(f) && x in Roots(f) && y in Roots(f) && x != y
    ensures y in Roots(Remove(f, x)) && forall p :: p in Roots(Remove(Remove(f, x), y)) ==> p in Roots(f)
  {
    RootRemoved(f, x);
    IndexAfter(Roots(f), x, y);
    RootRemoved(Remove(f, x), y);
    RemovedMembers(Roots(f), x);
    RemovedMembers(Roots(Remove(f, x)), y);
  }

  lemma RemovedMembers(ws: seq<Pane>, x: Pane)
    ensures forall p :: p in ReplaceIn(ws, x, []) ==> p in ws
  {
  }

  /** Where a single widget was inserted can be told from the result. */
  lemma SamePlace(g: Forest, t: Forest, k: nat, k': nat)
    requires |Roots(t)| == 1 && Roots(t)[0] !in Roots(g) && k <= |Roots(g)| && k' <= |Roots(g)|
    requires InsertTop(g, k, t) == InsertTop(g, k', t)
    ensures k == k'
  {
    hide Roots, Cat, TakeTop, DropTop;
    TopFacts(g, k);
    TopFacts(g, k');
    CatFacts(t, DropTop(g, k));
    CatFacts(t, DropTop(g, k'));
    CatFacts(TakeTop(g, k), Cat(t, DropTop(g, k)));
    CatFacts(TakeTop(g, k'), Cat(t, DropTop(g, k')));
    var rs := Roots(InsertTop(g, k, t));
    assert rs == Roots(g)[..k] + Roots(t) + Roots(g)[k..];
    assert rs == Roots(g)[..k'] + Roots(t) + Roots(g)[k'..];
    assert rs[k] == Roots(t)[0] && rs[k'] == Roots(t)[0];
  }

  class MainWindow {
    /** The top-level widgets in tab order. */
    var tabs: seq<Pane>
    var terminalList: seq<Pane>
    ghost var forest: Forest
    ghost var panes: set<Pane>

    ghost predicate Valid()
      reads this, panes
    {
      && WellFormed(forest)
      && tabs == Roots(forest)
      && panes == Panes(forest)
      && Holds(forest, null, Heap(panes))
    }

    /** The list of open terminals has each terminal of the layout once. */
    ghost predicate Listed()
      reads this
    {
      multiset(terminalList) == multiset(Leaves(forest))
    }

    /** As `Valid`, while a splitter may be short of panes. */
    ghost predicate Loose()
      reads this, panes
    {
      && Distinct(forest) && Kinds(forest)
      && tabs == Roots(forest)
      && panes == Panes(forest)
      && Holds(forest, null, Heap(panes))
    }

    /** The window starts empty. */
    constructor ()
      ensures Valid() && Listed() && tabs == [] && panes == {} && forest == Nil
    {
      tabs, terminalList, forest, panes := [], [], Nil, {};
    }

    /** A pane that left the layout has let go of everything below it. */
    ghost predicate Emptied(all: set<Pane>)
      reads this`panes, all
    {
      forall p :: p in all && p !in panes ==> p.child == []
    }

    /** The layout is now `f`. */
    ghost method Settle(f: Forest, all: set<Pane>)
      requires Distinct(f) && Kinds(f) && tabs == Roots(f) && Panes(f) <= all && Holds(f, null, Heap(all))
      modifies this`forest, this`panes
      ensures Loose() && forest == f && panes == Panes(f)
    {
      hide Holds, Panes, Roots, Distinct, Kinds;
      forest, panes := f, Panes(f);
      SameHolds(f, null, Heap(all), Heap(panes));
    }

    /** The first half of removeSplitLayout: `term` leaves its splitter. */
    method TakeOut(s: Pane, term: Pane)
      requires Valid() && term in panes && !term.isSplitter && term.parentSplit == s
      modifies this`forest, this`panes, panes
      ensures Loose() && forest == Subst(old(forest), term, Nil) && tabs == Roots(old(forest))
      ensures term.parentSplit == null && term.child == []
      ensures panes == old(panes) - {term}
      ensures s in panes && s.isSplitter && ParentOf(old(forest), null, term) == s
    {
      hide Holds, Panes, Subst, Roots, Distinct, Bushy, Kinds, ParentOf, KidsOf, SubtreeOf, Remove;
      ghost var all := panes;
      TakeOutFacts(forest, Heap(all), s, term);
      RemoveBaseWidget(s, term, all);
      Settle(Subst(forest, term, Nil), all);
    }

    /** tabRemove and tabInsert at the same index. */
    method ReplaceTab(s: Pane, b: Pane)
      requires s in tabs
      modifies this`tabs
      ensures tabs == ReplaceIn(old(tabs), s, [b])
    {
      var i := IndexOf(tabs, s);
      ReplaceAt(tabs, i, [b]);
      tabs := tabs[..i] + [b] + tabs[i + 1..];
    }

    /** The second half: splitter `s`, left with `b` only, gives way to it. */
    method Collapse(s: Pane, b: Pane)
      requires Loose() && s in panes && s.isSplitter && s.child == [b]
      modifies this`tabs, this`forest, this`panes, panes
      ensures Loose() && forest == Subst(old(forest), s, KidsOf(old(forest), s))
      ensures panes == old(panes) - {s} && s.child == []
    {
      hide Holds, Panes, Subst, Roots, Distinct, Bushy, Kinds, ParentOf, KidsOf, SubtreeOf, Remove, GivenWay, ReplaceIn;
      ghost var all, h := panes, Heap(panes);
      CollapseFacts(forest, h, s, b);
      var p := s.parentSplit;
      HandOver(s, b, p, all);
      if p == null { ReplaceTab(s, b); }
      Settle(Subst(forest, s, KidsOf(forest, s)), all);
    }

    /** GuiSplitter::removeSplitLayout, called on the splitter that holds `term`. */
    method RemoveSplitLayout(s: Pane, term: Pane)
      requires Valid() && term in panes && !term.isSplitter && term.parentSplit == s
      modifies this`tabs, this`forest, this`panes, panes
      ensures Valid() && forest == Remove(old(forest), term) && panes <= old(panes)
      ensures term.parentSplit == null
      ensures Emptied(old(panes))
    {
      hide Holds, Panes, Distinct, Bushy, Kinds, Subst, Remove, KidsOf, SubtreeOf, ParentOf;
      ghost var f := forest;
      RemoveFacts(f, term);
      TakeOut(s, term);
      ghost var g := forest;
      HoldsKids(g, null, Heap(panes), s);
      if |s.child| != 1 {
        assert |multiset(s.child)| == |multiset(s.widgets)|;
        OnlyOneGone(f, s, term);
        return;
      }
      var b := s.child[0];
      assert s.widgets == [b] by { assert |multiset(s.child)| == |multiset(s.widgets)|; assert b in multiset(s.widgets); }
      Collapse(s, b);
      SplitterGone(f, s, term, b);
    }

    /** tabRemove of a tab that holds a single terminal. */
    method RemoveTab(term: Pane)
      requires Valid() && term in tabs && !term.isSplitter
      modifies this`tabs, this`forest, this`panes
      ensures Valid() && forest == Remove(old(forest), term) && panes == old(panes) - {term}
    {
      hide Holds, Panes, Roots, Distinct, Bushy, Kinds, Remove;
      ghost var h := Heap(panes);
      TabGone(forest, h, term);
      var i := IndexOf(tabs, term);
      ReplaceAt(tabs, i, []);
      tabs := tabs[..i] + tabs[i + 1..];
      forest := Remove(forest, term);
      panes := Panes(forest);
      SameHolds(forest, null, h, Heap(panes));
    }

    method Unlist(term: Pane)
      requires term in multiset(terminalList)
      modifies this`terminalList
      ensures multiset(terminalList) == old(multiset(terminalList)) - multiset{term}
    {
      ReplaceMultiset(terminalList, term, []);
      terminalList := ReplaceIn(terminalList, term, []);
    }

    /** Both createSplitLayout functions: the terminal shown beside `term` is
        `added`, in the splitter that holds `term` when that one has the right
        orientation, and in a new splitter `sp` otherwise. */
    method CreateSplitLayout(term: Pane, split: SplitType, added: Pane) returns (sp: Pane?)
      requires Valid() && term in panes && !term.isSplitter
      requires added !in panes && !added.isSplitter && added.child == []
      modifies this`tabs, this`forest, this`panes, panes, added
      ensures Valid()
      ensures sp == null <==> old(term.parentSplit) != null && old(term.parentSplit).orientation == split.Orient()
      ensures sp == null ==>
        forest == Subst(old(forest), term, Beside(term, added, split.After())) && panes == old(panes) + {added}
      ensures sp != null ==>
        && fresh(sp) && sp.isSplitter && sp.orientation == split.Orient()
        && forest == Subst(old(forest), term, Split(sp, Beside(term, added, split.After()), Nil))
        && panes == old(panes) + {added, sp}
      ensures split.TypeDown? || split.TypeRight? ==> Leaves(forest) == LeavesWith(old(forest), term, [term, added])
      ensures split.TypeUp? || split.TypeLeft? ==> Leaves(forest) == LeavesWith(old(forest), term, [added, term])
      ensures sp != null ==> (sp.orientation == Vertical <==> split.TypeUp? || split.TypeDown?)
      ensures sp == null ==> (old(term.parentSplit).orientation == Vertical <==> split.TypeUp? || split.TypeDown?)
    {
      hide Holds, Panes, Roots, Distinct, Bushy, Kinds, ParentOf, SubtreeOf, Subst, Beside, Nested, JoinedBeside, WellFormed, Leaves;
      hide LeavesWith;
      ghost var f := forest;
      TerminalPlace(forest, Heap(panes), term);
      var p := term.parentSplit;
      if p != null && p.orientation == split.Orient() {
        SplitInside(p, term, split, added);
        sp := null;
      } else {
        sp := SplitAnew(p, term, split, added);
      }
      SplitListed(f, term, sp, added, split.After());
    }

    method SplitInside(p: Pane, term: Pane, split: SplitType, added: Pane)
      requires Valid() && term in panes && !term.isSplitter && term.parentSplit == p
      requires added !in panes && !added.isSplitter && added.child == []
      modifies this`forest, this`panes, panes, added
      ensures Valid() && panes == old(panes) + {added}
      ensures forest == Subst(old(forest), term, Beside(term, added, split.After()))
    {
      hide Holds, Panes, Roots, Distinct, Bushy, Kinds, ParentOf, SubtreeOf, Subst, Beside, JoinedBeside, WellFormed;
      ghost var all := panes + {added};
      JoinAll(forest, Heap(panes), Heap(all), p, term, added, split.After());
      JoinBeside(p, term, added, split.After(), all);
      forest := Subst(forest, term, Beside(term, added, split.After()));
      panes := all;
    }

    method NestInPlace(p: Pane?, term: Pane, split: SplitType, added: Pane, ghost all: set<Pane>) returns (sp: Pane)
      requires {term, added} <= all && term != added && term.parentSplit == p
      requires if p == null then term in tabs else p in all && p !in {term, added} && term in p.widgets
      modifies this`tabs, p, term, added
      ensures fresh(sp) && sp.isSplitter && sp.orientation == split.Orient()
      ensures Heap(all + {sp}) == Nested(old(Heap(all)), p, sp, term, added, split.After())
      ensures tabs == if p == null then ReplaceIn(old(tabs), term, [sp]) else old(tabs)
    {
      hide Nested, ReplaceIn, Beside, Roots;
      sp := NestBoth(p, term, added, split.After(), split.Orient(), all);
      if p == null { ReplaceTab(term, sp); }
    }

    method SplitAnew(p: Pane?, term: Pane, split: SplitType, added: Pane) returns (sp: Pane)
      requires Valid() && term in panes && !term.isSplitter && term.parentSplit == p
      requires added !in panes && !added.isSplitter && added.child == []
      modifies this`tabs, this`forest, this`panes, panes, added
      ensures Valid() && panes == old(panes) + {added, sp}
      ensures fresh(sp) && sp.isSplitter && sp.orientation == split.Orient()
      ensures forest == Subst(old(forest), term, Split(sp, Beside(term, added, split.After()), Nil))
    {
      hide Holds, Panes, Roots, Distinct, Bushy, Kinds, ParentOf, SubtreeOf, Subst, Beside, Nested, ReplaceIn, WellFormed;
      ghost var all := panes + {added};
      ghost var f, h0, h := forest, Heap(panes), Heap(all);
      NestPlace(f, h0, term);
      sp := NestInPlace(p, term, split, added, all);
      NestAll(f, h0, h, sp, term, added, split.After());
      forest := Subst(f, term, Split(sp, Beside(term, added, split.After()), Nil));
      panes := all + {sp};
    }

    /** tabInsert of a piece of layout that is not in the window yet. */
    method TabInsert(tabind: int, w: Pane, ghost t: Forest)
      requires Valid() && WellFormed(t) && Roots(t) == [w] && Panes(t) !! panes && Holds(t, null, Heap(Panes(t)))
      modifies this`tabs, this`forest, this`panes
      ensures Valid() && panes == old(panes) + Panes(t)
      ensures forest == InsertTop(old(forest), TabSlot(tabind, |old(tabs)|), t)
      ensures multiset(Leaves(forest)) == multiset(Leaves(old(forest))) + multiset(Leaves(t))
      ensures var i := TabSlot(tabind, |old(tabs)|); tabs == old(tabs)[..i] + [w] + old(tabs)[i..]
    {
      hide Holds, Panes, Roots, Leaves, WellFormed, InsertTop;
      var i := TabSlot(tabind, |tabs|);
      InsertTopFacts(forest, i, t);
      InsertTopHolds(forest, i, t, Heap(panes), Heap(Panes(t)), Heap(panes + Panes(t)));
      tabs := tabs[..i] + [w] + tabs[i..];
      forest := InsertTop(forest, i, t);
      panes := panes + Panes(t);
    }

    /** setupLayout with TYPE_LEAF: a freshly opened terminal in a tab. */
    method OpenTab(added: Pane, tabind: int)
      requires Valid() && Listed()
      requires added !in panes && !added.isSplitter && added.child == [] && added.parentSplit == null
      modifies this
      ensures Valid() && Listed() && panes == old(panes) + {added} && terminalList == old(terminalList) + [added]
      ensures forest == InsertTop(old(forest), TabSlot(tabind, |old(tabs)|), Term(added, Nil))
      ensures tabs == if 0 <= tabind < |old(tabs)| then old(tabs)[..tabind] + [added] + old(tabs)[tabind..] else old(tabs) + [added]
    {
      hide InsertTop, WellFormed, Holds, Panes, Roots, Leaves, TabSlot;
      ghost var t := Term(added, Nil);
      SlotTabs(tabs, tabind, added);
      OneTab(added, Heap({added}));
      TabInsert(tabind, added, t);
      terminalList := terminalList + [added];
    }

    /** setupLayout: the first terminal always gets a tab; a split needs a current
        terminal. */
    method SetupLayout(added: Pane, leaf: bool, split: SplitType, tabind: int, current: Pane?) returns (ok: bool)
      requires Valid() && Listed()
      requires added !in panes && !added.isSplitter && added.child == [] && added.parentSplit == null
      requires current != null ==> current in panes && !current.isSplitter
      modifies this, panes, added
      ensures Valid() && Listed()
      ensures ok <==> leaf || old(tabs) == [] || current != null
      ensures ok ==> multiset(terminalList) == old(multiset(terminalList)) + multiset{added}
      ensures !ok ==> forest == old(forest) && terminalList == old(terminalList)
      ensures leaf || old(tabs) == [] ==> forest == InsertTop(old(forest), TabSlot(tabind, |old(tabs)|), Term(added, Nil))
      ensures leaf || old(tabs) == [] ==>
        tabs == if 0 <= tabind < |old(tabs)| then old(tabs)[..tabind] + [added] + old(tabs)[tabind..] else old(tabs) + [added]
      ensures !leaf && old(tabs) != [] && current != null ==>
        && multiset(Leaves(forest)) == multiset(Leaves(old(forest))) + multiset{added}
        && (split.TypeDown? || split.TypeRight? ==> Leaves(forest) == LeavesWith(old(forest), current, [current, added]))
        && (split.TypeUp? || split.TypeLeft? ==> Leaves(forest) == LeavesWith(old(forest), current, [added, current]))
    {
      hide Holds, Panes, Roots, WellFormed, InsertTop, Subst, Beside, Leaves, LeavesWith;
      if leaf || tabs == [] {
        OpenTab(added, tabind);
        return true;
      }
      if current == null { return false; }
      var _ := OpenSplit(current, split, added);
      return true;
    }

    /** setupLayout with a split: a freshly opened terminal. */
    method OpenSplit(term: Pane, split: SplitType, added: Pane) returns (sp: Pane?)
      requires Valid() && Listed() && term in panes && !term.isSplitter
      requires added !in panes && !added.isSplitter && added.child == []
      modifies this, panes, added
      ensures Valid() && Listed() && terminalList == old(terminalList) + [added]
      ensures sp == null ==> forest == Subst(old(forest), term, Beside(term, added, split.After()))
      ensures sp != null ==> forest == Subst(old(forest), term, Split(sp, Beside(term, added, split.After()), Nil))
      ensures split.TypeDown? || split.TypeRight? ==> Leaves(forest) == LeavesWith(old(forest), term, [term, added])
      ensures split.TypeUp? || split.TypeLeft? ==> Leaves(forest) == LeavesWith(old(forest), term, [added, term])
      ensures sp != null ==> (sp.orientation == Vertical <==> split.TypeUp? || split.TypeDown?)
    {
      hide Holds, Panes, Roots, Distinct, Bushy, Kinds, Subst, Leaves, Beside, WellFormed, LeavesWith;
      ghost var f := forest;
      sp := CreateSplitLayout(term, split, added);
      SplitListed(f, term, sp, added, split.After());
      terminalList := terminalList + [added];
    }

    /** dropEvent on terminal `dst`. A dropped terminal that was a tab of its own
        leaves the tabs when Qt gives it its new parent; if `dst` is a tab too,
        its index is taken before that. */
    method Drop(dst: Pane, split: SplitType, dropped: Pane) returns (sp: Pane?)
      requires Valid() && Listed() && {dst, dropped} <= panes && dst != dropped
      requires !dst.isSplitter && !dropped.isSplitter
      modifies this, panes
      ensures Valid() && Listed() && terminalList == old(terminalList)
      ensures
        var ys := if sp == null then Beside(dst, dropped, split.After()) else Split(sp, Beside(dst, dropped, split.After()), Nil);
        forest == if dst in old(tabs) && dropped in old(tabs) then DroppedTabs(old(forest), dst, dropped, ys)
                  else Subst(Remove(old(forest), dropped), dst, ys)
      ensures dst in old(tabs) && dropped in old(tabs) ==> sp != null && tabs == TabsAfter(old(tabs), dst, dropped, sp)
      ensures split.TypeDown? || split.TypeRight? ==> Leaves(forest) == LeavesWithDrop(old(forest), dst, dropped, [dst, dropped])
      ensures split.TypeUp? || split.TypeLeft? ==> Leaves(forest) == LeavesWithDrop(old(forest), dst, dropped, [dropped, dst])
      ensures sp != null ==> (sp.orientation == Vertical <==> split.TypeUp? || split.TypeDown?)
    {
      hide Holds, Panes, Roots, Distinct, Bushy, Kinds, Subst, Leaves, Beside, WellFormed, Remove, DroppedTabs;
      hide LeavesWithDrop, LeavesWith, TabsAfter;
      ghost var f0 := forest;
      DropFacts(f0, Heap(panes), dst, dropped);
      CloseTerminalFacts(f0, Heap(panes), dst);
      CloseTerminalFacts(f0, Heap(panes), dropped);
      if dropped.parentSplit == null && dst.parentSplit == null {
        sp := DropOnTab(dst, split, dropped);
        DroppedTabsLeaves(f0, dst, dropped, sp, split.After());
      } else {
        sp := DropBeside(dst, split, dropped);
        BesideDrop(f0, dst, dropped);
      }
    }

    method DropBeside(dst: Pane, split: SplitType, dropped: Pane) returns (sp: Pane?)
      requires Valid() && Listed() && {dst, dropped} <= panes && dst != dropped
      requires !dst.isSplitter && !dropped.isSplitter && (dropped.parentSplit == null ==> dropped in tabs && dropped.child == [])
      modifies this, panes
      ensures Valid() && Listed() && terminalList == old(terminalList)
      ensures
        var ys := if sp == null then Beside(dst, dropped, split.After()) else Split(sp, Beside(dst, dropped, split.After()), Nil);
        forest == Subst(Remove(old(forest), dropped), dst, ys)
      ensures split.TypeDown? || split.TypeRight? ==> Leaves(forest) == LeavesWith(Remove(old(forest), dropped), dst, [dst, dropped])
      ensures split.TypeUp? || split.TypeLeft? ==> Leaves(forest) == LeavesWith(Remove(old(forest), dropped), dst, [dropped, dst])
      ensures sp != null ==> (sp.orientation == Vertical <==> split.TypeUp? || split.TypeDown?)
    {
      hide Holds, Panes, Roots, Distinct, Bushy, Kinds, Subst, Leaves, Beside, WellFormed, Remove, LeavesWith;
      ghost var f0 := forest;
      DropFacts(f0, Heap(panes), dst, dropped);
      LeaveLayout(dropped);
      ghost var f := forest;
      sp := CreateSplitLayout(dst, split, dropped);
      SplitListed(f, dst, sp, dropped, split.After());
    }

    /** The dropped terminal leaves its splitter or its tab. */
    method LeaveLayout(dropped: Pane)
      requires Valid() && dropped in panes && !dropped.isSplitter
      requires dropped.parentSplit == null ==> dropped in tabs && dropped.child == []
      modifies this`tabs, this`forest, this`panes, panes
      ensures Valid() && forest == Remove(old(forest), dropped) && dropped.child == [] && panes <= old(panes)
    {
      hide Holds, Panes, Roots, Distinct, Bushy, Kinds, Remove;
      TerminalGone(forest, dropped);
      TerminalSubtree(forest, dropped);
      RemoveFacts(forest, dropped);
      if dropped.parentSplit != null {
        RemoveSplitLayout(dropped.parentSplit, dropped);
      } else {
        RemoveTab(dropped);
      }
    }

    /** createSplitLayout on a tab with the terminal of another tab. */
    method DropOnTab(dst: Pane, split: SplitType, dropped: Pane) returns (sp: Pane)
      requires Valid() && {dst, dropped} <= panes && dst != dropped && !dst.isSplitter && !dropped.isSplitter
      requires dst in tabs && dropped in tabs
      modifies this`tabs, this`forest, this`panes, dst, dropped
      ensures Valid() && fresh(sp) && sp.isSplitter && sp.orientation == split.Orient()
      ensures forest == DroppedTabs(old(forest), dst, dropped, Split(sp, Beside(dst, dropped, split.After()), Nil))
      ensures multiset(Leaves(forest)) == multiset(Leaves(old(forest)))
      ensures tabs == TabsAfter(old(tabs), dst, dropped, sp)
    {
      hide Holds, Panes, Roots, Distinct, Bushy, Kinds, Leaves, Beside, WellFormed, Remove, InsertTop, ReplaceIn, IndexIn;
      var tabind := IndexOf(tabs, dst);
      TakeTwo(dst, dropped);
      sp := FreshSplit(dst, split, dropped);
      TabInsert(tabind, sp, Split(sp, Beside(dst, dropped, split.After()), Nil));
    }

    /** Both tabs leave the window. */
    method TakeTwo(dst: Pane, dropped: Pane)
      requires Valid() && {dst, dropped} <= panes && dst != dropped && !dst.isSplitter && !dropped.isSplitter
      requires dst in tabs && dropped in tabs
      modifies this`tabs, this`forest, this`panes
      ensures Valid() && panes == old(panes) - {dst, dropped} && dst.child == [] && dropped.child == []
      ensures forest == Remove(Remove(old(forest), dst), dropped)
      ensures tabs == ReplaceIn(ReplaceIn(old(tabs), dst, []), dropped, [])
      ensures multiset(Leaves(forest)) + multiset{dst, dropped} == multiset(Leaves(old(forest)))
    {
      hide Holds, Panes, Roots, Distinct, Bushy, Kinds, Leaves, WellFormed, Remove, ReplaceIn;
      TwoTabs(forest, Heap(panes), dst, dropped);
      RemoveTab(dst);
      RemoveTab(dropped);
    }

    /** A splitter of its own with two terminals that are in no layout. */
    static method FreshSplit(term: Pane, split: SplitType, added: Pane) returns (sp: Pane)
      requires term != added && !term.isSplitter && !added.isSplitter && term.child == [] && added.child == []
      modifies term, added
      ensures fresh(sp) && sp.isSplitter && sp.orientation == split.Orient()
      ensures
        var t := Split(sp, Beside(term, added, split.After()), Nil);
        && WellFormed(t) && Roots(t) == [sp] && Panes(t) == {sp, term, added} && Holds(t, null, Heap({sp, term, added}))
        && multiset(Leaves(t)) == multiset{term, added}
    {
      hide Holds, Panes, Roots, Leaves, Beside, WellFormed;
      sp := new Pane.Splitter(split.Orient());
      FillSplitter(sp, term, added, split.After());
      SplitTab(sp, term, added, split.After(), Heap({sp, term, added}));
    }

    /** GuiTerminalWindow::closeTerminal with GuiMainWindow::closeTerminal. */
    method CloseTerminal(term: Pane)
      requires Valid() && Listed() && term in panes && !term.isSplitter
      modifies this, panes
      ensures Valid() && Listed() && forest == Remove(old(forest), term) && panes <= old(panes)
      ensures Emptied(old(panes))
    {
      hide Holds, Panes, Roots, Distinct, Bushy, Kinds, Remove, Leaves, ReplaceIn;
      CloseTerminalFacts(forest, Heap(panes), term);
      if term.parentSplit != null {
        RemoveSplitLayout(term.parentSplit, term);
      }
      Unlist(term);
      if term in tabs {
        RemoveTab(term);
      }
    }

    /** The closing of splitter `p` of layout `f` has come to the point where the
        panes `left` are still open. */
    ghost predicate Midway(f: Forest, p: Pane, left: Forest)
      reads this, panes
    {
      && Valid() && Listed()
      && WellFormed(f) && p in Panes(f) && SubtreeOf(f, p) == Split(p, KidsOf(f, p), Nil)
      && WellFormed(left) && Panes(left) <= Panes(KidsOf(f, p))
      && forest == Closing(f, p, left)
    }

    /** reqCloseTerminal(true) on a terminal or a splitter. Whatever the closing
        of one pane does to the layout above and around it, the loop closes what
        is below `p` and nothing else, and `p.child` is empty at the end. */
    method RequestClose(p: Pane)
      requires Valid() && Listed() && p in panes
      modifies this, panes
      ensures Valid() && Listed() && forest == Remove(old(forest), p) && panes <= old(panes)
      ensures Emptied(old(panes))
      decreases Panes(SubtreeOf(forest, p)), 2
    {
      hide Holds, Panes, Roots, Distinct, Bushy, Kinds, Remove, Leaves, KidsOf, SubtreeOf, Closing;
      if !p.isSplitter {
        CloseTerminal(p);
      } else {
        CloseFacts(forest, Heap(panes), p);
        CloseEach(forest, p, p.child);
        assert |p.child| == 0;
        p.child := [];
      }
    }

    /** The loop of reqCloseTerminal over its copy of the child vector. */
    method CloseEach(ghost f: Forest, p: Pane, copy: seq<Pane>)
      requires forest == f && Midway(f, p, KidsOf(f, p)) && multiset(copy) == multiset(Roots(KidsOf(f, p)))
      modifies this, panes
      ensures Midway(f, p, Nil) && panes <= old(panes) && Emptied(old(panes))
      decreases Panes(SubtreeOf(f, p)), 1
    {
      hide Holds, Panes, Roots, Distinct, Bushy, Kinds, Remove, Leaves, KidsOf, SubtreeOf, Closing, Midway;
      ghost var left := KidsOf(f, p);
      var it := 0;
      while it < |copy|
        invariant it <= |copy|
        invariant Midway(f, p, left) && panes <= old(panes) && Emptied(old(panes))
        invariant multiset(Roots(left)) == multiset(copy[it..])
      {
        var c := copy[it];
        WithoutFirst(copy, it);
        left := CloseNext(f, p, left, c);
        it := it + 1;
      }
      NoRoots(left);
    }

    /** One round of that loop. */
    method CloseNext(ghost f: Forest, p: Pane, ghost left: Forest, c: Pane) returns (ghost left': Forest)
      requires Midway(f, p, left) && c in multiset(Roots(left))
      modifies this, panes
      ensures Midway(f, p, left') && panes <= old(panes) && Emptied(old(panes))
      ensures multiset(Roots(left')) == multiset(Roots(left)) - multiset{c}
      decreases Panes(SubtreeOf(f, p)), 0
    {
      hide Holds, Panes, Roots, Distinct, Bushy, Kinds, Remove, Leaves, KidsOf, SubtreeOf, Closing;
      ClosingRound(f, p, left, c);
      RequestClose(c);
      left' := Remove(left, c);
    }
  }

  /** Where the closing of splitter `p` starts and ends. */
  lemma CloseFacts(f: Forest, h: map<Pane, Cell>, p: Pane)
    requires WellFormed(f) && Holds(f, null, h) && p in Panes(f) && p.isSplitter
    ensures p in h && multiset(h[p].child) == multiset(Roots(KidsOf(f, p)))
    ensures SubtreeOf(f, p) == Split(p, KidsOf(f, p), Nil) && WellFormed(KidsOf(f, p))
    ensures Closing(f, p, KidsOf(f, p)) == f && Closing(f, p, Nil) == Remove(f, p)
    ensures p !in Panes(Remove(f, p))
  {
    HoldsKids(f, null, h, p);
    ClosingEnds(f, p);
    RemoveFacts(f, p);
    SubtreeFacts(f, p);
  }

  /** A split adds the new terminal to the terminals of the layout. */
  lemma SplitListed(f: Forest, term: Pane, sp: Pane?, added: Pane, after: bool)
    requires WellFormed(f) && term in Panes(f) && !term.isSplitter && added !in Panes(f) && !added.isSplitter
    requires sp != null ==> sp !in Panes(f) && sp != added && sp.isSplitter
    ensures
      var ys := if sp == null then Beside(term, added, after) else Split(sp, Beside(term, added, after), Nil);
      && multiset(Leaves(Subst(f, term, ys))) == multiset(Leaves(f)) + multiset{added}
      && Leaves(Subst(f, term, ys)) == LeavesWith(f, term, if after then [term, added] else [added, term])
  {
    var ys := if sp == null then Beside(term, added, after) else Split(sp, Beside(term, added, after), Nil);
    hide Leaves, Panes, Beside, WellFormed, Subst, LeavesBefore, LeavesAfter, Roots;
    var s := if sp == null then term else sp;
    SplitShapes(f, term, ys, s, added, after);
    OneMore(LeavesBefore(f, term), LeavesAfter(f, term), term, added, after);
  }

  lemma OneMore(a: seq<Pane>, b: seq<Pane>, x: Pane, y: Pane, after: bool)
    ensures multiset(a + (if after then [x, y] else [y, x]) + b) == multiset(a + [x] + b) + multiset{y}
  {
  }

  /** Dropping: the dropped terminal leaves, the target stays. */
  lemma DropFacts(f: Forest, h: map<Pane, Cell>, dst: Pane, dropped: Pane)
    requires WellFormed(f) && Holds(f, null, h) && dst in Panes(f) && dropped in Panes(f) && dst != dropped
    requires !dst.isSplitter && !dropped.isSplitter
    ensures WellFormed(Remove(f, dropped)) && dropped !in Panes(Remove(f, dropped)) && dst in Panes(Remove(f, dropped))
    ensures multiset(Leaves(Remove(f, dropped))) + multiset{dropped} == multiset(Leaves(f))
  {
    TerminalGone(f, dropped);
    TerminalSubtree(f, dropped);
    RemoveFacts(f, dropped);
    TerminalGone(f, dst);
    assert dst in multiset(Leaves(Remove(f, dropped)));
    LeavesArePanes(Remove(f, dropped));
  }

  lemma WithoutFirst(ws: seq<Pane>, i: nat)
    requires i < |ws|
    ensures multiset(ws[i..]) - multiset{ws[i]} == multiset(ws[i + 1..]) && ws[i] in multiset(ws[i..])
  {
    assert ws[i..] == [ws[i]] + ws[i + 1..];
  }

  lemma NoRoots(left: Forest)
    requires multiset(Roots(left)) == multiset{}
    ensures left == Nil
  {
    assert |Roots(left)| == |multiset(Roots(left))|;
  }

  /** What closing a terminal needs and gives. */
  lemma CloseTerminalFacts(f: Forest, h: map<Pane, Cell>, x: Pane)
    requires WellFormed(f) && Holds(f, null, h) && x in Panes(f) && !x.isSplitter
    ensures x in h && h[x].child == [] && (h[x].parentSplit == null <==> x in Roots(f))
    ensures x in Leaves(f) && multiset(Leaves(Remove(f, x))) == multiset(Leaves(f)) - multiset{x}
    ensures x !in Roots(Remove(f, x)) && Panes(Remove(f, x)) <= Panes(f)
  {
    HoldsParent(f, null, h, x);
    ParentFacts(f, null, x);
    TerminalCell(f, null, h, x);
    TerminalGone(f, x);
    TerminalSubtree(f, x);
    RemoveFacts(f, x);
    RootsArePanes(Remove(f, x));
  }

  /** Closing a terminal that is a tab of its own. */
  lemma TabGone(f: Forest, h: map<Pane, Cell>, x: Pane)
    requires WellFormed(f) && Holds(f, null, h) && x in Roots(f) && !x.isSplitter
    ensures Holds(Remove(f, x), null, h)
    ensures WellFormed(Remove(f, x)) && Panes(Remove(f, x)) == Panes(f) - {x}
    ensures Roots(Remove(f, x)) == ReplaceIn(Roots(f), x, [])
  {
    RootsArePanes(f);
    ParentFacts(f, null, x);
    RemoveIsTwoSteps(f, null, x);
    RemoveFacts(f, x);
    HoldsSubst(f, null, h, h, x, Nil);
    SubstRoots(f, x, Nil);
    SubstPanes(f, x, Nil);
    TerminalSubtree(f, x);
  }

  lemma TerminalGone(f: Forest, x: Pane)
    requires WellFormed(f) && x in Panes(f) && !x.isSplitter
    ensures x in Leaves(f) && multiset(Leaves(Remove(f, x))) == multiset(Leaves(f)) - multiset{x}
  {
    RemoveLeaves(f, x);
    LeavesAround(f, x);
    TerminalSubtree(f, x);
    assert Leaves(Nil) == [] && Leaves(Term(x, Nil)) == [x];
  }

  lemma {:induction false} TerminalCell(f: Forest, top: Pane?, h: map<Pane, Cell>, x: Pane)
    requires Holds(f, top, h) && Kinds(f) && x in Panes(f) && !x.isSplitter
    ensures x in h && h[x].child == []
  {
    match f
    case Term(t, next) => if t != x { TerminalCell(next, top, h, x); }
    case Split(s, kids, next) =>
      if x in Panes(kids) { TerminalCell(kids, s, h, x); } else { TerminalCell(next, top, h, x); }
  }
}
