/** The shape of a window's panes: tabs at the top level, splitters nested
    below them, terminals at the leaves.

    A forest lists the widgets of one container in visual order. It is kept in
    first-child/next-sibling form, so every definition and every proof below
    follows the datatype. */
module PaneForest {

  datatype Orientation = Horizontal | Vertical

  /** GuiBase and its two implementations, GuiTerminalWindow and GuiSplitter.
      `child` is GuiSplitter's own vector; `widgets` is the visual order that
      its QSplitter base keeps. */
  class Pane {
    const isSplitter: bool
    const orientation: Orientation
    var parentSplit: Pane?
    var child: seq<Pane>
    var widgets: seq<Pane>

    constructor Terminal()
      ensures !isSplitter && parentSplit == null && child == [] && widgets == []
    {
      isSplitter, orientation := false, Horizontal;
      parentSplit, child, widgets := null, [], [];
    }

    constructor Splitter(orient: Orientation)
      ensures isSplitter && orientation == orient && parentSplit == null && child == [] && widgets == []
    {
      isSplitter, orientation := true, orient;
      parentSplit, child, widgets := null, [], [];
    }
  }

  datatype Forest =
    | Nil
    | Term(t: Pane, next: Forest)
    | Split(s: Pane, kids: Forest, next: Forest)

  function Cat(a: Forest, b: Forest): Forest {
    match a
    case Nil => b
    case Term(t, next) => Term(t, Cat(next, b))
    case Split(s, kids, next) => Split(s, kids, Cat(next, b))
  }

  /** The widgets directly in this container, in visual order. */
  function Roots(f: Forest): seq<Pane> {
    match f
    case Nil => []
    case Term(t, next) => [t] + Roots(next)
    case Split(s, _, next) => [s] + Roots(next)
  }

  function Panes(f: Forest): set<Pane> {
    match f
    case Nil => {}
    case Term(t, next) => {t} + Panes(next)
    case Split(s, kids, next) => {s} + Panes(kids) + Panes(next)
  }

  /** The terminals, left to right and top to bottom. */
  function Leaves(f: Forest): seq<Pane> {
    match f
    case Nil => []
    case Term(t, next) => [t] + Leaves(next)
    case Split(_, kids, next) => Leaves(kids) + Leaves(next)
  }

  /** No pane occurs twice. */
  ghost predicate Distinct(f: Forest) {
    match f
    case Nil => true
    case Term(t, next) => t !in Panes(next) && Distinct(next)
    case Split(s, kids, next) =>
      && s !in Panes(kids) && s !in Panes(next) && Panes(kids) !! Panes(next)
      && Distinct(kids) && Distinct(next)
  }

  /** Every splitter shows at least two panes. */
  ghost predicate Bushy(f: Forest) {
    match f
    case Nil => true
    case Term(_, next) => Bushy(next)
    case Split(_, kids, next) => |Roots(kids)| >= 2 && Bushy(kids) && Bushy(next)
  }

  ghost predicate Kinds(f: Forest) {
    match f
    case Nil => true
    case Term(t, next) => !t.isSplitter && Kinds(next)
    case Split(s, kids, next) => s.isSplitter && Kinds(kids) && Kinds(next)
  }

  ghost predicate WellFormed(f: Forest) {
    Distinct(f) && Bushy(f) && Kinds(f)
  }

  /** The pane that directly contains `x`; `top` stands for the tab area. */
  function ParentOf(f: Forest, top: Pane?, x: Pane): Pane? {
    match f
    case Nil => top
    case Term(t, next) => if t == x then top else ParentOf(next, top, x)
    case Split(s, kids, next) =>
      if s == x then top
      else if x in Panes(kids) then ParentOf(kids, s, x)
      else ParentOf(next, top, x)
  }

  /** What a splitter contains. */
  function KidsOf(f: Forest, x: Pane): Forest {
    match f
    case Nil => Nil
    case Term(_, next) => KidsOf(next, x)
    case Split(s, kids, next) =>
      if s == x then kids
      else if x in Panes(kids) then KidsOf(kids, x)
      else KidsOf(next, x)
  }

  /** The subtree of `x` on its own. */
  function SubtreeOf(f: Forest, x: Pane): Forest {
    match f
    case Nil => Nil
    case Term(t, next) => if t == x then Term(t, Nil) else SubtreeOf(next, x)
    case Split(s, kids, next) =>
      if s == x then Split(s, kids, Nil)
      else if x in Panes(kids) then SubtreeOf(kids, x)
      else SubtreeOf(next, x)
  }

  /** `f` with the subtree of `x` replaced by the panes `ys`, in the same place. */
  function Subst(f: Forest, x: Pane, ys: Forest): Forest {
    match f
    case Nil => Nil
    case Term(t, next) => if t == x then Cat(ys, next) else Term(t, Subst(next, x, ys))
    case Split(s, kids, next) =>
      if s == x then Cat(ys, next)
      else if x in Panes(kids) then Split(s, Subst(kids, x, ys), next)
      else Split(s, kids, Subst(next, x, ys))
  }

  /** Reference removal: `x` goes, and a splitter left with one pane gives way
      to that pane. */
  function Remove(f: Forest, x: Pane): Forest {
    match f
    case Nil => Nil
    case Term(t, next) => if t == x then next else Term(t, Remove(next, x))
    case Split(s, kids, next) =>
      if s == x then next
      else if x in Panes(kids) then
        var left := Remove(kids, x);
        if |Roots(left)| == 1 then Cat(left, next) else Split(s, left, next)
      else Split(s, kids, Remove(next, x))
  }

  // ---------------------------------------------------------------- basics

  lemma CatFacts(a: Forest, b: Forest)
    ensures Roots(Cat(a, b)) == Roots(a) + Roots(b)
    ensures Panes(Cat(a, b)) == Panes(a) + Panes(b)
  {
  }

  lemma CatLeaves(a: Forest, b: Forest)
    ensures Leaves(Cat(a, b)) == Leaves(a) + Leaves(b)
  {
  }

  lemma CatWellFormed(a: Forest, b: Forest)
    ensures Bushy(Cat(a, b)) <==> Bushy(a) && Bushy(b)
    ensures Kinds(Cat(a, b)) <==> Kinds(a) && Kinds(b)
  {
  }

  lemma {:induction false} CatDistinct(a: Forest, b: Forest)
    ensures Distinct(Cat(a, b)) <==> Distinct(a) && Distinct(b) && Panes(a) !! Panes(b)
  {
    match a
    case Nil =>
    case Term(_, next) => CatDistinct(next, b); CatFacts(next, b);
    case Split(_, _, next) => CatDistinct(next, b); CatFacts(next, b);
  }

  lemma RootsArePanes(f: Forest)
    ensures forall p :: p in Roots(f) ==> p in Panes(f)
  {
  }

  lemma LeavesArePanes(f: Forest)
    ensures forall p :: p in Leaves(f) ==> p in Panes(f)
  {
  }

  lemma {:induction false} SubtreeFacts(f: Forest, x: Pane)
    requires Distinct(f) && x in Panes(f)
    ensures Roots(SubtreeOf(f, x)) == [x] && Distinct(SubtreeOf(f, x))
    ensures x in Panes(SubtreeOf(f, x)) && Panes(SubtreeOf(f, x)) <= Panes(f)
    ensures Bushy(f) ==> Bushy(SubtreeOf(f, x))
    ensures Kinds(f) ==> Kinds(SubtreeOf(f, x))
  {
    match f
    case Term(t, next) => if t != x { SubtreeFacts(next, x); }
    case Split(s, kids, next) =>
      if s != x {
        if x in Panes(kids) { SubtreeFacts(kids, x); } else { SubtreeFacts(next, x); }
      }
  }

  // ------------------------------------------------------------- substitution

  /** Substituting keeps every other pane, exactly once. */
  lemma {:induction false} SubstPanes(f: Forest, x: Pane, ys: Forest)
    requires Distinct(f) && x in Panes(f)
    ensures Panes(Subst(f, x, ys)) == Panes(f) - Panes(SubtreeOf(f, x)) + Panes(ys)
  {
    match f
    case Term(t, next) =>
      CatFacts(ys, next);
      if t != x { SubstPanes(next, x, ys); SubtreeFacts(next, x); }
    case Split(s, kids, next) =>
      if s == x { CatFacts(ys, next); }
      else if x in Panes(kids) { SubstPanes(kids, x, ys); SubtreeFacts(kids, x); }
      else { SubstPanes(next, x, ys); SubtreeFacts(next, x); }
  }

  lemma {:induction false} SubstDistinct(f: Forest, x: Pane, ys: Forest)
    requires Distinct(f) && x in Panes(f) && Distinct(ys)
    requires Panes(ys) !! (Panes(f) - Panes(SubtreeOf(f, x)))
    ensures Distinct(Subst(f, x, ys))
  {
    match f
    case Term(t, next) =>
      if t == x { CatDistinct(ys, next); }
      else { SubtreeFacts(next, x); SubstDistinct(next, x, ys); SubstPanes(next, x, ys); }
    case Split(s, kids, next) =>
      if s == x { CatDistinct(ys, next); }
      else if x in Panes(kids) {
        SubtreeFacts(kids, x); SubstDistinct(kids, x, ys); SubstPanes(kids, x, ys);
      } else {
        SubtreeFacts(next, x); SubstDistinct(next, x, ys); SubstPanes(next, x, ys);
      }
  }

  /** The widgets of the container that `x` is in change only at `x`; those of
      every other container do not change. */
  function ReplaceIn(ws: seq<Pane>, x: Pane, ys: seq<Pane>): seq<Pane> {
    if ws == [] then [] else if ws[0] == x then ys + ws[1..] else [ws[0]] + ReplaceIn(ws[1..], x, ys)
  }

  lemma ReplaceAbsent(ws: seq<Pane>, x: Pane, ys: seq<Pane>)
    requires x !in ws
    ensures ReplaceIn(ws, x, ys) == ws
  {
  }

  lemma {:induction false} SubstRoots(f: Forest, x: Pane, ys: Forest)
    requires Distinct(f)
    ensures Roots(Subst(f, x, ys)) == ReplaceIn(Roots(f), x, Roots(ys))
    ensures x in Roots(f) ==> |Roots(Subst(f, x, ys))| == |Roots(f)| + |Roots(ys)| - 1
    ensures x !in Roots(f) ==> Roots(Subst(f, x, ys)) == Roots(f)
  {
    match f
    case Nil =>
    case Term(t, next) =>
      assert Roots(f)[1..] == Roots(next);
      CatFacts(ys, next);
      if t != x { SubstRoots(next, x, ys); }
    case Split(s, kids, next) =>
      assert Roots(f)[1..] == Roots(next);
      CatFacts(ys, next);
      if s != x {
        if x in Panes(kids) { RootsArePanes(next); ReplaceAbsent(Roots(f), x, Roots(ys)); }
        else { SubstRoots(next, x, ys); }
      }
  }

  lemma {:induction false} SubstWellFormed(f: Forest, x: Pane, ys: Forest)
    requires WellFormed(f) && x in Panes(f) && WellFormed(ys) && ys != Nil
    requires Panes(ys) !! (Panes(f) - Panes(SubtreeOf(f, x)))
    ensures WellFormed(Subst(f, x, ys))
  {
    SubstDistinct(f, x, ys);
    SubstBushy(f, x, ys);
  }

  lemma {:induction false} SubstBushy(f: Forest, x: Pane, ys: Forest)
    requires Distinct(f) && Bushy(f) && Kinds(f) && Bushy(ys) && Kinds(ys) && ys != Nil
    ensures Bushy(Subst(f, x, ys)) && Kinds(Subst(f, x, ys))
  {
    match f
    case Nil =>
    case Term(t, next) => CatWellFormed(ys, next); SubstBushy(next, x, ys);
    case Split(s, kids, next) =>
      CatWellFormed(ys, next);
      SubstBushy(next, x, ys);
      SubstBushy(kids, x, ys);
      SubstRoots(kids, x, ys);
  }

  /** The terminals before and after the subtree of `x` in visual order. */
  function LeavesBefore(f: Forest, x: Pane): seq<Pane> {
    match f
    case Nil => []
    case Term(t, next) => if t == x then [] else [t] + LeavesBefore(next, x)
    case Split(s, kids, next) =>
      if s == x then []
      else if x in Panes(kids) then LeavesBefore(kids, x)
      else Leaves(kids) + LeavesBefore(next, x)
  }

  /** The terminals, with `pair` in the place of `x`. */
  function LeavesWith(f: Forest, x: Pane, pair: seq<Pane>): seq<Pane> {
    LeavesBefore(f, x) + pair + LeavesAfter(f, x)
  }

  function LeavesAfter(f: Forest, x: Pane): seq<Pane> {
    match f
    case Nil => []
    case Term(t, next) => if t == x then Leaves(next) else LeavesAfter(next, x)
    case Split(s, kids, next) =>
      if s == x then Leaves(next)
      else if x in Panes(kids) then LeavesAfter(kids, x) + Leaves(next)
      else LeavesAfter(next, x)
  }

  lemma Regroup(k: seq<Pane>, a: seq<Pane>, b: seq<Pane>, c: seq<Pane>)
    ensures (a + b + c) + k == a + b + (c + k)
    ensures k + (a + b + c) == (k + a) + b + c
  {
  }

  lemma {:induction false} LeavesAround(f: Forest, x: Pane)
    requires Distinct(f) && x in Panes(f)
    ensures Leaves(f) == LeavesBefore(f, x) + Leaves(SubtreeOf(f, x)) + LeavesAfter(f, x)
  {
    var before, own, after := LeavesBefore(f, x), Leaves(SubtreeOf(f, x)), LeavesAfter(f, x);
    match f
    case Term(t, next) =>
      if t == x { assert own == [t] + Leaves(Nil) == [t]; }
      else { LeavesAround(next, x); Regroup([t], LeavesBefore(next, x), own, after); }
    case Split(s, kids, next) =>
      if s == x { assert own == Leaves(kids) + Leaves(Nil) == Leaves(kids); }
      else if x in Panes(kids) { LeavesAround(kids, x); Regroup(Leaves(next), before, own, LeavesAfter(kids, x)); }
      else { LeavesAround(next, x); Regroup(Leaves(kids), LeavesBefore(next, x), own, after); }
  }

  lemma {:induction false} SubstLeaves(f: Forest, x: Pane, ys: Forest)
    requires Distinct(f) && x in Panes(f)
    ensures Leaves(Subst(f, x, ys)) == LeavesBefore(f, x) + Leaves(ys) + LeavesAfter(f, x)
  {
    var before, own, after := LeavesBefore(f, x), Leaves(ys), LeavesAfter(f, x);
    match f
    case Term(t, next) =>
      if t == x { CatLeaves(ys, next); }
      else { SubstLeaves(next, x, ys); Regroup([t], LeavesBefore(next, x), own, after); }
    case Split(s, kids, next) =>
      if s == x { CatLeaves(ys, next); }
      else if x in Panes(kids) { SubstLeaves(kids, x, ys); Regroup(Leaves(next), before, own, LeavesAfter(kids, x)); }
      else { SubstLeaves(next, x, ys); Regroup(Leaves(kids), LeavesBefore(next, x), own, after); }
  }

  // ------------------------------------------------------------------ removal

  /** Removing keeps the forest well formed, takes away the subtree of `x`, and
      keeps the order of every other terminal. */
  lemma {:induction false} RemoveFacts(f: Forest, x: Pane)
    requires WellFormed(f) && x in Panes(f)
    ensures WellFormed(Remove(f, x))
    ensures Panes(Remove(f, x)) <= Panes(f) - Panes(SubtreeOf(f, x))
    ensures |Roots(Remove(f, x))| == if x in Roots(f) then |Roots(f)| - 1 else |Roots(f)|
  {
    match f
    case Term(t, next) =>
      if t != x { RemoveFacts(next, x); SubtreeFacts(next, x); }
    case Split(s, kids, next) =>
      RootsArePanes(next);
      if s != x {
        if x in Panes(kids) {
          RemoveFacts(kids, x);
          SubtreeFacts(kids, x);
          var left := Remove(kids, x);
          CatFacts(left, next);
          CatDistinct(left, next);
          CatWellFormed(left, next);
        } else {
          RemoveFacts(next, x);
          SubtreeFacts(next, x);
        }
      }
  }

  lemma {:induction false} RemoveLeaves(f: Forest, x: Pane)
    requires WellFormed(f) && x in Panes(f)
    ensures Leaves(Remove(f, x)) == LeavesBefore(f, x) + LeavesAfter(f, x)
  {
    match f
    case Term(t, next) => if t != x { RemoveLeaves(next, x); }
    case Split(s, kids, next) =>
      if s != x {
        if x in Panes(kids) {
          RemoveLeaves(kids, x);
          CatLeaves(Remove(kids, x), next);
        } else {
          RemoveLeaves(next, x);
        }
      }
  }

  lemma {:induction false} ParentFacts(f: Forest, top: Pane?, x: Pane)
    requires Distinct(f) && x in Panes(f) && (top == null || top !in Panes(f))
    ensures x in Roots(f) <==> ParentOf(f, top, x) == top
    ensures x !in Roots(f) ==>
      var p := ParentOf(f, top, x);
      p != null && p in Panes(f) && p != x && x in Roots(KidsOf(f, p)) && p !in Panes(SubtreeOf(f, x))
  {
    match f
    case Term(t, next) => if t != x { ParentFacts(next, top, x); SubtreeFacts(next, x); }
    case Split(s, kids, next) =>
      RootsArePanes(next);
      if s != x {
        if x in Panes(kids) { ParentFacts(kids, s, x); SubtreeFacts(kids, x); }
        else { ParentFacts(next, top, x); SubtreeFacts(next, x); }
      }
  }

  lemma {:induction false} RemoveIsTwoSteps(f: Forest, top: Pane?, x: Pane)
    requires WellFormed(f) && x in Panes(f) && (top == null || top !in Panes(f))
    ensures
      var g := Subst(f, x, Nil);
      var p := ParentOf(f, top, x);
      Remove(f, x) ==
      if p != top && p != null && |Roots(KidsOf(g, p))| == 1 then Subst(g, p, KidsOf(g, p)) else g
  {
    match f
    case Term(t, next) =>
      if t != x { RemoveIsTwoSteps(next, top, x); ParentFacts(next, top, x); RootsArePanes(next); SubstPanes(next, x, Nil); }
    case Split(s, kids, next) =>
      if s != x {
        if x in Panes(kids) {
          RemoveIsTwoSteps(kids, s, x); ParentFacts(kids, s, x); SubstPanes(kids, x, Nil);
          RemoveFacts(kids, x);
        } else {
          RemoveIsTwoSteps(next, top, x); ParentFacts(next, top, x); SubstPanes(next, x, Nil);
        }
      }
  }

  // ------------------------------------------------------- splitting and back

  /** `added` right after or right before `x`. */
  function Beside(x: Pane, added: Pane, after: bool): Forest {
    if after then Term(x, Term(added, Nil)) else Term(added, Term(x, Nil))
  }

  lemma BesideFacts(x: Pane, added: Pane, after: bool)
    ensures Panes(Beside(x, added, after)) == {x, added}
    ensures Roots(Beside(x, added, after)) == Leaves(Beside(x, added, after)) == if after then [x, added] else [added, x]
  {
    forall t ensures Panes(Term(t, Nil)) == {t} && Roots(Term(t, Nil)) == Leaves(Term(t, Nil)) == [t] {
      assert Panes(Nil) == {} && Roots(Nil) == Leaves(Nil) == [];
    }
  }

  lemma CatTerm(t: Pane, next: Forest)
    ensures Cat(Term(t, Nil), next) == Term(t, next)
  {
    assert Cat(Nil, next) == next;
  }

  lemma BesideCat(x: Pane, added: Pane, after: bool, next: Forest)
    requires x != added
    ensures Cat(Beside(x, added, after), next) == if after then Term(x, Term(added, next)) else Term(added, Term(x, next))
    ensures Remove(Cat(Beside(x, added, after), next), added) == Term(x, next)
  {
    CatTerm(x, next);
    CatTerm(added, next);
    assert Cat(Term(x, Term(added, Nil)), next) == Term(x, Cat(Term(added, Nil), next));
    assert Cat(Term(added, Term(x, Nil)), next) == Term(added, Cat(Term(x, Nil), next));
    assert Remove(Term(added, next), added) == next;
  }

  /** Splitting inside a splitter of the same orientation and removing the new
      terminal gives back the very same forest. */
  lemma {:induction false} BesideThenRemove(f: Forest, x: Pane, added: Pane, after: bool)
    requires WellFormed(f) && x in Panes(f) && !x.isSplitter && added !in Panes(f)
    ensures Remove(Subst(f, x, Beside(x, added, after)), added) == f
  {
    var ys := Beside(x, added, after);
    BesideFacts(x, added, after);
    match f
    case Term(t, next) =>
      if t != x { BesideThenRemove(next, x, added, after); } else { BesideCat(x, added, after, next); }
    case Split(s, kids, next) =>
      if x in Panes(kids) {
        BesideThenRemove(kids, x, added, after);
        SubstPanes(kids, x, ys);
      } else {
        BesideThenRemove(next, x, added, after);
        SubstPanes(next, x, ys);
      }
  }

  /** The same for a split that makes a new splitter `sp` around both. */
  lemma {:induction false} NestThenRemove(f: Forest, x: Pane, sp: Pane, added: Pane, after: bool)
    requires WellFormed(f) && x in Panes(f) && !x.isSplitter
    requires added !in Panes(f) && sp !in Panes(f) && sp != added
    ensures Remove(Subst(f, x, Split(sp, Beside(x, added, after), Nil)), added) == f
  {
    var ys := Split(sp, Beside(x, added, after), Nil);
    BesideFacts(x, added, after);
    match f
    case Term(t, next) =>
      if t != x { NestThenRemove(next, x, sp, added, after); }
      else {
        BesideCat(x, added, after, Nil);
        CatNil(Beside(x, added, after));
        assert Cat(ys, next) == Split(sp, Beside(x, added, after), next);
        CatTerm(x, next);
      }
    case Split(s, kids, next) =>
      if x in Panes(kids) {
        NestThenRemove(kids, x, sp, added, after);
        SubstPanes(kids, x, ys);
      } else {
        NestThenRemove(next, x, sp, added, after);
        SubstPanes(next, x, ys);
      }
  }

  lemma CatNil(a: Forest)
    ensures Cat(a, Nil) == a
  {
  }

  // ------------------------------------------------------- closing a splitter

  /** While splitter `s` is being closed: what stands in its place when `left`
      of its panes are still open. */
  function Closing(f: Forest, s: Pane, left: Forest): Forest {
    if left == Nil then Remove(f, s)
    else if |Roots(left)| == 1 then Subst(f, s, left)
    else Subst(f, s, Split(s, left, Nil))
  }

  /** Closing the next pane of `s` moves on to the next stage, whichever pane it
      is: the last but one takes the splitter with it, and the last one may take
      the splitter above. */
  lemma {:induction false} ClosingStep(f: Forest, s: Pane, left: Forest, c: Pane)
    requires WellFormed(f) && s in Panes(f) && s.isSplitter
    requires WellFormed(left) && c in Roots(left)
    requires Panes(left) <= Panes(SubtreeOf(f, s)) - {s}
    ensures Remove(Closing(f, s, left), c) == Closing(f, s, Remove(left, c))
  {
    RootsArePanes(left);
    RemoveFacts(left, c);
    if |Roots(left)| == 1 {
      OneRoot(left, c);
      ClosingLast(f, s, left, c);
    } else if |Roots(left)| == 2 {
      ClosingNested(f, s, left, c);
    } else {
      ClosingNested(f, s, left, c);
    }
  }

  lemma OneRoot(left: Forest, c: Pane)
    requires |Roots(left)| == 1 && c in Roots(left)
    ensures Roots(left) == [c] && Remove(left, c) == Nil
  {
  }

  lemma {:induction false} ClosingLast(f: Forest, s: Pane, left: Forest, c: Pane)
    requires WellFormed(f) && s in Panes(f)
    requires WellFormed(left) && Roots(left) == [c]
    requires Panes(left) <= Panes(SubtreeOf(f, s)) - {s}
    ensures Remove(Subst(f, s, left), c) == Remove(f, s)
  {
    RootsArePanes(left);
    match f
    case Term(t, next) =>
      if t != s {
        SubtreeFacts(next, s);
        ClosingLast(next, s, left, c);
      } else {
        RemoveOnlyRoot(left, next, c);
      }
    case Split(s', kids, next) =>
      if s' == s {
        RemoveOnlyRoot(left, next, c);
      } else if s in Panes(kids) {
        SubtreeFacts(kids, s);
        SubstPanes(kids, s, left);
        ClosingLast(kids, s, left, c);
      } else {
        SubtreeFacts(next, s);
        ClosingLast(next, s, left, c);
      }
  }

  lemma RemoveOnlyRoot(left: Forest, next: Forest, c: Pane)
    requires Roots(left) == [c]
    ensures Remove(Cat(left, next), c) == next
  {
    match left
    case Term(t, rest) =>
      assert Roots(left)[0] == t && rest == Nil;
      assert Cat(left, next) == Term(t, next);
    case Split(s, kids, rest) =>
      assert Roots(left)[0] == s && rest == Nil;
      assert Cat(left, next) == Split(s, kids, next);
  }

  lemma {:induction false} ClosingNested(f: Forest, s: Pane, left: Forest, c: Pane)
    requires WellFormed(f) && s in Panes(f)
    requires WellFormed(left) && c in Roots(left) && |Roots(left)| >= 2
    requires Panes(left) <= Panes(SubtreeOf(f, s)) - {s}
    ensures
      var rest := Remove(left, c);
      Remove(Subst(f, s, Split(s, left, Nil)), c) ==
      if |Roots(rest)| == 1 then Subst(f, s, rest) else Subst(f, s, Split(s, rest, Nil))
  {
    RootsArePanes(left);
    RemoveFacts(left, c);
    match f
    case Term(t, next) =>
      if t != s { SubtreeFacts(next, s); ClosingNested(next, s, left, c); }
    case Split(s', kids, next) =>
      if s' != s {
        if s in Panes(kids) {
          SubtreeFacts(kids, s);
          SubstPanes(kids, s, Split(s, left, Nil));
          ClosingNested(kids, s, left, c);
          SubstRoots(kids, s, Remove(left, c));
          SubstRoots(kids, s, Split(s, Remove(left, c), Nil));
        } else {
          SubtreeFacts(next, s);
          ClosingNested(next, s, left, c);
        }
      } else {
        assert Cat(Split(s, left, Nil), next) == Split(s, left, next);
        assert Cat(Split(s, Remove(left, c), Nil), next) == Split(s, Remove(left, c), next);
      }
  }

  /** A pane that is still open keeps its own subtree while its splitter closes. */
  lemma {:induction false} SubstSubtree(f: Forest, x: Pane, ys: Forest, c: Pane)
    requires Distinct(f) && x in Panes(f) && c in Panes(ys)
    requires Panes(ys) <= Panes(SubtreeOf(f, x))
    ensures SubtreeOf(Subst(f, x, ys), c) == SubtreeOf(ys, c)
  {
    match f
    case Term(t, next) =>
      if t == x { SubtreeCat(ys, next, c); } else { SubtreeFacts(next, x); SubstSubtree(next, x, ys, c); }
    case Split(s, kids, next) =>
      if s == x { SubtreeCat(ys, next, c); }
      else if x in Panes(kids) {
        SubtreeFacts(kids, x);
        SubstPanes(kids, x, ys);
        SubstSubtree(kids, x, ys, c);
      } else {
        SubtreeFacts(next, x);
        SubstSubtree(next, x, ys, c);
      }
  }

  lemma SubtreeCat(a: Forest, b: Forest, c: Pane)
    requires c in Panes(a)
    ensures SubtreeOf(Cat(a, b), c) == SubtreeOf(a, c)
  {
  }

  lemma {:induction false} ClosingSubtree(f: Forest, s: Pane, left: Forest, c: Pane)
    requires Distinct(f) && s in Panes(f) && c in Roots(left)
    requires Panes(left) <= Panes(SubtreeOf(f, s)) - {s}
    ensures c in Panes(Closing(f, s, left))
    ensures SubtreeOf(Closing(f, s, left), c) == SubtreeOf(left, c)
  {
    RootsArePanes(left);
    SubtreeFacts(f, s);
    if |Roots(left)| == 1 {
      SubstSubtree(f, s, left, c);
      SubstPanes(f, s, left);
    } else {
      var ys := Split(s, left, Nil);
      SubstSubtree(f, s, ys, c);
      SubstPanes(f, s, ys);
    }
  }

  /** Removing one pane of a container leaves its other panes as they were. */
  lemma {:induction false} RemoveRoot(f: Forest, c: Pane)
    requires Distinct(f) && c in Roots(f)
    ensures Roots(Remove(f, c)) == ReplaceIn(Roots(f), c, [])
  {
    match f
    case Term(t, next) =>
      assert Roots(f)[1..] == Roots(next);
      RootsArePanes(next);
      if t != c { RemoveRoot(next, c); }
    case Split(s, kids, next) =>
      assert Roots(f)[1..] == Roots(next);
      RootsArePanes(next);
      if s != c { RemoveRoot(next, c); }
  }

  lemma ReplaceAt(ws: seq<Pane>, i: nat, ys: seq<Pane>)
    requires i < |ws| && ws[i] !in ws[..i]
    ensures ReplaceIn(ws, ws[i], ys) == ws[..i] + ys + ws[i + 1..]
  {
    if i > 0 { ReplaceAt(ws[1..], i - 1, ys); assert ws[1..][..i - 1] == ws[1..i]; }
  }

  lemma {:induction false} ReplaceMultiset(ws: seq<Pane>, x: Pane, ys: seq<Pane>)
    requires x in ws
    ensures multiset(ReplaceIn(ws, x, ys)) == multiset(ws) - multiset{x} + multiset(ys)
  {
    assert ws == [ws[0]] + ws[1..];
    if ws[0] != x { ReplaceMultiset(ws[1..], x, ys); }
  }

  lemma {:induction false} SubstSelf(f: Forest, x: Pane)
    requires Distinct(f)
    ensures Subst(f, x, SubtreeOf(f, x)) == f
  {
    match f
    case Nil =>
    case Term(t, next) => if t == x { assert Cat(Nil, next) == next; } else { SubstSelf(next, x); }
    case Split(s, kids, next) =>
      if s == x { assert Cat(Nil, next) == next; }
      else if x in Panes(kids) { SubstSelf(kids, x); }
      else { SubstSelf(next, x); }
  }

  /** Before the first pane closes, and after the last one has. */
  lemma ClosingEnds(f: Forest, s: Pane)
    requires WellFormed(f) && s in Panes(f) && SubtreeOf(f, s) == Split(s, KidsOf(f, s), Nil)
    ensures WellFormed(KidsOf(f, s)) && |Roots(KidsOf(f, s))| >= 2
    ensures Closing(f, s, KidsOf(f, s)) == f && Closing(f, s, Nil) == Remove(f, s)
  {
    SubtreeFacts(f, s);
    SubstSelf(f, s);
  }

  /** One round of the loop that closes splitter `s`: pane `c` is still there,
      its subtree is smaller, and closing it moves on to the next stage. */
  lemma ClosingRound(f: Forest, s: Pane, left: Forest, c: Pane)
    requires WellFormed(f) && s in Panes(f) && SubtreeOf(f, s) == Split(s, KidsOf(f, s), Nil)
    requires WellFormed(left) && c in Roots(left) && Panes(left) <= Panes(KidsOf(f, s))
    ensures c in Panes(Closing(f, s, left))
    ensures Panes(SubtreeOf(Closing(f, s, left), c)) < Panes(SubtreeOf(f, s))
    ensures Remove(Closing(f, s, left), c) == Closing(f, s, Remove(left, c))
    ensures WellFormed(Remove(left, c)) && Panes(Remove(left, c)) <= Panes(left)
    ensures multiset(Roots(Remove(left, c))) == multiset(Roots(left)) - multiset{c}
  {
    SubtreeFacts(f, s);
    assert Panes(Nil) == {};
    assert Panes(SubtreeOf(f, s)) == {s} + Panes(KidsOf(f, s)) && s !in Panes(KidsOf(f, s));
    ClosingSubtree(f, s, left, c);
    ClosingStep(f, s, left, c);
    RootsArePanes(left);
    SubtreeFacts(left, c);
    RemoveFacts(left, c);
    RemoveRoot(left, c);
    ReplaceMultiset(Roots(left), c, []);
  }

  // -------------------------------------------------------- the top level

  /** The first `n` widgets of a container, and the others. */
  function TakeTop(f: Forest, n: nat): Forest {
    if n == 0 then Nil
    else
      match f
      case Nil => Nil
      case Term(t, next) => Term(t, TakeTop(next, n - 1))
      case Split(s, kids, next) => Split(s, kids, TakeTop(next, n - 1))
  }

  function DropTop(f: Forest, n: nat): Forest {
    if n == 0 || f.Nil? then f else DropTop(f.next, n - 1)
  }

  /** `t` goes in before widget number `n`. */
  function InsertTop(f: Forest, n: nat, t: Forest): Forest {
    Cat(TakeTop(f, n), Cat(t, DropTop(f, n)))
  }

  lemma {:induction false} TopFacts(f: Forest, n: nat)
    requires n <= |Roots(f)|
    ensures Cat(TakeTop(f, n), DropTop(f, n)) == f
    ensures Roots(TakeTop(f, n)) == Roots(f)[..n] && Roots(DropTop(f, n)) == Roots(f)[n..]
  {
    if n > 0 {
      TopFacts(f.next, n - 1);
      assert Roots(f)[1..] == Roots(f.next);
    }
  }

  /** A piece of layout that enters at the top is one more widget there, and
      everything else stays. */
  lemma InsertTopFacts(f: Forest, n: nat, t: Forest)
    requires WellFormed(f) && WellFormed(t) && Panes(f) !! Panes(t) && n <= |Roots(f)|
    ensures WellFormed(InsertTop(f, n, t)) && Panes(InsertTop(f, n, t)) == Panes(f) + Panes(t)
    ensures Roots(InsertTop(f, n, t)) == Roots(f)[..n] + Roots(t) + Roots(f)[n..]
    ensures multiset(Leaves(InsertTop(f, n, t))) == multiset(Leaves(f)) + multiset(Leaves(t))
  {
    hide WellFormed, Panes, Roots, Leaves, Cat, TakeTop, DropTop;
    var a, b := TakeTop(f, n), DropTop(f, n);
    TopFacts(f, n);
    CatAll(a, b);
    CatAll(t, b);
    CatAll(a, Cat(t, b));
  }

  lemma CatAll(a: Forest, b: Forest)
    ensures WellFormed(Cat(a, b)) <==> WellFormed(a) && WellFormed(b) && Panes(a) !! Panes(b)
    ensures Panes(Cat(a, b)) == Panes(a) + Panes(b) && Roots(Cat(a, b)) == Roots(a) + Roots(b)
    ensures multiset(Leaves(Cat(a, b))) == multiset(Leaves(a)) + multiset(Leaves(b))
  {
    CatFacts(a, b);
    CatLeaves(a, b);
    CatDistinct(a, b);
    CatWellFormed(a, b);
  }

  lemma InsertTopNext(f: Forest, n: nat, t: Forest)
    requires n > 0
    ensures f.Term? ==> InsertTop(f, n, t) == Term(f.t, InsertTop(f.next, n - 1, t))
    ensures f.Split? ==> InsertTop(f, n, t) == Split(f.s, f.kids, InsertTop(f.next, n - 1, t))
  {
  }

  /** Opening a tab and closing it gives back the very same layout. */
  lemma {:induction false} OpenThenRemove(f: Forest, n: nat, x: Pane)
    requires n <= |Roots(f)| && x !in Panes(f)
    ensures Remove(InsertTop(f, n, Term(x, Nil)), x) == f
  {
    if n == 0 {
      assert Cat(Term(x, Nil), f) == Term(x, Cat(Nil, f));
    } else {
      OpenThenRemove(f.next, n - 1, x);
      InsertTopNext(f, n, Term(x, Nil));
    }
  }

  /** Where a widget is, from the left. */
  function IndexIn(ws: seq<Pane>, x: Pane): (i: nat)
    ensures x in ws ==> i < |ws| && ws[i] == x && x !in ws[..i]
  {
    if ws == [] || ws[0] == x then 0 else 1 + IndexIn(ws[1..], x)
  }

  /** Replacing a top-level widget is taking it out and inserting at its place. */
  lemma {:induction false} SubstIsInsert(f: Forest, x: Pane, t: Forest)
    requires Distinct(f) && x in Roots(f)
    ensures Subst(f, x, t) == InsertTop(Remove(f, x), IndexIn(Roots(f), x), t)
  {
    TopLevel(f, x, t);
    if Roots(f)[0] != x {
      hide Subst, Remove, InsertTop, Roots, Panes, Distinct, IndexIn;
      SubstIsInsert(f.next, x, t);
      InsertTopNext(Remove(f, x), IndexIn(Roots(f), x), t);
    }
  }

  /** One step along the top level. */
  lemma TopLevel(f: Forest, x: Pane, t: Forest)
    requires Distinct(f) && x in Roots(f)
    ensures f != Nil && Distinct(f.next)
    ensures Roots(f)[0] == x ==>
              Subst(f, x, t) == Cat(t, f.next) && Remove(f, x) == f.next && IndexIn(Roots(f), x) == 0
              && InsertTop(f.next, 0, t) == Cat(t, f.next)
    ensures Roots(f)[0] != x ==>
              && x in Roots(f.next) && IndexIn(Roots(f), x) == 1 + IndexIn(Roots(f.next), x)
              && (f.Term? ==> Subst(f, x, t) == Term(f.t, Subst(f.next, x, t)) && Remove(f, x) == Term(f.t, Remove(f.next, x)))
              && (f.Split? ==> Subst(f, x, t) == Split(f.s, f.kids, Subst(f.next, x, t))
                               && Remove(f, x) == Split(f.s, f.kids, Remove(f.next, x)))
  {
    hide Cat;
    assert Roots(f)[1..] == Roots(f.next);
    RootsArePanes(f.next);
    assert TakeTop(f.next, 0) == Nil && DropTop(f.next, 0) == f.next;
    NilCat(Cat(t, f.next));
  }

  lemma NilCat(f: Forest)
    ensures Cat(Nil, f) == f
  {
  }

  lemma {:induction false} RootRemoved(f: Forest, x: Pane)
    requires Distinct(f) && x in Roots(f)
    ensures Roots(Remove(f, x)) == ReplaceIn(Roots(f), x, []) && |Roots(Remove(f, x))| == |Roots(f)| - 1
    ensures Panes(Remove(f, x)) <= Panes(f) && Distinct(Remove(f, x))
  {
    RootsArePanes(f);
    assert Roots(f)[1..] == Roots(f.next);
    if Roots(f)[0] != x {
      RootsArePanes(f.next);
      RootRemoved(f.next, x);
    }
  }

  lemma {:induction false} IndexAfter(ws: seq<Pane>, x: Pane, y: Pane)
    requires x in ws && y in ws && x != y
    ensures y in ReplaceIn(ws, x, [])
    ensures IndexIn(ReplaceIn(ws, x, []), y) == IndexIn(ws, y) - (if IndexIn(ws, x) < IndexIn(ws, y) then 1 else 0)
  {
    if ws[0] != x && ws[0] != y {
      IndexAfter(ws[1..], x, y);
      assert ReplaceIn(ws, x, [])[1..] == ReplaceIn(ws[1..], x, []);
    } else if ws[0] == x {
      assert ReplaceIn(ws, x, []) == ws[1..];
    } else {
      assert ReplaceIn(ws, x, [])[0] == y;
    }
  }

  /** Two top-level widgets may be taken out in either order. */
  lemma {:induction false} RemoveTwo(f: Forest, x: Pane, y: Pane)
    requires Distinct(f) && x in Roots(f) && y in Roots(f) && x != y
    ensures Remove(Remove(f, x), y) == Remove(Remove(f, y), x)
  {
    TopLevel(f, x, Nil);
    TopLevel(f, y, Nil);
    RootsArePanes(f.next);
    if Roots(f)[0] != x && Roots(f)[0] != y {
      RemoveTwo(f.next, x, y);
      RootRemoved(f.next, x);
      RootRemoved(f.next, y);
    }
  }
}
