/** The queue of top-level callbacks of callback.c, with the wake-up that drains
    it from the event loop. */
module CallbackQueue {

  /** struct IdempotentCallback. `addr` stands for its own address, which the
      queue entry holds as its context. */
  class IdempotentCallback {
    const addr: int
    const ctx: int
    var queued: bool

    constructor (addr: int, ctx: int)
      ensures this.addr == addr && this.ctx == ctx && !queued
    {
      this.addr, this.ctx := addr, ctx;
      queued := false;
    }
  }

  /** A function and its context; run_idempotent_callback is told apart. */
  datatype Target = Plain(fn: int, ctx: int) | Idem(ic: IdempotentCallback)

  /** The test in delete_callbacks_for_context. */
  predicate BelongsTo(t: Target, ctx: int) {
    match t
    case Plain(_, c) => c == ctx
    case Idem(ic) => ic.addr == ctx || ic.ctx == ctx
  }

  class Callback {
    var next: Callback?
    const target: Target
    ghost const serial: nat

    constructor (target: Target, ghost serial: nat)
      ensures this.target == target && this.serial == serial && next == null
    {
      this.target, this.serial := target, serial;
      next := null;
    }
  }

  datatype Act = Queue(fn: int, ctx: int) | QueueIdem(ic: IdempotentCallback) | Delete(ctx: int)

  function NextCallback(ns: seq<Callback>, i: nat): Callback? {
    if i + 1 < |ns| then ns[i + 1] else null
  }

  ghost predicate DistinctNodes(ns: seq<Callback>) {
    forall i, j :: 0 <= i < j < |ns| ==> ns[i] != ns[j]
  }

  ghost predicate Linked(head: Callback?, tail: Callback?, ns: seq<Callback>)
    reads ns
  {
    && DistinctNodes(ns)
    && (forall i :: 0 <= i < |ns| ==> ns[i].next == NextCallback(ns, i))
    && head == (if ns == [] then null else ns[0])
    && tail == (if ns == [] then null else ns[|ns| - 1])
  }

  /** The entries that do not belong to `ctx`, in order. */
  function Keep(ns: seq<Callback>, ctx: int): seq<Callback> {
    if ns == [] then []
    else
      var n := |ns| - 1;
      var front := Keep(ns[..n], ctx);
      if BelongsTo(ns[n].target, ctx) then front else front + [ns[n]]
  }

  ghost predicate Increasing(ns: seq<Callback>) {
    forall i, j :: 0 <= i < j < |ns| ==> ns[i].serial < ns[j].serial
  }

  /** Deleting filters: what stays is exactly what does not belong to `ctx`, and
      it stays in order. */
  lemma KeepFacts(ns: seq<Callback>, ctx: int)
    ensures forall c :: c in Keep(ns, ctx) <==> c in ns && !BelongsTo(c.target, ctx)
    ensures Increasing(ns) ==> Increasing(Keep(ns, ctx))
  {
    forall c ensures c in Keep(ns, ctx) <==> c in ns && !BelongsTo(c.target, ctx) { KeepMember(ns, ctx, c); }
    if Increasing(ns) { KeepIncreasing(ns, ctx); }
  }

  lemma {:induction false} KeepMember(ns: seq<Callback>, ctx: int, c: Callback)
    ensures c in Keep(ns, ctx) <==> c in ns && !BelongsTo(c.target, ctx)
  {
    if ns != [] {
      var n := |ns| - 1;
      assert ns == ns[..n] + [ns[n]];
      KeepMember(ns[..n], ctx, c);
    }
  }

  lemma {:induction false} KeepIncreasing(ns: seq<Callback>, ctx: int)
    requires Increasing(ns)
    ensures Increasing(Keep(ns, ctx))
  {
    if ns != [] {
      var n := |ns| - 1;
      var front := Keep(ns[..n], ctx);
      KeepIncreasing(ns[..n], ctx);
      forall i | 0 <= i < |front| ensures front[i].serial < ns[n].serial {
        KeepMember(ns[..n], ctx, front[i]);
        var j :| 0 <= j < n && ns[..n][j] == front[i];
        assert ns[j].serial < ns[n].serial;
      }
    }
  }

  lemma KeepOne(ns: seq<Callback>, i: nat, ctx: int)
    requires i < |ns|
    ensures Keep(ns[..i + 1], ctx) == Keep(ns[..i], ctx) + if BelongsTo(ns[i].target, ctx) then [] else [ns[i]]
  {
    assert ns[..i + 1][..i] == ns[..i];
  }

  /** The flags of idempotent callbacks against the waiting entries: each waits
      at most once; `queued` are those whose flag is set, and `dead` those whose
      pending run was deleted. */
  ghost predicate FlagsOk(ns: seq<Callback>, queued: set<IdempotentCallback>, dead: set<IdempotentCallback>) {
    && (forall c :: c in ns && c.target.Idem? ==> c.target.ic in queued - dead)
    && (forall i, j :: 0 <= i < j < |ns| && ns[i].target.Idem? ==> ns[i].target != ns[j].target)
    && (forall ic :: ic in queued - dead ==> WaitsIn(ns, ic))
    && dead <= queued
  }

  ghost predicate WaitsIn(ns: seq<Callback>, ic: IdempotentCallback) {
    exists c :: c in ns && c.target == Idem(ic)
  }

  /** How often an idempotent callback waits. */
  function Times(ns: seq<Callback>, ic: IdempotentCallback): nat {
    if ns == [] then 0
    else Times(ns[..|ns| - 1], ic) + if ns[|ns| - 1].target == Idem(ic) then 1 else 0
  }

  lemma {:induction false} TimesOnce(ns: seq<Callback>, ic: IdempotentCallback)
    requires forall i, j :: 0 <= i < j < |ns| && ns[i].target.Idem? ==> ns[i].target != ns[j].target
    ensures Times(ns, ic) == if WaitsIn(ns, ic) then 1 else 0
  {
    if ns != [] {
      var n := |ns| - 1;
      var front := ns[..n];
      assert ns == front + [ns[n]];
      TimesOnce(front, ic);
      if ns[n].target == Idem(ic) {
        forall i | 0 <= i < n ensures front[i].target != Idem(ic) { assert ns[i] == front[i]; }
        assert ns[n] in ns;
      } else if WaitsIn(ns, ic) {
        var c :| c in ns && c.target == Idem(ic);
        assert c in front;
      } else {
        assert forall c :: c in front ==> c in ns;
      }
    }
  }

  /** A live idempotent callback waits exactly once if its flag is set and not at
      all otherwise; after its pending run was deleted the flag stays set and it
      does not wait. */
  lemma FlagsMeaning(ns: seq<Callback>, queued: set<IdempotentCallback>, dead: set<IdempotentCallback>, ic: IdempotentCallback)
    requires FlagsOk(ns, queued, dead)
    ensures Times(ns, ic) == if ic in queued && ic !in dead then 1 else 0
  {
    TimesOnce(ns, ic);
    if WaitsIn(ns, ic) {
      var c :| c in ns && c.target == Idem(ic);
      assert c.target.ic in queued - dead;
    }
  }

  lemma WaitsOrDead(ns: seq<Callback>, queued: set<IdempotentCallback>, dead: set<IdempotentCallback>, ic: IdempotentCallback)
    requires FlagsOk(ns, queued, dead) && ic in queued
    ensures !WaitsIn(ns, ic) <==> ic in dead
  {
    if WaitsIn(ns, ic) {
      var c :| c in ns && c.target == Idem(ic);
      assert c.target.ic in queued - dead;
    }
  }

  lemma FlagsQueuePlain(ns: seq<Callback>, c: Callback, queued: set<IdempotentCallback>, dead: set<IdempotentCallback>)
    requires FlagsOk(ns, queued, dead) && c.target.Plain?
    ensures FlagsOk(ns + [c], queued, dead)
  {
    forall ic | ic in queued - dead ensures WaitsIn(ns + [c], ic) {
      var d :| d in ns && d.target == Idem(ic);
      assert d in ns + [c];
    }
  }

  lemma FlagsQueueIdem(ns: seq<Callback>, c: Callback, queued: set<IdempotentCallback>, dead: set<IdempotentCallback>)
    requires FlagsOk(ns, queued, dead) && c.target.Idem? && c.target.ic !in queued
    ensures FlagsOk(ns + [c], queued + {c.target.ic}, dead)
  {
    forall ic | ic in queued - dead ensures WaitsIn(ns + [c], ic) {
      var d :| d in ns && d.target == Idem(ic);
      assert d in ns + [c];
    }
    assert c in ns + [c];
    forall i | 0 <= i < |ns| && ns[i].target.Idem? ensures ns[i].target != c.target { assert ns[i] in ns; }
  }

  lemma FlagsDequeue(ns: seq<Callback>, queued: set<IdempotentCallback>, dead: set<IdempotentCallback>)
    requires FlagsOk(ns, queued, dead) && ns != []
    ensures
      var t := ns[0].target;
      FlagsOk(ns[1..], if t.Idem? then queued - {t.ic} else queued, dead)
  {
    var t := ns[0].target;
    var queued' := if t.Idem? then queued - {t.ic} else queued;
    assert ns[0] in ns;
    forall c | c in ns[1..] && c.target.Idem? ensures c.target.ic in queued' - dead {
      var i :| 0 <= i < |ns| - 1 && ns[1..][i] == c;
      assert ns[i + 1] == c && c in ns;
    }
    forall ic | ic in queued' - dead ensures WaitsIn(ns[1..], ic) {
      assert ic in queued - dead;
      var c :| c in ns && c.target == Idem(ic);
      assert c in ns[1..];
    }
  }

  /** The idempotent callbacks whose pending run a deletion takes away. */
  function Killed(ns: seq<Callback>, ctx: int): set<IdempotentCallback> {
    set c | c in ns && c.target.Idem? && BelongsTo(c.target, ctx) :: c.target.ic
  }

  lemma {:induction false} KeepUnique(ns: seq<Callback>, ctx: int)
    requires forall i, j :: 0 <= i < j < |ns| && ns[i].target.Idem? ==> ns[i].target != ns[j].target
    ensures
      var k := Keep(ns, ctx);
      forall i, j :: 0 <= i < j < |k| && k[i].target.Idem? ==> k[i].target != k[j].target
  {
    if ns != [] {
      var n := |ns| - 1;
      var front := ns[..n];
      var k := Keep(front, ctx);
      forall i, j | 0 <= i < j < n && front[i].target.Idem? ensures front[i].target != front[j].target {
        assert ns[i] == front[i] && ns[j] == front[j];
      }
      KeepUnique(front, ctx);
      forall i | 0 <= i < |k| && k[i].target.Idem? ensures k[i].target != ns[n].target {
        KeepMember(front, ctx, k[i]);
        var j :| 0 <= j < n && front[j] == k[i];
        assert ns[j] == front[j];
      }
    }
  }

  lemma FlagsDelete(ns: seq<Callback>, queued: set<IdempotentCallback>, dead: set<IdempotentCallback>, ctx: int)
    requires FlagsOk(ns, queued, dead)
    ensures FlagsOk(Keep(ns, ctx), queued, dead + Killed(ns, ctx))
  {
    KeepUnique(ns, ctx);
    var k, dead' := Keep(ns, ctx), dead + Killed(ns, ctx);
    forall c | c in k && c.target.Idem? ensures c.target.ic in queued - dead' {
      KeepMember(ns, ctx, c);
      assert c.target.ic in queued - dead;
      forall d | d in ns && d.target.Idem? && BelongsTo(d.target, ctx) ensures d.target.ic != c.target.ic {
        assert d.target == Idem(d.target.ic) && c.target == Idem(c.target.ic);
      }
    }
    forall d | d in ns && d.target.Idem? ensures d.target.ic in queued { assert d.target.ic in queued - dead; }
    forall ic | ic in queued - dead' ensures WaitsIn(k, ic) {
      assert ic in queued - dead;
      var c :| c in ns && c.target == Idem(ic);
      KeepMember(ns, ctx, c);
    }
  }

  /** The serial numbers say who came first: those that ran, the one that is
      running, and those that wait, in this order. */
  ghost predicate InOrder(ran: seq<Callback>, running: Callback?, ns: seq<Callback>, serials: nat) {
    && Increasing(ran + (if running == null then [] else [running]) + ns)
    && (forall c :: c in ran ==> c.serial < serials)
    && (running != null ==> running.serial < serials)
    && (forall c :: c in ns ==> c.serial < serials)
  }

  /** The queue as its callers see it: who waits, in order, and whose flag is set. */
  datatype Waiting = Waiting(targets: seq<Target>, queued: set<IdempotentCallback>)

  function Targets(ns: seq<Callback>): seq<Target> { seq(|ns|, i requires 0 <= i < |ns| => ns[i].target) }

  /** Those that neither have the context themselves nor stand for a callback that
      has it, or is it. */
  ghost function Others(ts: seq<Target>, ctx: int): seq<Target> {
    if ts == [] then []
    else
      var front, t := Others(ts[..|ts| - 1], ctx), ts[|ts| - 1];
      match t
      case Plain(_, k) => if k == ctx then front else front + [t]
      case Idem(ic) => if ic.addr == ctx || ic.ctx == ctx then front else front + [t]
  }

  ghost function Effect(w: Waiting, a: Act): Waiting {
    match a
    case Queue(fn, ctx) => w.(targets := w.targets + [Plain(fn, ctx)])
    case QueueIdem(ic) => if ic in w.queued then w else Waiting(w.targets + [Idem(ic)], w.queued + {ic})
    case Delete(ctx) => w.(targets := Others(w.targets, ctx))
  }

  ghost function EffectOf(w: Waiting, script: seq<Act>): Waiting {
    if script == [] then w else Effect(EffectOf(w, script[..|script| - 1]), script[|script| - 1])
  }

  lemma {:induction false} KeepIsOthers(ns: seq<Callback>, ctx: int)
    ensures Targets(Keep(ns, ctx)) == Others(Targets(ns), ctx)
  {
    if ns != [] {
      var n := |ns| - 1;
      KeepIsOthers(ns[..n], ctx);
      assert Targets(ns)[..n] == Targets(ns[..n]);
    }
  }

  lemma TargetsSnoc(ns: seq<Callback>, more: seq<Callback>)
    requires |more| == |ns| + 1 && more[..|ns|] == ns
    ensures Targets(more) == Targets(ns) + [more[|ns|].target]
  {
    assert forall i :: 0 <= i < |ns| ==> more[i] == more[..|ns|][i];
  }

  class CallbackQueue {
    var cbcurr: Callback?
    var cbhead: Callback?
    var cbtail: Callback?
    ghost var spine: seq<Callback>

    /** Single-shot timers that were posted to drain the queue and have not run
        yet, and whether one of them is running. */
    var posted: nat
    var draining: bool

    /** Every entry ever queued has a serial number and has run, is running,
        waits, or was deleted. */
    ghost var serials: nat
    ghost var nodes: set<Callback>
    ghost var executed: seq<Callback>
    ghost var deleted: set<Callback>

    /** The idempotent callbacks there are, and those of them whose pending run
        was deleted. */
    ghost var ics: set<IdempotentCallback>
    ghost var dead: set<IdempotentCallback>

    ghost function Queued(): set<IdempotentCallback>
      reads this, ics
    {
      set ic | ic in ics && ic.queued
    }

    ghost function Waits(): Waiting
      reads this, ics
    {
      Waiting(Targets(spine), Queued())
    }

    ghost predicate Accounted()
      reads this
    {
      && (forall c :: c in nodes ==> c in executed || c == cbcurr || c in spine || c in deleted)
      && (forall c :: c in spine ==> c in nodes)
      && (cbcurr != null ==> cbcurr in nodes)
    }

    /** What was deleted has not run, and does not wait. */
    ghost predicate Gone()
      reads this
    {
      forall c :: c in deleted ==> c in nodes && c !in executed && c !in spine && c != cbcurr
    }

    /** Whoever is in the queue will be run. */
    ghost predicate Woken()
      reads this
    {
      && (cbhead != null ==> posted > 0 || draining)
      && (cbcurr != null ==> draining)
    }

    ghost predicate Shape()
      reads this, spine
    {
      && Linked(cbhead, cbtail, spine)
      && InOrder(executed, cbcurr, spine, serials)
      && Accounted()
      && Gone()
      && Woken()
    }

    ghost predicate Valid()
      reads this, spine, ics
    {
      Shape() && FlagsOk(spine, Queued(), dead)
    }

    constructor ()
      ensures Valid() && ics == {} && nodes == {} && spine == [] && executed == [] && !draining && posted == 0 && fresh(this)
    {
      cbcurr, cbhead, cbtail := null, null, null;
      spine, nodes, executed, deleted, ics, dead := [], {}, [], {}, {}, {};
      posted, draining, serials := 0, false, 0;
    }

    /** A new idempotent callback, not queued. */
    method Register(ic: IdempotentCallback)
      requires Valid() && ic !in ics && !ic.queued
      modifies this`ics
      ensures Valid() && ics == old(ics) + {ic}
    {
      hide Linked, InOrder;
      ghost var q := Queued();
      ics := ics + {ic};
      assert Queued() == q;
    }

    /** Links a new node in at the end. */
    method LinkLast(cb: Callback)
      requires Linked(cbhead, cbtail, spine) && cb !in spine && cb.next == null
      modifies this`cbhead, this`cbtail, this`spine, cbtail
      ensures spine == old(spine) + [cb] && Linked(cbhead, cbtail, spine)
      ensures old(cbhead) != null ==> cbhead == old(cbhead)
    {
      LinkedSnoc(cbhead, cbtail, spine, cb);
      if cbtail != null { cbtail.next := cb; } else { cbhead := cb; }
      cbtail := cb;
      spine := spine + [cb];
    }

    /** queue_toplevel_callback. */
    method Enqueue(target: Target)
      requires Shape()
      modifies this`cbhead, this`cbtail, this`spine, this`posted, this`serials, this`nodes, cbtail
      ensures Shape()
      ensures |spine| == |old(spine)| + 1 && spine[..|old(spine)|] == old(spine)
      ensures spine[|old(spine)|].target == target && nodes == old(nodes) + {spine[|old(spine)|]}
      ensures fresh(spine[|old(spine)|]) && posted == old(posted) + if old(cbhead) == null && cbcurr == null then 1 else 0
    {
      hide Linked, InOrder;
      var cb := new Callback(target, serials);
      if cbhead == null && cbcurr == null { posted := posted + 1; }
      InOrderSnoc(executed, cbcurr, spine, serials, cb);
      LinkLast(cb);
      serials := serials + 1;
      nodes := nodes + {cb};
    }

    /** queue_toplevel_callback for a caller's own function. */
    method QueueToplevel(fn: int, ctx: int)
      requires Valid()
      modifies this`cbhead, this`cbtail, this`spine, this`posted, this`serials, this`nodes, cbtail
      ensures Valid()
      ensures |spine| == |old(spine)| + 1 && spine[..|old(spine)|] == old(spine)
      ensures spine[|old(spine)|].target == Plain(fn, ctx) && fresh(nodes - old(nodes))
      ensures posted == old(posted) + if old(cbhead) == null && cbcurr == null then 1 else 0
      ensures Waits() == Effect(old(Waits()), Queue(fn, ctx))
    {
      hide Linked, InOrder;
      ghost var ns, q := spine, Queued();
      Enqueue(Plain(fn, ctx));
      TargetsSnoc(ns, spine);
      assert spine == ns + [spine[|ns|]];
      assert Queued() == q;
      FlagsQueuePlain(ns, spine[|ns|], q, dead);
    }

    /** queue_idempotent_callback: a second request while one is waiting changes
        nothing. */
    method QueueIdempotent(ic: IdempotentCallback)
      requires Valid() && ic in ics
      modifies this`cbhead, this`cbtail, this`spine, this`posted, this`serials, this`nodes, cbtail, ic
      ensures Valid() && ic.queued && fresh(nodes - old(nodes))
      ensures !WaitsIn(spine, ic) <==> ic in dead
      ensures old(ic.queued) ==> spine == old(spine)
      ensures !old(ic.queued) ==>
        && |spine| == |old(spine)| + 1 && spine[..|old(spine)|] == old(spine)
        && spine[|old(spine)|].target == Idem(ic)
      ensures posted == old(posted) + if !old(ic.queued) && old(cbhead) == null && cbcurr == null then 1 else 0
      ensures Waits() == Effect(old(Waits()), QueueIdem(ic))
    {
      hide Linked, InOrder, FlagsOk, WaitsIn;
      if ic.queued {
        WaitsOrDead(spine, Queued(), dead, ic);
        return;
      }
      ghost var ns, q := spine, Queued();
      ic.queued := true;
      Enqueue(Idem(ic));
      TargetsSnoc(ns, spine);
      assert spine == ns + [spine[|ns|]];
      assert Queued() == q + {ic};
      FlagsQueueIdem(ns, spine[|ns|], q, dead);
      WaitsOrDead(spine, Queued(), dead, ic);
    }

    /** The relinking loop: `kept` is the new list so far, of which the last node
        still has its old successor. */
    method Relink(ctx: int)
      requires Linked(cbhead, cbtail, spine)
      modifies this`cbhead, this`cbtail, this`spine, spine
      ensures spine == Keep(old(spine), ctx) && Linked(cbhead, cbtail, spine)
    {
      hide HalfLinked, RestLinked, Keep, Linked;
      ghost var ns := spine;
      var newhead: Callback?, newtail: Callback? := null, null;
      ghost var kept: seq<Callback> := [];
      ghost var i := 0;
      RelinkStart(cbhead, cbtail, ns, ctx);
      while cbhead != null
        invariant 0 <= i <= |ns| && kept == Keep(ns[..i], ctx) && DistinctNodes(ns)
        invariant RestLinked(cbhead, ns, i) && HalfLinked(newhead, newtail, kept)
        decreases |ns| - i
      {
        var cb := cbhead;
        RelinkStep(newtail, newhead, cbhead, ns, i, kept, ctx);
        cbhead := cbhead.next;
        if !BelongsTo(cb.target, ctx) {
          newhead, newtail := AddKept(newhead, newtail, cb, kept, ns, i + 1, cbhead);
          kept := kept + [cb];
        }
        i := i + 1;
      }
      RelinkEnd(newhead, newtail, ns, i, kept, ctx);
      Terminate(newhead, newtail, kept);
      cbhead := newhead;
      cbtail := newtail;
      spine := kept;
    }

    /** `newtail->next = NULL`. */
    static method Terminate(newhead: Callback?, newtail: Callback?, ghost kept: seq<Callback>)
      requires HalfLinked(newhead, newtail, kept)
      modifies newtail
      ensures Linked(newhead, newtail, kept)
    {
      if newtail != null { newtail.next := null; }
    }

    /** `newtail->next = cb`, or the first node of the new list. */
    static method AddKept(newhead: Callback?, newtail: Callback?, cb: Callback, ghost kept: seq<Callback>,
                          ghost ns: seq<Callback>, ghost i: nat, ghost rest: Callback?)
      returns (newhead': Callback?, newtail': Callback?)
      requires HalfLinked(newhead, newtail, kept) && cb !in kept && i <= |ns| && RestLinked(rest, ns, i)
      requires newtail != null ==> newtail !in ns[i..]
      modifies newtail
      ensures HalfLinked(newhead', newtail', kept + [cb]) && RestLinked(rest, ns, i)
    {
      newhead', newtail' := newhead, cb;
      if newhead == null { newhead' := cb; } else { newtail.next := cb; }
      forall j | 0 <= j < |kept| ensures NextCallback(kept + [cb], j) == if j == |kept| - 1 then cb else NextCallback(kept, j) { }
    }

    /** delete_callbacks_for_context: an order-preserving filter. The flag of an
        idempotent callback is left as it is. */
    method DeleteForContext(ctx: int)
      requires Valid()
      modifies this`cbhead, this`cbtail, this`spine, this`dead, this`deleted, spine
      ensures Valid() && spine == Keep(old(spine), ctx) && dead == old(dead) + Killed(old(spine), ctx)
      ensures deleted == old(deleted) + set c | c in old(spine) && BelongsTo(c.target, ctx)
      ensures forall c :: c in spine <==> c in old(spine) && !(match c.target case Plain(_, k) => k == ctx case Idem(ic) => ic.addr == ctx || ic.ctx == ctx)
      ensures forall c :: c in deleted <==> c in old(deleted) || (c in old(spine) && c !in spine)
      ensures forall ic :: ic in dead <==> ic in old(dead) || (WaitsIn(old(spine), ic) && !WaitsIn(spine, ic))
      ensures Waits() == Effect(old(Waits()), Delete(ctx))
    {
      hide Linked, InOrder, FlagsOk, Keep, Killed, BelongsTo;
      ghost var ns, q := spine, Queued();
      FlagsDelete(ns, q, dead, ctx);
      InOrderKeep(executed, cbcurr, ns, serials, ctx);
      InOrderApart(executed, cbcurr, ns, serials);
      HeadOf(cbhead, cbtail, ns);
      Relink(ctx);
      HeadOf(cbhead, cbtail, spine);
      dead := dead + Killed(ns, ctx);
      deleted := deleted + set c | c in ns && BelongsTo(c.target, ctx);
      KeepSplit(ns, ctx);
      assert Queued() == q;
      assert Woken();
      assert Accounted();
      KeepLeavesOut(ns, ctx);
      assert Gone();
      DeletedByFields(ns, ctx);
      KeepIsOthers(ns, ctx);
    }

    ghost predicate ScriptOk(script: seq<Act>)
      reads this
    {
      forall a :: a in script && a.QueueIdem? ==> a.ic in ics
    }

    /** What a callback, or anyone else, may do to the queue. */
    method Act1(a: Act)
      requires Valid() && ScriptOk([a])
      modifies this`cbhead, this`cbtail, this`spine, this`posted, this`serials, this`nodes, this`dead, this`deleted, nodes, ics
      ensures Valid() && fresh(nodes - old(nodes)) && old(dead) <= dead && old(deleted) <= deleted
      ensures (cbcurr != null ==> posted == old(posted)) && Waits() == Effect(old(Waits()), a)
    {
      hide Linked, InOrder, FlagsOk, Keep, Killed, Effect;
      assert a in [a];
      TailOf(cbhead, cbtail, spine);
      match a
      case Queue(fn, ctx) => QueueToplevel(fn, ctx);
      case QueueIdem(ic) => QueueIdempotent(ic);
      case Delete(ctx) => DeleteForContext(ctx);
    }

    method RunScript(script: seq<Act>)
      requires Valid() && ScriptOk(script)
      modifies this`cbhead, this`cbtail, this`spine, this`posted, this`serials, this`nodes, this`dead, this`deleted, nodes, ics
      ensures Valid() && fresh(nodes - old(nodes)) && (script == [] ==> spine == old(spine))
      ensures old(dead) <= dead && old(deleted) <= deleted && (cbcurr != null ==> posted == old(posted))
      ensures Waits() == EffectOf(old(Waits()), script)
    {
      hide Linked, InOrder, FlagsOk, Effect;
      var i := 0;
      while i < |script|
        invariant 0 <= i <= |script| && Valid() && fresh(nodes - old(nodes)) && (i == 0 ==> spine == old(spine))
        invariant old(dead) <= dead && old(deleted) <= deleted && (cbcurr != null ==> posted == old(posted))
        invariant Waits() == EffectOf(old(Waits()), script[..i])
      {
        assert script[..i + 1][..i] == script[..i];
        Act1(script[i]);
        i := i + 1;
      }
      assert script[..i] == script;
    }

    /** The first half of run_toplevel_callbacks: the head entry becomes the
        running one, and an idempotent callback may be queued again. */
    method TakeHead()
      requires Valid() && draining && cbcurr == null && cbhead != null
      modifies this`cbcurr, this`cbhead, this`cbtail, this`spine, ics
      ensures Valid() && old(spine) != [] && cbcurr == old(spine)[0] && spine == old(spine)[1..]
      ensures cbcurr.target.Idem? ==> cbcurr.target.ic in ics - dead && !cbcurr.target.ic.queued
      ensures Waits() == Waiting(old(Waits()).targets[1..], if cbcurr.target.Idem? then old(Queued()) - {cbcurr.target.ic} else old(Queued()))
    {
      hide InOrder, FlagsOk, Linked;
      ghost var ns, q := spine, Queued();
      LinkedTail(cbhead, cbtail, ns);
      InOrderTake(executed, ns, serials);
      FlagsDequeue(ns, q, dead);
      HeadFlag(ns, q, dead);
      cbcurr := cbhead;
      cbhead := cbhead.next;
      if cbhead == null { cbtail := null; }
      spine := spine[1..];
      if cbcurr.target.Idem? { cbcurr.target.ic.queued := false; }
      assert Queued() == if ns[0].target.Idem? then q - {ns[0].target.ic} else q;
      assert ns == [ns[0]] + spine;
    }

    /** Not an idempotent callback whose run was deleted. */
    static predicate Alive(c: Callback, dead: set<IdempotentCallback>) {
      c.target.Idem? ==> c.target.ic !in dead
    }

    /** run_toplevel_callbacks; the callback does what `script` says. */
    method RunOne(script: seq<Act>) returns (doneSomething: bool)
      requires Valid() && draining && cbcurr == null && ScriptOk(script)
      modifies this`cbcurr, this`cbhead, this`cbtail, this`spine, this`posted, this`serials, this`nodes
      modifies this`dead, this`deleted, this`executed, nodes, ics
      ensures Valid() && cbcurr == null && fresh(nodes - old(nodes))
      ensures (doneSomething <==> old(spine) != []) && posted == old(posted)
      ensures !doneSomething ==> spine == old(spine) && executed == old(executed)
      ensures old(dead) <= dead && old(deleted) <= deleted
      ensures doneSomething ==> executed == old(executed) + [old(spine)[0]] && old(spine)[0] !in deleted && Alive(old(spine)[0], old(dead))
      ensures doneSomething && script == [] ==> spine == old(spine)[1..]
      ensures doneSomething ==>
        var w, t := old(Waits()), old(spine[0].target);
        Waits() == EffectOf(Waiting(w.targets[1..], if t.Idem? then w.queued - {t.ic} else w.queued), script)
    {
      hide Linked, InOrder, FlagsOk;
      HeadOf(cbhead, cbtail, spine);
      if cbhead == null { return false; }
      TakeHead();
      RunScript(script);
      InOrderDone(executed, cbcurr, spine, serials);
      ghost var q := Queued();
      executed := executed + [cbcurr];
      cbcurr := null;
      assert Queued() == q;
      assert Accounted();
      return true;
    }

    /** The event loop delivers a posted single-shot timer: `while
        (run_toplevel_callbacks());`. Callback number `k` does what `env(k)` says,
        and from number `n` on callbacks leave the queue alone. */
    method Drain(env: nat -> seq<Act>, ghost n: nat)
      requires Valid() && posted > 0 && !draining && cbcurr == null
      requires forall k: nat :: ScriptOk(env(k)) && (k >= n ==> env(k) == [])
      modifies this, nodes, ics
      ensures Valid() && spine == [] && !draining && old(executed) <= executed && ics == old(ics)
      ensures old(dead) <= dead && old(deleted) <= deleted && posted == old(posted) - 1
      ensures n == 0 ==> executed == old(executed) + old(spine)
      ensures forall i :: |old(executed)| <= i < |executed| ==> executed[i] !in deleted && Alive(executed[i], old(dead))
    {
      hide Linked, InOrder, FlagsOk;
      ghost var q := Queued();
      posted := posted - 1;
      draining := true;
      assert Queued() == q;
      var k: nat := 0;
      var more := true;
      while more
        invariant Valid() && draining && cbcurr == null && fresh(nodes - old(nodes)) && ics == old(ics)
        invariant old(executed) <= executed && (!more ==> spine == [])
        invariant old(dead) <= dead && old(deleted) <= deleted && posted == old(posted) - 1
        invariant n == 0 ==> executed + spine == old(executed) + old(spine)
        invariant forall i :: |old(executed)| <= i < |executed| ==> executed[i] !in deleted && Alive(executed[i], old(dead))
        invariant forall k: nat :: ScriptOk(env(k))
        decreases if k < n then n - k else 0, |spine|, more
      {
        more := RunOne(env(k));
        k := k + 1;
      }
      HeadOf(cbhead, cbtail, spine);
      q := Queued();
      draining := false;
      assert Queued() == q;
    }
  }

  /** Queued, deleted with its context, and queued again: the flag is set, and
      nothing waits. */
  method QueueDeleteQueue(addr: int, ctx: int) returns (queue: CallbackQueue, ic: IdempotentCallback)
    ensures queue.Valid() && ic in queue.ics && ic.queued && ic in queue.dead
    ensures queue.cbhead == null && queue.spine == [] && queue.executed == []
  {
    hide Linked, InOrder, FlagsOk, WaitsIn, Keep, Effect, Others, Targets;
    queue := new CallbackQueue();
    ic := new IdempotentCallback(addr, ctx);
    queue.Register(ic);
    TailOf(queue.cbhead, queue.cbtail, queue.spine);
    queue.QueueIdempotent(ic);
    TailOf(queue.cbhead, queue.cbtail, queue.spine);
    KeepNone(queue.spine, ctx);
    queue.DeleteForContext(ctx);
    TailOf(queue.cbhead, queue.cbtail, queue.spine);
    queue.QueueIdempotent(ic);
    HeadOf(queue.cbhead, queue.cbtail, queue.spine);
  }

  lemma KeepNone(ns: seq<Callback>, ctx: int)
    requires |ns| == 1 && BelongsTo(ns[0].target, ctx)
    ensures Keep(ns, ctx) == []
    ensures ns[0].target.Idem? ==> ns[0].target.ic in Killed(ns, ctx)
  {
    assert ns[..0] == [] && ns[0] in ns;
  }

  lemma TailOf(head: Callback?, tail: Callback?, ns: seq<Callback>)
    requires Linked(head, tail, ns)
    ensures tail != null ==> tail in ns
  {
  }

  lemma LinkedTail(head: Callback?, tail: Callback?, ns: seq<Callback>)
    requires Linked(head, tail, ns) && head != null
    ensures ns != [] && head == ns[0] && Linked(ns[0].next, if ns[0].next == null then null else tail, ns[1..])
  {
    var rest := ns[1..];
    assert ns[0].next == NextCallback(ns, 0);
    forall i | 0 <= i < |rest| ensures rest[i].next == NextCallback(rest, i) {
      assert ns[i + 1].next == NextCallback(ns, i + 1);
    }
  }

  lemma InOrderTake(ran: seq<Callback>, ns: seq<Callback>, serials: nat)
    requires InOrder(ran, null, ns, serials) && ns != []
    ensures InOrder(ran, ns[0], ns[1..], serials)
  {
    assert ran + [] + ns == ran + [ns[0]] + ns[1..];
  }

  lemma InOrderDone(ran: seq<Callback>, c: Callback, ns: seq<Callback>, serials: nat)
    requires InOrder(ran, c, ns, serials)
    ensures InOrder(ran + [c], null, ns, serials)
  {
    assert ran + [c] + ns == (ran + [c]) + [] + ns;
  }

  lemma HeadFlag(ns: seq<Callback>, queued: set<IdempotentCallback>, dead: set<IdempotentCallback>)
    requires FlagsOk(ns, queued, dead) && ns != []
    ensures ns[0].target.Idem? ==> ns[0].target.ic in queued - dead
  {
    assert ns[0] in ns;
  }

  lemma HeadOf(head: Callback?, tail: Callback?, ns: seq<Callback>)
    requires Linked(head, tail, ns)
    ensures head == if ns == [] then null else ns[0]
  {
  }

  lemma KeepLeavesOut(ns: seq<Callback>, ctx: int)
    ensures forall c :: c in Keep(ns, ctx) ==> c in ns && !BelongsTo(c.target, ctx)
  {
    KeepFacts(ns, ctx);
  }

  /** What waits has not run and is not running. */
  lemma InOrderApart(ran: seq<Callback>, running: Callback?, ns: seq<Callback>, serials: nat)
    requires InOrder(ran, running, ns, serials)
    ensures forall c :: c in ns ==> c !in ran && c != running
  {
    var pre := ran + if running == null then [] else [running];
    forall i, j | 0 <= i < |pre| && 0 <= j < |ns| ensures pre[i].serial < ns[j].serial {
      assert (pre + ns)[i] == pre[i] && (pre + ns)[|pre| + j] == ns[j];
    }
    assert forall c :: c in ran ==> c in pre;
    assert running != null ==> running in pre;
  }

  /** Which entries a deletion takes, by what they hold. */
  lemma DeletedByFields(ns: seq<Callback>, ctx: int)
    ensures forall c :: c in Keep(ns, ctx) <==>
              c in ns && !(match c.target case Plain(_, k) => k == ctx case Idem(ic) => ic.addr == ctx || ic.ctx == ctx)
    ensures forall ic :: ic in Killed(ns, ctx) <==> WaitsIn(ns, ic) && !WaitsIn(Keep(ns, ctx), ic)
    ensures forall c :: c in ns ==> (c in Keep(ns, ctx) <==> !BelongsTo(c.target, ctx))
  {
    hide Keep;
    KeepFacts(ns, ctx);
    forall ic ensures ic in Killed(ns, ctx) <==> WaitsIn(ns, ic) && !WaitsIn(Keep(ns, ctx), ic) {
      if ic in Killed(ns, ctx) {
        var c :| c in ns && c.target.Idem? && BelongsTo(c.target, ctx) && c.target.ic == ic;
        assert c.target == Idem(ic);
        forall d | d in Keep(ns, ctx) ensures d.target != Idem(ic) { KeepMember(ns, ctx, d); }
      } else if WaitsIn(ns, ic) {
        var c :| c in ns && c.target == Idem(ic);
        assert c.target.Idem? && c.target.ic == ic;
        KeepMember(ns, ctx, c);
      }
    }
  }

  lemma KeepSplit(ns: seq<Callback>, ctx: int)
    ensures Keep(ns, ctx) != [] ==> ns != []
    ensures forall c :: c in ns ==> c in Keep(ns, ctx) || BelongsTo(c.target, ctx)
    ensures forall c :: c in Keep(ns, ctx) ==> c in ns
  {
    forall c ensures c in Keep(ns, ctx) <==> c in ns && !BelongsTo(c.target, ctx) { KeepMember(ns, ctx, c); }
  }

  ghost predicate HalfLinked(head: Callback?, tail: Callback?, ks: seq<Callback>)
    reads ks
  {
    && DistinctNodes(ks)
    && (forall j :: 0 <= j < |ks| - 1 ==> ks[j].next == NextCallback(ks, j))
    && head == (if ks == [] then null else ks[0])
    && tail == (if ks == [] then null else ks[|ks| - 1])
  }

  ghost predicate RestLinked(head: Callback?, ns: seq<Callback>, i: nat)
    requires i <= |ns|
    reads ns
  {
    && head == (if i < |ns| then ns[i] else null)
    && forall j :: i <= j < |ns| ==> ns[j].next == NextCallback(ns, j)
  }

  lemma RelinkStart(head: Callback?, tail: Callback?, ns: seq<Callback>, ctx: int)
    requires Linked(head, tail, ns)
    ensures DistinctNodes(ns) && RestLinked(head, ns, 0) && HalfLinked(null, null, []) && Keep(ns[..0], ctx) == []
  {
  }

  lemma RelinkStep(tail: Callback?, head: Callback?, rest: Callback, ns: seq<Callback>, i: nat, kept: seq<Callback>, ctx: int)
    requires i <= |ns| && DistinctNodes(ns) && RestLinked(rest, ns, i)
    requires kept == Keep(ns[..i], ctx) && HalfLinked(head, tail, kept)
    ensures i < |ns| && rest == ns[i] && RestLinked(rest.next, ns, i + 1) && rest !in kept
    ensures Keep(ns[..i + 1], ctx) == kept + if BelongsTo(rest.target, ctx) then [] else [rest]
    ensures tail != null ==> tail in ns && tail !in ns[i + 1..] && tail in ns[..i]
  {
    assert ns[i].next == NextCallback(ns, i);
    KeepOne(ns, i, ctx);
    KeepMember(ns[..i], ctx, rest);
    if tail != null {
      KeepMember(ns[..i], ctx, tail);
      var j :| 0 <= j < i && ns[j] == tail;
    }
  }

  lemma RelinkEnd(head: Callback?, tail: Callback?, ns: seq<Callback>, i: nat, kept: seq<Callback>, ctx: int)
    requires i <= |ns| && RestLinked(null, ns, i) && kept == Keep(ns[..i], ctx) && HalfLinked(head, tail, kept)
    ensures kept == Keep(ns, ctx) && (tail != null ==> tail in ns)
  {
    assert i == |ns| && ns[..i] == ns;
    if tail != null { KeepMember(ns, ctx, tail); }
  }

  lemma InOrderKeep(ran: seq<Callback>, running: Callback?, ns: seq<Callback>, serials: nat, ctx: int)
    requires InOrder(ran, running, ns, serials)
    ensures InOrder(ran, running, Keep(ns, ctx), serials)
  {
    var pre := ran + if running == null then [] else [running];
    var kept := Keep(ns, ctx);
    assert Increasing(ns) by {
      forall i, j | 0 <= i < j < |ns| ensures ns[i].serial < ns[j].serial {
        assert (pre + ns)[|pre| + i] == ns[i] && (pre + ns)[|pre| + j] == ns[j];
      }
    }
    KeepIncreasing(ns, ctx);
    forall c | c in kept ensures c in ns { KeepMember(ns, ctx, c); }
    forall i, j | 0 <= i < |pre| && 0 <= j < |kept| ensures pre[i].serial < kept[j].serial {
      assert kept[j] in kept;
      var k :| 0 <= k < |ns| && ns[k] == kept[j];
      assert (pre + ns)[i] == pre[i] && (pre + ns)[|pre| + k] == ns[k];
    }
    forall i, j | 0 <= i < j < |pre| ensures pre[i].serial < pre[j].serial {
      assert (pre + ns)[i] == pre[i] && (pre + ns)[j] == pre[j];
    }
  }

  lemma InOrderSnoc(ran: seq<Callback>, running: Callback?, ns: seq<Callback>, serials: nat, c: Callback)
    requires InOrder(ran, running, ns, serials) && c.serial == serials
    ensures InOrder(ran, running, ns + [c], serials + 1) && c !in ns
  {
    var all := ran + (if running == null then [] else [running]) + ns;
    assert ran + (if running == null then [] else [running]) + (ns + [c]) == all + [c];
    forall i | 0 <= i < |all| ensures all[i].serial < c.serial {
      assert all[i] in ran || all[i] == running || all[i] in ns;
    }
  }

  lemma LinkedSnoc(head: Callback?, tail: Callback?, ns: seq<Callback>, c: Callback)
    requires Linked(head, tail, ns) && c !in ns
    ensures DistinctNodes(ns + [c])
    ensures forall i :: 0 <= i < |ns| ==> NextCallback(ns + [c], i) == if i == |ns| - 1 then c else NextCallback(ns, i)
  {
  }
}
