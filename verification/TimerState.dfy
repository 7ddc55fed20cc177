/** The whole state of timing.c with its history, one step at a time. */
module TimerState {
  import opened Ticks
  import opened TimerQueue

  datatype Event =
    | Added(t: Timer)
    | Fired(t: Timer, due: int)
    | Purged(t: Timer)
    | Expired(ctx: int)

  /** `clock` is the unbounded reading that `now` is the low word of; `steady`
      says that no reading so far went back, and `ahead` that no timer so far was
      asked for in the past. */
  datatype State =
    State(timers: seq<Timer>, contexts: set<int>, now: Word, clock: int, steady: bool, ahead: bool, log: seq<Event>)

  // ----------------------------------------------------------------- history

  /** Context `c` has been scheduled and not expired since. */
  predicate LiveAt(log: seq<Event>, c: int) {
    if log == [] then false
    else
      var e, before := log[|log| - 1], log[..|log| - 1];
      if e.Added? && e.t.ctx == c then true
      else if e.Expired? && e.ctx == c then false
      else LiveAt(before, c)
  }

  /** A timer fires only while its context is live, and is dropped unfired only
      when it is not. */
  ghost predicate LiveFires(log: seq<Event>) {
    forall i :: 0 <= i < |log| ==>
      && (log[i].Fired? ==> LiveAt(log[..i], log[i].t.ctx))
      && (log[i].Purged? ==> !LiveAt(log[..i], log[i].t.ctx))
  }

  /** The unbounded deadlines of the timers that fired, in firing order. */
  function Dues(log: seq<Event>): seq<int> {
    if log == [] then []
    else
      var e, before := log[|log| - 1], Dues(log[..|log| - 1]);
      if e.Fired? then before + [e.due] else before
  }

  /** Those timers themselves. */
  function Fires(log: seq<Event>): seq<Timer> {
    if log == [] then []
    else
      var e, before := log[|log| - 1], Fires(log[..|log| - 1]);
      if e.Fired? then before + [e.t] else before
  }

  ghost function Taken(log: seq<Event>): multiset<Timer> {
    if log == [] then multiset{}
    else
      var e, before := log[|log| - 1], Taken(log[..|log| - 1]);
      if e.Added? then before + multiset{e.t} else before
  }

  ghost function Given(log: seq<Event>): multiset<Timer> {
    if log == [] then multiset{}
    else
      var e, before := log[|log| - 1], Given(log[..|log| - 1]);
      if e.Fired? || e.Purged? then before + multiset{e.t} else before
  }

  lemma LogGrows(log: seq<Event>, e: Event)
    ensures forall c :: LiveAt(log + [e], c) <==>
              (e.Added? && e.t.ctx == c) || (!(e.Expired? && e.ctx == c) && LiveAt(log, c))
    ensures Dues(log + [e]) == if e.Fired? then Dues(log) + [e.due] else Dues(log)
    ensures Fires(log + [e]) == if e.Fired? then Fires(log) + [e.t] else Fires(log)
    ensures Taken(log + [e]) == if e.Added? then Taken(log) + multiset{e.t} else Taken(log)
    ensures Given(log + [e]) == if e.Fired? || e.Purged? then Given(log) + multiset{e.t} else Given(log)
    ensures LiveFires(log + [e]) <==>
              LiveFires(log) && (e.Fired? ==> LiveAt(log, e.t.ctx)) && (e.Purged? ==> !LiveAt(log, e.t.ctx))
  {
    var log' := log + [e];
    assert log'[..|log|] == log;
    forall i | 0 <= i < |log| ensures log'[..i] == log[..i] && log'[i] == log[i] { }
    if LiveFires(log') {
      forall i | 0 <= i < |log|
        ensures (log[i].Fired? ==> LiveAt(log[..i], log[i].t.ctx)) && (log[i].Purged? ==> !LiveAt(log[..i], log[i].t.ctx))
      {
        assert log'[..i] == log[..i];
      }
      assert log'[|log|] == e;
    }
  }

  /** Event `i` schedules context `c`, and nothing after it expires it. */
  predicate LastScheduled(log: seq<Event>, c: int, i: int) {
    && 0 <= i < |log| && log[i].Added? && log[i].t.ctx == c
    && forall j :: i < j < |log| ==> log[j] != Expired(c)
  }

  /** What `LiveAt` means, in both directions. */
  lemma {:induction false} LiveAtMeans(log: seq<Event>, c: int)
    ensures LiveAt(log, c) ==> exists i :: LastScheduled(log, c, i)
    ensures (exists i :: LastScheduled(log, c, i)) ==> LiveAt(log, c)
  {
    if LiveAt(log, c) { LiveWasScheduled(log, c); }
    forall i | LastScheduled(log, c, i) ensures LiveAt(log, c) { ScheduledIsLive(log, c, i); }
  }

  lemma {:induction false} LiveWasScheduled(log: seq<Event>, c: int)
    requires LiveAt(log, c)
    ensures exists i :: LastScheduled(log, c, i)
  {
    var n := |log| - 1;
    if log[n].Added? && log[n].t.ctx == c {
      assert LastScheduled(log, c, n);
    } else {
      LiveWasScheduled(log[..n], c);
      var i :| LastScheduled(log[..n], c, i);
      assert log[..n][i] == log[i];
      forall j | i < j < |log| ensures log[j] != Expired(c) {
        if j < n { assert log[j] == log[..n][j]; }
      }
      assert LastScheduled(log, c, i);
    }
  }

  lemma {:induction false} ScheduledIsLive(log: seq<Event>, c: int, i: int)
    requires LastScheduled(log, c, i)
    ensures LiveAt(log, c)
  {
    var n := |log| - 1;
    if i < n {
      assert log[..n][i] == log[i];
      ScheduledIsLive(log[..n], c, i);
      assert log[n] != Expired(c);
    }
  }

  /** No callback runs for an expired context until that context has been
      scheduled again. */
  lemma FiredWasScheduled(st: State, k: nat)
    requires Inv(st) && k < |st.log| && st.log[k].Fired?
    ensures exists i :: LastScheduled(st.log[..k], st.log[k].t.ctx, i)
  {
    hide LiveAt, Dues, Taken, Given, Sorted;
    LiveAtMeans(st.log[..k], st.log[k].t.ctx);
  }

  // --------------------------------------------------------------- invariant

  predicate Nondecreasing(ds: seq<int>) { forall i, j :: 0 <= i < j < |ds| ==> ds[i] <= ds[j] }

  /** What has fired came in deadline order, and what is still stored comes
      after it. */
  ghost predicate Ordered(st: State) {
    && Nondecreasing(Dues(st.log))
    && (forall d :: d in Dues(st.log) ==> d <= st.clock)
    && (forall d, t :: d in Dues(st.log) && t in st.timers ==> d <= Due(st.clock, t))
    && (forall t :: t in st.timers ==> SetAt(st.clock, t) <= st.clock)
  }

  ghost predicate Inv(st: State) {
    && st.now == ToWord(st.clock)
    && Sorted(st.timers, st.now)
    && (forall t :: t in st.timers ==> Made(st.clock, t) && (st.ahead ==> Spanned(st.clock, t)))
    && (forall c :: c in st.contexts <==> LiveAt(st.log, c))
    && LiveFires(st.log)
    && multiset(st.timers) + Given(st.log) == Taken(st.log)
    && (st.steady && st.ahead ==> Ordered(st))
  }

  // ------------------------------------------------------------------- steps

  function Initial(time: int): State {
    State([], {}, ToWord(time), time, true, true, [])
  }

  /** `now = GETTICKCOUNT()`. */
  function Read(st: State, time: int): State {
    st.(now := ToWord(time), clock := time, steady := st.steady && st.clock <= time)
  }

  /** schedule_timer after its clock reading. */
  function Schedule(st: State, ticks: int, fn: int, ctx: int): State {
    var t, ahead := NewTimer(st.now, ticks, fn, ctx), st.ahead && ticks >= 0;
    if HasKey(st.timers, t) then st.(ahead := ahead)
    else st.(timers := Insert(st.timers, t, st.now), contexts := st.contexts + {ctx}, ahead := ahead, log := st.log + [Added(t)])
  }

  function Expire(st: State, ctx: int): State {
    st.(contexts := st.contexts - {ctx}, log := st.log + [Expired(ctx)])
  }

  /** The head timer goes: unfired if its context has expired, else fired. */
  function DropHead(st: State): State
    requires st.timers != []
  {
    var t := st.timers[0];
    var e := if t.ctx in st.contexts then Fired(t, Due(st.clock, t)) else Purged(t);
    st.(timers := st.timers[1..], log := st.log + [e])
  }

  lemma InitialInv(time: int)
    ensures Inv(Initial(time))
  {
  }

  lemma ReadKeeps(st: State, time: int)
    requires Inv(st) && InReach(st.timers, st.clock, time)
    ensures Inv(Read(st, time))
  {
    hide LiveAt, LiveFires, Dues, Taken, Given, Sorted, Due, SetAt, ToWord;
    OrderSurvivesClock(st.timers, st.clock, time);
  }

  /** Scheduling keeps the invariant, whatever is asked for. */
  lemma ScheduleKeeps(st: State, ticks: int, fn: int, ctx: int)
    requires Inv(st) && -HALF <= ticks < HALF
    ensures Inv(Schedule(st, ticks, fn, ctx))
  {
    hide LiveAt, LiveFires, Dues, Taken, Given, Sorted, Due, SetAt, ToWord, Insert, NewTimer, HasKey, IsDue;
    var t := NewTimer(st.now, ticks, fn, ctx);
    if !HasKey(st.timers, t) {
      var more, log := Insert(st.timers, t, st.now), st.log + [Added(t)];
      NewTimerFields(st.now, ticks, fn, ctx);
      InsertSorted(st.timers, t, st.now);
      assert multiset(more) + Given(log) == Taken(log) by { InsertAdds(st.timers, t, st.now); LogGrows(st.log, Added(t)); }
      assert LiveFires(log) && forall c :: LiveAt(log, c) <==> c in st.contexts + {ctx} by { LogGrows(st.log, Added(t)); }
      assert Dues(log) == Dues(st.log) by { LogGrows(st.log, Added(t)); }
      InsertMembers(st.timers, t, st.now);
      NewTimerMade(st.clock, ticks, fn, ctx);
    }
  }

  /** A timer with this function, this context and this unbounded deadline is
      stored. */
  ghost predicate Asked(st: State, fn: int, ctx: int, due: int) {
    exists t :: t in st.timers && t.fn == fn && t.ctx == ctx && Due(st.clock, t) == due
  }

  /** What is asked for is stored then, with all that was stored before, and is
      live unless its context is not and such a timer was stored already. */
  lemma ScheduleStores(st: State, ticks: int, fn: int, ctx: int)
    requires Inv(st) && -HALF <= ticks < HALF
    ensures
      var st', due := Schedule(st, ticks, fn, ctx), st.clock + if ticks == 0 then 1 else ticks;
      && Asked(st', fn, ctx, due) && Unwrap(st.clock, When(st.now, ticks)) == due
      && (forall u :: u in st.timers ==> u in st'.timers)
      && (forall u :: u in st'.timers && u !in st.timers ==> u.fn == fn && u.ctx == ctx && Due(st.clock, u) == due && SetAt(st.clock, u) == st.clock)
      && (forall c :: c in st'.contexts <==> c in st.contexts || (c == ctx && !Asked(st, fn, ctx, due)))
  {
    hide Sorted, ToWord, Insert, NewTimer, HasKey, When, Unwrap;
    var t, due := NewTimer(st.now, ticks, fn, ctx), st.clock + if ticks == 0 then 1 else ticks;
    ClockWord(st);
    NewTimerMade(st.clock, ticks, fn, ctx);
    NewTimerFields(st.now, ticks, fn, ctx);
    InsertMembers(st.timers, t, st.now);
    AskedByKey(st, t);
  }

  lemma AskedByKey(st: State, t: Timer)
    ensures HasKey(st.timers, t) <==> Asked(st, t.fn, t.ctx, Due(st.clock, t))
  {
    hide Unwrap;
    forall u | u in st.timers && u.fn == t.fn && u.ctx == t.ctx && Due(st.clock, u) == Due(st.clock, t) ensures SameKey(u, t) {
      UnwrapWord(st.clock, u.now);
      UnwrapWord(st.clock, t.now);
    }
    forall u | u in st.timers && SameKey(u, t) ensures Due(st.clock, u) == Due(st.clock, t) { }
  }

  /** That every stored timer was asked for in the future, it keeps if and only if
      it does not store one for the past. */
  lemma ScheduleAhead(st: State, ticks: int, fn: int, ctx: int)
    requires Inv(st) && -HALF <= ticks < HALF
    ensures AllAhead(Schedule(st, ticks, fn, ctx)) <==>
              AllAhead(st) && (ticks >= 0 || HasKey(st.timers, NewTimer(st.now, ticks, fn, ctx)))
  {
    hide Sorted, Due, SetAt, ToWord, Insert, NewTimer, HasKey;
    var t := NewTimer(st.now, ticks, fn, ctx);
    NewTimerMade(st.clock, ticks, fn, ctx);
    InsertMembers(st.timers, t, st.now);
    if !HasKey(st.timers, t) {
      AllAheadMore(st.timers, Insert(st.timers, t, st.now), t, st.clock);
    }
  }

  lemma AllAheadMore(ts: seq<Timer>, more: seq<Timer>, t: Timer, clock: int)
    requires forall u :: u in more <==> u in ts || u == t
    ensures (forall u :: u in more ==> Spanned(clock, u)) <==> (forall u :: u in ts ==> Spanned(clock, u)) && Spanned(clock, t)
  {
    hide Spanned;
    assert t in more;
    forall u | u in ts ensures u in more { }
  }

  ghost predicate AllAhead(st: State) {
    forall t :: t in st.timers ==> Spanned(st.clock, t)
  }

  lemma NewTimerFields(now: Word, ticks: int, fn: int, ctx: int)
    ensures NewTimer(now, ticks, fn, ctx).ctx == ctx && NewTimer(now, ticks, fn, ctx).fn == fn
    ensures NewTimer(now, ticks, fn, ctx).whenSet == now && NewTimer(now, ticks, fn, ctx).now == When(now, ticks)
  {
  }

  lemma ExpireKeeps(st: State, ctx: int)
    requires Inv(st)
    ensures Inv(Expire(st, ctx))
  {
    hide LiveAt, LiveFires, Dues, Taken, Given, Sorted, Due, SetAt, ToWord;
    LogGrows(st.log, Expired(ctx));
  }

  lemma HeadAndTail(ts: seq<Timer>)
    requires ts != []
    ensures multiset(ts) == multiset{ts[0]} + multiset(ts[1..]) && forall u :: u in ts[1..] ==> u in ts
  {
    assert ts == [ts[0]] + ts[1..];
  }

  lemma DropHeadKeeps(st: State)
    requires Inv(st) && st.timers != []
    requires st.timers[0].ctx in st.contexts ==> IsDue(st.timers[0], st.now)
    ensures Inv(DropHead(st))
  {
    hide LiveAt, LiveFires, Dues, Fires, Taken, Given, Due, SetAt, ToWord, IsDue, Sorted, Compare, Ordered, Spanned, Made, Nondecreasing;
    var t := st.timers[0];
    var e := if t.ctx in st.contexts then Fired(t, Due(st.clock, t)) else Purged(t);
    HeadAndTail(st.timers);
    TailSorted(st.timers, st.now);
    if st.steady && st.ahead { DropHeadOrdered(st); }
    assert multiset(st.timers[1..]) + Given(st.log + [e]) == Taken(st.log + [e]) by { LogGrows(st.log, e); }
    assert LiveFires(st.log + [e]) && forall c :: LiveAt(st.log + [e], c) <==> LiveAt(st.log, c) by { LogGrows(st.log, e); }
  }

  /** With a steady clock and no timer for the past, the head is due because its
      deadline has passed, and every stored deadline is no earlier. */
  lemma DropHeadOrdered(st: State)
    requires Inv(st) && st.steady && st.ahead && st.timers != []
    requires st.timers[0].ctx in st.contexts ==> IsDue(st.timers[0], st.now)
    ensures Ordered(DropHead(st))
  {
    hide LiveAt, LiveFires, Dues, Taken, Given, Due, SetAt, ToWord, IsDue, Sorted, Compare;
    var t := st.timers[0];
    var e := if t.ctx in st.contexts then Fired(t, Due(st.clock, t)) else Purged(t);
    LogGrows(st.log, e);
    forall u | u in st.timers[1..] ensures u in st.timers { }
    assert t in st.timers;
    if e.Fired? {
      DueExactly(st.clock, t);
      HeadIsEarliest(st.timers, st.clock);
      AppendNondecreasing(Dues(st.log), Due(st.clock, t));
      assert Dues(DropHead(st).log) == Dues(st.log) + [Due(st.clock, t)];
      forall d | d in Dues(st.log) + [Due(st.clock, t)] ensures d in Dues(st.log) || d == Due(st.clock, t) { }
    }
  }

  lemma AppendNondecreasing(ds: seq<int>, d: int)
    requires Nondecreasing(ds) && forall x :: x in ds ==> x <= d
    ensures Nondecreasing(ds + [d])
  {
    forall i | 0 <= i < |ds| ensures ds[i] in ds { }
  }

  lemma TailSorted(ts: seq<Timer>, now: Word)
    requires Sorted(ts, now) && ts != []
    ensures Sorted(ts[1..], now)
  {
  }

  lemma HeadIsEarliest(ts: seq<Timer>, clock: int)
    requires Sorted(ts, ToWord(clock)) && ts != []
    ensures forall t :: t in ts ==> Due(clock, ts[0]) <= Due(clock, t)
  {
    hide Due, Compare, ToWord;
    forall t | t in ts ensures Due(clock, ts[0]) <= Due(clock, t) {
      var j :| 0 <= j < |ts| && ts[j] == t;
      if j > 0 { CompareIsDeadlineOrder(ts[0], t, clock); }
    }
  }

  /** A request for more than ten ticks in the past, and before every stored
      deadline, as a negative keepalive interval makes: the new timer is the head,
      live, and stuck from now on until its deadline is half the word range ago. */
  lemma PastBecomesHead(st: State, ticks: int, fn: int, ctx: int, time: int)
    requires Inv(st) && -HALF <= ticks < -10 && st.clock <= time <= st.clock + ticks + HALF
    requires forall t :: t in st.timers ==> st.clock + ticks < Due(st.clock, t)
    ensures
      var st' := Schedule(st, ticks, fn, ctx);
      && Inv(st') && st'.timers == [NewTimer(st.now, ticks, fn, ctx)] + st.timers && ctx in st'.contexts
      && Due(time, st'.timers[0]) == st.clock + ticks < time && Stuck(time, st'.timers[0])
  {
    hide Inv, Sorted, Due, SetAt, ToWord, NewTimer, Compare;
    var t, ts := NewTimer(st.now, ticks, fn, ctx), st.timers;
    assert st.now == ToWord(st.clock) by { ClockWord(st); }
    ScheduleKeeps(st, ticks, fn, ctx);
    PastNeverDue(st.clock, ticks, st.clock, fn, ctx);
    PastNeverDue(st.clock, ticks, time, fn, ctx);
    if ts != [] { CompareIsDeadlineOrder(t, ts[0], st.clock); }
    forall u | u in ts ensures !SameKey(u, t) { hide Stuck; SameDue(u, t, st.clock); }
    NewTimerFields(st.now, ticks, fn, ctx);
  }

  lemma SameDue(a: Timer, b: Timer, clock: int)
    ensures SameKey(a, b) ==> Due(clock, a) == Due(clock, b)
  {
  }

  lemma ClockWord(st: State)
    requires Inv(st)
    ensures st.now == ToWord(st.clock)
  {
  }

  // ------------------------------------------------------------- termination

  function DueCount(ts: seq<Timer>, now: Word): nat {
    if ts == [] then 0 else (if IsDue(ts[0], now) then 1 else 0) + DueCount(ts[1..], now)
  }

  lemma {:induction false} InsertDueCount(ts: seq<Timer>, t: Timer, now: Word)
    requires !HasKey(ts, t)
    ensures DueCount(Insert(ts, t, now), now) == DueCount(ts, now) + if IsDue(t, now) then 1 else 0
  {
    hide IsDue, Compare;
    if ts == [] {
      assert [t][1..] == [];
    } else {
      CompareEqual(t, ts[0], now);
      assert ts[0] in ts;
      var c := Compare(t, ts[0], now);
      if c < 0 { assert ([t] + ts)[1..] == ts; }
      else if c > 0 {
        InsertDueCount(ts[1..], t, now);
        assert ([ts[0]] + Insert(ts[1..], t, now))[1..] == Insert(ts[1..], t, now);
      }
    }
  }

  /** A fresh timer is not due, so scheduling does not add to what is due; one
      asked for at most ten ticks in the past is the exception. */
  lemma ScheduleDueCount(st: State, ticks: int, fn: int, ctx: int)
    requires Inv(st) && -HALF <= ticks < HALF
    ensures
      var added := !HasKey(st.timers, NewTimer(st.now, ticks, fn, ctx)) && -10 <= ticks < 0;
      DueCount(Schedule(st, ticks, fn, ctx).timers, st.now) == DueCount(st.timers, st.now) + if added then 1 else 0
  {
    hide IsDue, Compare, Insert, DueCount, NewTimer, HasKey;
    var t := NewTimer(st.now, ticks, fn, ctx);
    PastRequestIsKept(st.clock, ticks, fn, ctx);
    if !HasKey(st.timers, t) { InsertDueCount(st.timers, t, st.now); }
  }
}
