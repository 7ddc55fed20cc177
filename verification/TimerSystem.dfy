/** timing.c with two of its clients: the Qt timer that wakes it up, and a
    pinger. All other clients are an environment that schedules and expires as
    it likes, inside callbacks too. */
module TimerSystem {
  import opened Ticks
  import opened TimerQueue
  import opened TimerState
  import opened PingerRules

  /** A look at the clock: GETTICKCOUNT() gives the same count as last time, or
      another one. */
  datatype Reading = Same | At(time: int)

  datatype Action =
    | DoSchedule(tick: Reading, ticks: int, fn: int, ctx: int)
    | DoExpire(ctx: int)
    | DoReconfigure(tick: Reading, oldInterval: int, newInterval: int)
    | DoFreePinger

  /** What one callback does. `tick` is what the clock says if the callback is
      the pinger's. */
  datatype Script = Script(tick: Reading, actions: seq<Action>)

  function TimeOf(r: Reading, clock: int): int { if r.Same? then clock else r.time }

  predicate ReadingOk(r: Reading, lo: int, hi: int) { r.At? ==> lo <= r.time <= hi }

  /** Less than half the word range from all readings of a call. */
  predicate TicksOk(ticks: int, lo: int, hi: int) { hi - lo - HALF <= ticks < HALF - (hi - lo) }

  /** A keepalive interval can be negative: the settings window takes any number. */
  predicate IntervalOk(interval: int, lo: int, hi: int) { TicksOk(interval * TICKSPERSEC, lo, hi) }

  /** Ticks that do not make a timer that is due at once. */
  predicate Fresh(ticks: int) { !(-10 <= ticks < 0) }

  predicate ActionOk(a: Action, id: int, lo: int, hi: int) {
    match a
    case DoSchedule(tick, ticks, _, ctx) => ReadingOk(tick, lo, hi) && TicksOk(ticks, lo, hi) && ctx != id
    case DoExpire(ctx) => ctx != id
    case DoReconfigure(tick, _, interval) => ReadingOk(tick, lo, hi) && IntervalOk(interval, lo, hi)
    case DoFreePinger => true
  }

  predicate Still(a: Action) {
    match a
    case DoSchedule(tick, ticks, _, _) => tick.Same? && Fresh(ticks)
    case DoReconfigure(tick, _, _) => tick.Same?
    case _ => true
  }

  predicate ScriptOk(s: Script, id: int, lo: int, hi: int) {
    ReadingOk(s.tick, lo, hi) && forall a :: a in s.actions ==> ActionOk(a, id, lo, hi)
  }

  predicate ScriptStill(s: Script) { s.tick.Same? && forall a :: a in s.actions ==> Still(a) }

  /** What the callbacks of a run_timers call do, and that from callback number
      `n` on the tick count stands still and nothing is scheduled to be due at once. */
  ghost predicate EnvOk(env: nat -> Script, n: nat, id: int, lo: int, hi: int) {
    && (forall k: nat :: ScriptOk(env(k), id, lo, hi))
    && (forall k: nat :: k >= n ==> ScriptStill(env(k)))
  }

  lemma EnvAt(env: nat -> Script, n: nat, id: int, lo: int, hi: int, k: nat)
    requires EnvOk(env, n, id, lo, hi)
    ensures ScriptOk(env(k), id, lo, hi) && (k >= n ==> ScriptStill(env(k)))
  {
  }

  /** All readings of a call lie between `lo` and `hi`, and all stored times are
      within half the word range of both. */
  ghost predicate InBand(st: State, lo: int, hi: int) {
    && lo <= st.clock <= hi < lo + HALF - 1
    && forall t :: t in st.timers ==>
         && hi - HALF <= Due(st.clock, t) < lo + HALF
         && hi - HALF <= SetAt(st.clock, t) < lo + HALF
  }

  lemma BandRead(st: State, lo: int, hi: int, time: int)
    requires InBand(st, lo, hi) && lo <= time <= hi
    ensures InReach(st.timers, st.clock, time) && InBand(Read(st, time), lo, hi)
  {
    hide Sorted, Unwrap;
    assert InReach(st.timers, st.clock, time);
    OrderSurvivesClock(st.timers, st.clock, time);
  }

  lemma BandSchedule(st: State, lo: int, hi: int, ticks: int, fn: int, ctx: int)
    requires InBand(st, lo, hi) && Inv(st) && TicksOk(ticks, lo, hi)
    ensures InBand(Schedule(st, ticks, fn, ctx), lo, hi)
  {
    hide Sorted, Unwrap, Insert, NewTimer, HasKey, IsDue;
    NewTimerMade(st.clock, ticks, fn, ctx);
    InsertMembers(st.timers, NewTimer(st.now, ticks, fn, ctx), st.now);
  }

  /** What the other clients see: the timers, and whether the pinger is there,
      with which interval. */
  datatype World = World(st: State, alive: bool, interval: int)

  /** What an action does to it. */
  ghost function Done(w: World, a: Action, id: int): World {
    match a
    case DoSchedule(tick, ticks, fn, ctx) => w.(st := Schedule(Read(w.st, TimeOf(tick, w.st.clock)), ticks, fn, ctx))
    case DoExpire(ctx) => w.(st := Expire(w.st, ctx))
    case DoReconfigure(tick, was, interval) =>
      if !w.alive || was == interval then w
      else if interval == 0 then w.(interval := 0)
      else w.(st := Schedule(Read(w.st, TimeOf(tick, w.st.clock)), interval * TICKSPERSEC, PINGER_TIMER, id), interval := interval)
    case DoFreePinger => if w.alive then w.(st := Expire(w.st, id), alive := false) else w
  }

  ghost function DoneAll(w: World, acts: seq<Action>, id: int): World {
    if acts == [] then w else Done(DoneAll(w, acts[..|acts| - 1], id), acts[|acts| - 1], id)
  }

  /** QtTimer: one Qt timer, armed for one tick. `active` are the timers that Qt
      is running for it. */
  class QtTimer {
    var timerId: int
    var nextTick: Word
    var interval: int
    var active: set<nat>
    var unused: nat

    constructor ()
      ensures timerId == -1 && One()
    {
      timerId, nextTick, interval := -1, 0, 0;
      active, unused := {}, 0;
    }

    /** At most one Qt timer runs, and it is the one remembered. */
    ghost predicate One()
      reads this
    {
      && active == (if timerId < 0 then {} else {timerId as nat})
      && timerId >= -1 && forall id :: id in active ==> id < unused
    }

    /** QObject::killTimer. */
    method KillTimer(id: int)
      modifies `active
      ensures active == set x | x in old(active) && x != id
    {
      active := set x | x in active && x != id;
    }

    /** QObject::startTimer, with an identifier that is not in use. */
    method StartTimer(ticks: int) returns (id: nat)
      modifies `active, `unused, `interval
      ensures active == old(active) + {id} && id == old(unused) && unused == id + 1 && interval == ticks
    {
      id := unused;
      active, unused, interval := active + {id}, unused + 1, ticks;
    }

    /** startTimerForTick. */
    method StartTimerForTick(next: Word, tickCount: Word)
      modifies this
      ensures timerId != -1 && nextTick == next
      ensures old(One()) ==> One()
      ensures forall clock :: tickCount == ToWord(clock) ==>
                clock + interval == (if Unwrap(clock, next) > clock then Unwrap(clock, next) else clock + 1)
    {
      var ticks := Signed(Minus(next, tickCount));
      if ticks <= 0 { ticks := 1; }
      if timerId != -1 { KillTimer(timerId); }
      timerId := StartTimer(ticks);
      nextTick := next;
    }
  }

  class Pinger {
    const ctx: int
    var alive: bool
    var interval: int
    var pending: bool
    var whenSet: Word
    var next: Word
    /** How many pings the backend was told to send. */
    var pings: nat

    constructor (ctx: int)
      ensures this.ctx == ctx && !alive && interval == 0 && pings == 0
    {
      this.ctx := ctx;
      alive, interval, pending, whenSet, next, pings := false, 0, false, 0, 0, 0;
    }

    ghost function P(): Ping
      reads this
    {
      Ping(interval, pending, whenSet, next)
    }
  }

  class TimerSystem {
    var timers: seq<Timer>
    var contexts: set<int>
    var now: Word
    ghost var clock: int
    ghost var steady: bool
    ghost var ahead: bool
    ghost var log: seq<Event>
    /** The callbacks that were called, in order. */
    ghost var ran: seq<Call>
    const qt: QtTimer
    const pinger: Pinger

    ghost function S(): State
      reads this
    {
      State(timers, contexts, now, clock, steady, ahead, log)
    }

    /** `fired`: see PingInvBut. */
    ghost predicate Owned(fired: set<Word>)
      reads this, pinger
    {
      Inv(S()) && PingInvBut(S(), pinger.P(), pinger.ctx, pinger.alive, fired)
    }

    ghost predicate ValidBut(fired: set<Word>)
      reads this, pinger
    {
      Owned(fired) && Settled(pinger.P(), pinger.alive)
    }

    /** The timers logged as fired are those whose callbacks were called, and a
        ping went out for each that this pinger waited for, and for no other. */
    ghost predicate Kept()
      reads this, pinger
    {
      Fires(log) == Called(ran) && pinger.pings == Awaited(ran, pinger.ctx)
    }

    ghost function W(): World
      reads this, pinger
    {
      World(S(), pinger.alive, pinger.interval)
    }

    ghost predicate Valid()
      reads this, pinger
    {
      ValidBut({})
    }

    /** Outside run_timers: the one Qt timer is armed for the head of the list. */
    ghost predicate Armed()
      reads this, qt
    {
      qt.One() && (timers != [] ==> qt.timerId != -1 && qt.nextTick == timers[0].now)
    }

    constructor (time: int, id: int)
      ensures Valid() && Armed() && fresh(qt) && fresh(pinger) && S() == Initial(time) && pinger.ctx == id && !pinger.alive && ran == [] && Kept()
    {
      timers, contexts, now := [], {}, ToWord(time);
      clock, steady, ahead, log, ran := time, true, true, [], [];
      qt := new QtTimer();
      pinger := new Pinger(id);
      new;
      InitialInv(time);
    }

    /** `now = GETTICKCOUNT()`. */
    method ReadClock(tick: Word, ghost time: int)
      requires tick == ToWord(time)
      modifies this`now, this`clock, this`steady
      ensures S() == Read(old(S()), time)
    {
      steady := steady && clock <= time;
      now, clock := tick, time;
    }

    /** schedule_timer, for any int `ticks`. */
    method ScheduleTimer(tick: Word, ghost time: int, ticks: int, fn: int, ctx: int, ghost fired: set<Word>) returns (when: Word)
      requires Owned(fired) && -HALF <= ticks < HALF && InReach(timers, clock, time) && tick == ToWord(time)
      requires ctx == pinger.ctx ==> pinger.alive
      modifies this, qt
      ensures Owned(fired) && S() == Schedule(Read(old(S()), time), ticks, fn, ctx)
      ensures when == When(now, ticks) && clock == time && now == ToWord(time) && (ahead <==> old(ahead) && ticks >= 0)
      ensures Asked(S(), fn, ctx, time + if ticks == 0 then 1 else ticks) && Unwrap(time, when) == time + if ticks == 0 then 1 else ticks
      ensures forall t :: t in old(timers) ==> t in timers
      ensures ctx in contexts <==> ctx in old(contexts) || !Asked(Read(old(S()), time), fn, ctx, Unwrap(time, when))
      ensures (old(Armed()) ==> Armed()) && (old(qt.One()) ==> qt.One()) && ran == old(ran)
    {
      hide Inv, Insert, IsDue, Sorted, Minus, Plus, PingInvBut, HasKey, InReach, Schedule;
      ReadKeeps(S(), time);
      ReadPing(S(), time, pinger.P(), pinger.ctx, pinger.alive, fired);
      ReadClock(tick, time);
      ghost var st := S();
      ScheduleKeeps(st, ticks, fn, ctx);
      ScheduleStores(st, ticks, fn, ctx);
      SortedOf(st);
      SchedulePing(st, ticks, fn, ctx, pinger.P(), pinger.ctx, pinger.alive, fired);
      when := Plus(now, ticks);
      if Minus(when, now) <= 0 { when := Plus(now, 1); }
      AddTimer(Timer(fn, ctx, when, now), ticks);
    }

    /** add234, and the rest of schedule_timer. */
    method AddTimer(t: Timer, ghost ticks: int)
      requires t == NewTimer(now, ticks, t.fn, t.ctx)
      modifies this`timers, this`contexts, this`ahead, this`log, qt
      ensures S() == Schedule(old(S()), ticks, t.fn, t.ctx) && (ahead <==> old(ahead) && ticks >= 0)
      ensures t.ctx in contexts <==> t.ctx in old(contexts) || !HasKey(old(timers), t)
      ensures (old(Armed()) ==> Armed()) && (old(qt.One()) ==> qt.One())
    {
      hide Insert, HasKey, NewTimer;
      ahead := ahead && ticks >= 0;
      if !HasKey(timers, t) {
        InsertHead(timers, t, now);
        timers := Insert(timers, t, now);
        contexts := contexts + {t.ctx};
        log := log + [Added(t)];
        if timers[0] == t {
          qt.StartTimerForTick(timers[0].now, now);
        }
      }
    }

    /** expire_timer_context, for a context that is not the pinger's. */
    method ExpireTimerContext(ctx: int, ghost fired: set<Word>)
      requires ValidBut(fired) && ctx != pinger.ctx
      modifies this`contexts, this`log
      ensures ValidBut(fired) && S() == Expire(old(S()), ctx) && (old(Armed()) ==> Armed())
    {
      hide Inv, PingInvBut;
      ExpireKeeps(S(), ctx);
      ExpirePing(S(), ctx, pinger.P(), pinger.ctx, pinger.alive, fired);
      contexts := contexts - {ctx};
      log := log + [Expired(ctx)];
    }

    /** pinger_schedule. */
    method PingerSchedule(tick: Word, ghost time: int)
      requires Owned({}) && pinger.alive && InReach(timers, clock, time) && tick == ToWord(time) && IntervalOk(pinger.interval, 0, 0)
      modifies this, qt, pinger`pending, pinger`next, pinger`whenSet
      ensures Valid()
      ensures pinger.interval == 0 ==> !pinger.pending && S() == old(S())
      ensures pinger.interval != 0 ==>
        && pinger.pending
        && S() == Schedule(Read(old(S()), time), pinger.interval * TICKSPERSEC, PINGER_TIMER, pinger.ctx)
      ensures pinger.interval != 0 && !old(pinger.pending) ==> pinger.next == When(now, pinger.interval * TICKSPERSEC)
      ensures pinger.interval != 0 ==> Asked(S(), PINGER_TIMER, pinger.ctx, time + 1000 * pinger.interval) && pinger.ctx in contexts
      ensures pinger.interval != 0 && !old(pinger.pending) ==> Unwrap(time, pinger.next) == time + 1000 * pinger.interval
      ensures pinger.interval != 0 && old(pinger.pending) && 0 <= clock - Unwrap(clock, old(pinger.whenSet)) < HALF ==>
        var was, next := Unwrap(clock, old(pinger.next)), Unwrap(clock, When(now, pinger.interval * TICKSPERSEC));
        && Unwrap(clock, pinger.next) == Sooner(Unwrap(clock, old(pinger.whenSet)), was, next)
        && (old(ahead) && pinger.interval > 0 ==> Unwrap(clock, pinger.next) == Earlier(was, next))
      ensures (old(Armed()) ==> Armed()) && (old(qt.One()) ==> qt.One()) && ran == old(ran)
    {
      hide Inv, Insert, IsDue, Sorted, Schedule, When, Unwrap, NewTimer, HasKey, HasTimer, Minus, Asked;
      if pinger.interval == 0 {
        pinger.pending := false;
        return;
      }
      ghost var ticks := pinger.interval * TICKSPERSEC;
      SortedOf(Read(S(), time)) by { ReadKeeps(S(), time); }
      OwnTimer(S(), time, ticks, pinger.P(), pinger.ctx);
      var next := ScheduleTimer(tick, time, pinger.interval * TICKSPERSEC, PINGER_TIMER, pinger.ctx, {});
      if pinger.pending && 0 <= clock - Unwrap(clock, pinger.whenSet) < HALF {
        SoonerDeadline(clock, pinger.whenSet, pinger.next, next);
        if old(ahead) && ticks > 0 { EarlierDeadline(clock, pinger.whenSet, pinger.next, ticks); }
      }
      if !pinger.pending || Minus(next, pinger.whenSet) < Minus(pinger.next, pinger.whenSet) {
        pinger.next := next;
        pinger.whenSet := now;
        pinger.pending := true;
        if ticks >= 0 { NewSpan(now, ticks); }
      }
    }

    /** pinger_timer, for the deadline `due` whose timer was just taken off: it
        counts only for the ping that is pending for just that deadline. */
    method PingerTimer(tick: Word, ghost time: int, due: Word)
      requires ValidBut({due}) && pinger.alive && InReach(timers, clock, time) && tick == ToWord(time) && IntervalOk(pinger.interval, 0, 0)
      modifies this, qt, pinger`pending, pinger`next, pinger`whenSet, pinger`pings
      ensures Valid() && (old(qt.One()) ==> qt.One()) && ran == old(ran)
      ensures
        var mine := old(pinger.pending) && due == old(pinger.next);
        && (!mine ==> S() == old(S()) && pinger.P() == old(pinger.P()) && pinger.pings == old(pinger.pings))
        && (mine ==>
              && pinger.pings == old(pinger.pings) + 1 && (pinger.pending <==> pinger.interval != 0)
              && S() == if pinger.interval == 0 then old(S())
                        else Schedule(Read(old(S()), time), pinger.interval * TICKSPERSEC, PINGER_TIMER, pinger.ctx))
    {
      hide Inv, Schedule, HasTimer;
      if pinger.pending && due == pinger.next {
        pinger.pings := pinger.pings + 1;
        pinger.pending := false;
        PingerSchedule(tick, time);
      }
    }

    /** pinger_new, at an address that no stored timer has as its context. */
    method PingerNew(tick: Word, ghost time: int, interval: int)
      requires Valid() && !pinger.alive && (forall t :: t in timers ==> t.ctx != pinger.ctx)
      requires InReach(timers, clock, time) && tick == ToWord(time) && IntervalOk(interval, 0, 0)
      modifies this, qt, pinger
      ensures Valid() && pinger.alive && pinger.interval == interval
      ensures (pinger.pending <==> interval != 0) && pinger.pings == old(pinger.pings)
      ensures S() == if interval == 0 then old(S()) else Schedule(Read(old(S()), time), interval * TICKSPERSEC, PINGER_TIMER, pinger.ctx)
      ensures (old(Armed()) ==> Armed()) && (old(qt.One()) ==> qt.One()) && ran == old(ran)
    {
      hide Inv, Schedule, HasTimer;
      pinger.alive := true;
      pinger.interval := interval;
      pinger.pending := false;
      PingerSchedule(tick, time);
    }

    /** pinger_reconfig. */
    method PingerReconfig(tick: Word, ghost time: int, oldInterval: int, newInterval: int)
      requires Valid() && pinger.alive && InReach(timers, clock, time) && tick == ToWord(time)
      requires IntervalOk(newInterval, 0, 0)
      modifies this, qt, pinger
      ensures Valid() && pinger.alive
      ensures oldInterval == newInterval ==>
        S() == old(S()) && pinger.P() == old(pinger.P())
      ensures oldInterval != newInterval ==>
        pinger.interval == newInterval && (pinger.pending <==> newInterval != 0)
      ensures oldInterval != newInterval && newInterval != 0 && old(pinger.pending)
              && 0 <= clock - Unwrap(clock, old(pinger.whenSet)) < HALF ==>
        var was, next := Unwrap(clock, old(pinger.next)), Unwrap(clock, When(now, newInterval * TICKSPERSEC));
        && Unwrap(clock, pinger.next) == Sooner(Unwrap(clock, old(pinger.whenSet)), was, next)
        && (old(ahead) && newInterval > 0 ==> Unwrap(clock, pinger.next) == Earlier(was, next))
      ensures S() == if oldInterval == newInterval || newInterval == 0 then old(S())
                     else Schedule(Read(old(S()), time), newInterval * TICKSPERSEC, PINGER_TIMER, pinger.ctx)
      ensures pinger.interval == (if oldInterval == newInterval then old(pinger.interval) else newInterval) && pinger.pings == old(pinger.pings)
      ensures (old(Armed()) ==> Armed()) && (old(qt.One()) ==> qt.One()) && ran == old(ran)
    {
      hide Inv, Schedule, HasTimer, When, Unwrap;
      if oldInterval != newInterval {
        pinger.interval := newInterval;
        PingerSchedule(tick, time);
      }
    }

    /** pinger_free. */
    method PingerFree(ghost fired: set<Word>)
      requires ValidBut(fired) && pinger.alive
      modifies this`contexts, this`log, pinger`alive
      ensures Valid() && !pinger.alive && S() == Expire(old(S()), pinger.ctx) && (old(Armed()) ==> Armed())
    {
      hide Inv;
      ExpireKeeps(S(), pinger.ctx);
      contexts := contexts - {pinger.ctx};
      log := log + [Expired(pinger.ctx)];
      pinger.alive := false;
    }

    /** What one action of a callback leaves true. */
    ghost predicate Going(lo: int, hi: int)
      reads this, pinger
    {
      Valid() && InBand(S(), lo, hi) && IntervalOk(pinger.interval, lo, hi)
    }

    /** One thing that a callback does. */
    method Act(a: Action, ghost lo: int, ghost hi: int)
      requires Going(lo, hi) && ActionOk(a, pinger.ctx, lo, hi)
      modifies this, qt, pinger
      ensures Going(lo, hi) && Went(old(S()), S(), Still(a)) && W() == Done(old(W()), a, pinger.ctx)
      ensures (old(Armed()) ==> Armed()) && (old(qt.One()) ==> qt.One()) && ran == old(ran) && pinger.pings == old(pinger.pings)
    {
      hide Inv, Schedule, HasTimer, Unwrap, When, HasKey, DueCount, PingInvBut, Expire, Read, InReach, InBand;
      match a
      case DoSchedule(tick, ticks, fn, ctx) =>
        WentSchedule(S(), tick, ticks, fn, ctx, lo, hi);
        var _ := ScheduleTimer(WordOf(tick, now), TimeOf(tick, clock), ticks, fn, ctx, {});
      case DoExpire(ctx) =>
        WentExpire(S(), ctx, lo, hi);
        ExpireTimerContext(ctx, {});
      case DoReconfigure(tick, oldInterval, newInterval) =>
        if pinger.alive {
          WentSchedule(S(), tick, newInterval * TICKSPERSEC, PINGER_TIMER, pinger.ctx, lo, hi);
          PingerReconfig(WordOf(tick, now), TimeOf(tick, clock), oldInterval, newInterval);
        }
      case DoFreePinger =>
        if pinger.alive {
          WentExpire(S(), pinger.ctx, lo, hi);
          PingerFree({});
        }
    }

    /** The callback of `t`, which was just taken off the list. */
    method Callback(t: Timer, script: Script, ghost lo: int, ghost hi: int)
      requires ValidBut(if t.fn == PINGER_TIMER && t.ctx == pinger.ctx then {t.now} else {})
      requires InBand(S(), lo, hi) && IntervalOk(pinger.interval, lo, hi) && ScriptOk(script, pinger.ctx, lo, hi)
      requires t.ctx == pinger.ctx ==> pinger.alive
      modifies this, qt, pinger
      ensures Going(lo, hi) && Went(old(S()), S(), ScriptStill(script)) && (old(qt.One()) ==> qt.One())
      ensures ran == old(ran) + [Call(t, old(pinger.pending), old(pinger.next))]
      ensures
        var mine := t.fn == PINGER_TIMER && t.ctx == pinger.ctx;
        && pinger.pings == old(pinger.pings) + (if mine && old(pinger.pending) && t.now == old(pinger.next) then 1 else 0)
        && (!mine ==> W() == DoneAll(old(W()), script.actions, pinger.ctx))
    {
      hide Inv, Schedule, HasTimer, Unwrap, When, HasKey, DueCount, PingInvBut, Expire, Read, InReach, InBand, Done;
      ran := ran + [Call(t, pinger.pending, pinger.next)];
      if t.fn == PINGER_TIMER && t.ctx == pinger.ctx {
        WentSchedule(S(), script.tick, pinger.interval * TICKSPERSEC, PINGER_TIMER, pinger.ctx, lo, hi);
        PingerTimer(WordOf(script.tick, now), TimeOf(script.tick, clock), t.now);
      } else {
        var i := 0;
        while i < |script.actions|
          invariant 0 <= i <= |script.actions|
          invariant Going(lo, hi) && Went(old(S()), S(), ScriptStill(script)) && (old(qt.One()) ==> qt.One())
          invariant ran == old(ran) + [Call(t, old(pinger.pending), old(pinger.next))] && pinger.pings == old(pinger.pings)
          invariant W() == DoneAll(old(W()), script.actions[..i], pinger.ctx)
        {
          assert script.actions[..i + 1][..i] == script.actions[..i];
          Act(script.actions[i], lo, hi);
          i := i + 1;
        }
        assert script.actions[..i] == script.actions;
      }
    }

    method DropFirst()
      requires Valid() && timers != [] && (timers[0].ctx in contexts ==> IsDue(timers[0], now))
      modifies this`timers, this`log
      ensures S() == DropHead(old(S()))
      ensures Fires(log) == if old(timers[0].ctx in contexts) then old(Fires(log)) + [old(timers[0])] else old(Fires(log))
      ensures
        var t := old(timers[0]);
        ValidBut(if t.fn == PINGER_TIMER && t.ctx == pinger.ctx && pinger.ctx in contexts then {t.now} else {})
    {
      hide Inv, PingInvBut, IsDue;
      DropHeadKeeps(S());
      DropHeadPing(S(), pinger.P(), pinger.ctx, pinger.alive);
      ghost var t := timers[0];
      LogGrows(log, if t.ctx in contexts then Fired(t, Due(clock, t)) else Purged(t));
      log := log + [if t.ctx in contexts then Fired(t, Due(clock, t)) else Purged(t)];
      timers := timers[1..];
    }

    /** The head is deleted without running. */
    method Purge(ghost lo: int, ghost hi: int)
      requires Going(lo, hi) && timers != [] && timers[0].ctx !in contexts && Kept()
      modifies this`timers, this`log
      ensures Going(lo, hi) && old(log) <= log && Kept() && now == old(now)
      ensures |timers| < old(|timers|) && DueCount(timers, now) <= old(DueCount(timers, now))
    {
      hide Inv, Unwrap, DueCount, IsDue, PingInvBut, InBand, DropHead, HasTimer;
      DroppedHead(S(), lo, hi);
      ghost var first := timers[0];
      DropFirst();
      SettleDrop(S(), first, pinger.P(), pinger.ctx, pinger.alive);
    }

    /** The head has reached its running time. */
    method Fire(first: Timer, script: Script, ghost lo: int, ghost hi: int)
      requires Going(lo, hi) && timers != [] && first == timers[0] && first.ctx in contexts && IsDue(first, now)
      requires ScriptOk(script, pinger.ctx, lo, hi) && Kept()
      modifies this, qt, pinger
      ensures Going(lo, hi) && old(log) <= log && Kept() && (old(qt.One()) ==> qt.One())
      ensures ran == old(ran) + [Call(first, old(pinger.pending), old(pinger.next))]
      ensures !(first.fn == PINGER_TIMER && first.ctx == pinger.ctx) ==>
        W() == DoneAll(old(W()).(st := DropHead(old(S()))), script.actions, pinger.ctx)
      ensures ScriptStill(script) ==> now == old(now) && DueCount(timers, now) < old(DueCount(timers, now))
    {
      hide Inv, Unwrap, DueCount, IsDue, PingInvBut, InBand, HasTimer, ScriptOk, ScriptStill;
      hide Fires, Called, Awaited, DoneAll, DropHead;
      DroppedHead(S(), lo, hi);
      LiveOwner(S(), pinger.P(), pinger.ctx, pinger.alive);
      DropFirst();
      OneMoreCall(ran, Call(first, pinger.pending, pinger.next), pinger.ctx);
      Callback(first, script, lo, hi);
    }

    /** run_timers. Callback number `k` of this call does what `env(k)` says; the
        call comes to an end whenever the tick count stands still from some
        callback on, however many timers the callbacks add that are not due at
        once. No deadline before now is left if and only if the head is not stuck;
        a live stuck head stops all the timers behind it. */
    method RunTimers(tick: Word, ghost time: int, env: nat -> Script, ghost n: nat, ghost lo: int, ghost hi: int)
      returns (more: bool, next: Word)
      requires Going(lo, hi) && lo <= time <= hi && tick == ToWord(time) && EnvOk(env, n, pinger.ctx, lo, hi) && Kept()
      modifies this, qt, pinger
      ensures Going(lo, hi) && old(log) <= log && (old(qt.One()) ==> qt.One()) && Kept()
      ensures more ==>
        && timers != [] && next == timers[0].now && timers[0].ctx in contexts
        && (forall t :: t in timers ==> Due(clock, timers[0]) <= Due(clock, t))
        && ((forall t :: t in timers ==> clock <= Due(clock, t)) <==> !Stuck(clock, timers[0]))
        && (ahead ==> !Stuck(clock, timers[0]))
      ensures !more ==> timers == []
      ensures old(timers != [] && timers[0].ctx in contexts && Stuck(time, timers[0])) ==>
        more && S() == Read(old(S()), time) && ran == old(ran)
    {
      hide Inv, Unwrap, DueCount, IsDue, PingInvBut, InReach, InBand, DropHead, Sorted, Due, SetAt, Stuck, AllAhead, EnvOk, ScriptOk, ScriptStill;
      StartRun(S(), time, pinger.P(), pinger.ctx, pinger.alive, lo, hi);
      ReadClock(tick, time);
      ghost var st := S();
      ghost var stuck := st.timers != [] && st.timers[0].ctx in st.contexts && Stuck(time, st.timers[0]);
      if stuck { StuckHead(st); }
      var k: nat := 0;
      next := 0;
      while true
        invariant stuck ==> S() == st && ran == old(ran)
        invariant Going(lo, hi) && old(log) <= log && (old(qt.One()) ==> qt.One()) && Kept()
        decreases if k < n then n - k else 0, DueCount(timers, now), |timers|
      {
        if timers == [] { return false, next; }
        var first := timers[0];
        if first.ctx !in contexts {
          Purge(lo, hi);
        } else if IsDue(first, now) {
          EnvAt(env, n, pinger.ctx, lo, hi, k);
          Fire(first, env(k), lo, hi);
          k := k + 1;
        } else {
          NothingPast(S());
          return true, first.now;
        }
      }
    }

    /** QtTimer::timerEvent, for the event of some timer that Qt is running: it
        is the one remembered, as the code asserts. The wake-up is spent, and a
        new one is armed if any timer is left. */
    method TimerEvent(eventId: nat, tick: Word, ghost time: int, env: nat -> Script, ghost n: nat, ghost lo: int, ghost hi: int)
      requires Going(lo, hi) && lo <= time <= hi && tick == ToWord(time) && EnvOk(env, n, pinger.ctx, lo, hi) && Kept()
      requires Armed() && eventId in qt.active
      modifies this, qt, pinger
      ensures Going(lo, hi) && old(log) <= log && Kept()
      ensures Armed() && (timers != [] && Stuck(clock, timers[0]) <==> exists t :: t in timers && Due(clock, t) < clock)
      ensures timers != [] && Stuck(clock, timers[0]) ==> qt.interval == 1
      ensures ahead ==> forall t :: t in timers ==> clock <= Due(clock, t)
      ensures timers != [] ==> clock + qt.interval == (if Due(clock, timers[0]) > clock then Due(clock, timers[0]) else clock + 1)
    {
      hide Inv, InBand, PingInvBut, EnvOk;
      qt.KillTimer(qt.timerId);
      assert eventId == qt.timerId;
      qt.timerId := -1;
      var more, next := RunTimers(tick, time, env, n, lo, hi);
      if more {
        ClockWord(S());
        qt.StartTimerForTick(next, now);
      }
    }
  }

  lemma StartRun(st: State, time: int, p: Ping, id: int, alive: bool, lo: int, hi: int)
    requires Inv(st) && PingInv(st, p, id, alive) && InBand(st, lo, hi) && lo <= time <= hi
    ensures Inv(Read(st, time)) && PingInv(Read(st, time), p, id, alive) && InBand(Read(st, time), lo, hi)
  {
    hide Inv, InReach, InBand;
    BandRead(st, lo, hi, time);
    ReadKeeps(st, time);
    ReadPing(st, time, p, id, alive, {});
  }

  /** Taking the head off leaves fewer timers, and fewer due ones if it was due. */
  lemma DroppedHead(st: State, lo: int, hi: int)
    requires InBand(st, lo, hi) && st.timers != []
    ensures
      var st' := DropHead(st);
      && InBand(st', lo, hi) && st'.now == st.now && st'.clock == st.clock && st'.contexts == st.contexts
      && st.log <= st'.log && |st'.timers| < |st.timers|
      && DueCount(st'.timers, st.now) == DueCount(st.timers, st.now) - (if IsDue(st.timers[0], st.now) then 1 else 0)
  {
    hide Unwrap, IsDue;
    forall t | t in st.timers[1..] ensures t in st.timers { }
  }

  lemma SettleDrop(st: State, first: Timer, p: Ping, id: int, alive: bool)
    requires first.ctx !in st.contexts
    requires PingInvBut(st, p, id, alive, if first.fn == PINGER_TIMER && first.ctx == id && id in st.contexts then {first.now} else {})
    ensures PingInv(st, p, id, alive)
  {
  }

  lemma LiveOwner(st: State, p: Ping, id: int, alive: bool)
    requires PingInv(st, p, id, alive)
    ensures id in st.contexts ==> alive
  {
  }

  /** When the head is not due, no stored deadline lies in the past, unless the
      head is stuck. */
  lemma NothingPast(st: State)
    requires Inv(st) && st.timers != [] && !IsDue(st.timers[0], st.now)
    ensures forall t :: t in st.timers ==> Due(st.clock, st.timers[0]) <= Due(st.clock, t)
    ensures (forall t :: t in st.timers ==> st.clock <= Due(st.clock, t)) <==> !Stuck(st.clock, st.timers[0])
    ensures st.ahead ==> !Stuck(st.clock, st.timers[0])
  {
    hide Unwrap, IsDue, Sorted, LiveAt, LiveFires, Due, SetAt;
    assert st.timers[0] in st.timers;
    StuckExactly(st.clock, st.timers[0]);
    HeadIsEarliest(st.timers, st.clock);
  }

  lemma StuckHead(st: State)
    requires Inv(st) && st.timers != [] && Stuck(st.clock, st.timers[0])
    ensures !IsDue(st.timers[0], st.now)
  {
    hide Unwrap, IsDue, Sorted, LiveAt, LiveFires, Due, SetAt;
    assert st.timers[0] in st.timers;
    StuckExactly(st.clock, st.timers[0]);
  }

  function WordOf(r: Reading, now: Word): Word { if r.Same? then now else ToWord(r.time) }

  lemma WentSchedule(st: State, tick: Reading, ticks: int, fn: int, ctx: int, lo: int, hi: int)
    requires Inv(st) && InBand(st, lo, hi) && ReadingOk(tick, lo, hi) && TicksOk(ticks, lo, hi)
    ensures
      var time := TimeOf(tick, st.clock);
      var st' := Schedule(Read(st, time), ticks, fn, ctx);
      && InReach(st.timers, st.clock, time) && WordOf(tick, st.now) == ToWord(time) && -HALF <= ticks < HALF
      && InBand(st', lo, hi) && Went(st, st', tick.Same? && Fresh(ticks))
  {
    hide Sorted, Insert, IsDue, NewTimer, HasKey, DueCount, Fires;
    var time := TimeOf(tick, st.clock);
    LogGrows(st.log, Added(NewTimer(ToWord(time), ticks, fn, ctx)));
    BandRead(st, lo, hi, time);
    ReadKeeps(st, time);
    BandSchedule(Read(st, time), lo, hi, ticks, fn, ctx);
    ScheduleDueCount(Read(st, time), ticks, fn, ctx);
  }

  lemma WentExpire(st: State, ctx: int, lo: int, hi: int)
    requires InBand(st, lo, hi)
    ensures InBand(Expire(st, ctx), lo, hi) && Went(st, Expire(st, ctx), true)
  {
    LogGrows(st.log, Expired(ctx));
  }

  /** The history grows, without firing anything; and if the tick count stands still, no more timers are
      due than before. */
  ghost predicate Went(st: State, st': State, still: bool) {
    && st.log <= st'.log && Fires(st'.log) == Fires(st.log)
    && (still ==> st'.now == st.now && st'.clock == st.clock && DueCount(st'.timers, st'.now) == DueCount(st.timers, st.now))
  }

  lemma Ahead(now: Word, k: int)
    requires 0 <= k < WORD
    ensures Minus(Plus(now, k), now) == k
  {
    hide Minus, Plus;
    LowWord(now);
    WordArithmetic(now, k);
    WordArithmetic(now + k, now);
    LowWord(k);
  }

  lemma NewSpan(now: Word, ticks: int)
    requires 0 <= ticks < HALF
    ensures 1 <= Minus(When(now, ticks), now) < HALF
  {
    hide Minus, Plus;
    Ahead(now, ticks);
    Ahead(now, 1);
  }

  lemma OwnTimer(st: State, time: int, ticks: int, p: Ping, id: int)
    requires Inv(st) && InReach(st.timers, st.clock, time) && PingInv(st, p, id, true)
    ensures
      var st' := Schedule(Read(st, time), ticks, PINGER_TIMER, id);
      id in st'.contexts && HasTimer(st'.timers, id, When(ToWord(time), ticks))
  {
    hide Inv, Sorted, Schedule, When;
    ReadKeeps(st, time);
    SortedOf(Read(st, time));
    ReadPing(st, time, p, id, true, {});
    ScheduleOwn(Read(st, time), ticks, p, id);
  }

  lemma SortedOf(st: State)
    requires Inv(st)
    ensures Sorted(st.timers, st.now)
  {
  }

  /** The head changes only if the new timer becomes the head. */
  lemma InsertHead(ts: seq<Timer>, t: Timer, now: Word)
    ensures Insert(ts, t, now) != []
    ensures Insert(ts, t, now)[0] == t || (ts != [] && Insert(ts, t, now)[0] == ts[0])
  {
  }
}
