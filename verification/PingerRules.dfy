/** What a pinger relies on, as predicates and lemmas over the timer state. */
module PingerRules {
  import opened Ticks
  import opened TimerQueue
  import opened TimerState

  const TICKSPERSEC := 1000
  const PINGER_TIMER := 0

  datatype Ping = Ping(interval: int, pending: bool, whenSet: Word, next: Word)

  predicate HasTimer(ts: seq<Timer>, ctx: int, w: Word) {
    exists t :: t in ts && t.fn == PINGER_TIMER && t.ctx == ctx && t.now == w
  }

  /** A pending ping has a live timer with this pinger's function and context
      and the exact deadline; `fired` is a deadline whose timer has just been
      taken off the list and is being delivered. While nothing was asked for in
      the past, nor was this deadline. */
  ghost predicate PingInvBut(st: State, p: Ping, id: int, alive: bool, fired: set<Word>) {
    if alive then
      && (p.pending && p.next !in fired ==> id in st.contexts && HasTimer(st.timers, id, p.next))
      && (p.pending && st.ahead ==> 1 <= Minus(p.next, p.whenSet) < HALF)
      && (forall t :: t in st.timers && t.ctx == id ==> id in st.contexts)
    else id !in st.contexts
  }

  /** A pinger that is not in the middle of a call has a ping pending if and only
      if its interval is not zero. */
  predicate Settled(p: Ping, alive: bool) { alive ==> (p.pending <==> p.interval != 0) }

  /** A callback that ran, and the deadline the pinger waited for then, if any. */
  datatype Call = Call(t: Timer, pending: bool, next: Word)

  function Called(calls: seq<Call>): seq<Timer> { seq(|calls|, i requires 0 <= i < |calls| => calls[i].t) }

  /** The callbacks of this pinger that came for the deadline it waited for. */
  function Awaited(calls: seq<Call>, id: int): nat {
    if calls == [] then 0
    else
      var n := |calls| - 1;
      Awaited(calls[..n], id)
      + if calls[n].t.fn == PINGER_TIMER && calls[n].t.ctx == id && calls[n].pending && calls[n].t.now == calls[n].next then 1 else 0
  }

  lemma OneMoreCall(calls: seq<Call>, c: Call, id: int)
    ensures Called(calls + [c]) == Called(calls) + [c.t]
    ensures Awaited(calls + [c], id) ==
            Awaited(calls, id) + if c.t.fn == PINGER_TIMER && c.t.ctx == id && c.pending && c.t.now == c.next then 1 else 0
  {
    assert (calls + [c])[..|calls|] == calls;
  }

  ghost predicate PingInv(st: State, p: Ping, id: int, alive: bool) { PingInvBut(st, p, id, alive, {}) }

  lemma ReadPing(st: State, time: int, p: Ping, id: int, alive: bool, fired: set<Word>)
    requires PingInvBut(st, p, id, alive, fired)
    ensures PingInvBut(Read(st, time), p, id, alive, fired)
  {
  }

  /** Anyone's schedule_timer keeps the pinger's timer. */
  lemma SchedulePing(st: State, ticks: int, fn: int, ctx: int, p: Ping, id: int, alive: bool, fired: set<Word>)
    requires Sorted(st.timers, st.now) && PingInvBut(st, p, id, alive, fired) && (ctx == id ==> alive)
    ensures PingInvBut(Schedule(st, ticks, fn, ctx), p, id, alive, fired)
  {
    hide Sorted, Insert, When, Minus;
    var t := NewTimer(st.now, ticks, fn, ctx);
    InsertMembers(st.timers, t, st.now);
  }

  /** The timer that the pinger itself asks for is there afterwards, live. */
  lemma ScheduleOwn(st: State, ticks: int, p: Ping, id: int)
    requires Sorted(st.timers, st.now) && PingInv(st, p, id, true)
    ensures
      var st' := Schedule(st, ticks, PINGER_TIMER, id);
      id in st'.contexts && HasTimer(st'.timers, id, When(st.now, ticks))
  {
    hide Sorted, Insert, When, Minus;
    var t := NewTimer(st.now, ticks, PINGER_TIMER, id);
    InsertMembers(st.timers, t, st.now);
    if HasKey(st.timers, t) {
      var u :| u in st.timers && SameKey(u, t);
    } else {
      assert t in Insert(st.timers, t, st.now);
    }
  }

  lemma ExpirePing(st: State, ctx: int, p: Ping, id: int, alive: bool, fired: set<Word>)
    requires PingInvBut(st, p, id, alive, fired) && ctx != id
    ensures PingInvBut(Expire(st, ctx), p, id, alive, fired)
  {
  }

  /** Taking the head off the list can only orphan the ping that it is for. */
  lemma DropHeadPing(st: State, p: Ping, id: int, alive: bool)
    requires PingInv(st, p, id, alive) && st.timers != []
    ensures
      var t := st.timers[0];
      PingInvBut(DropHead(st), p, id, alive,
                 if t.fn == PINGER_TIMER && t.ctx == id && id in st.contexts then {t.now} else {})
  {
    assert st.timers == [st.timers[0]] + st.timers[1..];
  }

  function Earlier(a: int, b: int): int { if b < a then b else a }

  /** Of the old and the new deadline the earlier one, counted from the setting of
      the old; a deadline before that setting counts as the later one. */
  function Sooner(start: int, was: int, next: int): int {
    if (start <= was) == (start <= next) then Earlier(was, next) else if start <= was then was else next
  }

  /** What the wrapping comparison in pinger_schedule takes, as long as the
      pending ping was set within half the word range. */
  lemma SoonerDeadline(clock: int, whenSet: Word, next: Word, next': Word)
    requires 0 <= clock - Unwrap(clock, whenSet) < HALF
    ensures
      Unwrap(clock, if Minus(next', whenSet) < Minus(next, whenSet) then next' else next) ==
      Sooner(Unwrap(clock, whenSet), Unwrap(clock, next), Unwrap(clock, next'))
  {
    hide Unwrap, ToWord, Minus;
    FromStart(clock, whenSet, next);
    FromStart(clock, whenSet, next');
  }

  lemma FromStart(clock: int, whenSet: Word, w: Word)
    requires 0 <= clock - Unwrap(clock, whenSet) < HALF
    ensures
      var start, time := Unwrap(clock, whenSet), Unwrap(clock, w);
      && Minus(w, whenSet) == (if start <= time then time - start else time - start + WORD)
      && -WORD < time - start < WORD && Near(clock, time)
  {
    hide Unwrap, ToWord, Minus;
    var start, time := Unwrap(clock, whenSet), Unwrap(clock, w);
    UnwrapWord(clock, w);
    UnwrapWord(clock, whenSet);
    WordArithmetic(time, start);
    LowWord(time - start);
  }

  /** With neither deadline asked for in the past, that is the earlier of the two. */
  lemma EarlierDeadline(clock: int, whenSet: Word, next: Word, ticks: int)
    requires 0 <= ticks < HALF && 1 <= Minus(next, whenSet) < HALF
    requires 0 <= clock - Unwrap(clock, whenSet) < HALF
    ensures
      var was, next' := Unwrap(clock, next), Unwrap(clock, When(ToWord(clock), ticks));
      Sooner(Unwrap(clock, whenSet), was, next') == Earlier(was, next')
  {
    hide Unwrap, ToWord, Minus;
    NewTimerDue(clock, ticks, 0, 0);
    NewTimerFields(ToWord(clock), ticks, 0, 0);
    PendingDeadline(clock, whenSet, next);
  }

  lemma PendingDeadline(clock: int, whenSet: Word, next: Word)
    requires 1 <= Minus(next, whenSet) < HALF && 0 <= clock - Unwrap(clock, whenSet) < HALF
    ensures Unwrap(clock, next) == Unwrap(clock, whenSet) + Minus(next, whenSet)
  {
    var due := Unwrap(clock, whenSet) + Minus(next, whenSet);
    hide Unwrap, ToWord, Minus, Plus;
    UnwrapWord(clock, whenSet);
    WordArithmetic(Unwrap(clock, whenSet), Minus(next, whenSet));
    MinusPlus(next, whenSet);
    UnwrapExact(clock, due);
  }

  lemma MinusPlus(a: Word, b: Word)
    ensures Plus(b, Minus(a, b)) == a
  {
    Rounds(a, if a >= b then 0 else 1);
  }
}
