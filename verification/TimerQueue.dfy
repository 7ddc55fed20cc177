/** The timers and timer contexts of timing.c as values: what each entry point
    does to them, and what stays true over any run. */
module TimerQueue {
  import opened Ticks

  datatype Timer = Timer(fn: int, ctx: int, now: Word, whenSet: Word)

  // --------------------------------------------------------------- the order

  /** compare_timers: by signed distance from the clock, then by function and
      context. */
  function Compare(a: Timer, b: Timer, now: Word): int {
    var at, bt := Signed(Minus(a.now, now)), Signed(Minus(b.now, now));
    if at < bt then -1
    else if at > bt then 1
    else if a.fn < b.fn then -1
    else if a.fn > b.fn then 1
    else if a.ctx < b.ctx then -1
    else if a.ctx > b.ctx then 1
    else 0
  }

  predicate SameKey(a: Timer, b: Timer) { a.now == b.now && a.fn == b.fn && a.ctx == b.ctx }

  ghost predicate Sorted(ts: seq<Timer>, now: Word) {
    forall i, j :: 0 <= i < j < |ts| ==> Compare(ts[i], ts[j], now) < 0
  }

  function Due(clock: int, t: Timer): int { Unwrap(clock, t.now) }

  function SetAt(clock: int, t: Timer): int { Unwrap(clock, t.whenSet) }

  /** Every stored time is within half the word range of the new reading too. */
  ghost predicate InReach(ts: seq<Timer>, clock: int, clock': int) {
    forall t :: t in ts ==> Near(clock', Due(clock, t)) && Near(clock', SetAt(clock, t))
  }

  /** For words the comparator only sees distances from `now`, so two timers
      are equal exactly when their keys are. */
  lemma CompareEqual(a: Timer, b: Timer, now: Word)
    ensures Compare(a, b, now) == 0 <==> SameKey(a, b)
    ensures Compare(a, b, now) == -Compare(b, a, now)
  {
  }

  lemma CompareTrans(a: Timer, b: Timer, c: Timer, now: Word)
    requires Compare(a, b, now) < 0 && Compare(b, c, now) < 0
    ensures Compare(a, c, now) < 0
  {
  }

  /** The order of two timers is the order of their unbounded deadlines. */
  lemma CompareIsDeadlineOrder(a: Timer, b: Timer, clock: int)
    ensures Compare(a, b, ToWord(clock)) < 0 <==>
            (Due(clock, a) < Due(clock, b)
             || (Due(clock, a) == Due(clock, b) && (a.fn < b.fn || (a.fn == b.fn && a.ctx < b.ctx))))
  {
  }

  /** Moving the clock, forwards or backwards and across the wrap, keeps the
      order of the timers that stay within half the word range. */
  lemma {:induction false} OrderSurvivesClock(ts: seq<Timer>, clock: int, clock': int)
    requires InReach(ts, clock, clock')
    ensures Sorted(ts, ToWord(clock)) <==> Sorted(ts, ToWord(clock'))
    ensures forall t :: t in ts ==> Due(clock', t) == Due(clock, t) && SetAt(clock', t) == SetAt(clock, t)
  {
    forall t | t in ts
      ensures Due(clock', t) == Due(clock, t) && SetAt(clock', t) == SetAt(clock, t)
    {
      UnwrapMoves(clock, clock', t.now);
      UnwrapMoves(clock, clock', t.whenSet);
    }
    forall i, j | 0 <= i < j < |ts|
      ensures Compare(ts[i], ts[j], ToWord(clock)) < 0 <==> Compare(ts[i], ts[j], ToWord(clock')) < 0
    {
      CompareIsDeadlineOrder(ts[i], ts[j], clock);
      CompareIsDeadlineOrder(ts[i], ts[j], clock');
    }
  }

  /** Without that condition it does not: a timer 24 days away overtakes another
      when the clock moves on. */
  lemma OrderNeedsReach()
    ensures
      var near, far := Timer(0, 0, 0, 0), Timer(0, 0, HALF - 1, 0);
      && Sorted([near, far], ToWord(0)) && !Sorted([near, far], ToWord(HALF + 1))
      && !InReach([near, far], 0, HALF + 1)
  {
    var near, far := Timer(0, 0, 0, 0), Timer(0, 0, HALF - 1, 0);
    assert Compare(near, far, 0) < 0;
    assert Compare([near, far][0], [near, far][1], ToWord(HALF + 1)) > 0;
    assert near in [near, far];
  }

  // --------------------------------------------------------------- insertion

  /** add234 on the sorted tree. */
  function Insert(ts: seq<Timer>, t: Timer, now: Word): seq<Timer> {
    if ts == [] then [t]
    else
      var c := Compare(t, ts[0], now);
      if c < 0 then [t] + ts
      else if c == 0 then ts
      else [ts[0]] + Insert(ts[1..], t, now)
  }

  predicate HasKey(ts: seq<Timer>, t: Timer) { exists u :: u in ts && SameKey(u, t) }

  /** In a sorted tree nothing at or after the place of `t` equals `t`. */
  lemma {:induction false} NoKeyBeyond(ts: seq<Timer>, t: Timer, now: Word)
    requires Sorted(ts, now) && ts != [] && Compare(t, ts[0], now) < 0
    ensures !HasKey(ts, t) && forall j :: 0 <= j < |ts| ==> Compare(t, ts[j], now) < 0
  {
    hide Compare;
    forall j | 0 <= j < |ts| ensures Compare(t, ts[j], now) < 0 && !SameKey(ts[j], t) {
      if j > 0 { CompareTrans(t, ts[0], ts[j], now); }
      CompareEqual(t, ts[j], now);
    }
  }

  /** A tree that has an equal timer is left alone; otherwise `t` is added. */
  lemma {:induction false} InsertAdds(ts: seq<Timer>, t: Timer, now: Word)
    requires Sorted(ts, now)
    ensures HasKey(ts, t) ==> Insert(ts, t, now) == ts
    ensures !HasKey(ts, t) ==> multiset(Insert(ts, t, now)) == multiset(ts) + multiset{t}
  {
    hide Compare;
    if ts != [] {
      var c := Compare(t, ts[0], now);
      CompareEqual(t, ts[0], now);
      assert ts == [ts[0]] + ts[1..];
      if c == 0 {
        assert ts[0] in ts && HasKey(ts, t);
      } else if c < 0 {
        NoKeyBeyond(ts, t, now);
      } else {
        InsertAdds(ts[1..], t, now);
        if HasKey(ts, t) {
          var u :| u in ts && SameKey(u, t);
          CompareEqual(ts[0], t, now);
          assert u in ts[1..];
        }
        assert HasKey(ts[1..], t) ==> HasKey(ts, t);
      }
    }
  }

  lemma InsertMembers(ts: seq<Timer>, t: Timer, now: Word)
    requires Sorted(ts, now)
    ensures forall u :: u in Insert(ts, t, now) <==> u in ts || (u == t && !HasKey(ts, t))
  {
    hide Compare, Insert;
    InsertAdds(ts, t, now);
    if !HasKey(ts, t) {
      forall u ensures u in Insert(ts, t, now) <==> u in ts || u == t {
        assert u in Insert(ts, t, now) <==> u in multiset(Insert(ts, t, now));
        assert u in ts <==> u in multiset(ts);
      }
    }
  }

  lemma {:induction false} InsertSorted(ts: seq<Timer>, t: Timer, now: Word)
    requires Sorted(ts, now)
    ensures Sorted(Insert(ts, t, now), now)
  {
    hide Compare;
    if ts != [] {
      var c := Compare(t, ts[0], now);
      CompareEqual(t, ts[0], now);
      if c < 0 {
        NoKeyBeyond(ts, t, now);
      } else if c > 0 {
        InsertSorted(ts[1..], t, now);
        InsertMembers(ts[1..], t, now);
        var rest := Insert(ts[1..], t, now);
        forall j | 0 <= j < |rest| ensures Compare(ts[0], rest[j], now) < 0 {
          assert rest[j] in ts[1..] || rest[j] == t;
        }
      }
    }
  }

  // ------------------------------------------------------------ the due test

  /** `now - (first->when_set - 10) > first->now - (first->when_set - 10)`. */
  predicate IsDue(t: Timer, now: Word) {
    Minus(now, Plus(t.whenSet, -10)) > Minus(t.now, Plus(t.whenSet, -10))
  }

  /** What schedule_timer guarantees about any stored timer: its deadline is less
      than half the word range from its setting, and is not the setting. */
  predicate Made(clock: int, t: Timer) {
    -HALF <= Due(clock, t) - SetAt(clock, t) < HALF && Due(clock, t) != SetAt(clock, t)
  }

  /** A timer that was asked for in the future. */
  predicate Spanned(clock: int, t: Timer) {
    SetAt(clock, t) < Due(clock, t) < SetAt(clock, t) + HALF
  }

  /** Asked for more than ten ticks in the past, and set ten ticks from now at the
      latest. */
  predicate Stuck(clock: int, t: Timer) {
    Due(clock, t) < SetAt(clock, t) - 10 <= clock
  }

  /** The wrapping test says exactly: the deadline has passed, or the clock has
      jumped to more than ten ticks before the timer was set; for a deadline more
      than ten ticks before the setting, both. */
  lemma DueExactly(clock: int, t: Timer)
    requires Made(clock, t)
    ensures
      var late, back := clock > Due(clock, t), clock < SetAt(clock, t) - 10;
      IsDue(t, ToWord(clock)) <==> if Due(clock, t) < SetAt(clock, t) - 10 then late && back else late || back
  {
    var due, start := Due(clock, t), SetAt(clock, t);
    TestValues(clock, t);
    LowWord(clock - start + 10);
    LowWord(due - start + 10);
  }

  /** The deadlines that have passed without the test saying so are those of the
      stuck timers. */
  lemma StuckExactly(clock: int, t: Timer)
    requires Made(clock, t)
    ensures clock > Due(clock, t) && !IsDue(t, ToWord(clock)) <==> Stuck(clock, t)
  {
    hide IsDue, Unwrap;
    DueExactly(clock, t);
  }

  /** A timer asked for more than ten ticks in the past is stuck from the start and
      stays so while its deadline is within half the word range: it is over, but
      never due. */
  lemma PastNeverDue(clock: int, ticks: int, clock': int, fn: int, ctx: int)
    requires -HALF <= ticks < -10 && clock <= clock' && clock' - (clock + ticks) <= HALF
    ensures
      var t := NewTimer(ToWord(clock), ticks, fn, ctx);
      Due(clock', t) == clock + ticks < clock' && Stuck(clock', t) && !IsDue(t, ToWord(clock'))
  {
    hide IsDue;
    var t := NewTimer(ToWord(clock), ticks, fn, ctx);
    NewTimerMade(clock, ticks, fn, ctx);
    UnwrapMoves(clock, clock', t.now);
    UnwrapMoves(clock, clock', t.whenSet);
    StuckExactly(clock', t);
  }

  /** The two sides of the test, counted from ten ticks before the setting. */
  lemma TestValues(clock: int, t: Timer)
    ensures Minus(ToWord(clock), Plus(t.whenSet, -10)) == ToWord(clock - SetAt(clock, t) + 10)
    ensures Minus(t.now, Plus(t.whenSet, -10)) == ToWord(Due(clock, t) - SetAt(clock, t) + 10)
    ensures Near(clock, SetAt(clock, t)) && Near(clock, Due(clock, t))
  {
    hide Minus, Plus, ToWord, Unwrap, Signed;
    var due, start := Due(clock, t), SetAt(clock, t);
    UnwrapWord(clock, t.now);
    UnwrapWord(clock, t.whenSet);
    WordArithmetic(start, -10);
    WordArithmetic(clock, start - 10);
    WordArithmetic(due, start - 10);
  }

  // ----------------------------------------------------------- the new timer

  /** schedule_timer's deadline. */
  function When(now: Word, ticks: int): Word {
    var when := Plus(now, ticks);
    if Minus(when, now) <= 0 then Plus(now, 1) else when
  }

  function NewTimer(now: Word, ticks: int, fn: int, ctx: int): Timer {
    Timer(fn, ctx, When(now, ticks), now)
  }

  lemma WhenIs(clock: int, ticks: int)
    requires -HALF <= ticks < HALF
    ensures When(ToWord(clock), ticks) == ToWord(clock + (if ticks == 0 then 1 else ticks))
  {
    hide ToWord, Plus, Minus;
    WordArithmetic(clock, ticks);
    WordArithmetic(clock, 1);
    WordArithmetic(clock + ticks, clock);
    LowWord(ticks);
  }

  /** The deadline is the one requested, or one tick ahead if that is the present. */
  lemma NewTimerMade(clock: int, ticks: int, fn: int, ctx: int)
    requires -HALF <= ticks < HALF
    ensures
      var t := NewTimer(ToWord(clock), ticks, fn, ctx);
      && Due(clock, t) == clock + (if ticks == 0 then 1 else ticks)
      && SetAt(clock, t) == clock && Made(clock, t)
  {
    hide ToWord, When, Unwrap;
    WhenIs(clock, ticks);
    UnwrapExact(clock, clock + (if ticks == 0 then 1 else ticks));
    UnwrapExact(clock, clock);
  }

  /** A timer not asked for in the past is ahead, and not yet due. */
  lemma NewTimerDue(clock: int, ticks: int, fn: int, ctx: int)
    requires 0 <= ticks < HALF
    ensures
      var t := NewTimer(ToWord(clock), ticks, fn, ctx);
      && Due(clock, t) == clock + (if ticks == 0 then 1 else ticks)
      && SetAt(clock, t) == clock && Spanned(clock, t) && !IsDue(t, ToWord(clock))
  {
    hide IsDue, Unwrap, NewTimer;
    NewTimerMade(clock, ticks, fn, ctx);
    DueExactly(clock, NewTimer(ToWord(clock), ticks, fn, ctx));
  }

  /** A timer asked for in the past: the guard compares unsigned words and only
      catches a request for the present, so the deadline is put ahead of the
      clock if and only if the request was not for the past. */
  lemma PastRequestIsKept(clock: int, ticks: int, fn: int, ctx: int)
    requires -HALF <= ticks < HALF
    ensures Due(clock, NewTimer(ToWord(clock), ticks, fn, ctx)) > clock <==> ticks >= 0
    ensures IsDue(NewTimer(ToWord(clock), ticks, fn, ctx), ToWord(clock)) <==> -10 <= ticks < 0
  {
    hide IsDue, Unwrap, NewTimer;
    NewTimerMade(clock, ticks, fn, ctx);
    DueExactly(clock, NewTimer(ToWord(clock), ticks, fn, ctx));
  }
}
