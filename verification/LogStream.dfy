/** The session log of logging.c: a file that is opened on the first write,
    perhaps after asking the user, and a queue for what is written meanwhile. */
module LogStream {

  datatype State = L_CLOSED | L_OPENING | L_OPEN | L_ERROR

  /** Cancel, append, overwrite, or an answer that comes later. */
  type Answer = m: int | -1 <= m <= 2

  const LGXF_OVR := 1
  const LGXF_ASK := -1

  /** The header line, for the date and time `stamp`. */
  function HeaderLine(stamp: string): string {
    "=~=~=~=~=~=~=~=~=~=~=~= PuTTY log " + stamp + " =~=~=~=~=~=~=~=~=~=~=~=\r\n"
  }

  /** The file holds `base` and then a beginning of `text`: all of it, unless a
      write has failed. */
  predicate Streamed(file: string, base: string, text: string, complete: bool) {
    && base <= file <= base + text
    && (complete ==> file == base + text)
  }

  lemma StreamedGrows(file: string, base: string, text: string, more: string)
    requires Streamed(file, base, text, false)
    ensures Streamed(file, base, text + more, false)
  {
    assert base + (text + more) == base + text + more;
  }

  /** A write that got `data[..n]` into a complete file. */
  lemma StreamedWrite(file: string, base: string, text: string, data: string, n: nat)
    requires Streamed(file, base, text, true) && n <= |data|
    ensures Streamed(file + data[..n], base, text + data, n == |data|)
  {
    assert base + (text + data) == base + text + data[..n] + data[n..];
  }

  lemma DrainStep(done: string, sent: string, queue: string, n: nat)
    requires n <= |queue|
    ensures (done + sent) + queue[..n] == done + (sent + queue[..n])
    ensures (sent + queue[..n]) + queue[n..] == sent + queue
  {
  }

  lemma StreamedWhole(file: string, base: string, head: string, text: string)
    requires Streamed(file, base, head + text, true)
    ensures file == base + head + text
  {
    assert base + (head + text) == base + head + text;
  }

  class LogContext {
    const logtype: nat
    const logxfovr: int
    const logheader: bool
    /** What the front end says about the file before it is opened. */
    const wouldLose: bool

    /** What the surroundings answer: the user, when asked; whether f_open
        succeeds, for each mode; how many bytes each fwrite loses; how many bytes
        bufchain_prefix shows each time; the date and time. */
    const answer: Answer
    const opens: int -> bool
    const lost: nat -> nat
    const granule: nat -> nat
    const clock: string
    var writes: nat

    var state: State
    /** lgfp is not null. */
    var lgfp: bool
    var queue: string
    /** The contents of the log file. */
    var file: string

    /** The file before this session, and everything handed to the log since. */
    ghost var before: string
    ghost var submitted: string
    /** How the file was opened, if it was. */
    ghost var started: bool
    ghost var mode: int

    constructor (logtype: nat, logxfovr: int, logheader: bool, wouldLose: bool, file: string,
                 answer: Answer, opens: int -> bool, lost: nat -> nat, granule: nat -> nat, clock: string)
      ensures Valid() && state == L_CLOSED && before == file && submitted == "" && writes == 0
      ensures this.logtype == logtype && this.logxfovr == logxfovr && this.logheader == logheader && this.wouldLose == wouldLose
      ensures this.answer == answer && this.opens == opens && this.lost == lost && this.granule == granule && this.clock == clock
    {
      this.logtype, this.logxfovr, this.logheader, this.wouldLose := logtype, logxfovr, logheader, wouldLose;
      this.answer, this.opens, this.lost, this.granule, this.clock := answer, opens, lost, granule, clock;
      this.state, this.lgfp, this.queue, this.file, this.writes := L_CLOSED, false, "", file, 0;
      this.before, this.submitted, this.started, this.mode := file, "", false, 0;
    }

    /** What the stream goes on from, and its first line. */
    ghost function Base(): string
      reads this
    {
      if mode == 1 then before else ""
    }

    ghost function Head(): string {
      if logheader then HeaderLine(clock) else ""
    }

    /** The writes from number `a` to before number `b` lose nothing. */
    ghost predicate Whole(a: nat, b: nat) {
      forall i: nat :: a <= i < b ==> lost(i) == 0
    }

    lemma WholeParts(a: nat, b: nat, c: nat)
      requires a <= b <= c && Whole(a, c)
      ensures Whole(a, b) && Whole(b, c)
    {
    }

    /** The mode the settings ask for; with LGXF_ASK it is the user's. */
    ghost predicate ModeAllowed(m: int) {
      && (m == 1 || m == 2)
      && (!wouldLose ==> m == 2)
      && (wouldLose && logxfovr != LGXF_ASK ==> m == if logxfovr == LGXF_OVR then 2 else 1)
    }

    /** What every function here keeps. */
    ghost predicate Consistent()
      reads this
    {
      && (lgfp <==> state == L_OPEN)
      && (state == L_OPEN ==> started && logtype > 0)
      && (state == L_CLOSED ==> !started && queue == "")
      && (state == L_OPENING ==> !started && logtype > 0 && wouldLose && logxfovr == LGXF_ASK)
      && (started ==> ModeAllowed(mode))
      && (!started ==> file == before)
    }

    /** What holds between the calls from outside: the log is always a beginning
        of the header and everything submitted, in order. */
    ghost predicate Valid()
      reads this
    {
      && Consistent()
      && (state == L_CLOSED && logtype > 0 ==> submitted == "")
      && (state == L_OPENING ==> queue == submitted)
      && (state != L_OPENING ==> queue == "")
      && (started ==> Streamed(file, Base(), Head() + submitted, state == L_OPEN))
    }

    // ------------------------------------------------- the world outside

    /** fwrite: some of the bytes at the end may get lost. */
    method Fwrite(data: string) returns (n: nat)
      modifies `file, `writes
      ensures n <= |data| && file == old(file) + data[..n] && writes == old(writes) + 1
      ensures n == if lost(old(writes)) <= |data| then |data| - lost(old(writes)) else 0
    {
      n := if lost(writes) <= |data| then |data| - lost(writes) else 0;
      writes := writes + 1;
      file := file + data[..n];
    }

    /** f_open with "ab" or "wb", which may fail. */
    method FOpen(m: int) returns (ok: bool)
      modifies `file, `started, `mode
      ensures ok == opens(m) && started == (old(started) || ok)
      ensures ok ==> mode == m && file == if m == 1 then old(file) else ""
      ensures !ok ==> file == old(file) && mode == old(mode)
    {
      ok := opens(m);
      if ok {
        started, mode := true, m;
        if m != 1 { file := ""; }
      }
    }

    method BufchainPrefix(k: nat) returns (n: nat)
      requires queue != ""
      ensures n == if granule(k) < 1 then 1 else if granule(k) > |queue| then |queue| else granule(k)
    {
      n := if granule(k) < 1 then 1 else if granule(k) > |queue| then |queue| else granule(k);
    }

    // ---------------------------------------------------------- the module

    method LogFclose()
      modifies `state, `lgfp
      ensures state == L_CLOSED && !lgfp
    {
      if lgfp { lgfp := false; }
      state := L_CLOSED;
    }

    /** The part of logwrite after the test for L_CLOSED; the writes of
        logfopen_callback never get further than this. */
    method WriteOut(data: string, ghost text: string)
      requires Consistent() && state != L_CLOSED
      requires started ==> Streamed(file, Base(), text, state == L_OPEN)
      modifies `state, `lgfp, `queue, `file, `writes
      ensures Consistent() && writes >= old(writes)
      ensures old(state) == L_OPEN && Whole(old(writes), writes) ==> state == L_OPEN
      ensures old(state) == L_OPENING ==> state == L_OPENING && queue == old(queue) + data && file == old(file)
      ensures old(state) != L_OPENING ==> queue == old(queue) && (state == L_OPEN || state == L_ERROR)
      ensures old(state) == L_ERROR ==> state == L_ERROR && file == old(file)
      ensures started ==> Streamed(file, Base(), text + data, state == L_OPEN)
    {
      hide Streamed;
      if state == L_OPENING {
        queue := queue + data;
      } else if state == L_OPEN {
        var n := Fwrite(data);
        assert lost(old(writes)) == 0 ==> n == |data|;
        StreamedWrite(old(file), Base(), text, data, n);
        if n < |data| {
          LogFclose();
          state := L_ERROR;
        }
      } else if started {
        StreamedGrows(file, Base(), text, data);
      }
    }

    /** logwrite. The file is opened first if need be; what is written while the
        answer is awaited is queued. */
    method LogWrite(data: string)
      requires Valid()
      modifies this
      ensures Valid() && before == old(before)
      ensures submitted == old(submitted) + data
      ensures old(state) == L_ERROR ==> state == L_ERROR && file == old(file)
      ensures old(state) == L_OPEN ==> mode == old(mode)
      ensures logtype == 0 ==> file == old(file) && state == old(state)
      ensures logtype > 0 ==> state != L_CLOSED && (old(state) == L_OPENING ==> state == L_OPENING) && writes >= old(writes)
      ensures old(state) == L_CLOSED && logtype > 0 ==>
        var m := if !wouldLose then 2 else if logxfovr == -1 then answer else if logxfovr == 1 then 2 else 1;
        && (state == L_OPENING <==> m == -1)
        && (m == 0 || (m > 0 && !opens(m)) ==> state == L_ERROR && file == before)
        && (m > 0 && opens(m) ==> mode == m && started && (Whole(old(writes), writes) ==> state == L_OPEN))
      ensures old(state) == L_OPEN && Whole(old(writes), writes) ==> state == L_OPEN
      ensures state == L_OPEN ==> file == (if mode == 1 then before else "") + Head() + submitted
    {
      hide Streamed, HeaderLine;
      if state == L_CLOSED {
        LogFopen();
      }
      ghost var text := Head() + submitted;
      submitted := submitted + data;
      assert Head() + submitted == text + data;
      if state != L_CLOSED {
        WriteOut(data, text);
      }
      if state == L_OPEN { StreamedWhole(file, Base(), Head(), submitted); }
    }

    /** logtraffic. */
    method LogTraffic(c: char, logmode: nat)
      requires Valid()
      modifies this
      ensures Valid() && before == old(before)
      ensures submitted == if logtype > 0 && logtype == logmode then old(submitted) + [c] else old(submitted)
      ensures !(logtype > 0 && logtype == logmode) ==> unchanged(this)
    {
      if logtype > 0 {
        if logtype == logmode {
          LogWrite([c]);
        }
      }
    }

    /** logfopen: nothing is submitted yet. */
    method LogFopen()
      requires Valid()
      modifies `state, `lgfp, `queue, `file, `started, `mode, `writes
      ensures Valid() && writes >= old(writes)
      ensures old(state) != L_CLOSED || logtype == 0 ==> unchanged(this)
      ensures old(state) == L_CLOSED && logtype > 0 ==>
        var m := if !wouldLose then 2 else if logxfovr == -1 then answer else if logxfovr == 1 then 2 else 1;
        && state != L_CLOSED && (state != L_OPENING ==> queue == "")
        && (state == L_OPENING <==> m == -1)
        && (m == 0 || (m > 0 && !opens(m)) ==> state == L_ERROR && file == before)
        && (m > 0 && opens(m) ==> started && mode == m && (Whole(old(writes), writes) ==> state == L_OPEN))
    {
      if state != L_CLOSED { return; }
      if logtype == 0 { return; }
      var m := 2;
      if wouldLose {
        if logxfovr != LGXF_ASK {
          m := if logxfovr == LGXF_OVR then 2 else 1;
        } else {
          m := answer;
        }
      }
      if m < 0 {
        state := L_OPENING;
      } else {
        LogFopenCallback(m);
      }
    }

    /** logfopen_callback, with the answer 0 to cancel, 1 to append or 2 to
        overwrite. However it ends, nothing is left in the queue. */
    method LogFopenCallback(m: int)
      requires Valid() && logtype > 0 && (state == L_OPENING || (state == L_CLOSED && (m == 0 || ModeAllowed(m))))
      requires 0 <= m <= 2
      modifies `state, `lgfp, `queue, `file, `started, `mode, `writes
      ensures Valid() && writes >= old(writes)
      ensures state == L_OPEN || state == L_ERROR
      ensures queue == ""
      ensures m == 0 || !opens(m) ==> state == L_ERROR && file == before && !started
      ensures m > 0 && opens(m) ==> started && mode == m && (Whole(old(writes), writes) ==> state == L_OPEN)
      ensures state == L_OPEN ==> file == (if m == 1 then before else "") + Head() + submitted
    {
      hide HeaderLine;
      if m == 0 {
        state := L_ERROR;
      } else {
        var ok := FOpen(m);
        if ok {
          lgfp, state := true, L_OPEN;
        } else {
          state := L_ERROR;
        }
      }
      if state == L_OPEN && logheader {
        var now := clock;
        assert "" + HeaderLine(now) == Head();
        WriteOut(HeaderLine(now), "");
      }
      Drain(Head(), queue);
      assert old(state) == L_OPENING ==> old(queue) == submitted;
      if state == L_OPEN { StreamedWhole(file, Base(), Head(), submitted); }
    }

    /** "We should write any queued data out." */
    method Drain(ghost done: string, ghost queued: string)
      requires Consistent() && (state == L_OPEN || state == L_ERROR) && queue == queued
      requires started ==> Streamed(file, Base(), done, state == L_OPEN)
      modifies `state, `lgfp, `queue, `file, `writes
      ensures Consistent() && (state == L_OPEN || state == L_ERROR) && queue == "" && writes >= old(writes)
      ensures old(state) == L_OPEN && Whole(old(writes), writes) ==> state == L_OPEN
      ensures started ==> Streamed(file, Base(), done + queued, state == L_OPEN)
    {
      hide Streamed, HeaderLine, Whole;
      ghost var sent := "";
      var k: nat := 0;
      assert done + sent == done;
      while queue != ""
        invariant Consistent() && (state == L_OPEN || state == L_ERROR) && writes >= old(writes)
        invariant old(state) == L_OPEN && Whole(old(writes), writes) ==> state == L_OPEN
        invariant sent + queue == queued
        invariant started ==> Streamed(file, Base(), done + sent, state == L_OPEN)
        decreases |queue|
      {
        var n := BufchainPrefix(k);
        k := k + 1;
        var data := queue[..n];
        ghost var text, w := done + sent, writes;
        DrainStep(done, sent, queue, n);
        WriteOut(data, text);
        if Whole(old(writes), writes) { WholeParts(old(writes), w, writes); }
        sent := sent + data;
        queue := queue[n..];
      }
      assert sent == queued;
    }
  }
}
