/**
 * The millisecond stopwatch TimerUtil of include/su_timer.h.
 *
 * The four fields live in a class whose methods update them in place, as the
 * C functions do through their TimerUtil pointer. SDL_GetTicks() becomes the
 * parameter `now`. Each method is specified by a function on TimerState, the
 * value of the four fields, and the lemmas below are about those functions.
 */
module Timer {
  import opened SdlTypes

  /** The fields of a TimerUtil: start_ticks, paused_ticks, paused, started. */
  datatype TimerState = TimerState(startTicks: u32, pausedTicks: u32, paused: bool, started: bool)

  /** The invariant every operation keeps: a paused timer has been started. */
  predicate Consistent(s: TimerState) {
    s.paused ==> s.started
  }

  /** What timer_init and timer_stop store. */
  const Cleared := TimerState(0, 0, false, false)

  /** The state timer_start leaves behind when the clock reads `now`. */
  function StartedAt(now: u32): TimerState {
    TimerState(now, 0, false, true)
  }

  /** timer_pause at time `now`. */
  function Paused(s: TimerState, now: u32): TimerState {
    if s.started && !s.paused then TimerState(0, Sub32(now, s.startTicks), true, s.started) else s
  }

  /** timer_resume at time `now`. */
  function Resumed(s: TimerState, now: u32): TimerState {
    if s.started && s.paused then TimerState(Sub32(now, s.pausedTicks), 0, false, s.started) else s
  }

  /** timer_ticks at time `now`: the milliseconds counted so far, modulo 2^32. */
  function Elapsed(s: TimerState, now: u32): u32 {
    if !s.started then 0 else if s.paused then s.pausedTicks else Sub32(now, s.startTicks)
  }

  /** Every operation keeps `paused ==> started`. */
  lemma OperationsKeepConsistent(s: TimerState, now: u32)
    requires Consistent(s)
    ensures Consistent(Cleared) && Consistent(StartedAt(now))
    ensures Consistent(Paused(s, now)) && Consistent(Resumed(s, now))
  {
  }

  /** A freshly started timer counts the time since it was started, modulo 2^32 once the clock wraps. */
  lemma ElapsedSinceStart(t0: u32, t1: u32)
    ensures Elapsed(StartedAt(t0), t0) == 0
    ensures t0 <= t1 ==> Elapsed(StartedAt(t0), t1) == t1 - t0
    ensures t1 < t0 ==> Elapsed(StartedAt(t0), t1) == t1 - t0 + TwoTo32
  {
  }

  /** Pausing twice is pausing once, whatever the clock says the second time. */
  lemma PauseIdempotent(s: TimerState, now1: u32, now2: u32)
    ensures Paused(Paused(s, now1), now2) == Paused(s, now1)
  {
  }

  /** Resuming twice is resuming once. */
  lemma ResumeIdempotent(s: TimerState, now1: u32, now2: u32)
    ensures Resumed(Resumed(s, now1), now2) == Resumed(s, now1)
  {
  }

  /** Subtracting the difference gives back the subtrahend, modulo 2^32. */
  lemma SubSub(a: u32, b: u32)
    ensures Sub32(a, Sub32(a, b)) == b
  {
    if a >= b {
      assert Sub32(a, b) == a - b;
    } else {
      assert Sub32(a, b) == a - b + TwoTo32;
    }
  }

  /** Modular subtraction chains: (t3 - (t2 - (t1 - t0))) == (t1 - t0) + (t3 - t2), modulo 2^32. */
  lemma SubChain(t0: u32, t1: u32, t2: u32, t3: u32)
    ensures Sub32(t3, Sub32(t2, Sub32(t1, t0))) == Add32(Sub32(t1, t0), Sub32(t3, t2))
  {
    var d := Sub32(t1, t0);
    var r := Sub32(t2, d);
    assert (r - (t2 - d)) % TwoTo32 == 0;
    assert (Sub32(t3, r) - (t3 - r)) % TwoTo32 == 0;
    assert (Sub32(t3, r) - (d + (t3 - t2))) % TwoTo32 == 0 by {
      assert Sub32(t3, r) - (d + (t3 - t2)) == (Sub32(t3, r) - (t3 - r)) - (r - (t2 - d));
    }
    assert (Sub32(t3, t2) - (t3 - t2)) % TwoTo32 == 0;
    assert (Add32(d, Sub32(t3, t2)) - (d + Sub32(t3, t2))) % TwoTo32 == 0;
    var x, y := Sub32(t3, r), Add32(d, Sub32(t3, t2));
    assert (x - y) % TwoTo32 == 0 by {
      assert x - y == (x - (d + (t3 - t2))) - (y - (d + Sub32(t3, t2))) - (Sub32(t3, t2) - (t3 - t2));
    }
    assert -TwoTo32 < x - y < TwoTo32;
  }

  /** At a fixed instant, pausing does not change the reading. */
  lemma PauseKeepsElapsed(s: TimerState, now: u32)
    ensures Elapsed(Paused(s, now), now) == Elapsed(s, now)
  {
  }

  /** At a fixed instant, resuming does not change the reading. */
  lemma {:induction false} ResumeKeepsElapsed(s: TimerState, now: u32)
    ensures Elapsed(Resumed(s, now), now) == Elapsed(s, now)
  {
    if s.started && s.paused {
      SubSub(now, s.pausedTicks);
    }
  }

  /**
   * Time spent paused is not counted: a running timer paused at t1 and resumed at
   * t2 reads, at t3, what it read at t1 plus the time since t2.
   */
  lemma PausedTimeNotCounted(s: TimerState, t1: u32, t2: u32, t3: u32)
    requires s.started && !s.paused
    ensures Elapsed(Resumed(Paused(s, t1), t2), t3) == Add32(Elapsed(s, t1), Sub32(t3, t2))
  {
    SubChain(s.startTicks, t1, t2, t3);
  }

  /** A TimerUtil, updated in place by the timer_* functions. */
  class Stopwatch {
    var startTicks: u32
    var pausedTicks: u32
    var paused: bool
    var started: bool

    /** The four fields as a value. */
    function State(): TimerState
      reads this
    {
      TimerState(startTicks, pausedTicks, paused, started)
    }

    /** The object invariant: the fields form a consistent timer. */
    ghost predicate Valid()
      reads this
    {
      Consistent(State())
    }

    /** timer_create when su_malloc succeeds: a fresh timer, initialised as timer_init does. */
    constructor ()
      ensures Valid() && State() == Cleared
    {
      startTicks, pausedTicks, paused, started := 0, 0, false, false;
    }

    /** timer_init: clear all four fields. */
    method Init()
      modifies this
      ensures Valid() && State() == Cleared
    {
      startTicks := 0;
      pausedTicks := 0;
      paused := false;
      started := false;
    }

    /** timer_start: start counting from `now`. */
    method Start(now: u32)
      modifies this
      ensures Valid() && State() == StartedAt(now)
    {
      started := true;
      paused := false;
      pausedTicks := 0;
      startTicks := now;
    }

    /** timer_stop: reset, exactly as timer_init does. */
    method Stop()
      modifies this
      ensures Valid() && State() == Cleared
    {
      startTicks := 0;
      pausedTicks := 0;
      paused := false;
      started := false;
    }

    /** timer_pause at time `now`: a no-op unless the timer runs. */
    method Pause(now: u32)
      modifies this
      ensures State() == Paused(old(State()), now)
      ensures old(Valid()) ==> Valid()
    {
      if started && !paused {
        pausedTicks := Sub32(now, startTicks);
        paused := true;
        startTicks := 0;
      }
    }

    /** timer_resume at time `now`: a no-op unless the timer is paused. */
    method Resume(now: u32)
      modifies this
      ensures State() == Resumed(old(State()), now)
      ensures old(Valid()) ==> Valid()
    {
      if started && paused {
        paused := false;
        startTicks := Sub32(now, pausedTicks);
        pausedTicks := 0;
      }
    }

    /** timer_ticks at time `now`. */
    method Ticks(now: u32) returns (time: u32)
      ensures time == Elapsed(State(), now)
    {
      time := 0;
      if started {
        if paused {
          time := pausedTicks;
        } else {
          time := Sub32(now, startTicks);
        }
      }
    }

    /** timer_started. */
    function IsStarted(): (b: bool)
      reads this
      requires Valid()
      ensures paused ==> b
    {
      started
    }

    /** timer_paused. */
    function IsPaused(): (b: bool)
      reads this
      requires Valid()
      ensures b ==> started
    {
      paused
    }
  }

  /** timer_create: NULL when the allocation fails, otherwise a cleared timer. */
  method Create(allocOk: bool) returns (t: Stopwatch?)
    ensures allocOk <==> t != null
    ensures t != null ==> fresh(t) && t.Valid() && t.State() == Cleared
  {
    if !allocOk {
      return null;
    }
    t := new Stopwatch();
  }
}
