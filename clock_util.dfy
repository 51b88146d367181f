/** The session clocks: the work/break session state, the notices that
    change the state or adjust the displayed clock, and the 100 ms ticking
    loops that accumulate elapsed time.

    A ticking loop never ends by itself (it holds the only mutable borrow
    of its session, so nothing else can change the state it tests); it
    stops when its task is dropped at one of its `ticker.next().await`
    suspension points.  Each loop is modelled by the number of ticker
    periods, `periods`, that run before that happens. */
module ClockUtil {
  import opened TimeUtil

  /** The ticker period of every clock loop. */
  const TICK_MS: nat := 100

  datatype SessionState = Working | Break | Paused

  /** `SessionState::default`. */
  function DefaultSessionState(): (s: SessionState)
    ensures s == Working
  {
    Working
  }

  /** Counts time in 100 ms steps while its loop runs. */
  class SingleClock {
    var runDuration: Duration

    /** `SingleClock::new`: nothing counted yet. */
    constructor New()
      ensures runDuration == 0
    {
      runDuration := 0;
    }

    /** `SingleClock::run_clock` for `periods` iterations: each adds 100 ms. */
    method RunClock(periods: nat)
      modifies this
      ensures runDuration == old(runDuration) + periods * FromMillis(TICK_MS)
    {
      var elapsed := 0;
      while elapsed < periods
        invariant 0 <= elapsed <= periods
        invariant runDuration == old(runDuration) + elapsed * FromMillis(TICK_MS)
      {
        runDuration := runDuration + FromMillis(TICK_MS);
        elapsed := elapsed + 1;  // ticker.next().await
      }
    }
  }

  /** The work and break clocks of one double-timer session.  The display
      handle and the task spawner the source stores beside them are left
      out. */
  class DoubleTimerSession {
    var workClock: Duration
    var breakClock: Duration
    var sessionState: SessionState

    /** `DoubleTimerSession::new`: both clocks at zero, paused. */
    constructor New()
      ensures workClock == 0 && breakClock == 0 && sessionState == Paused
    {
      workClock := 0;
      breakClock := 0;
      sessionState := Paused;
    }

    /** `run_work_clock` for `periods` iterations: the state becomes
        Working and stays so (the loop guard never fails), the work clock
        gains 100 ms per iteration and the break clock is untouched. */
    method RunWorkClock(periods: nat)
      modifies this
      ensures sessionState == Working
      ensures workClock == old(workClock) + periods * FromMillis(TICK_MS)
      ensures breakClock == old(breakClock)
    {
      sessionState := Working;
      var elapsed := 0;
      while elapsed < periods && sessionState == Working
        invariant 0 <= elapsed <= periods
        invariant sessionState == Working
        invariant workClock == old(workClock) + elapsed * FromMillis(TICK_MS)
        invariant breakClock == old(breakClock)
      {
        workClock := workClock + FromMillis(TICK_MS);
        elapsed := elapsed + 1;  // ticker.next().await
      }
    }

    /** `run_break_clock` for `periods` iterations: the mirror image, the
        state becomes Break and stays so, only the break clock advances. */
    method RunBreakClock(periods: nat)
      modifies this
      ensures sessionState == Break
      ensures breakClock == old(breakClock) + periods * FromMillis(TICK_MS)
      ensures workClock == old(workClock)
    {
      sessionState := Break;
      var elapsed := 0;
      while elapsed < periods && sessionState == Break
        invariant 0 <= elapsed <= periods
        invariant sessionState == Break
        invariant breakClock == old(breakClock) + elapsed * FromMillis(TICK_MS)
        invariant workClock == old(workClock)
      {
        breakClock := breakClock + FromMillis(TICK_MS);
        elapsed := elapsed + 1;  // ticker.next().await
      }
    }
  }

  /** The clock offset and the session state a notice acts on together. */
  datatype SessionView = SessionView(offset: Duration, state: SessionState)

  datatype SessionNotice = SetState(newState: SessionState) | AdjustTimer(delta: Duration)
  {
    /** What applying the notice does to the offset and the state: a state
        change touches only the state, a timer adjustment only the offset. */
    function Effect(v: SessionView): (r: SessionView)
      ensures SetState? ==> r.state == newState && r.offset == v.offset
      ensures AdjustTimer? ==>
                && r.state == v.state
                && AsMillis(r.offset) == AsMillis(v.offset) + AsMillis(delta)
    {
      match this
      case SetState(s) => v.(state := s)
      case AdjustTimer(d) => v.(offset := OffsetAfterAdd(v.offset, d))
    }

    /** `SessionNotice::apply`: writes through the clock and returns the
        new state. */
    method Apply(time: Time, state: SessionState) returns (newState: SessionState)
      requires time.Valid()
      modifies time
      ensures time.Valid()
      ensures SessionView(time.offset, newState) == Effect(SessionView(old(time.offset), state))
    {
      match this {
        case AdjustTimer(d) =>
          time.AddAssign(d);
          newState := state;
        case SetState(s) =>
          newState := s;
      }
    }
  }

  /** Setting a state twice is the same as setting it once, and a later
      state change overrides an earlier one without touching the clock. */
  lemma SetStateIdempotent(s: SessionState, t: SessionState, v: SessionView)
    ensures SetState(s).Effect(SetState(s).Effect(v)) == SetState(s).Effect(v)
    ensures SetState(t).Effect(SetState(s).Effect(v)) == SetState(t).Effect(v)
  {
  }

  /** Two timer adjustments equal one adjustment by their summed
      milliseconds, in either order, and a zero adjustment of a
      whole-millisecond offset is a no-op. */
  lemma AdjustTimerComposes(a: Duration, b: Duration, v: SessionView)
    ensures AdjustTimer(b).Effect(AdjustTimer(a).Effect(v))
         == AdjustTimer(FromMillis(AsMillis(a) + AsMillis(b))).Effect(v)
    ensures AdjustTimer(b).Effect(AdjustTimer(a).Effect(v))
         == AdjustTimer(a).Effect(AdjustTimer(b).Effect(v))
    ensures WholeMillis(v.offset) ==> AdjustTimer(0).Effect(v) == v
  {
  }

  /** A state change and a timer adjustment commute. */
  lemma NoticesOfDifferentKindsCommute(s: SessionState, d: Duration, v: SessionView)
    ensures SetState(s).Effect(AdjustTimer(d).Effect(v))
         == AdjustTimer(d).Effect(SetState(s).Effect(v))
  {
  }
}
