/**
 * The inactivity timer. After the last user input it waits
 * `returnToMainTimeout` milliseconds, calls the return-to-main callback and
 * warns; then, `sleepTimeout` milliseconds after that same input, it calls
 * the sleep callback and waits for the next reset. Times come from the 32-bit
 * millisecond clock; the timer keeps them, and subtracts them, in 64 bits.
 * The callbacks are recorded as a trace of the calls made.
 */
module Power {
  type U16 = x: int | 0 <= x < 0x1_0000
  type U32 = x: int | 0 <= x < 0x1_0000_0000
  type U64 = x: int | 0 <= x < 0x1_0000_0000_0000_0000

  const Modulus64 := 0x1_0000_0000_0000_0000

  /** The states of the timer; Sleep is only ever entered from outside. */
  datatype State = Running | Warning | Timeout | Sleep

  /** The two callbacks handed to setup. */
  datatype Callback = ReturnToMain | GoToSleep

  datatype Saver = Saver(
    returnToMainTimeout: U64,
    sleepTimeout: U64,
    /** Clock reading at the latest reset. */
    sleepTimer: U64,
    state: State,
    /** The callbacks called so far, oldest first. */
    fired: seq<Callback>)

  /** The timeouts a fresh timer starts with, in milliseconds. */
  const DefaultReturnToMain: U64 := 9000
  const DefaultSleep: U64 := 12000

  /** `now - since` with the clock reading widened to 64 bits. */
  function Elapsed(now: U32, since: U64): (r: U64)
    ensures r == (now - since) % Modulus64
    ensures since <= now ==> r == now - since
  {
    if since <= now then now - since else now - since + Modulus64
  }

  /** Restarts the inactivity period at `now`. */
  function Reset(s: Saver, now: U32): Saver {
    s.(sleepTimer := now, state := Running)
  }

  /** Takes the two timeouts in seconds and starts running at `now`. */
  function Configure(s: Saver, returnToMain: U16, sleep: U16, now: U32): Saver {
    Reset(s.(returnToMainTimeout := returnToMain * 1000, sleepTimeout := sleep * 1000, state := Running), now)
  }

  /** One pass of the main loop at clock reading `now`. */
  function Step(s: Saver, now: U32): Saver {
    match s.state
    case Running =>
      if Elapsed(now, s.sleepTimer) > s.returnToMainTimeout then
        s.(fired := s.fired + [ReturnToMain], state := Warning)
      else s
    case Warning =>
      if Elapsed(now, s.sleepTimer) > s.sleepTimeout then
        s.(fired := s.fired + [GoToSleep], state := Timeout)
      else s
    case Timeout => s
    case Sleep => Reset(s, now)
  }

  /** Passes of the main loop at the clock readings `times`, with no reset
      from outside in between. */
  function Run(s: Saver, times: seq<U32>): Saver
    decreases |times|
  {
    if times == [] then s else Run(Step(s, times[0]), times[1..])
  }

  /** The callbacks in the order a timer calls them after a reset. */
  const Callbacks := [ReturnToMain, GoToSleep]

  /** How many of the callbacks a timer in `state` has called since the
      latest reset. */
  function Done(state: State): (n: nat)
    ensures n <= |Callbacks|
  {
    match state
    case Running => 0
    case Warning => 1
    case Timeout => 2
    case Sleep => 0
  }

  /** Setup turns seconds into milliseconds, starts running at `now` and
      calls nothing. */
  lemma ConfigureStarts(s: Saver, returnToMain: U16, sleep: U16, now: U32)
    ensures var t := Configure(s, returnToMain, sleep, now);
      t.returnToMainTimeout == 1000 * returnToMain && t.sleepTimeout == 1000 * sleep &&
      t.state == Running && t.sleepTimer == now && t.fired == s.fired && Done(t.state) == 0
  {
  }

  /** While running, a pass calls the return-to-main callback exactly when
      more than its timeout has passed since the reset, and then warns;
      otherwise nothing changes. */
  lemma RunningFires(s: Saver, now: U32)
    requires s.state == Running && s.sleepTimer <= now
    ensures Step(s, now).fired != s.fired <==> now - s.sleepTimer > s.returnToMainTimeout
    ensures now - s.sleepTimer > s.returnToMainTimeout ==>
      Step(s, now).fired == s.fired + [ReturnToMain] && Step(s, now).state == Warning
    ensures now - s.sleepTimer <= s.returnToMainTimeout ==> Step(s, now) == s
  {
    if now - s.sleepTimer > s.returnToMainTimeout {
      assert Step(s, now).fired == s.fired + [ReturnToMain];
      assert |Step(s, now).fired| == |s.fired| + 1;
    }
  }

  /** While warning, a pass calls the sleep callback exactly when more than
      the sleep timeout has passed since the reset, and then waits. */
  lemma WarningFires(s: Saver, now: U32)
    requires s.state == Warning && s.sleepTimer <= now
    ensures Step(s, now).fired != s.fired <==> now - s.sleepTimer > s.sleepTimeout
    ensures now - s.sleepTimer > s.sleepTimeout ==>
      Step(s, now).fired == s.fired + [GoToSleep] && Step(s, now).state == Timeout
    ensures now - s.sleepTimer <= s.sleepTimeout ==> Step(s, now) == s
  {
    if now - s.sleepTimer > s.sleepTimeout {
      assert |Step(s, now).fired| == |s.fired| + 1;
    }
  }

  /** A pass outside Sleep keeps the timeouts and the reset time, never
      enters Sleep, and calls at most one callback: the next one due. */
  lemma StepCalls(s: Saver, now: U32)
    requires s.state != Sleep
    ensures var t := Step(s, now);
      t.returnToMainTimeout == s.returnToMainTimeout && t.sleepTimeout == s.sleepTimeout &&
      t.sleepTimer == s.sleepTimer && t.state != Sleep &&
      Done(s.state) <= Done(t.state) <= Done(s.state) + 1 &&
      t.fired == s.fired + Callbacks[Done(s.state)..Done(t.state)]
  {
    var t := Step(s, now);
    if t.fired == s.fired {
      assert t.fired == s.fired + [] && t.state == s.state;
    }
  }

  /** Between two resets each callback is called at most once, the sleep
      callback never before the return-to-main one: whatever the clock
      readings, the calls made are the callbacks between the states before
      and after, in order. */
  lemma {:induction false} OncePerReset(s: Saver, times: seq<U32>)
    requires s.state != Sleep
    ensures var t := Run(s, times);
      t.state != Sleep && Done(s.state) <= Done(t.state) &&
      t.fired == s.fired + Callbacks[Done(s.state)..Done(t.state)]
    decreases |times|
  {
    if times != [] {
      var m := Step(s, times[0]);
      StepCalls(s, times[0]);
      OncePerReset(m, times[1..]);
      var t := Run(m, times[1..]);
      var i, j, k := Done(s.state), Done(m.state), Done(t.state);
      assert Callbacks[i..k] == Callbacks[i..j] + Callbacks[j..k];
    } else {
      assert Run(s, times).fired == s.fired + [];
    }
  }

  /** With a sleep timeout no longer than the return-to-main timeout (as the
      firmware sets them up: 300 s and 30 s), the pass after the one that
      returns to the main menu also sends the device to sleep. */
  lemma SleepFollowsReturn(s: Saver, t1: U32, t2: U32)
    requires s.state == Running && s.sleepTimeout <= s.returnToMainTimeout
    requires s.sleepTimer <= t1 <= t2 && t1 - s.sleepTimer > s.returnToMainTimeout
    ensures Run(s, [t1, t2]).fired == s.fired + [ReturnToMain, GoToSleep]
    ensures Run(s, [t1, t2]).state == Timeout
  {
    var m := Step(s, t1);
    RunningFires(s, t1);
    WarningFires(m, t2);
    assert [t1, t2][1..] == [t2] && [t2][1..] == [];
    assert Run(s, [t1, t2]) == Run(m, [t2]) == Step(m, t2);
    assert m.fired + [GoToSleep] == s.fired + [ReturnToMain, GoToSleep];
  }

  /** Once the 32-bit clock has wrapped past the reset time, the 64-bit
      difference is close to 2^64: 11 ms after a reset at 0xFFFFFFFA the
      return-to-main callback is called at once. */
  lemma WrapFiresEarly(s: Saver)
    requires s.state == Running && s.sleepTimer == 0xFFFF_FFFA
    requires s.returnToMainTimeout <= 65535 * 1000
    ensures (0xFFFF_FFFA + 11) % 0x1_0000_0000 == 5
    ensures Step(s, 5).fired == s.fired + [ReturnToMain]
  {
  }

  /** The timer: the two timeouts, the time of the latest reset and the
      state, plus the trace of callbacks called. */
  class PowerSaver {
    var returnToMainTimeout: U64
    var sleepTimeout: U64
    var sleepTimer: U64
    var loopState: State
    var fired: seq<Callback>

    function Model(): Saver
      reads this
    {
      Saver(returnToMainTimeout, sleepTimeout, sleepTimer, loopState, fired)
    }

    /** A timer that has not been set up: the default timeouts, and the
        zero-filled reset time and state of a static object. */
    constructor ()
      ensures Model() == Saver(DefaultReturnToMain, DefaultSleep, 0, Running, [])
    {
      returnToMainTimeout := DefaultReturnToMain;
      sleepTimeout := DefaultSleep;
      sleepTimer := 0;
      loopState := Running;
      fired := [];
    }

    /** Takes the timeouts in seconds and restarts the timer at `now`. */
    method Setup(returnToMain: U16, sleep: U16, now: U32)
      modifies this
      ensures Model() == Configure(old(Model()), returnToMain, sleep, now)
    {
      returnToMainTimeout := returnToMain * 1000;
      sleepTimeout := sleep * 1000;
      loopState := Running;
      ResetTimer(now);
    }

    method ChangeLoopState(newState: State)
      modifies this
      ensures Model() == old(Model()).(state := newState)
    {
      loopState := newState;
    }

    method Loop(now: U32)
      modifies this
      ensures Model() == Step(old(Model()), now)
    {
      match loopState
      case Running =>
        if Elapsed(now, sleepTimer) > returnToMainTimeout {
          fired := fired + [ReturnToMain];
          ChangeLoopState(Warning);
        }
      case Warning =>
        if Elapsed(now, sleepTimer) > sleepTimeout {
          fired := fired + [GoToSleep];
          ChangeLoopState(Timeout);
        }
      case Timeout =>
      case Sleep =>
        ResetTimer(now);
    }

    /** Restarts the inactivity period at `now`. */
    method ResetTimer(now: U32)
      modifies this
      ensures Model() == Reset(old(Model()), now)
    {
      sleepTimer := now;
      ChangeLoopState(Running);
    }
  }
}
