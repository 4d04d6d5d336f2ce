/**
 * The rotary encoder with push button (CJMCU-111). An interrupt routine runs
 * on every edge of the two encoder pins A and B and walks a seven-state
 * machine: a full left or right detent bumps the matching rotation counter,
 * a short press of the button (pin A low with B high, then both high again)
 * bumps the push counter, and the main loop counts long presses while the
 * button is held. Counters and timestamps are 32-bit unsigned values.
 */
module Rotary {
  const Modulus := 0x1_0000_0000

  type U32 = x: int | 0 <= x < 0x1_0000_0000

  /** Presses up to this many milliseconds are contact bounce. */
  const DebounceDuration: U32 := 3
  /** A press this long counts as a long press, not a push. */
  const LongPressDuration: U32 := 1000

  /** `++` on a 32-bit counter. */
  function Inc(x: U32): (r: U32)
    ensures r == (x + 1) % Modulus
  {
    if x == Modulus - 1 then 0 else x + 1
  }

  /** `now - then` on 32-bit millisecond timestamps. */
  function Elapsed(now: U32, past: U32): (r: U32)
    ensures r == (now - past) % Modulus
    ensures past <= now ==> r == now - past
  {
    if past <= now then now - past else now - past + Modulus
  }

  /** The states of the decoder; the comments give the pin levels that lead there. */
  datatype Status =
    | Waiting          // A high, B high
    | StartLorPush     // A falling, B high
    | StartR           // A high, B falling
    | TurningL         // A rising, B low
    | TurningR         // A low, B rising
    | WaitForFinishL   // A rising, B low
    | WaitForFinishR   // A low, B rising

  /** The decoder's shared variables. */
  datatype Rot = Rot(
    status: Status,
    /** Time of the latest edge. */
    time: U32,
    /** Time the button went down, or of the latest completed detent. */
    lastTime: U32,
    detected: bool,
    countL: U32,
    countR: U32,
    pushCount: U32,
    longPressCount: U32)

  /** Left and right counts are never both non-zero. */
  predicate OneDirection(s: Rot) {
    s.countL == 0 || s.countR == 0
  }

  /** The state after power-up: waiting, nothing counted. */
  const Initial := Rot(Waiting, 0, 0, false, 0, 0, 0, 0)

  /** One run of the interrupt routine with pin levels `a`, `b` (true is HIGH)
      at time `now`. */
  function Edge(s: Rot, a: bool, b: bool, now: U32): (r: Rot)
    ensures r.time == now && r.longPressCount == s.longPressCount
  {
    var s := s.(time := now);
    match s.status
    case Waiting =>
      if a && !b then s.(status := StartR)
      else if !a && b then s.(status := StartLorPush, lastTime := now)
      else s
    case StartLorPush =>
      if a && b then
        var held := Elapsed(now, s.lastTime);
        if held > DebounceDuration then
          s.(status := Waiting, detected := true,
             pushCount := if held < LongPressDuration then Inc(s.pushCount) else s.pushCount)
        else s.(status := Waiting)
      else if !a && !b then s.(status := TurningL)
      else s
    case StartR =>
      if a && b then s.(status := Waiting)
      else if !a && !b then s.(status := TurningR)
      else s
    case TurningL =>
      if !a && b then s.(status := StartLorPush)
      else if a && !b then s.(status := WaitForFinishL)
      else s
    case TurningR =>
      if a && !b then s.(status := StartR)
      else if !a && b then s.(status := WaitForFinishR)
      else s
    case WaitForFinishL =>
      if !a && !b then s.(status := TurningL)
      else if a && b then
        s.(status := Waiting, countR := 0, countL := Inc(s.countL), detected := true, lastTime := now)
      else s
    case WaitForFinishR =>
      if !a && !b then s.(status := TurningR)
      else if a && b then
        s.(status := Waiting, countL := 0, countR := Inc(s.countR), detected := true, lastTime := now)
      else s
  }

  /** The main loop's long-press check while the button is held. */
  function Poll(s: Rot, now: U32): Rot {
    if s.status == StartLorPush && Elapsed(now, s.time) >= LongPressDuration then
      s.(time := now, longPressCount := Inc(s.longPressCount), detected := true)
    else s
  }

  /** Clears the flag and the counters; a long press still being timed keeps
      its count. */
  function Reset(s: Rot): Rot {
    s.(detected := false, countL := 0, countR := 0, pushCount := 0,
       longPressCount := if s.status != StartLorPush then 0 else s.longPressCount)
  }

  /** Every operation keeps left and right counts apart. */
  lemma OneDirectionKept(s: Rot, a: bool, b: bool, now: U32)
    requires OneDirection(s)
    ensures OneDirection(Edge(s, a, b, now))
    ensures OneDirection(Poll(s, now))
    ensures OneDirection(Reset(s))
  {
  }

  /** From Waiting, A high with B low starts a right turn; A low with B high
      starts a left turn or a press and records the time; anything else keeps
      the state. */
  lemma WaitingEdges(s: Rot, a: bool, b: bool, now: U32)
    requires s.status == Waiting
    ensures var r := Edge(s, a, b, now);
      (a && !b ==> r == s.(status := StartR, time := now)) &&
      (!a && b ==> r == s.(status := StartLorPush, time := now, lastTime := now)) &&
      (a == b ==> r == s.(time := now))
  {
  }

  /** The edges of one left detent, B then A rising back after both fell. */
  function TurnLeft(s: Rot, t1: U32, t2: U32, t3: U32): Rot {
    Edge(Edge(Edge(s, false, false, t1), true, false, t2), true, true, t3)
  }

  function TurnRight(s: Rot, t1: U32, t2: U32, t3: U32): Rot {
    Edge(Edge(Edge(s, false, false, t1), false, true, t2), true, true, t3)
  }

  /** A completed left detent counts exactly one step left, clears the right
      count and flags the input. */
  lemma LeftDetent(s: Rot, t1: U32, t2: U32, t3: U32)
    requires s.status == StartLorPush
    ensures var r := TurnLeft(s, t1, t2, t3);
      r == s.(status := Waiting, time := t3, lastTime := t3, detected := true,
               countL := Inc(s.countL), countR := 0)
  {
  }

  lemma RightDetent(s: Rot, t1: U32, t2: U32, t3: U32)
    requires s.status == StartR
    ensures var r := TurnRight(s, t1, t2, t3);
      r == s.(status := Waiting, time := t3, lastTime := t3, detected := true,
               countR := Inc(s.countR), countL := 0)
  {
  }

  /** Releasing the button counts a push exactly when it was held longer than
      the bounce time and shorter than a long press, and flags the input
      exactly when it was held longer than the bounce time. */
  lemma Release(s: Rot, now: U32)
    requires s.status == StartLorPush
    ensures var r := Edge(s, true, true, now);
      var held := Elapsed(now, s.lastTime);
      r.status == Waiting &&
      r.pushCount == (if DebounceDuration < held < LongPressDuration then Inc(s.pushCount) else s.pushCount) &&
      r.detected == (held > DebounceDuration || s.detected) &&
      r.countL == s.countL && r.countR == s.countR
  {
  }

  /** A half-turned detent that turns back returns to where it started. */
  lemma TurnBack(s: Rot, now: U32)
    ensures s.status == TurningL ==> Edge(s, false, true, now) == s.(status := StartLorPush, time := now)
    ensures s.status == TurningR ==> Edge(s, true, false, now) == s.(status := StartR, time := now)
  {
  }

  /** Rotation counters change only when a detent completes: the count of its
      direction goes up by one and the other is cleared. The push counter
      changes only on a release. */
  lemma CountsOnlyOnDetent(s: Rot, a: bool, b: bool, now: U32)
    ensures var r := Edge(s, a, b, now);
      var doneL := s.status == WaitForFinishL && a && b;
      var doneR := s.status == WaitForFinishR && a && b;
      r.countL == (if doneL then Inc(s.countL) else if doneR then 0 else s.countL) &&
      r.countR == (if doneR then Inc(s.countR) else if doneL then 0 else s.countR) &&
      (r.pushCount != s.pushCount ==> s.status == StartLorPush && a && b)
  {
  }

  /** While the button is held the loop adds one long press per elapsed
      long-press period, restarting the period; otherwise it does nothing. */
  lemma LongPress(s: Rot, now: U32)
    ensures var r := Poll(s, now);
      if s.status == StartLorPush && Elapsed(now, s.time) >= LongPressDuration
      then r.longPressCount == Inc(s.longPressCount) && r.time == now && r.detected &&
           Elapsed(now, r.time) == 0
      else r == s
  {
  }

  /** After a reset nothing is pending, except a long press still being timed. */
  lemma ResetClears(s: Rot)
    ensures var r := Reset(s);
      !r.detected && r.countL == 0 && r.countR == 0 && r.pushCount == 0 &&
      (r.longPressCount == 0 <==> s.status != StartLorPush || s.longPressCount == 0) &&
      r.status == s.status
  {
  }

  /** The decoder's shared variables, updated by the interrupt routine and the
      main loop. */
  class RotaryCJMCU111 {
    var status: Status
    var time: U32
    var lastTime: U32
    var detected: bool
    var countL: U32
    var countR: U32
    var pushCount: U32
    var longPressCount: U32

    function Model(): Rot
      reads this
    {
      Rot(status, time, lastTime, detected, countL, countR, pushCount, longPressCount)
    }

    constructor ()
      ensures Model() == Initial
    {
      status := Waiting;
      time := 0;
      lastTime := 0;
      detected := false;
      countL := 0;
      countR := 0;
      pushCount := 0;
      longPressCount := 0;
    }

    /** Starts waiting and clears the counters; pin set-up is not modelled. */
    method Setup()
      modifies this
      ensures Model() == Reset(old(Model()).(status := Waiting))
      ensures OneDirection(Model())
    {
      status := Waiting;
      ResetRotaryInput();
    }

    method Loop(now: U32)
      modifies this
      ensures Model() == Poll(old(Model()), now)
    {
      if status == StartLorPush {
        if Elapsed(now, time) >= LongPressDuration {
          time := now;
          longPressCount := Inc(longPressCount);
          detected := true;
        }
      }
    }

    method ResetRotaryInput()
      modifies this
      ensures Model() == Reset(old(Model()))
    {
      detected := false;
      countL := 0;
      countR := 0;
      pushCount := 0;
      if status != StartLorPush {
        longPressCount := 0;
      }
    }

    /** The interrupt routine: pin levels `a` and `b` read at time `now`. */
    method Isr(a: bool, b: bool, now: U32)
      modifies this
      ensures Model() == Edge(old(Model()), a, b, now)
    {
      time := now;
      match status
      case Waiting =>
        if a && !b {
          status := StartR;
        } else if !a && b {
          status := StartLorPush;
          lastTime := time;
        }
      case StartLorPush =>
        if a && b {
          status := Waiting;
          if Elapsed(time, lastTime) > DebounceDuration {
            if Elapsed(time, lastTime) < LongPressDuration {
              pushCount := Inc(pushCount);
            }
            detected := true;
          }
        } else if !a && !b {
          status := TurningL;
        }
      case StartR =>
        if a && b {
          status := Waiting;
        } else if !a && !b {
          status := TurningR;
        }
      case TurningL =>
        if !a && b {
          status := StartLorPush;
        } else if a && !b {
          status := WaitForFinishL;
        }
      case TurningR =>
        if a && !b {
          status := StartR;
        } else if !a && b {
          status := WaitForFinishR;
        }
      case WaitForFinishL =>
        if !a && !b {
          status := TurningL;
        } else if a && b {
          status := Waiting;
          countR := 0;
          countL := Inc(countL);
          detected := true;
          lastTime := time;
        }
      case WaitForFinishR =>
        if !a && !b {
          status := TurningR;
        } else if a && b {
          status := Waiting;
          countL := 0;
          countR := Inc(countR);
          detected := true;
          lastTime := time;
        }
    }

    function IsRotaryInputDetected(): (r: bool)
      reads this
      ensures r == Model().detected
    {
      detected
    }

    function GetRotationCountL(): (n: U32)
      reads this
      ensures n == Model().countL
    {
      countL
    }

    function GetRotationCountR(): (n: U32)
      reads this
      ensures n == Model().countR
    {
      countR
    }

    function GetRotaryPushCount(): (n: U32)
      reads this
      ensures n == Model().pushCount
    {
      pushCount
    }

    function GetRotaryLongPressCount(): (n: U32)
      reads this
      ensures n == Model().longPressCount
    {
      longPressCount
    }
  }
}
