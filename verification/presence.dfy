/** The presence state machine of the hardware loop (src/main.cpp). Sound
  * detection is a free input; only its timing effects are modelled.
  */
module PresenceMachine {
  import opened Bytes
  import opened DurableRecords

  datatype PresenceState = Calibrating | Idle | Present | Cooldown

  const CALIBRATION_MS := 5000

  /** What the buttons did, once a correction was queued or refused: a refused
    * correction, and everything while diagnostics are shown, is no input. */
  datatype Button = NoButton | PersonWasPresent | RoomWasAbsent | Wake

  /** One pass of loop(). `heard` is what the envelope comparison concluded. */
  datatype Tick = Tick(now: nat, pirHigh: bool, heard: bool, button: Button)

  datatype Machine = Machine(
    state: PresenceState, stateSinceMs: nat, lastPirMs: nat, lastSoundMs: nat,
    soundActive: bool, previousPirHigh: bool, bootMs: nat)

  function Booted(bootMs: nat): Machine {
    Machine(Calibrating, bootMs, bootMs, bootMs, false, false, bootMs)
  }

  function Enter(m: Machine, next: PresenceState, now: nat): Machine {
    if next == m.state then m else m.(state := next, stateSinceMs := now)
  }

  /** The sound-hold part of sampleMicrophone(). */
  function Hear(c: PresenceConfig, m: Machine, now: nat, heard: bool): Machine {
    var active := heard && m.state != Calibrating;
    var held := active && m.state != Idle && now - m.lastPirMs < c.maxSoundBridgeMs;
    m.(soundActive := active, lastSoundMs := if held then now else m.lastSoundMs)
  }

  /** readUserInput(): a press wakes, and skips the automatic update. */
  function Press(m: Machine, t: Tick): Machine {
    if t.button == RoomWasAbsent then m.(previousPirHigh := t.pirHigh)
    else Enter(m.(lastPirMs := t.now, lastSoundMs := t.now), Present, t.now).(previousPirHigh := t.pirHigh)
  }

  /** updatePresenceState(). */
  function Update(c: PresenceConfig, before: Machine, t: Tick): Machine {
    var now := t.now;
    var m := if t.pirHigh then before.(lastPirMs := now) else before;
    var after :=
      match m.state
      case Calibrating =>
        if now - m.bootMs < CALIBRATION_MS then m
        else if t.pirHigh then Enter(m.(lastSoundMs := now), Present, now)
        else Enter(m, Idle, now)
      case Idle =>
        if t.pirHigh then Enter(m.(lastSoundMs := now), Present, now) else m
      case Present =>
        if now - m.stateSinceMs >= c.minimumOnMs && now - m.lastPirMs >= c.pirHoldMs
           && now - m.lastSoundMs >= c.soundHoldMs
        then Enter(m, Cooldown, now) else m
      case Cooldown =>
        var soundCanBridge := m.soundActive && now - m.lastPirMs < c.maxSoundBridgeMs;
        if t.pirHigh || soundCanBridge then
          Enter(if soundCanBridge then m.(lastSoundMs := now) else m, Present, now)
        else if now - m.stateSinceMs >= c.cooldownMs then Enter(m, Idle, now)
        else m;
    after.(previousPirHigh := t.pirHigh)
  }

  function Loop(c: PresenceConfig, m: Machine, t: Tick): Machine {
    var sampled := Hear(c, m, t.now, t.heard);
    if t.button != NoButton then Press(sampled, t) else Update(c, sampled, t)
  }

  /** The globals of main.cpp, updated in place. */
  class PresenceLoop {
    var state: PresenceState
    var stateSinceMs: nat
    var lastPirMs: nat
    var lastSoundMs: nat
    var soundActive: bool
    var pirHigh: bool
    var previousPirHigh: bool
    const bootMs: nat
    var activeConfig: PresenceConfig

    ghost function View(): Machine
      reads this
    {
      Machine(state, stateSinceMs, lastPirMs, lastSoundMs, soundActive, previousPirHigh, bootMs)
    }

    constructor (bootMs: nat, config: PresenceConfig)
      ensures View() == Booted(bootMs) && activeConfig == config
    {
      this.bootMs := bootMs;
      state, stateSinceMs, lastPirMs, lastSoundMs := Calibrating, bootMs, bootMs, bootMs;
      soundActive, pirHigh, previousPirHigh := false, false, false;
      activeConfig := config;
    }

    method EnterState(next: PresenceState, now: nat)
      modifies this`state, this`stateSinceMs
      ensures View() == Enter(old(View()), next, now)
    {
      if next == state {
        return;
      }
      state, stateSinceMs := next, now;
    }

    method SampleMicrophone(now: nat, heard: bool)
      modifies this`soundActive, this`lastSoundMs
      ensures View() == Hear(activeConfig, old(View()), now, heard)
    {
      soundActive := heard && state != Calibrating;
      if soundActive && state != Idle && now - lastPirMs < activeConfig.maxSoundBridgeMs {
        lastSoundMs := now;
      }
    }

    method ReadUserInput(now: nat, button: Button) returns (changed: bool)
      modifies this`state, this`stateSinceMs, this`lastPirMs, this`lastSoundMs, this`previousPirHigh
      ensures changed == (button != NoButton)
      ensures View() == if changed then Press(old(View()), Tick(now, pirHigh, false, button)) else old(View())
    {
      if button == NoButton {
        return false;
      }
      if button != RoomWasAbsent {
        lastPirMs, lastSoundMs := now, now;
        EnterState(Present, now);
      }
      previousPirHigh := pirHigh;
      return true;
    }

    method UpdatePresenceState(now: nat)
      modifies this`state, this`stateSinceMs, this`lastPirMs, this`lastSoundMs, this`previousPirHigh
      ensures View() == Update(activeConfig, old(View()), Tick(now, pirHigh, false, NoButton))
    {
      var pirRising := pirHigh && !previousPirHigh;
      if pirHigh {
        lastPirMs := now;
      }
      match state {
        case Calibrating =>
          if now - bootMs >= CALIBRATION_MS {
            if pirHigh {
              lastPirMs, lastSoundMs := now, now;
              EnterState(Present, now);
            } else {
              EnterState(Idle, now);
            }
          }
        case Idle =>
          if pirRising || pirHigh {
            lastPirMs, lastSoundMs := now, now;
            EnterState(Present, now);
          }
        case Present =>
          var minimumOnElapsed := now - stateSinceMs >= activeConfig.minimumOnMs;
          var pirQuiet := now - lastPirMs >= activeConfig.pirHoldMs;
          var soundQuiet := now - lastSoundMs >= activeConfig.soundHoldMs;
          if minimumOnElapsed && pirQuiet && soundQuiet {
            EnterState(Cooldown, now);
          }
        case Cooldown =>
          var soundCanBridge := soundActive && now - lastPirMs < activeConfig.maxSoundBridgeMs;
          if pirHigh || soundCanBridge {
            if soundCanBridge {
              lastSoundMs := now;
            }
            EnterState(Present, now);
          } else if now - stateSinceMs >= activeConfig.cooldownMs {
            EnterState(Idle, now);
          }
      }
      previousPirHigh := pirHigh;
    }

    method LoopOnce(t: Tick)
      modifies this
      ensures View() == Loop(activeConfig, old(View()), t) && activeConfig == old(activeConfig)
    {
      hide Update, Press, Hear;
      pirHigh := t.pirHigh;
      SampleMicrophone(t.now, t.heard);
      var userInputChangedState := ReadUserInput(t.now, t.button);
      ghost var sampled := Hear(activeConfig, old(View()), t.now, t.heard);
      if !userInputChangedState {
        UpdatePresenceState(t.now);
        SameTick(activeConfig, sampled, t);
      } else {
        SameTick(activeConfig, sampled, t);
      }
    }
  }

  /** Hearing is over once the state is updated. */
  lemma SameTick(c: PresenceConfig, m: Machine, t: Tick)
    ensures Update(c, m, t) == Update(c, m, Tick(t.now, t.pirHigh, false, NoButton))
    ensures Press(m, t) == Press(m, Tick(t.now, t.pirHigh, false, t.button))
  {
  }

  // ------------------------------------------------------------- properties

  /** Televisions and fans do not wake the screen. */
  lemma SoundAloneNeverLeavesIdle(c: PresenceConfig, m: Machine, t: Tick)
    requires m.state == Idle && !t.pirHigh && t.button in {NoButton, RoomWasAbsent}
    ensures Loop(c, m, t).state == Idle && Loop(c, m, t).lastSoundMs == m.lastSoundMs
  {
  }

  function Run(c: PresenceConfig, m: Machine, ticks: seq<Tick>): Machine {
    if ticks == [] then m else Loop(c, Run(c, m, ticks[..|ticks| - 1]), ticks[|ticks| - 1])
  }

  /** The loop's clock: it does not run backwards, starts at the boot, and
    * consecutive passes are at most `gap` apart. */
  ghost predicate Timed(bootMs: nat, gap: nat, ticks: seq<Tick>) {
    && (forall i :: 0 <= i < |ticks| ==> bootMs <= ticks[i].now)
    && (ticks != [] ==> ticks[0].now <= bootMs + gap)
    && (forall i :: 0 < i < |ticks| ==> ticks[i - 1].now <= ticks[i].now <= ticks[i - 1].now + gap)
  }

  /** No motion and no button after time `quiet`. */
  ghost predicate QuietAfter(quiet: nat, ticks: seq<Tick>) {
    forall i :: 0 <= i < |ticks| && ticks[i].now > quiet ==> !ticks[i].pirHigh && ticks[i].button == NoButton
  }

  function Max(a: nat, b: nat): nat {
    if a < b then b else a
  }

  /** From here on nothing can keep the machine in PRESENT. */
  function HoldEnd(c: PresenceConfig, quiet: nat): nat {
    quiet + Max(c.pirHoldMs, c.maxSoundBridgeMs + Max(c.minimumOnMs, c.soundHoldMs))
  }

  function Deadline(c: PresenceConfig, bootMs: nat, quiet: nat, gap: nat): nat {
    Max(bootMs + CALIBRATION_MS, HoldEnd(c, quiet) + c.cooldownMs + 2 * gap)
  }

  /** Timestamps never lie in the future. */
  predicate Past(m: Machine, now: nat) {
    m.stateSinceMs <= now && m.lastPirMs <= now && m.lastSoundMs <= now && m.bootMs <= now
  }

  /** What a pass after `quiet` leaves behind. */
  predicate WindingDown(c: PresenceConfig, m: Machine, quiet: nat, gap: nat, now: nat) {
    && m.lastPirMs <= quiet
    && m.lastSoundMs <= quiet + c.maxSoundBridgeMs
    && match m.state
       case Calibrating => now < m.bootMs + CALIBRATION_MS
       case Idle => true
       case Present => m.stateSinceMs <= quiet + c.maxSoundBridgeMs && now < HoldEnd(c, quiet)
       case Cooldown =>
         && m.stateSinceMs <= HoldEnd(c, quiet) + gap
         && (now < m.stateSinceMs + c.cooldownMs || now == m.stateSinceMs)
  }

  lemma LoopKeepsPast(c: PresenceConfig, m: Machine, t: Tick)
    requires Past(m, t.now)
    ensures Past(Loop(c, m, t), t.now) && Loop(c, m, t).bootMs == m.bootMs
  {
  }

  /** One quiet pass; `before` is the time of the pass before it. */
  lemma LoopWindsDown(c: PresenceConfig, m: Machine, quiet: nat, gap: nat, before: nat, t: Tick)
    requires Past(m, before) && before <= t.now <= before + gap && quiet < t.now
    requires before <= quiet || WindingDown(c, m, quiet, gap, before)
    requires !t.pirHigh && t.button == NoButton
    ensures WindingDown(c, Loop(c, m, t), quiet, gap, t.now)
  {
  }

  lemma {:induction false} RunWindsDown(c: PresenceConfig, bootMs: nat, quiet: nat, gap: nat, ticks: seq<Tick>)
    requires Timed(bootMs, gap, ticks) && QuietAfter(quiet, ticks) && bootMs <= quiet
    ensures var now := if ticks == [] then bootMs else ticks[|ticks| - 1].now;
            && Past(Run(c, Booted(bootMs), ticks), now) && Run(c, Booted(bootMs), ticks).bootMs == bootMs
            && (ticks != [] && now > quiet ==>
                  WindingDown(c, Run(c, Booted(bootMs), ticks), quiet, gap, now))
  {
    if ticks != [] {
      var n := |ticks| - 1;
      var init := ticks[..n];
      RunWindsDown(c, bootMs, quiet, gap, init);
      var m, t := Run(c, Booted(bootMs), init), ticks[n];
      var before := if n == 0 then bootMs else ticks[n - 1].now;
      LoopKeepsPast(c, m, t);
      hide Loop, WindingDown;
      if t.now > quiet {
        LoopWindsDown(c, m, quiet, gap, before, t);
      }
    }
  }

  /** The screen-off bound, for every sound input: once nobody moves and nobody
    * presses a button, the machine is IDLE by the deadline, and stays there. */
  lemma ScreenOffBound(c: PresenceConfig, bootMs: nat, quiet: nat, gap: nat, ticks: seq<Tick>)
    requires Timed(bootMs, gap, ticks) && QuietAfter(quiet, ticks)
    requires bootMs <= quiet && 0 < gap && ticks != []
    requires ticks[|ticks| - 1].now >= Deadline(c, bootMs, quiet, gap)
    ensures Run(c, Booted(bootMs), ticks).state == Idle
  {
    RunWindsDown(c, bootMs, quiet, gap, ticks);
    hide Run;
  }

  /** Someone moved, or pressed a button to say so, at time `moved`. */
  predicate Awake(c: PresenceConfig, m: Machine, moved: nat) {
    && m.lastPirMs >= moved
    && (m.state == Present || (m.state == Cooldown && m.stateSinceMs >= moved + c.pirHoldMs))
  }

  lemma MotionWakes(c: PresenceConfig, m: Machine, t: Tick)
    requires c.pirHoldMs > 0 && Past(m, t.now) && t.now >= m.bootMs + CALIBRATION_MS
    requires t.button in {PersonWasPresent, Wake} || (t.pirHigh && t.button == NoButton)
    ensures Loop(c, m, t).state == Present && Loop(c, m, t).lastPirMs == t.now
  {
  }

  lemma LoopKeepsAwake(c: PresenceConfig, m: Machine, moved: nat, t: Tick)
    requires Past(m, t.now) && Awake(c, m, moved) && t.now < moved + c.pirHoldMs + c.cooldownMs
    ensures Awake(c, Loop(c, m, t), moved)
    ensures t.now < moved + c.pirHoldMs && m.state == Present ==> Loop(c, m, t).state == Present
  {
  }

  /** The other side of the bound: after motion, or a press, the machine is PRESENT
    * for the whole hold time and not IDLE before the cool-down has passed as well. */
  lemma {:induction false} MotionHoldsPresence(c: PresenceConfig, bootMs: nat, gap: nat, ticks: seq<Tick>, i: nat)
    requires c.IsValid() && Timed(bootMs, gap, ticks) && i < |ticks|
    requires ticks[i].now >= bootMs + CALIBRATION_MS
    requires ticks[i].button in {PersonWasPresent, Wake} || (ticks[i].pirHigh && ticks[i].button == NoButton)
    ensures var state, last, moved := Run(c, Booted(bootMs), ticks).state, ticks[|ticks| - 1].now, ticks[i].now;
            && (last < moved + c.pirHoldMs ==> state == Present)
            && (last < moved + c.pirHoldMs + c.cooldownMs ==> state != Idle)
  {
    if ticks[|ticks| - 1].now < ticks[i].now + c.pirHoldMs + c.cooldownMs {
      StaysAwake(c, bootMs, gap, ticks, i);
    }
    hide Run;
  }

  lemma {:induction false} StaysAwake(c: PresenceConfig, bootMs: nat, gap: nat, ticks: seq<Tick>, i: nat)
    requires c.pirHoldMs > 0 && Timed(bootMs, gap, ticks) && i < |ticks|
    requires ticks[i].now >= bootMs + CALIBRATION_MS
    requires ticks[i].button in {PersonWasPresent, Wake} || (ticks[i].pirHigh && ticks[i].button == NoButton)
    requires ticks[|ticks| - 1].now < ticks[i].now + c.pirHoldMs + c.cooldownMs
    ensures Awake(c, Run(c, Booted(bootMs), ticks), ticks[i].now)
    ensures ticks[|ticks| - 1].now < ticks[i].now + c.pirHoldMs ==> Run(c, Booted(bootMs), ticks).state == Present
    decreases |ticks|
  {
    hide Loop, Awake, Past, Timed;
    var n := |ticks| - 1;
    var init := ticks[..n];
    var m, t := Run(c, Booted(bootMs), init), ticks[n];
    TimedPrefix(bootMs, gap, ticks);
    RunStaysPast(c, bootMs, gap, init);
    PastGrows(m, if n == 0 then bootMs else ticks[n - 1].now, t.now);
    if i == n {
      MotionWakes(c, m, t);
      JustAwake(c, Loop(c, m, t), t.now);
    } else {
      TicksInOrder(bootMs, gap, ticks, i, n - 1);
      StaysAwake(c, bootMs, gap, init, i);
      LoopKeepsAwake(c, m, ticks[i].now, t);
    }
  }

  lemma TimedPrefix(bootMs: nat, gap: nat, ticks: seq<Tick>)
    requires Timed(bootMs, gap, ticks) && ticks != []
    ensures Timed(bootMs, gap, ticks[..|ticks| - 1])
    ensures (if |ticks| == 1 then bootMs else ticks[|ticks| - 2].now) <= ticks[|ticks| - 1].now
  {
  }

  lemma PastGrows(m: Machine, before: nat, now: nat)
    requires Past(m, before) && before <= now
    ensures Past(m, now)
  {
  }

  lemma JustAwake(c: PresenceConfig, m: Machine, now: nat)
    requires m.state == Present && m.lastPirMs == now
    ensures Awake(c, m, now)
  {
  }

  lemma {:induction false} TicksInOrder(bootMs: nat, gap: nat, ticks: seq<Tick>, i: nat, j: nat)
    requires Timed(bootMs, gap, ticks) && i <= j < |ticks|
    ensures ticks[i].now <= ticks[j].now
  {
    if i < j {
      TicksInOrder(bootMs, gap, ticks, i, j - 1);
    }
  }

  lemma {:induction false} RunStaysPast(c: PresenceConfig, bootMs: nat, gap: nat, ticks: seq<Tick>)
    requires Timed(bootMs, gap, ticks)
    ensures var now := if ticks == [] then bootMs else ticks[|ticks| - 1].now;
            Past(Run(c, Booted(bootMs), ticks), now) && Run(c, Booted(bootMs), ticks).bootMs == bootMs
  {
    if ticks != [] {
      var n := |ticks| - 1;
      RunStaysPast(c, bootMs, gap, ticks[..n]);
      LoopKeepsPast(c, Run(c, Booted(bootMs), ticks[..n]), ticks[n]);
    }
  }

  lemma RunAppend(c: PresenceConfig, m: Machine, ticks: seq<Tick>, t: Tick)
    ensures Run(c, m, ticks + [t]) == Loop(c, Run(c, m, ticks), t)
  {
    assert (ticks + [t])[..|ticks|] == ticks;
  }

  /** A configuration and the passes of a run that comes close to the bound. */
  function TightConfig(): PresenceConfig {
    PresenceConfig(1, 0, 1_000, 0, 0, 100, ONE_AS_FLOAT, 250, 1)
  }

  function TightTicks(): seq<Tick> {
    [Tick(0, false, false, NoButton), Tick(6_000, true, false, NoButton), Tick(6_999, false, true, NoButton),
     Tick(12_999, false, true, NoButton), Tick(13_098, false, true, NoButton)]
  }

  /** The machine before pass k of that run. */
  function TightMachine(k: nat): Machine {
    if k <= 1 then Booted(0)
    else if k == 2 then Machine(Present, 6_000, 6_000, 6_000, false, true, 0)
    else if k == 3 then Machine(Present, 6_000, 6_000, 6_000, true, false, 0)
    else Machine(Cooldown, 12_999, 6_000, 6_000, true, false, 0)
  }

  lemma TightStep(k: nat)
    requires k < 5
    ensures Loop(TightConfig(), TightMachine(k), TightTicks()[k]) == TightMachine(k + 1)
  {
  }

  lemma {:induction false} TightRun(k: nat)
    requires k <= 5
    ensures Run(TightConfig(), Booted(0), TightTicks()[..k]) == TightMachine(k)
  {
    hide Loop, TightMachine, TightConfig;
    if k == 0 {
      TightStart();
    } else {
      var init := TightTicks()[..k - 1];
      TightRun(k - 1);
      TightStep(k - 1);
      RunAppend(TightConfig(), Booted(0), init, TightTicks()[k - 1]);
      assert init + [TightTicks()[k - 1]] == TightTicks()[..k];
    }
  }

  lemma TightStart()
    ensures TightMachine(0) == Booted(0)
  {
  }

  /** The bound is tight to two milliseconds: this run is still cooling down when
    * the pass that ends it comes, two milliseconds before the deadline. */
  lemma BoundIsTight()
    ensures var c, last := TightConfig(), Tick(19_098, false, true, NoButton);
            && c.IsValid() && Timed(0, 6_000, TightTicks() + [last]) && QuietAfter(6_000, TightTicks() + [last])
            && Run(c, Booted(0), TightTicks()).state == Cooldown
            && last.now == Deadline(c, 0, 6_000, 6_000) - 2
  {
    hide Run, Loop;
    TightRun(5);
    assert TightTicks()[..5] == TightTicks();
  }
}
