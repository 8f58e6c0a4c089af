/**
 * The Pico's machine state machine (`state.c`): the machine state, the
 * heating mode, the brew flag and phase, the shot timer, pre-infusion and
 * eco mode. Brew, mode and eco requests are guarded transitions; entering
 * and leaving a state run that state's entry and exit actions.
 *
 * The clock (`to_ms_since_boot`) is the parameter `now`, and the safety
 * module's answers (`safety_is_safe_state`, `safety_is_defensive_mode`)
 * are boolean parameters. The brew setpoint and the pump level, which the
 * module reads and sets through the control module, are held beside the
 * globals as `setpoint` and `pump`.
 */
module PicoState {
  import opened Bytes

  datatype MachineState = Init | Idle | Heating | Ready | Brewing | Fault | Safe | Eco
  datatype Mode = ModeIdle | ModeBrew | ModeSteam
  /** `brew_phase_t`; the full-pressure phase is `BREW_PHASE_BREWING`. */
  datatype BrewPhase = NoPhase | Preinfusion | FullBrew | PostBrew
  /** `eco_config_t`: the eco setpoint is in tenths of a degree. */
  datatype EcoConfig = EcoConfig(enabled: bool, ecoBrewTemp: int, timeoutMinutes: nat)

  const PREINFUSION_DEFAULT_ON_MS: nat := 3000
  const PREINFUSION_DEFAULT_PAUSE_MS: nat := 5000
  /** The pump level `control_set_pump(100)` sets. */
  const PUMP_FULL: nat := 100
  const MS_PER_MINUTE: nat := 60 * 1000

  /** Every global of `state.c` the model keeps, with the control module's setpoint and pump. */
  datatype Globals = Globals(
    state: MachineState, previous: MachineState, mode: Mode,
    brewing: bool, phase: BrewPhase,
    brewStart: nat, brewStop: nat, postBrewStart: nat, entryTime: nat,
    preinfusionEnabled: bool, onMs: nat, pauseMs: nat,
    eco: EcoConfig, lastActivity: nat, savedSetpoint: int, savedMode: Mode,
    setpoint: int, pump: nat)

  /** The C widths: timestamps are `uint32_t`, the pre-infusion times and the eco timeout `uint16_t`. */
  predicate Valid(g: Globals) {
    IsU32(g.brewStart) && IsU32(g.brewStop) && IsU32(g.postBrewStart) && IsU32(g.entryTime)
    && IsU32(g.lastActivity) && IsU16(g.onMs) && IsU16(g.pauseMs) && IsU16(g.eco.timeoutMinutes)
  }

  /**
   * `state_init`, with the eco configuration read back from flash; its
   * closing entry action for INIT stamps the entry time with `now`.
   */
  function Initial(eco: EcoConfig, setpoint: int, now: nat): (g: Globals)
    requires IsU16(eco.timeoutMinutes) && IsU32(now)
    ensures Valid(g)
    ensures g.state == Init && g.mode == ModeIdle && !g.brewing && g.phase == NoPhase
    ensures g.brewStart == 0 && g.brewStop == 0 && BrewDuration(g, now) == 0
    ensures !g.preinfusionEnabled && g.onMs == PREINFUSION_DEFAULT_ON_MS && g.pauseMs == PREINFUSION_DEFAULT_PAUSE_MS
    ensures g.eco == eco && g.lastActivity == now && g.savedSetpoint == 0 && g.savedMode == ModeIdle
    ensures g.entryTime == now && g == Entered(g.(entryTime := 0), Init, now)
  {
    Globals(Init, Init, ModeIdle, false, NoPhase, 0, 0, 0, now,
            false, PREINFUSION_DEFAULT_ON_MS, PREINFUSION_DEFAULT_PAUSE_MS,
            eco, now, 0, ModeIdle, setpoint, 0)
  }

  // ---------------------------------------------------------------------------
  // Entry and exit actions
  // ---------------------------------------------------------------------------

  /**
   * `state_entry_action`: every entry stamps the entry time; IDLE turns the
   * pump off; BREWING starts the shot timer and the pump, in the
   * pre-infusion phase when it is enabled; ECO saves the setpoint and mode
   * and lowers the setpoint to the eco temperature.
   */
  function Entered(g: Globals, s: MachineState, now: nat): (r: Globals)
  {
    var g := g.(entryTime := now);
    match s
    case Idle => g.(pump := 0)
    case Brewing =>
      g.(brewStart := now, brewStop := 0, pump := PUMP_FULL,
         phase := if g.preinfusionEnabled then Preinfusion else FullBrew)
    case Eco => g.(savedSetpoint := g.setpoint, savedMode := g.mode, setpoint := g.eco.ecoBrewTemp)
    case _ => g
  }

  /**
   * `state_exit_action`: leaving ECO restores the setpoint and mode and
   * restarts the idle timer; leaving BREWING stops the shot timer unless it
   * is already stopped, turns the pump off and enters the post-brew phase.
   */
  function Exited(g: Globals, s: MachineState, now: nat): (r: Globals)
  {
    match s
    case Eco => g.(setpoint := g.savedSetpoint, mode := g.savedMode, lastActivity := now)
    case Brewing =>
      g.(brewStop := if g.brewStop == 0 then now else g.brewStop,
         pump := 0, postBrewStart := now, phase := PostBrew)
    case _ => g
  }

  /** A transition: the old state's exit action, the previous state recorded, the new state's entry action. */
  function Moved(g: Globals, to: MachineState, now: nat): (r: Globals)
  {
    Entered(Exited(g, g.state, now).(previous := g.state, state := to), to, now)
  }

  // ---------------------------------------------------------------------------
  // Brew control
  // ---------------------------------------------------------------------------

  /** `state_start_brew` accepts only outside the safe state, when not brewing, in IDLE, HEATING or READY. */
  predicate CanStartBrew(g: Globals, safe: bool) {
    !safe && !g.brewing && g.state in {Idle, Heating, Ready}
  }

  /** `state_start_brew` sets only the brew flag; `state_update` then moves to BREWING. */
  function StartBrew(g: Globals, safe: bool): (r: Globals)
    ensures r.brewing <==> g.brewing || CanStartBrew(g, safe)
    ensures r.(brewing := g.brewing) == g
  {
    if CanStartBrew(g, safe) then g.(brewing := true) else g
  }

  /**
   * `state_stop_brew`: clears the brew flag; the shot timer's stop time is
   * captured only when the timer runs (started and not yet stopped).
   */
  function StopBrew(g: Globals, now: nat): (r: Globals)
    ensures !r.brewing
  {
    if !g.brewing then g
    else
      g.(brewStop := if g.brewStop == 0 && g.brewStart > 0 then now else g.brewStop, brewing := false)
  }

  /** `state_set_mode` refuses while brewing, and in defensive mode accepts only `MODE_IDLE`. */
  predicate CanSetMode(g: Globals, m: Mode, defensive: bool) {
    !g.brewing && (!defensive || m == ModeIdle)
  }

  function SetMode(g: Globals, m: Mode, defensive: bool): (r: Globals)
    ensures r.mode == (if CanSetMode(g, m, defensive) then m else g.mode)
    ensures r.(mode := g.mode) == g
  {
    if CanSetMode(g, m, defensive) then g.(mode := m) else g
  }

  /**
   * `state_get_brew_duration_ms`: 0 before the timer starts, the time since
   * the start while brewing, the stopped duration afterwards, and 0 for a
   * timer started but never stopped.
   */
  function BrewDuration(g: Globals, now: nat): (r: nat)
    ensures IsU32(r)
  {
    if g.brewStart == 0 then 0
    else if g.brewing then Wrap32(now - g.brewStart)
    else if g.brewStop > 0 then Wrap32(g.brewStop - g.brewStart)
    else 0
  }

  /** `state_get_brew_start_timestamp_ms`: the start time while a timed brew runs, else 0. */
  function BrewStartTimestamp(g: Globals): (r: nat)
    ensures r != 0 <==> g.brewing && g.brewStart > 0
    ensures r != 0 ==> r == g.brewStart
  {
    if g.brewing && g.brewStart > 0 then g.brewStart else 0
  }

  // ---------------------------------------------------------------------------
  // Pre-infusion
  // ---------------------------------------------------------------------------

  /**
   * The BREWING case of `state_update` for the brew phase: once the time
   * since the start reaches the on time the pump stops for the pause, and
   * once it reaches the on time plus the pause the full-pressure phase
   * begins with the pump back on.
   */
  function PhaseStep(g: Globals, now: nat): (r: Globals)
  {
    if g.phase != Preinfusion then g
    else
      var elapsed := Wrap32(now - g.brewStart);
      if elapsed < g.onMs then g
      else if elapsed < g.onMs + g.pauseMs then g.(pump := 0)
      else g.(pump := PUMP_FULL, phase := FullBrew)
  }

  /** The phase step run at each of `times` in turn. */
  function PhaseSteps(g: Globals, times: seq<nat>): (r: Globals)
    decreases |times|
  {
    if |times| == 0 then g else PhaseSteps(PhaseStep(g, times[0]), times[1..])
  }

  /** The pre-infusion settings `state_set_preinfusion` stores. */
  function SetPreinfusion(g: Globals, enabled: bool, onMs: nat, pauseMs: nat): (r: Globals)
    requires IsU16(onMs) && IsU16(pauseMs)
    ensures Valid(g) ==> Valid(r)
    ensures r.preinfusionEnabled == enabled && r.onMs == onMs && r.pauseMs == pauseMs
    ensures r.(preinfusionEnabled := g.preinfusionEnabled, onMs := g.onMs, pauseMs := g.pauseMs) == g
  {
    g.(preinfusionEnabled := enabled, onMs := onMs, pauseMs := pauseMs)
  }

  // ---------------------------------------------------------------------------
  // Eco mode
  // ---------------------------------------------------------------------------

  /** `state_enter_eco` accepts only from READY or IDLE while not brewing. */
  predicate CanEnterEco(g: Globals) {
    g.state in {Ready, Idle} && !g.brewing
  }

  function EnterEco(g: Globals, now: nat): (r: Globals)
  {
    if CanEnterEco(g) then Moved(g, Eco, now) else g
  }

  /** Where `state_exit_eco` wakes to: IDLE when the saved mode was idle, else HEATING. */
  function WakeState(saved: Mode): MachineState {
    if saved == ModeIdle then Idle else Heating
  }

  /** `state_exit_eco` acts only in ECO. */
  function ExitEco(g: Globals, now: nat): (r: Globals)
  {
    if g.state != Eco then g else Moved(g, WakeState(g.savedMode), now)
  }

  /** `state_set_eco_config`: a configuration that disables eco while in ECO also wakes the machine. */
  function SetEcoConfig(g: Globals, c: EcoConfig, now: nat): (r: Globals)
    ensures r.eco == c
    ensures r.state == (if !c.enabled && g.state == Eco then WakeState(g.savedMode) else g.state)
  {
    var g := g.(eco := c);
    if !c.enabled && g.state == Eco then ExitEco(g, now) else g
  }

  /** `state_reset_idle_timer`: user activity restarts the idle timer and wakes the machine from ECO. */
  function ResetIdleTimer(g: Globals, now: nat): (r: Globals)
    ensures r.lastActivity == now && r.state != Eco
  {
    ExitEco(g.(lastActivity := now), now)
  }

  /**
   * The eco auto-timeout of `state_update`: with eco enabled and a nonzero
   * timeout, a machine that is READY, not brewing, and would stay READY
   * enters ECO once it has been idle for the timeout.
   */
  predicate EcoTimeoutDue(g: Globals, next: MachineState, now: nat) {
    g.eco.enabled && g.eco.timeoutMinutes > 0 && g.state == Ready && !g.brewing && next == Ready
    && Wrap32(now - g.lastActivity) >= g.eco.timeoutMinutes * MS_PER_MINUTE
  }

  // ---------------------------------------------------------------------------
  // Properties
  // ---------------------------------------------------------------------------

  /** Every transition keeps the C widths, given a 32-bit clock. */
  lemma MovedValid(g: Globals, to: MachineState, now: nat)
    requires Valid(g) && IsU32(now)
    ensures Valid(Moved(g, to, now))
  {
  }

  /**
   * A brew started with the command and stopped with the command: the
   * transition into BREWING at `t0` starts the timer, `state_stop_brew` at
   * `t1` captures the shot time, and the later transition out of BREWING
   * at `t2` (to any state but BREWING) does not overwrite it, so the duration is `t1 - t0` at every
   * later `now`.
   */
  lemma ShotTimeCapturedOnce(g: Globals, safe: bool, t0: nat, t1: nat, t2: nat, next: MachineState, now: nat)
    requires Valid(g) && IsU32(t0) && IsU32(t1) && 0 < t0 <= t1
    requires CanStartBrew(g, safe) && next != Brewing
    ensures var running := Moved(StartBrew(g, safe), Brewing, t0);
      running.brewing && BrewDuration(running, now) == Wrap32(now - t0)
      && var stopped := StopBrew(running, t1);
         BrewDuration(stopped, now) == t1 - t0
         && BrewDuration(Moved(stopped, next, t2), now) == t1 - t0
  {
    var running := Moved(StartBrew(g, safe), Brewing, t0);
    assert running.brewStart == t0 && running.brewStop == 0;
    var stopped := StopBrew(running, t1);
    assert stopped.brewStop == t1 && !stopped.brewing;
  }

  /** A second `state_stop_brew` is refused and changes nothing: the stop time is set once. */
  lemma StopBrewOnce(g: Globals, t1: nat, t2: nat)
    ensures var s := StopBrew(g, t1);
      StopBrew(s, t2) == s
      && (g.brewing && g.brewStop == 0 && g.brewStart > 0 ==> s.brewStop == t1)
      && (!g.brewing || g.brewStop != 0 || g.brewStart == 0 ==> s.brewStop == g.brewStop)
  {
  }

  /** While brewing no mode change is accepted, whatever the mode and the safety state. */
  lemma ModeFrozenWhileBrewing(g: Globals, m: Mode, defensive: bool)
    requires g.brewing
    ensures SetMode(g, m, defensive) == g
  {
  }

  /** In defensive mode every requested mode other than idle is refused, and idle is accepted when not brewing. */
  lemma DefensiveModeOnlyIdle(g: Globals, m: Mode)
    ensures SetMode(g, m, true).mode == (if !g.brewing && m == ModeIdle then ModeIdle else g.mode)
  {
  }

  /**
   * Entering and leaving eco: in ECO the setpoint is the eco temperature
   * and the setpoint and mode are saved; waking restores both, records ECO
   * as the previous state, restarts the idle timer, and goes to IDLE when
   * the mode was idle and to HEATING otherwise.
   */
  lemma EcoRoundTrip(g: Globals, t0: nat, t1: nat)
    requires CanEnterEco(g)
    ensures var e := EnterEco(g, t0);
      e.state == Eco && e.previous == g.state && e.setpoint == g.eco.ecoBrewTemp
      && e.savedSetpoint == g.setpoint && e.savedMode == g.mode
      && var w := ExitEco(e, t1);
         w.setpoint == g.setpoint && w.mode == g.mode && w.previous == Eco
         && w.lastActivity == t1 && w.brewing == g.brewing
         && w.state == (if g.mode == ModeIdle then Idle else Heating)
  {
    var e := EnterEco(g, t0);
    assert e == Moved(g, Eco, t0);
    assert e.savedSetpoint == g.setpoint && e.savedMode == g.mode;
  }

  /** Eco is refused from any other state or while brewing, and leaving is refused outside ECO. */
  lemma EcoRefusals(g: Globals, now: nat)
    ensures !CanEnterEco(g) ==> EnterEco(g, now) == g
    ensures g.state != Eco ==> ExitEco(g, now) == g
    ensures CanEnterEco(g) <==> EnterEco(g, now).state == Eco && g.state != Eco
  {
  }

  /** Whatever the phase step was given, a brew not in pre-infusion is left as it is. */
  lemma PhaseStepOnlyInPreinfusion(g: Globals, now: nat)
    requires g.phase != Preinfusion
    ensures PhaseStep(g, now) == g
  {
  }

  /**
   * The pre-infusion schedule of a brew entered with pre-infusion enabled:
   * before the on time the pump runs, during the pause it is off, and from
   * the on time plus the pause the full-pressure phase runs with the pump on.
   * With pre-infusion disabled the brew enters the full-pressure phase at once.
   */
  lemma PreinfusionSchedule(g: Globals, t0: nat, now: nat)
    requires Valid(g) && IsU32(t0)
    ensures var b := Moved(g, Brewing, t0);
      var r := PhaseStep(b, now);
      var elapsed := Wrap32(now - t0);
      (g.preinfusionEnabled ==>
         (elapsed < g.onMs ==> r.phase == Preinfusion && r.pump == PUMP_FULL)
         && (g.onMs <= elapsed < g.onMs + g.pauseMs ==> r.phase == Preinfusion && r.pump == 0)
         && (g.onMs + g.pauseMs <= elapsed ==> r.phase == FullBrew && r.pump == PUMP_FULL))
      && (!g.preinfusionEnabled ==> b.phase == FullBrew && r == b)
  {
    var b := Moved(g, Brewing, t0);
    assert b.brewStart == t0 && b.pump == PUMP_FULL && b.onMs == g.onMs && b.pauseMs == g.pauseMs;
  }

  /**
   * Over any run of phase steps the brew leaves pre-infusion exactly when
   * one of the step times is at least the on time plus the pause after the
   * start; nothing but the pump and the phase changes.
   */
  lemma {:induction false} PhaseStepsReachFullBrew(g: Globals, times: seq<nat>)
    requires g.phase == Preinfusion
    decreases |times|
    ensures var r := PhaseSteps(g, times);
      (r.phase == FullBrew <==> exists i :: 0 <= i < |times| && Wrap32(times[i] - g.brewStart) >= g.onMs + g.pauseMs)
      && (r.phase == Preinfusion <==> forall i :: 0 <= i < |times| ==> Wrap32(times[i] - g.brewStart) < g.onMs + g.pauseMs)
      && r.(pump := g.pump, phase := g.phase) == g
  {
    if |times| > 0 {
      var h := PhaseStep(g, times[0]);
      if h.phase == FullBrew {
        FullBrewStays(h, times[1..]);
        assert Wrap32(times[0] - g.brewStart) >= g.onMs + g.pauseMs;
      } else {
        PhaseStepsReachFullBrew(h, times[1..]);
        assert forall i :: 1 <= i < |times| ==> times[i] == times[1..][i - 1];
        assert forall i :: 0 <= i < |times| - 1 ==> times[1..][i] == times[i + 1];
      }
    }
  }

  /** Once in the full-pressure phase, phase steps change nothing. */
  lemma {:induction false} FullBrewStays(g: Globals, times: seq<nat>)
    requires g.phase == FullBrew
    decreases |times|
    ensures PhaseSteps(g, times) == g
  {
    if |times| > 0 {
      FullBrewStays(PhaseStep(g, times[0]), times[1..]);
    }
  }

  /** The eco timeout is a `uint16_t` count of minutes, so the millisecond timeout fits in 32 bits. */
  lemma EcoTimeoutFits(g: Globals)
    requires Valid(g)
    ensures IsU32(g.eco.timeoutMinutes * MS_PER_MINUTE)
  {
  }

  /** Idle time counts on the wrapping clock: the timeout fires even when the clock wrapped since the last activity. */
  lemma EcoTimeoutAcrossWrap(g: Globals, now: nat)
    requires Valid(g) && g.eco.enabled && g.eco.timeoutMinutes > 0 && g.state == Ready && !g.brewing
    requires IsU32(now) && now < g.lastActivity
    requires U32_LIMIT - g.lastActivity + now >= g.eco.timeoutMinutes * MS_PER_MINUTE
    ensures EcoTimeoutDue(g, Ready, now)
  {
  }

  // ---------------------------------------------------------------------------
  // The module's globals
  // ---------------------------------------------------------------------------

  class Machine {
    var state: MachineState
    var previous: MachineState
    var mode: Mode
    var brewing: bool
    var phase: BrewPhase
    var brewStart: nat
    var brewStop: nat
    var postBrewStart: nat
    var entryTime: nat
    var preinfusionEnabled: bool
    var onMs: nat
    var pauseMs: nat
    var eco: EcoConfig
    var lastActivity: nat
    var savedSetpoint: int
    var savedMode: Mode
    var setpoint: int
    var pump: nat

    function G(): Globals
      reads this
    {
      Globals(state, previous, mode, brewing, phase, brewStart, brewStop, postBrewStart, entryTime,
              preinfusionEnabled, onMs, pauseMs, eco, lastActivity, savedSetpoint, savedMode, setpoint, pump)
    }

    /** `state_init`. */
    constructor(persistedEco: EcoConfig, controlSetpoint: int, now: nat)
      requires IsU16(persistedEco.timeoutMinutes) && IsU32(now)
      ensures G() == Initial(persistedEco, controlSetpoint, now)
    {
      state, previous, mode := Init, Init, ModeIdle;
      brewing, phase := false, NoPhase;
      brewStart, brewStop, postBrewStart := 0, 0, 0;
      preinfusionEnabled, onMs, pauseMs := false, PREINFUSION_DEFAULT_ON_MS, PREINFUSION_DEFAULT_PAUSE_MS;
      eco, lastActivity := persistedEco, now;
      savedSetpoint, savedMode := 0, ModeIdle;
      setpoint, pump := controlSetpoint, 0;
      entryTime := now;
    }

    method EntryAction(s: MachineState, now: nat)
      modifies this`entryTime, this`pump, this`brewStart, this`brewStop, this`phase,
               this`savedSetpoint, this`savedMode, this`setpoint
      ensures G() == Entered(old(G()), s, now)
    {
      entryTime := now;
      match s
      case Idle =>
        pump := 0;
      case Brewing =>
        StartShot(now);
      case Eco =>
        SaveForEco();
      case _ =>
    }

    /** Entering BREWING: the shot timer starts and the pump runs, behind pre-infusion when it is enabled. */
    method StartShot(now: nat)
      modifies this`brewStart, this`brewStop, this`phase, this`pump
      ensures G() == old(G()).(brewStart := now, brewStop := 0, pump := PUMP_FULL,
                               phase := if old(preinfusionEnabled) then Preinfusion else FullBrew)
    {
      brewStart := now;
      brewStop := 0;
      phase := if preinfusionEnabled then Preinfusion else FullBrew;
      pump := PUMP_FULL;
    }

    /** Entering ECO: the setpoint and mode are saved and the eco temperature takes over. */
    method SaveForEco()
      modifies this`savedSetpoint, this`savedMode, this`setpoint
      ensures G() == old(G()).(savedSetpoint := old(setpoint), savedMode := old(mode), setpoint := old(eco).ecoBrewTemp)
    {
      savedSetpoint := setpoint;
      savedMode := mode;
      setpoint := eco.ecoBrewTemp;
    }

    method ExitAction(s: MachineState, now: nat)
      modifies this`setpoint, this`mode, this`lastActivity, this`brewStop, this`pump, this`postBrewStart, this`phase
      ensures G() == Exited(old(G()), s, now)
    {
      match s
      case Eco =>
        RestoreFromEco(now);
      case Brewing =>
        EndShot(now);
      case _ =>
    }

    /** Leaving ECO: the saved setpoint and mode come back and the idle timer restarts. */
    method RestoreFromEco(now: nat)
      modifies this`setpoint, this`mode, this`lastActivity
      ensures G() == old(G()).(setpoint := old(savedSetpoint), mode := old(savedMode), lastActivity := now)
    {
      setpoint := savedSetpoint;
      mode := savedMode;
      lastActivity := now;
    }

    /** Leaving BREWING: the shot timer stops unless it already has, the pump stops and post-brew begins. */
    method EndShot(now: nat)
      modifies this`brewStop, this`pump, this`postBrewStart, this`phase
      ensures G() == old(G()).(brewStop := if old(brewStop) == 0 then now else old(brewStop),
                               pump := 0, postBrewStart := now, phase := PostBrew)
    {
      if brewStop == 0 {
        brewStop := now;
      }
      pump := 0;
      postBrewStart := now;
      phase := PostBrew;
    }

    method MoveTo(to: MachineState, now: nat)
      modifies this
      ensures G() == Moved(old(G()), to, now)
    {
      var from := state;
      ExitAction(from, now);
      previous := from;
      state := to;
      EntryAction(to, now);
    }

    /** `state_start_brew`; `safe` is `safety_is_safe_state()`. */
    method StartBrewCmd(safe: bool) returns (ok: bool)
      modifies this
      ensures ok == CanStartBrew(old(G()), safe)
      ensures G() == StartBrew(old(G()), safe)
    {
      if safe {
        return false;
      }
      if brewing {
        return false;
      }
      if state == Idle || state == Heating || state == Ready {
        brewing := true;
        return true;
      }
      return false;
    }

    /** `state_stop_brew`: true iff a brew was in progress. */
    method StopBrewCmd(now: nat) returns (ok: bool)
      modifies this
      ensures ok == old(brewing)
      ensures G() == StopBrew(old(G()), now)
    {
      if brewing {
        if brewStop == 0 && brewStart > 0 {
          brewStop := now;
        }
        brewing := false;
        return true;
      }
      return false;
    }

    /** `state_set_mode`; `defensive` is `safety_is_defensive_mode()`. */
    method SetModeCmd(m: Mode, defensive: bool) returns (ok: bool)
      modifies this
      ensures ok == CanSetMode(old(G()), m, defensive)
      ensures G() == SetMode(old(G()), m, defensive)
    {
      if brewing {
        return false;
      }
      if defensive && m != ModeIdle {
        return false;
      }
      mode := m;
      return true;
    }

    /** `state_set_preinfusion`. */
    method SetPreinfusionCmd(enabled: bool, on: nat, pause: nat)
      requires IsU16(on) && IsU16(pause)
      modifies this
      ensures G() == SetPreinfusion(old(G()), enabled, on, pause)
    {
      preinfusionEnabled, onMs, pauseMs := enabled, on, pause;
    }

    /** `state_get_brew_duration_ms`, read at `now`. */
    method BrewDurationMs(now: nat) returns (d: nat)
      ensures d == BrewDuration(G(), now)
    {
      if brewStart == 0 {
        return 0;
      }
      if brewing {
        return Wrap32(now - brewStart);
      } else if brewStop > 0 {
        return Wrap32(brewStop - brewStart);
      }
      return 0;
    }

    /** The pre-infusion part of `state_update` in BREWING. */
    method UpdateBrewPhase(now: nat)
      modifies this
      ensures G() == PhaseStep(old(G()), now)
    {
      if phase == Preinfusion {
        var elapsed := Wrap32(now - brewStart);
        if elapsed >= onMs {
          pump := 0;
          if elapsed >= onMs + pauseMs {
            phase := FullBrew;
            pump := PUMP_FULL;
          }
        }
      }
    }

    /** `state_enter_eco`. */
    method EnterEcoCmd(now: nat) returns (ok: bool)
      modifies this
      ensures ok == CanEnterEco(old(G()))
      ensures G() == EnterEco(old(G()), now)
    {
      if state != Ready && state != Idle {
        return false;
      }
      if brewing {
        return false;
      }
      MoveTo(Eco, now);
      return true;
    }

    /** `state_exit_eco`. */
    method ExitEcoCmd(now: nat) returns (ok: bool)
      modifies this
      ensures ok == (old(state) == Eco)
      ensures G() == ExitEco(old(G()), now)
    {
      if state != Eco {
        return false;
      }
      MoveTo(WakeState(savedMode), now);
      return true;
    }

    /** `state_set_eco_config`; the flash write goes through the configuration store. */
    method SetEcoConfigCmd(c: EcoConfig, now: nat)
      modifies this
      ensures G() == SetEcoConfig(old(G()), c, now)
    {
      eco := c;
      if !c.enabled && state == Eco {
        var _ := ExitEcoCmd(now);
      }
    }

    /** `state_reset_idle_timer`. */
    method ResetIdleTimerCmd(now: nat)
      modifies this
      ensures G() == ResetIdleTimer(old(G()), now)
    {
      lastActivity := now;
      if state == Eco {
        var _ := ExitEcoCmd(now);
      }
    }
  }
}
