/**
 * The control policy of the reconciliation loop, as pure functions: the
 * action the virtual thermostat derives from its mode, the band the wrapped
 * device's target must lie in, and the commands one update issues.
 */
module Policy {
  import opened Wrappers
  import opened State

  /** Offset between the wrapped device's reading and the target it is driven to. */
  const TEMPERATURE_DIFF: real := 1.0
  /** Upper end of the band while heating. */
  const MAX_TARGET: real := 30.0
  /** Lower end of the band while idle. */
  const MIN_TARGET: real := 0.0

  /** A service call on the wrapped climate entity. */
  datatype Command = SetHvacMode(mode: string) | SetTemperature(temperature: real)

  predicate IssuesSetTemperature(cmds: seq<Command>)
  {
    exists c | c in cmds :: c.SetTemperature?
  }

  // ---------------------------------------------------------------------
  // Action derivation
  // ---------------------------------------------------------------------

  /**
   * AUTO mode: hysteresis around the target. Heating stops only above
   * target + variance, idling stops only below target - variance.
   */
  function AutoAction(action: HvacAction, temperature: real, target: real, variance: real): (r: HvacAction)
    ensures action == Heating ==> (r == Idle <==> temperature > target + variance)
    ensures action == Idle ==> (r == Heating <==> temperature < target - variance)
    ensures target - variance <= temperature <= target + variance ==> r == action
  {
    match action
    case Heating => if temperature > target + variance then Idle else Heating
    case Idle => if temperature < target - variance then Heating else Idle
  }

  /**
   * The action `update` assigns: OFF gives IDLE and HEAT gives HEATING
   * whatever the temperatures; AUTO changes the action only beyond the
   * matching bound and keeps it inside the closed band.
   */
  function DerivedAction(st: IntegrationState, variance: real): (r: HvacAction)
    ensures st.hvacMode == Off ==> r == Idle
    ensures st.hvacMode == Heat ==> r == Heating
    ensures st.hvacMode == Auto && r != st.hvacAction ==>
              (st.hvacAction == Heating && st.temperature > st.targetTemperature + variance) ||
              (st.hvacAction == Idle && st.temperature < st.targetTemperature - variance)
    ensures st.hvacMode == Auto && st.targetTemperature - variance <= st.temperature <= st.targetTemperature + variance ==>
              r == st.hvacAction
    ensures st.hvacMode == Auto && st.hvacAction == Heating && st.temperature > st.targetTemperature + variance ==> r == Idle
    ensures st.hvacMode == Auto && st.hvacAction == Idle && st.temperature < st.targetTemperature - variance ==> r == Heating
  {
    match st.hvacMode
    case Off => Idle
    case Heat => Heating
    case Auto => AutoAction(st.hvacAction, st.temperature, st.targetTemperature, variance)
  }

  /**
   * With a variance that is not negative, deriving the action a second time
   * from the same temperatures changes nothing.
   */
  lemma ActionStable(st: IntegrationState, variance: real)
    requires variance >= 0.0
    ensures DerivedAction(st.(hvacAction := DerivedAction(st, variance)), variance) == DerivedAction(st, variance)
  {
  }

  /**
   * The configured variance is never checked for its sign. With a negative
   * one, AUTO flips the action on every update while the temperature lies
   * strictly between target + variance and target - variance; outside that
   * interval it settles (IDLE above it, HEATING below it).
   */
  lemma NegativeVarianceAlternates(action: HvacAction, temperature: real, target: real, variance: real)
    requires variance < 0.0
    ensures target + variance < temperature < target - variance ==>
              AutoAction(action, temperature, target, variance) != action &&
              AutoAction(AutoAction(action, temperature, target, variance), temperature, target, variance) == action
    ensures temperature >= target - variance ==> AutoAction(AutoAction(action, temperature, target, variance), temperature, target, variance) == Idle
    ensures temperature <= target + variance ==> AutoAction(AutoAction(action, temperature, target, variance), temperature, target, variance) == Heating
  {
  }

  /** AUTO mode over a series of readings, the last one applied last. */
  function AutoRun(action: HvacAction, temperatures: seq<real>, target: real, variance: real): HvacAction
    decreases |temperatures|
  {
    if temperatures == [] then action
    else
      var n := |temperatures| - 1;
      AutoAction(AutoRun(action, temperatures[..n], target, variance), temperatures[n], target, variance)
  }

  /** No oscillation: while every reading stays within target ± variance, the action never changes. */
  lemma {:induction false} NoOscillationInsideBand(action: HvacAction, temperatures: seq<real>, target: real, variance: real)
    requires forall i | 0 <= i < |temperatures| :: target - variance <= temperatures[i] <= target + variance
    ensures AutoRun(action, temperatures, target, variance) == action
    decreases |temperatures|
  {
    if temperatures != [] {
      var n := |temperatures| - 1;
      NoOscillationInsideBand(action, temperatures[..n], target, variance);
    }
  }

  /**
   * A run that starts IDLE and ends HEATING saw a reading strictly below
   * target - variance; one that starts HEATING and ends IDLE saw one strictly
   * above target + variance.
   */
  lemma {:induction false} RunSwitchesOnlyOutsideBand(action: HvacAction, temperatures: seq<real>, target: real, variance: real)
    requires AutoRun(action, temperatures, target, variance) != action
    ensures action == Idle ==> exists i | 0 <= i < |temperatures| :: temperatures[i] < target - variance
    ensures action == Heating ==> exists i | 0 <= i < |temperatures| :: temperatures[i] > target + variance
    decreases |temperatures|
  {
    var n := |temperatures| - 1;
    var before := AutoRun(action, temperatures[..n], target, variance);
    if before == action {
      assert AutoAction(before, temperatures[n], target, variance) != action;
    } else {
      RunSwitchesOnlyOutsideBand(action, temperatures[..n], target, variance);
      if action == Idle {
        var i :| 0 <= i < n && temperatures[..n][i] < target - variance;
        assert temperatures[i] < target - variance;
      } else {
        var i :| 0 <= i < n && temperatures[..n][i] > target + variance;
        assert temperatures[i] > target + variance;
      }
    }
  }

  // ---------------------------------------------------------------------
  // Target band
  // ---------------------------------------------------------------------

  /** The target the wrapped device is driven to and the range accepted without a command. */
  datatype Band = Band(expected: real, min: real, max: real)
  {
    predicate Contains(t: real)
    {
      min <= t <= max
    }
  }

  /**
   * `calculate_target_temp`: heating asks for one degree above the device's
   * reading and accepts up to MAX_TARGET; idle asks for one degree below and
   * accepts down to MIN_TARGET.
   */
  function CalculateTargetTemp(heating: bool, current: real): (b: Band)
    ensures b.expected == if heating then b.min else b.max
    ensures heating ==> b.min == current + TEMPERATURE_DIFF && b.max == MAX_TARGET
    ensures !heating ==> b.min == MIN_TARGET && b.max == current - TEMPERATURE_DIFF
  {
    if heating then
      var target := current + TEMPERATURE_DIFF;
      Band(target, target, MAX_TARGET)
    else
      var target := current - TEMPERATURE_DIFF;
      Band(target, MIN_TARGET, target)
  }

  /**
   * The expected value lies in its own band exactly when the device reads at
   * most 29 degrees while heating, or at least 1 degree while idle.
   */
  lemma ExpectedWithinBand(heating: bool, current: real)
    ensures CalculateTargetTemp(heating, current).Contains(CalculateTargetTemp(heating, current).expected)
        <==> (if heating then current + TEMPERATURE_DIFF <= MAX_TARGET else MIN_TARGET <= current - TEMPERATURE_DIFF)
  {
  }

  /** The band check, read through the device's `difference`. */
  lemma BandAsDifference(heating: bool, device: ClimateSnapshot)
    ensures CalculateTargetTemp(heating, device.temperature).Contains(device.targetTemperature)
        <==> (if heating
              then TEMPERATURE_DIFF <= device.Difference() && device.targetTemperature <= MAX_TARGET
              else device.Difference() <= -TEMPERATURE_DIFF && MIN_TARGET <= device.targetTemperature)
  {
  }

  // ---------------------------------------------------------------------
  // Commands
  // ---------------------------------------------------------------------

  /**
   * `_set_wrapped_climate`: a mode command whenever the device is not in
   * heat mode (even when the wrapper is disabled), then a temperature command
   * when enabled and the device's target is outside the band.
   */
  function WrappedClimateCommands(enable: bool, heating: bool, device: ClimateSnapshot): (cmds: seq<Command>)
    ensures SetHvacMode(MODE_HEAT) in cmds <==> device.hvacMode != MODE_HEAT
    ensures IssuesSetTemperature(cmds) <==>
              enable && !CalculateTargetTemp(heating, device.temperature).Contains(device.targetTemperature)
    ensures forall c | c in cmds ::
              c == SetHvacMode(MODE_HEAT) || c == SetTemperature(CalculateTargetTemp(heating, device.temperature).expected)
    ensures |cmds| == (if device.hvacMode != MODE_HEAT then 1 else 0) + (if IssuesSetTemperature(cmds) then 1 else 0)
    ensures |cmds| == 2 ==> cmds[0] == SetHvacMode(MODE_HEAT) && cmds[1].SetTemperature?
  {
    var band := CalculateTargetTemp(heating, device.temperature);
    var modeCommands := if device.hvacMode != MODE_HEAT then [SetHvacMode(MODE_HEAT)] else [];
    var temperatureCommands := if enable && !band.Contains(device.targetTemperature) then [SetTemperature(band.expected)] else [];
    var cmds := modeCommands + temperatureCommands;
    assert temperatureCommands != [] ==> cmds[|cmds| - 1].SetTemperature?;
    cmds
  }

  // ---------------------------------------------------------------------
  // One update
  // ---------------------------------------------------------------------

  /** The state `update` reads and writes: the shared record and the last target it issued. */
  datatype Controller = Controller(state: IntegrationState, lastTargetTemperature: Option<real>)

  /** What one update leaves behind: the new controller state and the commands issued. */
  datatype Step = Step(next: Controller, commands: seq<Command>)

  /** `update`: derive the action, then bring the wrapped device in line. */
  function UpdateStep(c: Controller, variance: real, device: ClimateSnapshot): (s: Step)
    ensures s.next.state == c.state.(hvacAction := DerivedAction(c.state, variance))
    ensures s.commands == WrappedClimateCommands(c.state.enable, s.next.state.IsHeating(), device)
    ensures IssuesSetTemperature(s.commands) ==>
              s.next.lastTargetTemperature == Some(CalculateTargetTemp(s.next.state.IsHeating(), device.temperature).expected)
    ensures !IssuesSetTemperature(s.commands) ==> s.next.lastTargetTemperature == c.lastTargetTemperature
  {
    var st := c.state.(hvacAction := DerivedAction(c.state, variance));
    var band := CalculateTargetTemp(st.IsHeating(), device.temperature);
    var cmds := WrappedClimateCommands(st.enable, st.IsHeating(), device);
    var last := if st.enable && !band.Contains(device.targetTemperature) then Some(band.expected) else c.lastTargetTemperature;
    Step(Controller(st, last), cmds)
  }

  /**
   * Idempotence: once the device's target equals the value an update issued
   * and its reading has not moved, the next update issues no temperature
   * command and changes no state, provided the expected value lies in its own
   * band (reading at most 29 when heating, at least 1 when idle).
   */
  lemma SecondUpdateIssuesNoSetTemperature(c: Controller, variance: real, device: ClimateSnapshot, later: ClimateSnapshot)
    requires variance >= 0.0
    requires IssuesSetTemperature(UpdateStep(c, variance, device).commands)
    requires later.temperature == device.temperature
    requires UpdateStep(c, variance, device).next.lastTargetTemperature == Some(later.targetTemperature)
    requires if UpdateStep(c, variance, device).next.state.IsHeating()
             then device.temperature + TEMPERATURE_DIFF <= MAX_TARGET
             else MIN_TARGET <= device.temperature - TEMPERATURE_DIFF
    ensures !IssuesSetTemperature(UpdateStep(UpdateStep(c, variance, device).next, variance, later).commands)
    ensures UpdateStep(UpdateStep(c, variance, device).next, variance, later).next == UpdateStep(c, variance, device).next
  {
    var first := UpdateStep(c, variance, device);
    ActionStable(c.state, variance);
    assert first.next.state.(hvacAction := DerivedAction(first.next.state, variance)) == first.next.state;
    ExpectedWithinBand(first.next.state.IsHeating(), device.temperature);
  }

  /** The heating band is empty above 29 degrees: while enabled, every update there re-issues the command. */
  lemma HotDeviceNeverSettles(enable: bool, device: ClimateSnapshot)
    requires enable && device.temperature + TEMPERATURE_DIFF > MAX_TARGET
    ensures IssuesSetTemperature(WrappedClimateCommands(enable, true, device))
  {
  }

  // ---------------------------------------------------------------------
  // External-change detection
  // ---------------------------------------------------------------------

  /**
   * A reported target is external when it differs from the last target this
   * controller issued; with nothing issued yet, every target is external.
   */
  predicate IsExternalChange(newTarget: real, lastTargetTemperature: Option<real>)
    ensures lastTargetTemperature == None ==> IsExternalChange(newTarget, lastTargetTemperature)
    ensures lastTargetTemperature.Some? ==>
              (IsExternalChange(newTarget, lastTargetTemperature) <==> newTarget != lastTargetTemperature.value)
  {
    Some(newTarget) != lastTargetTemperature
  }

  /**
   * After an update issued a temperature command, the device echoing that
   * value is not external, and any other value is; before the first command
   * every reported target counts as external.
   */
  lemma EchoIsNotExternal(c: Controller, variance: real, device: ClimateSnapshot, reported: real)
    requires IssuesSetTemperature(UpdateStep(c, variance, device).commands)
    ensures var issued := CalculateTargetTemp(UpdateStep(c, variance, device).next.state.IsHeating(), device.temperature).expected;
            IsExternalChange(reported, UpdateStep(c, variance, device).next.lastTargetTemperature) <==> reported != issued
    ensures IsExternalChange(reported, None)
  {
  }

  /**
   * Detection does not record what it saw: after an external target, the
   * update that follows changes the last issued target only if it sends a
   * temperature command. So the next event carrying the same target is
   * external again unless that command's value equals it.
   */
  lemma ExternalTargetAlertsAgain(c: Controller, variance: real, device: ClimateSnapshot)
    requires IsExternalChange(device.targetTemperature, c.lastTargetTemperature)
    ensures var s := UpdateStep(c, variance, device);
            IsExternalChange(device.targetTemperature, s.next.lastTargetTemperature) <==>
              (!IssuesSetTemperature(s.commands) ||
               device.targetTemperature != CalculateTargetTemp(s.next.state.IsHeating(), device.temperature).expected)
  {
  }

  /** A target left standing inside the band draws no command, so every later event re-reports it. */
  lemma StandingTargetInsideBandAlertsAgain(c: Controller, variance: real, device: ClimateSnapshot)
    requires IsExternalChange(device.targetTemperature, c.lastTargetTemperature)
    requires CalculateTargetTemp(DerivedAction(c.state, variance) == Heating, device.temperature).Contains(device.targetTemperature)
    ensures !IssuesSetTemperature(UpdateStep(c, variance, device).commands)
    ensures IsExternalChange(device.targetTemperature, UpdateStep(c, variance, device).next.lastTargetTemperature)
  {
    ExternalTargetAlertsAgain(c, variance, device);
  }
}
