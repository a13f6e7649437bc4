/**
 * The controller object: the shared state record, the last target it issued,
 * the safety-check count, and the outputs it produces (commands to the
 * wrapped device, notifications). Each handler runs as one atomic step and
 * receives the one read of the wrapped device it works from.
 */
module Control {
  import opened Wrappers
  import opened State
  import opened Policy
  import opened Watchdog
  import opened Sensor

  /** The record as set up: enabled, AUTO, IDLE, target 20 degrees, with the sensor's first reading. */
  function InitialState(temperature: real): IntegrationState
  {
    IntegrationState(true, Auto, Idle, temperature, 20.0)
  }

  class Logic {
    /** The configured hysteresis half-width of AUTO mode. */
    const variance: real
    /** The status sensor told about external changes. */
    const sensor: ClimateWrapperSensor

    var state: IntegrationState
    var lastTargetTemperature: Option<real>
    var safetyCheckTimeout: nat
    /** Every command sent to the wrapped device, in order. */
    var commands: seq<Command>
    /** Notifications with an id: creating overwrites, dismissing removes. */
    var notifications: map<string, Message>
    /** Notifications created without an id; each one is new. */
    var unnamedNotifications: seq<Message>

    function Reconciler(): Controller
      reads this
    {
      Controller(state, lastTargetTemperature)
    }

    /**
     * Set up with the sensor's first reading, then run the first update
     * against the device as it is now.
     */
    constructor (variance: real, reading: real, sensor: ClimateWrapperSensor, device: ClimateSnapshot)
      ensures this.variance == variance && this.sensor == sensor
      ensures var s := UpdateStep(Controller(InitialState(reading), None), variance, device);
              Reconciler() == s.next && commands == s.commands
      ensures safetyCheckTimeout == 0 && notifications == map[] && unnamedNotifications == []
    {
      this.variance := variance;
      this.sensor := sensor;
      state := InitialState(reading);
      lastTargetTemperature := None;
      safetyCheckTimeout := 0;
      commands := [];
      notifications := map[];
      unnamedNotifications := [];
      new;
      Update(device);
    }

    /** `update`: derive the action from the mode, then reconcile the wrapped device. */
    method Update(device: ClimateSnapshot)
      modifies this`state, this`lastTargetTemperature, this`commands
      ensures var s := UpdateStep(old(Reconciler()), variance, device);
              Reconciler() == s.next && commands == old(commands) + s.commands
    {
      match state.hvacMode {
        case Off => state := state.(hvacAction := Idle);
        case Heat => state := state.(hvacAction := Heating);
        case Auto => UpdateActionViaAuto();
      }
      SetWrappedClimate(device);
    }

    /** `_update_action_via_auto`: leave the current action only beyond target ± variance. */
    method UpdateActionViaAuto()
      modifies this`state
      ensures state == old(state).(hvacAction :=
                AutoAction(old(state).hvacAction, old(state).temperature, old(state).targetTemperature, variance))
    {
      if state.IsHeating() {
        var maxTemp := state.targetTemperature + variance;
        if state.temperature > maxTemp {
          state := state.(hvacAction := Idle);
        }
      } else {
        var minTemp := state.targetTemperature - variance;
        if state.temperature < minTemp {
          state := state.(hvacAction := Heating);
        }
      }
    }

    /**
     * `_set_wrapped_climate`: force heat mode, then, when enabled and the
     * device's target is outside the band, send the expected target and
     * remember it.
     */
    method SetWrappedClimate(device: ClimateSnapshot)
      modifies this`lastTargetTemperature, this`commands
      ensures commands == old(commands) + WrappedClimateCommands(state.enable, state.IsHeating(), device)
      ensures lastTargetTemperature ==
                if IssuesSetTemperature(WrappedClimateCommands(state.enable, state.IsHeating(), device))
                then Some(CalculateTargetTemp(state.IsHeating(), device.temperature).expected)
                else old(lastTargetTemperature)
    {
      if device.hvacMode != MODE_HEAT {
        commands := commands + [Command.SetHvacMode(MODE_HEAT)];
      }
      var band := CalculateTargetTemp(state.IsHeating(), device.temperature);
      if state.enable && !band.Contains(device.targetTemperature) {
        lastTargetTemperature := Some(band.expected);
        commands := commands + [SetTemperature(lastTargetTemperature.value)];
      }
    }

    /**
     * `_periodic_safety_check`: compare mode, action and band; count the
     * failing cycle or clear the count and both alerts. It sends no command.
     */
    method PeriodicSafetyCheck(device: ClimateSnapshot)
      modifies this`safetyCheckTimeout, this`notifications
      ensures Watch(safetyCheckTimeout, notifications) ==
                SafetyCheck(Watch(old(safetyCheckTimeout), old(notifications)), state, device)
    {
      var error := false;
      if !state.enable {
        return;
      }
      if device.hvacMode != MODE_HEAT {
        error := true;
        if safetyCheckTimeout >= SAFETY_CHECK_TIMEOUT {
          notifications := notifications[ACTION_ALERT_ID := ModeMismatch(device.hvacMode, MODE_HEAT)];
        }
      }
      if device.hvacAction != Some(ActionName(state.hvacAction)) {
        error := true;
        if safetyCheckTimeout >= SAFETY_CHECK_TIMEOUT {
          notifications := notifications[ACTION_ALERT_ID := ActionMismatch(device.hvacAction, state.hvacAction)];
        }
      }
      var band := CalculateTargetTemp(state.IsHeating(), device.temperature);
      if !band.Contains(device.targetTemperature) {
        error := true;
        if safetyCheckTimeout >= SAFETY_CHECK_TIMEOUT {
          notifications := notifications[DIFFERENCE_ALERT_ID :=
                             DifferenceMismatch(device.temperature, device.targetTemperature, band.expected)];
        }
      }
      if error {
        safetyCheckTimeout := safetyCheckTimeout + 1;
      } else {
        notifications := notifications - {ACTION_ALERT_ID};
        notifications := notifications - {DIFFERENCE_ALERT_ID};
        safetyCheckTimeout := 0;
      }
    }

    /**
     * `_wrapped_climate_state_change`: no new state, nothing; a device
     * switched off gets one command back to heat and nothing else; otherwise
     * a target different from the last issued one is reported as external
     * (one notification, one count on the sensor), and then `update` runs.
     */
    method WrappedClimateStateChange(newState: Option<ClimateSnapshot>, today: int, stamp: string)
      requires sensor.Valid()
      modifies this`state, this`lastTargetTemperature, this`commands, this`unnamedNotifications, sensor
      ensures sensor.Valid()
      ensures newState == None ==>
                Reconciler() == old(Reconciler()) && commands == old(commands) &&
                unnamedNotifications == old(unnamedNotifications) && unchanged(sensor)
      ensures newState.Some? && newState.value.hvacMode == MODE_OFF ==>
                Reconciler() == old(Reconciler()) && commands == old(commands) + [Command.SetHvacMode(MODE_HEAT)] &&
                unnamedNotifications == old(unnamedNotifications) && unchanged(sensor)
      ensures newState.Some? && newState.value.hvacMode != MODE_OFF ==>
                var device := newState.value;
                var s := UpdateStep(old(Reconciler()), variance, device);
                Reconciler() == s.next && commands == old(commands) + s.commands &&
                if IsExternalChange(device.targetTemperature, old(lastTargetTemperature)) then
                  unnamedNotifications == old(unnamedNotifications) + [ExternalTemperatureChange(device.targetTemperature)] &&
                  sensor.CounterState() == Register(old(sensor.CounterState()), today) &&
                  sensor.attributes == Attributes(stamp, Some(sensor.changesToday)) &&
                  sensor.status == NormalOperation &&
                  sensor.published == old(sensor.published) + [ExternalChangeDetected, NormalOperation]
                else
                  unnamedNotifications == old(unnamedNotifications) && unchanged(sensor)
    {
      if newState == None {
        return;
      }
      var device := newState.value;
      if device.hvacMode == MODE_OFF {
        commands := commands + [Command.SetHvacMode(MODE_HEAT)];
        return;
      }
      var newTargetTemp := device.targetTemperature;
      if Some(newTargetTemp) != lastTargetTemperature {
        unnamedNotifications := unnamedNotifications + [ExternalTemperatureChange(newTargetTemp)];
        sensor.ExternalChange(today, stamp);
      }
      Update(device);
    }

    /**
     * `_temperature_sensor_state_change`: a reading that does not parse is
     * dropped; one that does becomes the measured temperature and `update`
     * runs.
     */
    method TemperatureSensorStateChange(reading: Option<real>, device: ClimateSnapshot)
      modifies this`state, this`lastTargetTemperature, this`commands
      ensures reading == None ==> Reconciler() == old(Reconciler()) && commands == old(commands)
      ensures reading.Some? ==>
                var s := UpdateStep(Controller(old(state).(temperature := reading.value), old(lastTargetTemperature)), variance, device);
                Reconciler() == s.next && commands == old(commands) + s.commands
    {
      if reading == None {
        return;
      }
      state := state.(temperature := reading.value);
      Update(device);
    }

    /** The thermostat entity's target setter: a missing value changes nothing. */
    method SetTargetTemperature(target: Option<real>, device: ClimateSnapshot)
      modifies this`state, this`lastTargetTemperature, this`commands
      ensures target == None ==> Reconciler() == old(Reconciler()) && commands == old(commands)
      ensures target.Some? ==>
                var s := UpdateStep(Controller(old(state).(targetTemperature := target.value), old(lastTargetTemperature)), variance, device);
                Reconciler() == s.next && commands == old(commands) + s.commands
    {
      if target == None {
        return;
      }
      state := state.(targetTemperature := target.value);
      Update(device);
    }

    /** The thermostat entity's mode setter. */
    method SetHvacMode(mode: HvacMode, device: ClimateSnapshot)
      modifies this`state, this`lastTargetTemperature, this`commands
      ensures var s := UpdateStep(Controller(old(state).(hvacMode := mode), old(lastTargetTemperature)), variance, device);
              Reconciler() == s.next && commands == old(commands) + s.commands
    {
      state := state.(hvacMode := mode);
      Update(device);
    }

    /** The enable switch turned on: enable, then update. */
    method TurnOn(device: ClimateSnapshot)
      modifies this`state, this`lastTargetTemperature, this`commands
      ensures var s := UpdateStep(Controller(old(state).(enable := true), old(lastTargetTemperature)), variance, device);
              Reconciler() == s.next && commands == old(commands) + s.commands
    {
      state := state.(enable := true);
      Update(device);
    }

    /** The enable switch turned off: no update runs, so no command is sent. */
    method TurnOff()
      modifies this`state
      ensures state == old(state).(enable := false)
    {
      state := state.(enable := false);
    }
  }
}
