/**
 * The shared records of the integration: the virtual thermostat's own state,
 * one read of the wrapped climate entity, and the status sensor's two values.
 */
module State {
  import opened Wrappers

  /** The modes the virtual thermostat offers. */
  datatype HvacMode = Off | Heat | Auto

  /** The action of the virtual thermostat; derived by the control loop. */
  datatype HvacAction = Idle | Heating

  /** The host's spelling of an action, as the wrapped device reports it. */
  function ActionName(a: HvacAction): string
  {
    match a
    case Idle => "idle"
    case Heating => "heating"
  }

  /** The host's spellings of the two device modes the controller looks at. */
  const MODE_HEAT: string := "heat"
  const MODE_OFF: string := "off"

  /** The virtual thermostat's state, shared by the control loop and the presentation entities. */
  datatype IntegrationState = IntegrationState(
    enable: bool,
    hvacMode: HvacMode,
    hvacAction: HvacAction,
    temperature: real,        // the external sensor's last accepted reading
    targetTemperature: real)  // the user's target for the virtual thermostat
  {
    /** `heating`: the virtual action is HEATING. */
    predicate IsHeating()
      ensures IsHeating() <==> ActionName(hvacAction) == "heating"
      ensures IsHeating() <==> hvacAction != HvacAction.Idle
    {
      hvacAction == HvacAction.Heating
    }
  }

  /**
   * One read of the wrapped climate entity: its raw state string (the mode),
   * its optional `hvac_action` attribute, and the numeric parses of its
   * `current_temperature` and `temperature` attributes.
   */
  datatype ClimateSnapshot = ClimateSnapshot(
    hvacMode: string,
    hvacAction: Option<string>,
    temperature: real,
    targetTemperature: real)
  {
    /** `difference`: how far the device's target lies above its own reading. */
    function Difference(): (d: real)
      ensures temperature + d == targetTemperature
    {
      targetTemperature - temperature
    }
  }

  /** The status sensor's value ("Normal Operation", "External Change Detected"). */
  datatype SensorState = NormalOperation | ExternalChangeDetected
}
