# Climate Wrapper controller — Dafny model

A model of the supervisory controller of the Home Assistant integration
`climate_wrapper`. The integration wraps a heating climate entity and an
external temperature sensor and presents a virtual thermostat. It drives the
wrapped device's target one degree above its own reading while the virtual
thermostat heats, and one degree below while it idles.

The model covers:

- **State** (`state.dfy`, module `State`): the shared `IntegrationState`
  record and its `heating` predicate (`IsHeating`). It also holds one read of
  the wrapped entity (`ClimateSnapshot`: raw mode string, optional action
  attribute, current and target temperature, and `difference`) and the status
  sensor's two values.
- **Policy** (`policy.dfy`): the pure rules of `logic.py`. These are the
  action derived from the mode (OFF, HEAT, AUTO with strict hysteresis), the
  band from `calculate_target_temp` (`[cur+1, 30]` heating, `[0, cur-1]`
  idle), the commands `_set_wrapped_climate` issues, one whole `update` as a
  step function, and the raw-value rule that decides whether a reported target
  is external.
- **Watchdog** (`watchdog.dfy`): `_periodic_safety_check` as a pure step over
  the failure count and a notification sink. The sink is a map from
  notification id to message: create overwrites, dismiss removes. Lemmas cover
  runs of cycles.
- **Sensor** (`sensor.dfy`): the status sensor as a class. Its counter of
  external changes resets on the first change of a later day. Days are integer
  day numbers supplied by the caller.
- **Control** (`logic.dfy`): the `Logic` object as a class. Its methods
  mutate the state record, the last issued target and the safety count. They
  append commands to a command log. Each method is proved against the pure
  functions above. The presentation setters (thermostat target and mode, the
  enable switch) appear as small operations on the same object.

Temperatures are mathematical reals. The only operations on them are `±1`,
`±variance` and comparisons.

## Behaviour as coded

- The band is asymmetric: `[cur+1, 30.0]` while heating and `[0, cur-1]` while
  idle. `TEMPERATURE_DIFF_TOLERANCE` (const.py:12) and `self._offset`
  (logic.py:52) are never read, so neither is modelled.
- The safety check keeps ONE consecutive-failure count for all three checks.
  The threshold is compared before the increment. So the first alert appears
  on the 11th consecutive failing cycle, not the 10th
  (`FirstAlertOnEleventhFailingCycle`).
- The mode check and the action check write the same notification id. When
  both fail, the action message overwrites the mode message.
- The action check compares the device's action string with the virtual
  action's name (logic.py:168). A device that reports any other action, such
  as "off" or "cooling", while the virtual thermostat idles fails this check
  on every enabled cycle, so the alert appears from the 11th such cycle.
  Only "heating" while heating and "idle" while idling pass.
- External changes are detected only by comparing the reported target with
  the last target this controller issued. No origin or context token is used.
  The last issued target starts as none, so every reported target before the
  first temperature command counts as external.
- A wrapped device switched to "off" gets one command back to "heat". Nothing
  else happens: no detection and no update.
- A "set mode heat" command is issued whenever the device is not in heat
  mode, even when the wrapper is disabled. Only the temperature command depends
  on `enable`.
- The configured variance is never checked for its sign (config_flow.py:48).
  With a negative variance, AUTO switches between HEATING and IDLE on every
  update while the reading lies strictly between target + variance and
  target − variance. Outside that interval it settles: IDLE above it, HEATING
  below it (`NegativeVarianceAlternates`). The stability and idempotence
  lemmas therefore require `variance >= 0`.
- While heating, the band is empty when the device reads above 29 degrees.
  While idle, it is empty when the device reads below 1 degree. In those
  states every update re-sends the temperature command while the wrapper is
  enabled (`HotDeviceNeverSettles`, `ExpectedWithinBand`).
- A detection does not record the target it saw (logic.py:111, 258). The last
  issued target changes only when the following update sends a temperature
  command. So a target set outside the controller and left standing inside
  the band raises a new external-change notification, and a new count on the
  sensor, on every later device event. The same happens after a temperature
  command whose value differs from the standing target
  (`ExternalTargetAlertsAgain`, `StandingTargetInsideBandAlertsAgain`).

## Model

| member | source | states |
|---|---|---|
| `Policy.AutoAction` | custom_components/climate_wrapper/logic.py:270-287 | HEATING turns IDLE exactly when temperature > target + variance, and IDLE turns HEATING exactly when temperature < target − variance (both strict). Inside the closed band the action is unchanged. |
| `State.IntegrationState.IsHeating` | custom_components/climate_wrapper/state.py:23-25 | Heating holds exactly when the action's name is "heating", that is when the action is not IDLE. |
| `State.ClimateSnapshot.Difference` | custom_components/climate_wrapper/state.py:61-63 | The difference added to the current temperature gives the target. |
| `Policy.DerivedAction` | custom_components/climate_wrapper/logic.py:220-228 | OFF gives IDLE and HEAT gives HEATING, whatever the temperatures. Under AUTO, HEATING turns IDLE when the reading is strictly above target + variance and IDLE turns HEATING when it is strictly below target − variance; any change needs such a reading, and inside the closed band the action is kept. |
| `Policy.ActionStable` | custom_components/climate_wrapper/logic.py:270-287 | With variance ≥ 0, deriving the action again from the same temperatures leaves it as it is. |
| `Policy.NegativeVarianceAlternates` | custom_components/climate_wrapper/config_flow.py:48 | With a negative variance and a reading strictly between target + variance and target − variance, every AUTO step flips the action and two steps restore it. At or above target − variance two steps end IDLE; at or below target + variance they end HEATING. |
| `Policy.NoOscillationInsideBand` | custom_components/climate_wrapper/logic.py:270-287 | Over any series of readings that all stay within target ± variance, AUTO ends with the action it started with. |
| `Policy.RunSwitchesOnlyOutsideBand` | custom_components/climate_wrapper/logic.py:270-287 | If a series of readings moves AUTO from IDLE to HEATING, one reading was strictly below target − variance. If it moves HEATING to IDLE, one was strictly above target + variance. |
| `Policy.CalculateTargetTemp` | custom_components/climate_wrapper/logic.py:289-295 | Heating gives the band [cur+1, 30] with expected = its lower bound. Idle gives [0, cur−1] with expected = its upper bound. |
| `Policy.ExpectedWithinBand` | custom_components/climate_wrapper/logic.py:289-295 | The expected value lies in its own band exactly when cur+1 ≤ 30 (heating) or cur−1 ≥ 0 (idle). |
| `Policy.BandAsDifference` | custom_components/climate_wrapper/state.py:61-63 | Band membership is equivalent to a condition on the device's difference (target − current). Heating: difference ≥ 1 and target ≤ 30. Idle: difference ≤ −1 and target ≥ 0. |
| `Policy.WrappedClimateCommands` | custom_components/climate_wrapper/logic.py:237-268 | A set-mode "heat" command is issued exactly when the device mode is not "heat". A set-temperature command is issued exactly when enabled and the device target is outside the band. Its value is the expected value. The number of commands is exactly one per condition that holds, and when both are sent the mode command comes first. |
| `Policy.UpdateStep` | custom_components/climate_wrapper/logic.py:220-230 | Update changes only the action, to the derived one. Its commands are those of `_set_wrapped_climate` for the new action. The last issued target becomes the expected value exactly when a temperature command is issued, and stays as it was otherwise. |
| `Policy.SecondUpdateIssuesNoSetTemperature` | custom_components/climate_wrapper/logic.py:250-268 | Take a device whose target now equals the value the last update issued and whose reading is unchanged. If variance ≥ 0 and the expected value lies in its band, the next update issues no temperature command and leaves the state and last issued target unchanged. |
| `Policy.HotDeviceNeverSettles` | custom_components/climate_wrapper/logic.py:289-292 | When enabled and heating with the device reading above 29, every update issues a temperature command. |
| `Policy.IsExternalChange` | custom_components/climate_wrapper/logic.py:109-111 | With nothing issued yet every reported target is external; otherwise a target is external exactly when it differs from the last issued one. |
| `Policy.ExternalTargetAlertsAgain` | custom_components/climate_wrapper/logic.py:109-122 | After an external target, the next event carrying the same target is external again unless the update in between sent a temperature command with exactly that value. |
| `Policy.StandingTargetInsideBandAlertsAgain` | custom_components/climate_wrapper/logic.py:109-122 | An external target that lies inside the band draws no temperature command, and the next event carrying it is external again. |
| `Policy.EchoIsNotExternal` | custom_components/climate_wrapper/logic.py:109-111 | After an update issued target e, a reported target is external exactly when it differs from e. With nothing issued yet, every reported target is external. |
| `Watchdog.SafetyCheck` | custom_components/climate_wrapper/logic.py:142-214 | Disabled: no change. A failing cycle adds exactly 1 to the count, however many checks fail. A passing cycle sets the count to 0 and removes both alert ids. Below the threshold nothing is created. At or above it, a failing mode or action check writes the shared action id (the action message wins) and a failing band check writes the difference id. A failing cycle removes no alert, and an alert whose own check passes keeps its message. An alert id is created only by a check of its own that fails. No other notification changes. |
| `Watchdog.ModeCheckFails` | custom_components/climate_wrapper/logic.py:149-150 | The mode check fails for every mode but "heat", "off" included, exactly when the reconciler would send a set-mode "heat" command. |
| `Watchdog.ActionCheckFails` | custom_components/climate_wrapper/logic.py:167-168 | A missing action attribute always fails. The check passes exactly when the device reports "heating" while the virtual thermostat heats, or "idle" while it idles; any other reported action fails. |
| `Watchdog.BandCheckFails` | custom_components/climate_wrapper/logic.py:184-186 | While enabled, the band check fails exactly when the reconciler would send a temperature command. |
| `Watchdog.CountGrowsAtMostOnePerCycle` | custom_components/climate_wrapper/logic.py:204-214 | After n cycles, the count is at most its start value plus n. |
| `Watchdog.FailingCyclesCount` | custom_components/climate_wrapper/logic.py:204-206 | n consecutive enabled, failing cycles raise the count by exactly n. |
| `Watchdog.NoAlertBeforeThreshold` | custom_components/climate_wrapper/logic.py:155-201 | While start count + number of cycles ≤ 10, no notification id is added. |
| `Watchdog.StaysSilentWhileFailing` | custom_components/climate_wrapper/logic.py:150-206 | Failing cycles that stay within the threshold leave the sink exactly as it was. |
| `Watchdog.FirstAlertOnEleventhFailingCycle` | custom_components/climate_wrapper/logic.py:150-206 | From count 0, ten failing cycles leave the sink unchanged. The eleventh writes the alert id of each check that fails in it. |
| `Watchdog.AlertsPersistWhileFailing` | custom_components/climate_wrapper/logic.py:150-206 | Every alert present before a run of enabled, failing cycles is still present after it. |
| `Watchdog.PassingCycleClears` | custom_components/climate_wrapper/logic.py:207-214 | After any history, one enabled passing cycle leaves count 0 and neither alert id. |
| `Sensor.Register` | custom_components/climate_wrapper/sensor.py:72-78 | On a later day the result is exactly (1, today). Otherwise the count rises by exactly 1 and the reset day is unchanged. The reset day never decreases and never lies before today. |
| `Sensor.ResetDayNeverDecreases` | custom_components/climate_wrapper/sensor.py:74-76 | Over any series of changes, the reset day ends no earlier than it started and no earlier than any day counted. |
| `Sensor.SameDayChangesAccumulate` | custom_components/climate_wrapper/sensor.py:74-78 | Changes on days not after the reset day add exactly their number and never reset. |
| `Sensor.CounterCountsChangesOfLastDay` | custom_components/climate_wrapper/sensor.py:72-78 | Take changes in calendar order whose last day is after the reset day. The counter ends on that day, holding the number of changes made on it. |
| `Sensor.ClimateWrapperSensor.constructor` | custom_components/climate_wrapper/sensor.py:41-46 | The counter starts at 0 and the reset day is the construction day. The status is "Normal Operation" and the attributes say last changed "never". |
| `Sensor.ClimateWrapperSensor.ExternalChange` | custom_components/climate_wrapper/sensor.py:72-88 | The counter advances as `Register`. The published `changes_today` equals the counter. The status is written as "External Change Detected" and then "Normal Operation", so it ends as "Normal Operation". |
| `Control.Logic.constructor` | custom_components/climate_wrapper/logic.py:49-82 | The record starts enabled, AUTO, IDLE, target 20, with the sensor's reading. The last target is none, the count is 0 and no notification exists. Then the first update runs. |
| `Control.Logic.Update` | custom_components/climate_wrapper/logic.py:220-235 | The new state, last issued target and appended commands are those of `UpdateStep`. |
| `Control.Logic.UpdateActionViaAuto` | custom_components/climate_wrapper/logic.py:270-287 | Only the action changes, to `AutoAction` of the old state. |
| `Control.Logic.SetWrappedClimate` | custom_components/climate_wrapper/logic.py:237-268 | It appends `WrappedClimateCommands` for the current state. The last issued target becomes the expected value exactly when a temperature command is sent. |
| `Control.Logic.PeriodicSafetyCheck` | custom_components/climate_wrapper/logic.py:142-214 | The count and sink become those of `SafetyCheck`. No command is sent: the command log is outside its frame. |
| `Control.Logic.WrappedClimateStateChange` | custom_components/climate_wrapper/logic.py:88-122 | A missing new state does nothing. An "off" device gets exactly one set-mode "heat" command and nothing else. Otherwise a target different from the last issued one adds one external-change notification and one count on the sensor, which publishes the new count and ends in "Normal Operation". Then update runs on the new state. |
| `Control.Logic.TemperatureSensorStateChange` | custom_components/climate_wrapper/logic.py:124-140 | An unparseable reading changes nothing and runs no update. A parsed one becomes the temperature, then update runs. |
| `Control.Logic.SetTargetTemperature` | custom_components/climate_wrapper/climate.py:90-97 | A missing value changes nothing. Otherwise the target is set and update runs. |
| `Control.Logic.SetHvacMode` | custom_components/climate_wrapper/climate.py:99-102 | The mode is set and update runs. |
| `Control.Logic.TurnOn` | custom_components/climate_wrapper/switch.py:56-60 | Enable is set and update runs. |
| `Control.Logic.TurnOff` | custom_components/climate_wrapper/switch.py:62-65 | Enable is cleared and nothing else happens: no update runs. |

## Left out

- Host lifecycle (`__init__.py`) is not modelled: setup, the availability polling (whose results are ignored anyway), subscription and timer registration, and cancellation on unload and reload. The initial record values from its lines 41-47 are used by `Control.Logic.constructor`.
- The configuration forms (`config_flow.py`) are not modelled. The variance is a constant of the `Logic` object.
- Presentation refreshes (`async_write_ha_state` from `update`), logging, entity names and unique ids are not modelled. The sensor's writes are kept only as the log of published statuses.
- Concurrency is not modelled. Each handler is one atomic step and works from one read of the wrapped device. Re-reads after an `await` are assumed to see that same read. `external_change`, which the source schedules as a separate job, runs inside the handler. Its 1-second sleep is collapsed: the two written statuses appear in order in `published`.
- `Control.Logic.constructor`: the first update, which the source schedules as a job, runs at the end of the constructor. A first sensor value that does not parse makes the source's setup raise; the model takes the parsed value.
- Device attributes that are missing or do not parse as numbers are not modelled. The source's `float(...)` would raise inside `update`, the safety check or the device handler. A safety-check cycle on a device without its temperature attributes (an unavailable device, say) therefore raises in `calculate_target_temp` before the count moves, and is never counted; the model has no such cycle. `ClimateSnapshot` holds parsed reals. A sensor reading that does not parse (or a missing new state) is modelled as `None`.
- A virtual mode outside OFF, HEAT and AUTO is not modelled. `update`'s if/elif chain would leave the action unchanged for it; the model has only the three modes the thermostat entity offers.
- The status sensor missing from the shared data (before its platform is set up) is not modelled. The source would raise in the device handler; the model always has a sensor.
- Notification titles and message text are reduced to the values they report (`Message`). The ids the host generates for notifications created without an id are not modelled: those notifications are kept in a list, each one new.
- IEEE floating point is not modelled; temperatures are reals.
- The `last_changed` timestamp's clock and formatting are not modelled. It is a string passed in, and the day is an integer passed in.
