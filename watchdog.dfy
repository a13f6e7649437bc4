/**
 * The periodic safety check: three comparisons of the wrapped device against
 * the policy, one shared count of consecutive failing cycles, and sticky
 * alerts in a notification sink addressed by id.
 */
module Watchdog {
  import opened Wrappers
  import opened State
  import opened Policy

  /** Failing cycles tolerated before an alert is written (compared before the increment). */
  const SAFETY_CHECK_TIMEOUT: nat := 10

  /** The mode check and the action check both write under this id. */
  const ACTION_ALERT_ID: string := "climate_wrapper.safety_check_action"
  /** The band check writes under this id. */
  const DIFFERENCE_ALERT_ID: string := "climate_wrapper.safety_check_difference"

  /** The content of a user-visible notification. */
  datatype Message =
    | ModeMismatch(currentMode: string, expectedMode: string)
    | ActionMismatch(currentAction: Option<string>, expectedAction: HvacAction)
    | DifferenceMismatch(temperature: real, target: real, expectedTarget: real)
    | ExternalTemperatureChange(newTarget: real)

  /** The device is not in heat mode: "off", "auto", anything but "heat". */
  predicate ModeCheckFails(device: ClimateSnapshot)
    ensures device.hvacMode == MODE_OFF ==> ModeCheckFails(device)
    ensures ModeCheckFails(device) <==> Command.SetHvacMode(MODE_HEAT) in WrappedClimateCommands(false, false, device)
  {
    device.hvacMode != MODE_HEAT
  }

  /** The device's reported action (possibly absent) differs from the virtual one. */
  predicate ActionCheckFails(st: IntegrationState, device: ClimateSnapshot)
    ensures device.hvacAction == None ==> ActionCheckFails(st, device)
    ensures !ActionCheckFails(st, device) ==> (st.IsHeating() <==> device.hvacAction == Some("heating"))
    ensures !ActionCheckFails(st, device) <==>
              (st.IsHeating() && device.hvacAction == Some("heating")) || (!st.IsHeating() && device.hvacAction == Some("idle"))
  {
    device.hvacAction != Some(ActionName(st.hvacAction))
  }

  /** The device's target lies outside the band for the current action. */
  predicate BandCheckFails(st: IntegrationState, device: ClimateSnapshot)
    ensures st.enable ==>
              (BandCheckFails(st, device) <==> IssuesSetTemperature(WrappedClimateCommands(st.enable, st.IsHeating(), device)))
  {
    !CalculateTargetTemp(st.IsHeating(), device.temperature).Contains(device.targetTemperature)
  }

  predicate AnyCheckFails(st: IntegrationState, device: ClimateSnapshot)
  {
    ModeCheckFails(device) || ActionCheckFails(st, device) || BandCheckFails(st, device)
  }

  /** The watchdog's state: the consecutive-failure count and the notification sink. */
  datatype Watch = Watch(timeout: nat, notifications: map<string, Message>)

  /**
   * One cycle of `_periodic_safety_check`. Disabled: nothing happens. A
   * failing cycle adds exactly one to the count, whatever number of checks
   * fail, and writes alerts only when the count read before the increment
   * has reached the threshold. A passing cycle resets the count and dismisses
   * both alerts. No other notification is touched.
   */
  function SafetyCheck(w: Watch, st: IntegrationState, device: ClimateSnapshot): (r: Watch)
    ensures !st.enable ==> r == w
    ensures st.enable && AnyCheckFails(st, device) ==> r.timeout == w.timeout + 1
    ensures st.enable && !AnyCheckFails(st, device) ==>
              r.timeout == 0 && r.notifications == w.notifications - {ACTION_ALERT_ID, DIFFERENCE_ALERT_ID}
    ensures r.timeout <= w.timeout + 1
    ensures w.timeout < SAFETY_CHECK_TIMEOUT ==> r.notifications.Keys <= w.notifications.Keys
    ensures w.timeout < SAFETY_CHECK_TIMEOUT && AnyCheckFails(st, device) ==> r.notifications == w.notifications
    ensures st.enable && w.timeout >= SAFETY_CHECK_TIMEOUT && (ModeCheckFails(device) || ActionCheckFails(st, device)) ==>
              ACTION_ALERT_ID in r.notifications &&
              r.notifications[ACTION_ALERT_ID] ==
                if ActionCheckFails(st, device) then ActionMismatch(device.hvacAction, st.hvacAction)
                else ModeMismatch(device.hvacMode, MODE_HEAT)
    ensures st.enable && w.timeout >= SAFETY_CHECK_TIMEOUT && BandCheckFails(st, device) ==>
              DIFFERENCE_ALERT_ID in r.notifications &&
              r.notifications[DIFFERENCE_ALERT_ID] ==
                DifferenceMismatch(device.temperature, device.targetTemperature,
                                   CalculateTargetTemp(st.IsHeating(), device.temperature).expected)
    ensures r.notifications - {ACTION_ALERT_ID, DIFFERENCE_ALERT_ID} == w.notifications - {ACTION_ALERT_ID, DIFFERENCE_ALERT_ID}
    ensures AnyCheckFails(st, device) ==> w.notifications.Keys <= r.notifications.Keys
    ensures AnyCheckFails(st, device) && !ModeCheckFails(device) && !ActionCheckFails(st, device) &&
            ACTION_ALERT_ID in w.notifications ==>
              ACTION_ALERT_ID in r.notifications && r.notifications[ACTION_ALERT_ID] == w.notifications[ACTION_ALERT_ID]
    ensures AnyCheckFails(st, device) && !BandCheckFails(st, device) && DIFFERENCE_ALERT_ID in w.notifications ==>
              DIFFERENCE_ALERT_ID in r.notifications && r.notifications[DIFFERENCE_ALERT_ID] == w.notifications[DIFFERENCE_ALERT_ID]
    ensures !ModeCheckFails(device) && !ActionCheckFails(st, device) && ACTION_ALERT_ID in r.notifications ==>
              ACTION_ALERT_ID in w.notifications
    ensures !BandCheckFails(st, device) && DIFFERENCE_ALERT_ID in r.notifications ==> DIFFERENCE_ALERT_ID in w.notifications
  {
    if !st.enable then w
    else
      var alert := w.timeout >= SAFETY_CHECK_TIMEOUT;
      var band := CalculateTargetTemp(st.IsHeating(), device.temperature);
      var n0 := w.notifications;
      var n1 := if ModeCheckFails(device) && alert then n0[ACTION_ALERT_ID := ModeMismatch(device.hvacMode, MODE_HEAT)] else n0;
      var n2 := if ActionCheckFails(st, device) && alert then n1[ACTION_ALERT_ID := ActionMismatch(device.hvacAction, st.hvacAction)] else n1;
      var n3 := if BandCheckFails(st, device) && alert
                then n2[DIFFERENCE_ALERT_ID := DifferenceMismatch(device.temperature, device.targetTemperature, band.expected)]
                else n2;
      if AnyCheckFails(st, device) then Watch(w.timeout + 1, n3)
      else Watch(0, n0 - {ACTION_ALERT_ID, DIFFERENCE_ALERT_ID})
  }

  /** A series of cycles, the last one run last. */
  datatype Cycle = Cycle(state: IntegrationState, device: ClimateSnapshot)

  function RunChecks(w: Watch, cycles: seq<Cycle>): Watch
    decreases |cycles|
  {
    if cycles == [] then w
    else
      var n := |cycles| - 1;
      SafetyCheck(RunChecks(w, cycles[..n]), cycles[n].state, cycles[n].device)
  }

  predicate EnabledAndFailing(c: Cycle)
  {
    c.state.enable && AnyCheckFails(c.state, c.device)
  }

  /** One enabled, failing cycle: the count rises by one, no alert goes, and below the threshold the sink stays. */
  lemma FailingCycleStep(w: Watch, c: Cycle)
    requires EnabledAndFailing(c)
    ensures SafetyCheck(w, c.state, c.device).timeout == w.timeout + 1
    ensures w.notifications.Keys <= SafetyCheck(w, c.state, c.device).notifications.Keys
    ensures w.timeout < SAFETY_CHECK_TIMEOUT ==> SafetyCheck(w, c.state, c.device).notifications == w.notifications
  {
  }

  /** The count never grows by more than one per cycle. */
  lemma {:induction false} CountGrowsAtMostOnePerCycle(w: Watch, cycles: seq<Cycle>)
    ensures RunChecks(w, cycles).timeout <= w.timeout + |cycles|
    decreases |cycles|
  {
    if cycles != [] {
      CountGrowsAtMostOnePerCycle(w, cycles[..|cycles| - 1]);
    }
  }

  /** Consecutive enabled, failing cycles raise the count by exactly their number. */
  lemma {:induction false} FailingCyclesCount(w: Watch, cycles: seq<Cycle>)
    requires forall i | 0 <= i < |cycles| :: EnabledAndFailing(cycles[i])
    ensures RunChecks(w, cycles).timeout == w.timeout + |cycles|
    decreases |cycles|
  {
    if cycles != [] {
      var n := |cycles| - 1;
      assert forall i | 0 <= i < n :: cycles[..n][i] == cycles[i];
      FailingCyclesCount(w, cycles[..n]);
      var before := RunChecks(w, cycles[..n]);
      FailingCycleStep(before, cycles[n]);
    }
  }

  /** While the count cannot have reached the threshold, no alert is created. */
  lemma {:induction false} NoAlertBeforeThreshold(w: Watch, cycles: seq<Cycle>)
    requires w.timeout + |cycles| <= SAFETY_CHECK_TIMEOUT
    ensures RunChecks(w, cycles).notifications.Keys <= w.notifications.Keys
    decreases |cycles|
  {
    if cycles != [] {
      var n := |cycles| - 1;
      NoAlertBeforeThreshold(w, cycles[..n]);
      CountGrowsAtMostOnePerCycle(w, cycles[..n]);
    }
  }

  /**
   * From a reset count, ten consecutive failing cycles leave the sink as it
   * was; the eleventh writes the alert of a check that fails in it.
   */
  lemma FirstAlertOnEleventhFailingCycle(notifications: map<string, Message>, cycles: seq<Cycle>)
    requires |cycles| == SAFETY_CHECK_TIMEOUT + 1
    requires forall i | 0 <= i < |cycles| :: EnabledAndFailing(cycles[i])
    ensures RunChecks(Watch(0, notifications), cycles[..SAFETY_CHECK_TIMEOUT]).notifications == notifications
    ensures var last := cycles[SAFETY_CHECK_TIMEOUT];
            var after := RunChecks(Watch(0, notifications), cycles).notifications;
            (ModeCheckFails(last.device) || ActionCheckFails(last.state, last.device) ==> ACTION_ALERT_ID in after) &&
            (BandCheckFails(last.state, last.device) ==> DIFFERENCE_ALERT_ID in after)
  {
    var first := cycles[..SAFETY_CHECK_TIMEOUT];
    assert forall i | 0 <= i < |first| :: first[i] == cycles[i];
    FailingCyclesCount(Watch(0, notifications), first);
    StaysSilentWhileFailing(Watch(0, notifications), first);
  }

  /** Below the threshold, failing cycles leave the sink untouched. */
  lemma {:induction false} StaysSilentWhileFailing(w: Watch, cycles: seq<Cycle>)
    requires w.timeout + |cycles| <= SAFETY_CHECK_TIMEOUT
    requires forall i | 0 <= i < |cycles| :: EnabledAndFailing(cycles[i])
    ensures RunChecks(w, cycles).notifications == w.notifications
    decreases |cycles|
  {
    if cycles != [] {
      var n := |cycles| - 1;
      assert forall i | 0 <= i < n :: cycles[..n][i] == cycles[i];
      StaysSilentWhileFailing(w, cycles[..n]);
      FailingCyclesCount(w, cycles[..n]);
      var before := RunChecks(w, cycles[..n]);
      FailingCycleStep(before, cycles[n]);
    }
  }

  /**
   * Alerts are sticky: an alert present at the start of a run of enabled,
   * failing cycles is still present at its end, whichever checks fail.
   */
  lemma {:induction false} AlertsPersistWhileFailing(w: Watch, cycles: seq<Cycle>)
    requires forall i | 0 <= i < |cycles| :: EnabledAndFailing(cycles[i])
    ensures w.notifications.Keys <= RunChecks(w, cycles).notifications.Keys
    decreases |cycles|
  {
    if cycles != [] {
      var n := |cycles| - 1;
      assert forall i | 0 <= i < n :: cycles[..n][i] == cycles[i];
      AlertsPersistWhileFailing(w, cycles[..n]);
      var before := RunChecks(w, cycles[..n]);
      FailingCycleStep(before, cycles[n]);
    }
  }

  /** One passing cycle, enabled, clears both alerts and the count whatever came before. */
  lemma PassingCycleClears(w: Watch, cycles: seq<Cycle>, pass: Cycle)
    requires pass.state.enable && !AnyCheckFails(pass.state, pass.device)
    ensures RunChecks(w, cycles + [pass]).timeout == 0
    ensures ACTION_ALERT_ID !in RunChecks(w, cycles + [pass]).notifications
    ensures DIFFERENCE_ALERT_ID !in RunChecks(w, cycles + [pass]).notifications
  {
    assert (cycles + [pass])[..|cycles|] == cycles;
  }
}
