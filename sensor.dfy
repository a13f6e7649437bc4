/**
 * The status sensor: a two-valued status and a count of external changes
 * that starts again from zero on the first change of a later day. Days are
 * whole day numbers supplied by the caller; the timestamp is a string.
 */
module Sensor {
  import opened Wrappers
  import opened State

  /** The counter's state: changes counted today and the day of the last reset. */
  datatype Counter = Counter(changesToday: nat, lastReset: int)

  /**
   * One external change on day `today`: a later day resets the count to zero
   * and moves the reset day forward before counting; otherwise the change is
   * added to the running count.
   */
  function Register(c: Counter, today: int): (r: Counter)
    ensures today > c.lastReset ==> r == Counter(1, today)
    ensures today <= c.lastReset ==> r == Counter(c.changesToday + 1, c.lastReset)
    ensures r.lastReset >= c.lastReset && r.lastReset >= today
  {
    var reset := if today > c.lastReset then Counter(0, today) else c;
    reset.(changesToday := reset.changesToday + 1)
  }

  /** A series of changes, the last one registered last. */
  function Tally(c: Counter, days: seq<int>): Counter
    decreases |days|
  {
    if days == [] then c
    else
      var n := |days| - 1;
      Register(Tally(c, days[..n]), days[n])
  }

  /** How many of `days` are day `d`. */
  function Occurrences(days: seq<int>, d: int): nat
    decreases |days|
  {
    if days == [] then 0
    else
      var n := |days| - 1;
      Occurrences(days[..n], d) + (if days[n] == d then 1 else 0)
  }

  predicate NonDecreasing(days: seq<int>)
  {
    forall i, j | 0 <= i < j < |days| :: days[i] <= days[j]
  }

  /** The reset day never moves back and is never earlier than a day already counted. */
  lemma {:induction false} ResetDayNeverDecreases(c: Counter, days: seq<int>)
    ensures Tally(c, days).lastReset >= c.lastReset
    ensures forall i | 0 <= i < |days| :: days[i] <= Tally(c, days).lastReset
    decreases |days|
  {
    if days != [] {
      var n := |days| - 1;
      ResetDayNeverDecreases(c, days[..n]);
      assert forall i | 0 <= i < n :: days[..n][i] == days[i];
    }
  }

  /** Changes on days not after the reset day each add exactly one and never reset. */
  lemma {:induction false} SameDayChangesAccumulate(c: Counter, days: seq<int>)
    requires forall i | 0 <= i < |days| :: days[i] <= c.lastReset
    ensures Tally(c, days) == Counter(c.changesToday + |days|, c.lastReset)
    decreases |days|
  {
    if days != [] {
      var n := |days| - 1;
      assert forall i | 0 <= i < n :: days[..n][i] == days[i];
      SameDayChangesAccumulate(c, days[..n]);
    }
  }

  /** A day later than every day of the series does not occur in it. */
  lemma {:induction false} OccurrencesOfLaterDay(days: seq<int>, d: int)
    requires forall i | 0 <= i < |days| :: days[i] < d
    ensures Occurrences(days, d) == 0
    decreases |days|
  {
    if days != [] {
      var n := |days| - 1;
      assert forall i | 0 <= i < n :: days[..n][i] == days[i];
      OccurrencesOfLaterDay(days[..n], d);
    }
  }

  /**
   * For changes arriving in calendar order whose last day is after the reset
   * day, the counter ends on that last day holding exactly the number of
   * changes made on it.
   */
  lemma {:induction false} CounterCountsChangesOfLastDay(c: Counter, days: seq<int>)
    requires |days| > 0 && NonDecreasing(days)
    requires days[|days| - 1] > c.lastReset
    ensures Tally(c, days) == Counter(Occurrences(days, days[|days| - 1]), days[|days| - 1])
    decreases |days|
  {
    var n := |days| - 1;
    var d := days[n];
    var prefix := days[..n];
    assert forall i | 0 <= i < n :: prefix[i] == days[i];
    if n == 0 {
      assert Occurrences(days, d) == Occurrences(prefix, d) + 1;
    } else {
      var e := prefix[n - 1];
      assert NonDecreasing(prefix);
      if e > c.lastReset {
        CounterCountsChangesOfLastDay(c, prefix);
        if e < d {
          OccurrencesOfLaterDay(prefix, d);
        }
      } else {
        assert forall i | 0 <= i < n :: prefix[i] <= e;
        SameDayChangesAccumulate(c, prefix);
        OccurrencesOfLaterDay(prefix, d);
      }
    }
  }

  /** The state attributes the sensor publishes. */
  datatype Attributes = Attributes(lastChanged: string, changesToday: Option<nat>)

  /** The attributes before any external change. */
  const NEVER_CHANGED: Attributes := Attributes("never", None)

  class ClimateWrapperSensor {
    var status: SensorState
    var attributes: Attributes
    var changesToday: nat
    var lastReset: int
    /** Every status the sensor has written to the host, in order. */
    var published: seq<SensorState>

    /** The published count mirrors the internal one; before any change there is none. */
    ghost predicate Valid()
      reads this
    {
      attributes.changesToday == Some(changesToday) || (attributes == NEVER_CHANGED && changesToday == 0)
    }

    function CounterState(): Counter
      reads this
    {
      Counter(changesToday, lastReset)
    }

    constructor (today: int)
      ensures Valid()
      ensures changesToday == 0 && lastReset == today
      ensures status == NormalOperation && attributes == NEVER_CHANGED && published == []
    {
      status := NormalOperation;
      attributes := NEVER_CHANGED;
      changesToday := 0;
      lastReset := today;
      published := [];
    }

    /**
     * `external_change`: count the change (resetting on a new day), publish
     * the count and the time, then flash the status to "External Change
     * Detected" and back to "Normal Operation".
     */
    method ExternalChange(today: int, stamp: string)
      requires Valid()
      modifies this
      ensures Valid()
      ensures CounterState() == Register(old(CounterState()), today)
      ensures attributes == Attributes(stamp, Some(changesToday))
      ensures status == NormalOperation
      ensures published == old(published) + [ExternalChangeDetected, NormalOperation]
    {
      if today > lastReset {
        changesToday := 0;
        lastReset := today;
      }
      changesToday := changesToday + 1;
      attributes := Attributes(stamp, Some(changesToday));
      status := ExternalChangeDetected;
      published := published + [status];
      status := NormalOperation;
      published := published + [status];
    }
  }
}
