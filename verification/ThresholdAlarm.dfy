/**
  Edge-triggered threshold alarms of the temperature/humidity sensor
  (Linux_data/sensors/temperature_humidity_sensor.cpp).

  Each point has a latch.  A sample raises at most one alarm: when temperature fires, humidity is
  not looked at, so its latch may go stale.  The lemmas say exactly which excursions are reported.
 */
module ThresholdAlarm {
  import opened Thresholds

  datatype Sample = Sample(valid: bool, isSensorTh: bool, temperature: real, humidity: real)

  datatype Point = Temperature | Humidity

  datatype Alarm = NoAlarm | Alarm(point: Point, isHigh: bool, value: real, limit: real)

  predicate AboveHigh(c: PointThreshold, v: real) { c.hasHigh && v > c.high }

  predicate BelowLow(c: PointThreshold, v: real) { c.hasLow && v < c.low }

  /** The point takes part and the value is out of range. */
  predicate Out(c: PointThreshold, v: real) {
    c.enable && (AboveHigh(c, v) || BelowLow(c, v))
  }

  function AlarmOf(point: Point, c: PointThreshold, v: real): Alarm {
    if AboveHigh(c, v) then Alarm(point, true, v, c.high) else Alarm(point, false, v, c.low)
  }

  /** New latch and alarm of one point. */
  function CheckPoint(point: Point, c: PointThreshold, v: real, latch: bool): (bool, Alarm) {
    if !c.enable then (latch, NoAlarm)
    else (Out(c, v), if Out(c, v) && !latch then AlarmOf(point, c, v) else NoAlarm)
  }

  datatype Latches = Latches(temperature: bool, humidity: bool)

  predicate IsChecked(hasConfig: bool, c: Threshold, s: Sample) {
    hasConfig && c.enabled && s.valid && s.isSensorTh
  }

  function CheckSample(c: Threshold, l: Latches, s: Sample): (Latches, Alarm) {
    var (t, a) := CheckPoint(Temperature, c.temperature, s.temperature, l.temperature);
    if a.Alarm? then (Latches(t, l.humidity), a)
    else
      var (h, b) := CheckPoint(Humidity, c.humidity, s.humidity, l.humidity);
      (Latches(t, h), b)
  }

  class Sensor {
    var config: Threshold
    var hasConfig: bool
    var lastTemperatureAlarm: bool
    var lastHumidityAlarm: bool

    function State(): Latches
      reads this
    {
      Latches(lastTemperatureAlarm, lastHumidityAlarm)
    }

    constructor ()
      ensures !hasConfig && config == ZERO_THRESHOLD && State() == Latches(false, false)
    {
      config, hasConfig, lastTemperatureAlarm, lastHumidityAlarm := ZERO_THRESHOLD, false, false, false;
    }

    method SetThresholdConfig(c: Threshold)
      modifies this
      ensures hasConfig && config == c && State() == Latches(false, false)
    {
      config, hasConfig := c, true;
      lastTemperatureAlarm, lastHumidityAlarm := false, false;
    }

    static method CheckPointLatch(point: Point, c: PointThreshold, value: real, latch: bool)
      returns (latch': bool, alarm: Alarm)
      ensures (latch', alarm) == CheckPoint(point, c, value, latch)
    {
      if !c.enable {
        return latch, NoAlarm;
      }
      var active, limit, isHigh := false, 0.0, false;
      if c.hasHigh && value > c.high {
        active, limit, isHigh := true, c.high, true;
      } else if c.hasLow && value < c.low {
        active, limit := true, c.low;
      }
      if !active {
        return false, NoAlarm;
      }
      if latch {
        return true, NoAlarm;
      }
      return true, Alarm(point, isHigh, value, limit);
    }

    method CheckThreshold(s: Sample) returns (alarm: Alarm)
      modifies this`lastTemperatureAlarm, this`lastHumidityAlarm
      ensures if IsChecked(hasConfig, config, s) then (State(), alarm) == CheckSample(config, old(State()), s)
              else State() == old(State()) && alarm == NoAlarm
    {
      if !hasConfig || !config.enabled || !s.valid || !s.isSensorTh {
        return NoAlarm;
      }
      lastTemperatureAlarm, alarm :=
        CheckPointLatch(Temperature, config.temperature, s.temperature, lastTemperatureAlarm);
      if alarm.Alarm? {
        return;
      }
      lastHumidityAlarm, alarm := CheckPointLatch(Humidity, config.humidity, s.humidity, lastHumidityAlarm);
    }
  }

  // ---------- Runs of checked samples under one configuration ----------

  function LatchesAfter(c: Threshold, ss: seq<Sample>): Latches {
    if ss == [] then Latches(false, false)
    else CheckSample(c, LatchesAfter(c, ss[..|ss| - 1]), ss[|ss| - 1]).0
  }

  /** The alarm checked sample i raises. */
  function AlarmAt(c: Threshold, ss: seq<Sample>, i: nat): Alarm
    requires i < |ss|
  {
    CheckSample(c, LatchesAfter(c, ss[..i]), ss[i]).1
  }

  predicate TempOut(c: Threshold, ss: seq<Sample>, i: int) {
    0 <= i < |ss| && Out(c.temperature, ss[i].temperature)
  }

  predicate HumOut(c: Threshold, ss: seq<Sample>, i: int) {
    0 <= i < |ss| && Out(c.humidity, ss[i].humidity)
  }

  /** A maximal out-of-range run of temperature begins at sample i. */
  predicate TempRunStarts(c: Threshold, ss: seq<Sample>, i: int) {
    TempOut(c, ss, i) && !TempOut(c, ss, i - 1)
  }

  /** The last sample before i whose humidity was looked at: i - 1, or i - 2 when temperature fired
      at i - 1; negative when there is none. */
  function PreviousLook(c: Threshold, ss: seq<Sample>, i: int): int {
    if TempRunStarts(c, ss, i - 1) then i - 2 else i - 1
  }

  lemma {:induction false} LatchesMean(c: Threshold, ss: seq<Sample>, n: nat)
    requires n <= |ss|
    ensures LatchesAfter(c, ss[..n]) == Latches(TempOut(c, ss, n - 1), HumOut(c, ss, PreviousLook(c, ss, n)))
  {
    if n > 0 {
      LatchesMean(c, ss, n - 1);
      assert ss[..n][..n - 1] == ss[..n - 1];
    }
  }

  /** The complete rule: temperature fires exactly where a temperature run starts; humidity fires
      exactly where it is out of range, temperature does not fire, and it was in range when it was
      last looked at.  The alarm carries the offending value and its limit. */
  lemma AlarmIff(c: Threshold, ss: seq<Sample>, i: nat)
    requires i < |ss|
    ensures AlarmAt(c, ss, i) ==
            if TempRunStarts(c, ss, i) then AlarmOf(Temperature, c.temperature, ss[i].temperature)
            else if HumOut(c, ss, i) && !HumOut(c, ss, PreviousLook(c, ss, i))
            then AlarmOf(Humidity, c.humidity, ss[i].humidity)
            else NoAlarm
  {
    LatchesMean(c, ss, i);
  }

  predicate FiresTemp(c: Threshold, ss: seq<Sample>, i: nat) {
    i < |ss| && AlarmAt(c, ss, i).Alarm? && AlarmAt(c, ss, i).point == Temperature
  }

  predicate FiresHum(c: Threshold, ss: seq<Sample>, i: nat) {
    i < |ss| && AlarmAt(c, ss, i).Alarm? && AlarmAt(c, ss, i).point == Humidity
  }

  lemma TemperatureNeverFiresTwiceInARow(c: Threshold, ss: seq<Sample>, i: nat)
    ensures !(FiresTemp(c, ss, i) && FiresTemp(c, ss, i + 1))
  {
    if i + 1 < |ss| {
      AlarmIff(c, ss, i);
      AlarmIff(c, ss, i + 1);
    }
  }

  function TempAlarms(c: Threshold, ss: seq<Sample>, n: nat): nat {
    if n == 0 then 0 else TempAlarms(c, ss, n - 1) + if FiresTemp(c, ss, n - 1) then 1 else 0
  }

  function TempRuns(c: Threshold, ss: seq<Sample>, n: nat): nat {
    if n == 0 then 0 else TempRuns(c, ss, n - 1) + if TempRunStarts(c, ss, n - 1) then 1 else 0
  }

  /** One temperature alarm per maximal out-of-range run, whatever humidity does. */
  lemma {:induction false} TemperatureAlarmsCountRuns(c: Threshold, ss: seq<Sample>, n: nat)
    requires n <= |ss|
    ensures TempAlarms(c, ss, n) == TempRuns(c, ss, n)
  {
    if n > 0 {
      TemperatureAlarmsCountRuns(c, ss, n - 1);
      AlarmIff(c, ss, n - 1);
    }
  }

  // ---------- Humidity excursions ----------

  /** Samples a .. b - 1 are a maximal out-of-range run of humidity. */
  ghost predicate IsExcursion(c: Threshold, ss: seq<Sample>, a: nat, b: nat) {
    a < b <= |ss| && !HumOut(c, ss, a - 1) && !HumOut(c, ss, b) && forall i :: a <= i < b ==> HumOut(c, ss, i)
  }

  function HumAlarms(c: Threshold, ss: seq<Sample>, a: nat, b: nat): nat
    requires a <= b
    decreases b
  {
    if a == b then 0 else HumAlarms(c, ss, a, b - 1) + if FiresHum(c, ss, b - 1) then 1 else 0
  }

  /** The two ways temperature hides an excursion: it fires on the excursion's only sample, or on the
      only in-range sample between it and the previous excursion. */
  predicate IsHidden(c: Threshold, ss: seq<Sample>, a: nat, b: nat) {
    (b == a + 1 && TempRunStarts(c, ss, a)) || (HumOut(c, ss, a - 2) && TempRunStarts(c, ss, a - 1))
  }

  /** Every excursion is reported exactly once, unless temperature hides it; then not at all. */
  lemma ExcursionReportedIff(c: Threshold, ss: seq<Sample>, a: nat, b: nat)
    requires IsExcursion(c, ss, a, b)
    ensures HumAlarms(c, ss, a, b) == if IsHidden(c, ss, a, b) then 0 else 1
  {
    AlarmIff(c, ss, a);
    if a + 1 < b { AlarmIff(c, ss, a + 1); }
    var first := if TempRunStarts(c, ss, a) then a + 1 else a;
    LaterSamplesAreQuiet(c, ss, a, b, if first < b then first + 1 else b);
    assert HumAlarms(c, ss, a, a) == 0;
    assert HumAlarms(c, ss, a, a + 1) == if FiresHum(c, ss, a) then 1 else 0;
  }

  lemma {:induction false} LaterSamplesAreQuiet(c: Threshold, ss: seq<Sample>, a: nat, b: nat, from: nat)
    requires IsExcursion(c, ss, a, b) && a < from <= b
    requires from > a + 1 || !TempRunStarts(c, ss, a) || from == b
    ensures HumAlarms(c, ss, a, b) == HumAlarms(c, ss, a, from)
    decreases b - from
  {
    if from < b {
      AlarmIff(c, ss, from);
      LaterSamplesAreQuiet(c, ss, a, b, from + 1);
      assert HumAlarms(c, ss, a, from + 1) == HumAlarms(c, ss, a, from);
    }
  }

  /** A first sample out of range at both points: the humidity excursion is never reported. */
  lemma HiddenExcursion(c: Threshold, s: Sample, next: Sample)
    requires Out(c.temperature, s.temperature) && Out(c.humidity, s.humidity) && !Out(c.humidity, next.humidity)
    ensures IsExcursion(c, [s, next], 0, 1) && HumAlarms(c, [s, next], 0, 1) == 0
  {
    ExcursionReportedIff(c, [s, next], 0, 1);
  }

  /** So an excursion of two samples or more, preceded by two in-range samples or none at all, is
      reported exactly once. */
  lemma LongExcursionReportedOnce(c: Threshold, ss: seq<Sample>, a: nat, b: nat)
    requires IsExcursion(c, ss, a, b) && b >= a + 2 && (a >= 2 ==> !HumOut(c, ss, a - 2))
    ensures HumAlarms(c, ss, a, b) == 1
  {
    ExcursionReportedIff(c, ss, a, b);
  }
}
