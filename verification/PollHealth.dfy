/**
  Polling one registered device (Linux_data/port/port_manager.cpp): when it is due, and when a row of
  failed polls is reported as the device going offline.
 */
module PollHealth {

  const OFFLINE_THRESHOLD := 3

  datatype Health = Health(failures: nat, reported: bool)

  const FRESH := Health(0, false)

  /** One poll's outcome: the new health, and whether the device is reported offline now. */
  function Record(h: Health, ok: bool): (Health, bool) {
    if ok then (FRESH, false)
    else
      var report := h.failures + 1 >= OFFLINE_THRESHOLD && !h.reported;
      (Health(h.failures + 1, h.reported || report), report)
  }

  class Device {
    const intervalMs: int
    var nextPollTime: int
    var consecutiveFailures: nat
    var offlineReported: bool

    function State(): Health
      reads this
    {
      Health(consecutiveFailures, offlineReported)
    }

    constructor (interval: int, now: int)
      ensures intervalMs == interval && nextPollTime == now && State() == FRESH
    {
      intervalMs, nextPollTime, consecutiveFailures, offlineReported := interval, now, 0, false;
    }

    method RecordPollSuccess()
      modifies this`consecutiveFailures, this`offlineReported
      ensures State() == Record(old(State()), true).0
    {
      consecutiveFailures := 0;
      offlineReported := false;
    }

    method RecordPollFailure() returns (report: bool)
      modifies this`consecutiveFailures, this`offlineReported
      ensures (State(), report) == Record(old(State()), false)
    {
      consecutiveFailures := consecutiveFailures + 1;
      if consecutiveFailures >= OFFLINE_THRESHOLD && !offlineReported {
        offlineReported := true;
        return true;
      }
      return false;
    }

    /** Polls the device when its time has come, and sets the next time. */
    method TakeIfDue(now: int) returns (due: bool)
      modifies this`nextPollTime
      ensures due == IsDue(old(nextPollTime), now)
      ensures nextPollTime == NextTime(old(nextPollTime), intervalMs, now)
    {
      due := now >= nextPollTime;
      if due {
        nextPollTime := now + intervalMs;
      }
    }
  }

  /** One turn of a slot's poll loop: who is read, in order, and every device's next time. */
  method PollSlot(devices: seq<Device>, now: int) returns (due: seq<nat>)
    requires forall i, j :: 0 <= i < j < |devices| ==> devices[i] != devices[j]
    modifies (set d | d in devices)`nextPollTime
    ensures forall k: nat :: k in due <==> k < |devices| && IsDue(old(devices[k].nextPollTime), now)
    ensures forall i, j :: 0 <= i < j < |due| ==> due[i] < due[j]
    ensures forall k :: 0 <= k < |devices| ==>
              devices[k].nextPollTime == NextTime(old(devices[k].nextPollTime), devices[k].intervalMs, now)
  {
    due := [];
    for k := 0 to |devices|
      invariant forall i: nat :: i in due <==> i < k && IsDue(old(devices[i].nextPollTime), now)
      invariant forall i, j :: 0 <= i < j < |due| ==> due[i] < due[j]
      invariant forall i :: 0 <= i < k ==>
                  devices[i].nextPollTime == NextTime(old(devices[i].nextPollTime), devices[i].intervalMs, now)
      invariant forall i :: k <= i < |devices| ==> devices[i].nextPollTime == old(devices[i].nextPollTime)
    {
      var taken := devices[k].TakeIfDue(now);
      if taken {
        assert forall i :: 0 <= i < |due| ==> due[i] in due;
        due := due + [k];
      }
    }
  }

  // ---------- Offline reports over every trace of outcomes ----------

  function HealthAfter(outcomes: seq<bool>): Health {
    if outcomes == [] then FRESH else Record(HealthAfter(outcomes[..|outcomes| - 1]), outcomes[|outcomes| - 1]).0
  }

  predicate Reports(outcomes: seq<bool>, i: nat) {
    i < |outcomes| && Record(HealthAfter(outcomes[..i]), outcomes[i]).1
  }

  predicate Failed(outcomes: seq<bool>, i: int) {
    0 <= i < |outcomes| && !outcomes[i]
  }

  /** A maximal run of failures begins at i and lasts for at least the threshold. */
  predicate LongRunStarts(outcomes: seq<bool>, i: int) {
    Failed(outcomes, i) && Failed(outcomes, i + 1) && Failed(outcomes, i + 2) && !Failed(outcomes, i - 1)
  }

  /** Failures at the end of the first n outcomes. */
  function Trailing(outcomes: seq<bool>, n: nat): nat
    requires n <= |outcomes|
  {
    if n == 0 || outcomes[n - 1] then 0 else Trailing(outcomes, n - 1) + 1
  }

  lemma {:induction false} HealthMeans(outcomes: seq<bool>, n: nat)
    requires n <= |outcomes|
    ensures HealthAfter(outcomes[..n]) == Health(Trailing(outcomes, n), Trailing(outcomes, n) >= OFFLINE_THRESHOLD)
  {
    if n > 0 {
      HealthMeans(outcomes, n - 1);
      assert outcomes[..n][..n - 1] == outcomes[..n - 1];
    }
  }

  /** The device is reported offline exactly at the third failure of a run of failures. */
  lemma ReportsIff(outcomes: seq<bool>, i: nat)
    ensures Reports(outcomes, i) <==> i >= 2 && LongRunStarts(outcomes, i - 2)
  {
    if i < |outcomes| {
      HealthMeans(outcomes, i);
      if i >= 2 {
        assert Trailing(outcomes, i - 1) == if outcomes[i - 2] then 0 else Trailing(outcomes, i - 2) + 1;
        assert Trailing(outcomes, i) == if outcomes[i - 1] then 0 else Trailing(outcomes, i - 1) + 1;
        assert Trailing(outcomes, i - 2) == 0 <==> !Failed(outcomes, i - 3);
      }
    }
  }

  function ReportCount(outcomes: seq<bool>, n: nat): nat {
    if n == 0 then 0 else ReportCount(outcomes, n - 1) + if Reports(outcomes, n - 1) then 1 else 0
  }

  function LongRunCount(outcomes: seq<bool>, n: nat): nat {
    if n == 0 then 0 else LongRunCount(outcomes, n - 1) + if LongRunStarts(outcomes, n - 1) then 1 else 0
  }

  /** As many offline reports as maximal failure runs of length three or more. */
  lemma ReportsCountLongRuns(outcomes: seq<bool>)
    ensures ReportCount(outcomes, |outcomes|) == LongRunCount(outcomes, |outcomes|)
  {
    CountsShift(outcomes, |outcomes|);
    var n := |outcomes|;
    if n >= 1 { assert !LongRunStarts(outcomes, n - 1); }
    if n >= 2 { assert !LongRunStarts(outcomes, n - 2); }
  }

  lemma {:induction false} CountsShift(outcomes: seq<bool>, n: nat)
    ensures ReportCount(outcomes, n) == LongRunCount(outcomes, if n >= 2 then n - 2 else 0)
  {
    if n > 0 {
      CountsShift(outcomes, n - 1);
      ReportsIff(outcomes, n - 1);
    }
  }

  // ---------- Spacing of polls ----------

  predicate IsDue(next: int, now: int) {
    now >= next
  }

  function NextTime(next: int, intervalMs: int, now: int): int {
    if IsDue(next, now) then now + intervalMs else next
  }

  /** The next poll time after the poll loop ran at the given times. */
  function NextAfter(first: int, intervalMs: int, times: seq<int>): int {
    if times == [] then first
    else NextTime(NextAfter(first, intervalMs, times[..|times| - 1]), intervalMs, times[|times| - 1])
  }

  predicate Polled(first: int, intervalMs: int, times: seq<int>, i: nat) {
    i < |times| && IsDue(NextAfter(first, intervalMs, times[..i]), times[i])
  }

  lemma {:induction false} NextAfterPoll(first: int, intervalMs: int, times: seq<int>, i: nat, j: nat)
    requires intervalMs >= 0 && i < j <= |times| && Polled(first, intervalMs, times, i)
    ensures NextAfter(first, intervalMs, times[..j]) >= times[i] + intervalMs
    decreases j
  {
    assert times[..j][..j - 1] == times[..j - 1];
    if i < j - 1 { NextAfterPoll(first, intervalMs, times, i, j - 1); }
  }

  /** Two turns of the poll loop that take a device lie at least its interval apart, however often the
      loop runs. */
  lemma TurnsAreApart(first: int, intervalMs: int, times: seq<int>, i: nat, j: nat)
    requires intervalMs >= 0 && i < j && Polled(first, intervalMs, times, i) && Polled(first, intervalMs, times, j)
    ensures times[j] - times[i] >= intervalMs
  {
    NextAfterPoll(first, intervalMs, times, i, j);
  }

  /** And a device is not starved: once its interval has passed since its last poll, it is polled. */
  lemma {:induction false} PolledWhenDue(first: int, intervalMs: int, times: seq<int>, i: nat, j: nat)
    requires i < j < |times| && Polled(first, intervalMs, times, i)
    requires forall k :: i < k < j ==> !Polled(first, intervalMs, times, k)
    ensures Polled(first, intervalMs, times, j) <==> times[j] - times[i] >= intervalMs
  {
    NextUnchanged(first, intervalMs, times, i, j);
  }

  lemma {:induction false} NextUnchanged(first: int, intervalMs: int, times: seq<int>, i: nat, j: nat)
    requires i < j <= |times| && Polled(first, intervalMs, times, i)
    requires forall k :: i < k < j ==> !Polled(first, intervalMs, times, k)
    ensures NextAfter(first, intervalMs, times[..j]) == times[i] + intervalMs
    decreases j
  {
    assert times[..j][..j - 1] == times[..j - 1];
    if i < j - 1 {
      NextUnchanged(first, intervalMs, times, i, j - 1);
      assert !Polled(first, intervalMs, times, j - 1);
    }
  }

  // ---------- Spacing of reads ----------

  /** When a device of the slot is first due, and its interval. */
  datatype Timer = Timer(first: int, intervalMs: nat)

  /** Turn i, which begins at times[i], takes device k. */
  predicate Taken(slot: seq<Timer>, times: seq<int>, i: nat, k: nat) {
    k < |slot| && Polled(slot[k].first, slot[k].intervalMs, times, i)
  }

  /** costs[i][k]: how long the read of device k takes in turn i, if it is taken. */
  predicate IsCosts(slot: seq<Timer>, times: seq<int>, costs: seq<seq<nat>>) {
    |costs| == |times| && forall i :: 0 <= i < |costs| ==> |costs[i]| == |slot|
  }

  /** How long turn i has been reading when the first k devices are done: one after the other. */
  function Delay(slot: seq<Timer>, times: seq<int>, costs: seq<seq<nat>>, i: nat, k: nat): nat
    requires IsCosts(slot, times, costs) && i < |times| && k <= |slot|
  {
    if k == 0 then 0
    else Delay(slot, times, costs, i, k - 1) + if Taken(slot, times, i, k - 1) then costs[i][k - 1] else 0
  }

  function ReadAt(slot: seq<Timer>, times: seq<int>, costs: seq<seq<nat>>, i: nat, k: nat): int
    requires IsCosts(slot, times, costs) && i < |times| && k <= |slot|
  {
    times[i] + Delay(slot, times, costs, i, k)
  }

  /** The loop begins a turn when the reads of the one before are over. */
  ghost predicate Fits(slot: seq<Timer>, times: seq<int>, costs: seq<seq<nat>>) {
    IsCosts(slot, times, costs) &&
    forall i :: 0 <= i < |times| - 1 ==> ReadAt(slot, times, costs, i, |slot|) <= times[i + 1]
  }

  /** Reads of a device are its interval apart if the later one waits no less for the devices before it;
      the first device of a slot never waits. */
  lemma ReadsAreApart(slot: seq<Timer>, times: seq<int>, costs: seq<seq<nat>>, i: nat, j: nat, k: nat)
    requires IsCosts(slot, times, costs) && i < j && Taken(slot, times, i, k) && Taken(slot, times, j, k)
    requires k == 0 || Delay(slot, times, costs, j, k) >= Delay(slot, times, costs, i, k)
    ensures ReadAt(slot, times, costs, j, k) - ReadAt(slot, times, costs, i, k) >= slot[k].intervalMs
  {
    TurnsAreApart(slot[k].first, slot[k].intervalMs, times, i, j);
  }

  lemma {:induction false} DelayGrows(slot: seq<Timer>, times: seq<int>, costs: seq<seq<nat>>, i: nat, k: nat, n: nat)
    requires IsCosts(slot, times, costs) && i < |times| && k <= n <= |slot|
    ensures Delay(slot, times, costs, i, k) <= Delay(slot, times, costs, i, n)
  {
    if k < n { DelayGrows(slot, times, costs, i, k, n - 1); }
  }

  lemma {:induction false} NoDelay(slot: seq<Timer>, times: seq<int>, costs: seq<seq<nat>>, i: nat, k: nat)
    requires IsCosts(slot, times, costs) && i < |times| && k <= |slot|
    requires forall m :: 0 <= m < k ==> !Taken(slot, times, i, m) || costs[i][m] == 0
    ensures Delay(slot, times, costs, i, k) == 0
  {
    if k > 0 { NoDelay(slot, times, costs, i, k - 1); }
  }

  /** Turn i takes a device before k. */
  predicate TakesBefore(slot: seq<Timer>, times: seq<int>, i: nat, k: nat) {
    exists m :: 0 <= m < k && Taken(slot, times, i, m)
  }

  /** The costs of a run in which only device m of turn i takes any time: all there is until the next. */
  function SlowRead(slot: seq<Timer>, times: seq<int>, i: nat, m: nat): (costs: seq<seq<nat>>)
    requires i < |times| - 1 && times[i] <= times[i + 1]
    ensures IsCosts(slot, times, costs)
  {
    seq(|times|, n => seq(|slot|, d => if n == i && d == m then times[i + 1] - times[i] else 0))
  }

  lemma {:induction false} SlowDelay(slot: seq<Timer>, times: seq<int>, i: nat, m: nat, k: nat)
    requires i < |times| - 1 && times[i] <= times[i + 1] && Taken(slot, times, i, m) && m < k <= |slot|
    ensures Delay(slot, times, SlowRead(slot, times, i, m), i, k) == times[i + 1] - times[i]
  {
    var costs := SlowRead(slot, times, i, m);
    if k == m + 1 {
      NoDelay(slot, times, costs, i, m);
    } else {
      SlowDelay(slot, times, i, m, k - 1);
    }
  }

  lemma SlowReadFits(slot: seq<Timer>, times: seq<int>, i: nat, m: nat)
    requires i < |times| - 1 && Taken(slot, times, i, m)
    requires forall n :: 0 <= n < |times| - 1 ==> times[n] <= times[n + 1]
    ensures Fits(slot, times, SlowRead(slot, times, i, m))
  {
    var costs := SlowRead(slot, times, i, m);
    forall n | 0 <= n < |times| - 1 ensures ReadAt(slot, times, costs, n, |slot|) <= times[n + 1] {
      if n == i { SlowDelay(slot, times, i, m, |slot|); } else { NoDelay(slot, times, costs, n, |slot|); }
    }
  }

  /** However long the reads take, two reads of a device are its interval apart: if and only if the first
      turn takes no device before it, or the turn after that one is already an interval before the second. */
  lemma ReadsApartIff(slot: seq<Timer>, times: seq<int>, i: nat, j: nat, k: nat)
    requires i < j && Taken(slot, times, i, k) && Taken(slot, times, j, k)
    requires forall n :: 0 <= n < |times| - 1 ==> times[n] <= times[n + 1]
    ensures (forall costs :: Fits(slot, times, costs) ==>
               ReadAt(slot, times, costs, j, k) - ReadAt(slot, times, costs, i, k) >= slot[k].intervalMs)
       <==> !TakesBefore(slot, times, i, k) || times[j] - times[i + 1] >= slot[k].intervalMs
  {
    if !TakesBefore(slot, times, i, k) || times[j] - times[i + 1] >= slot[k].intervalMs {
      forall costs | Fits(slot, times, costs)
        ensures ReadAt(slot, times, costs, j, k) - ReadAt(slot, times, costs, i, k) >= slot[k].intervalMs
      {
        TurnsAreApart(slot[k].first, slot[k].intervalMs, times, i, j);
        DelayGrows(slot, times, costs, i, k, |slot|);
        assert ReadAt(slot, times, costs, i, |slot|) <= times[i + 1];
        if !TakesBefore(slot, times, i, k) { NoDelay(slot, times, costs, i, k); }
      }
    } else {
      var m :| 0 <= m < k && Taken(slot, times, i, m);
      var costs := SlowRead(slot, times, i, m);
      SlowReadFits(slot, times, i, m);
      SlowDelay(slot, times, i, m, k);
      NoDelay(slot, times, costs, j, k);
    }
  }

  /** Turns at 0 and 1100, an earlier device that takes a second in the first: a device with interval 500
      is read 100 ms after its last read. */
  lemma RushedRead()
    ensures var slot, times, costs := [Timer(0, 500), Timer(0, 500)], [0, 1100], [[1000, 0], [0, 0]];
            && Fits(slot, times, costs) && Taken(slot, times, 0, 1) && Taken(slot, times, 1, 1)
            && ReadAt(slot, times, costs, 1, 1) - ReadAt(slot, times, costs, 0, 1) == 100
  {
    var slot, times: seq<int>, costs: seq<seq<nat>> := [Timer(0, 500), Timer(0, 500)], [0, 1100], [[1000, 0], [0, 0]];
    assert times[..0] == [] && times[..1] == [0] && [0][..0] == [];
    assert NextAfter(0, 500, [0]) == 500;
    assert Taken(slot, times, 0, 0) && Taken(slot, times, 0, 1) && Taken(slot, times, 1, 0);
    assert Delay(slot, times, costs, 0, 1) == 1000 && Delay(slot, times, costs, 0, 2) == 1000;
    NoDelay(slot, times, costs, 1, 1);
  }
}
