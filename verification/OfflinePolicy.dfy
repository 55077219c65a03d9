/** Which messages the gateway caches while the broker is away (OfflineCachePolicy.cpp). */
module OfflinePolicy {
  import opened DottedKeys

  const SAMPLE_INTERVAL_MS := 60000

  datatype Meta = Meta(messageType: string, gatewayId: string, portId: string, deviceId: int, pointKey: string,
                       priority: int, hasAlarm: bool, hasInvalidData: bool, statusChanged: bool, timestampMs: int) {
    function Key(): string { SampleKey(gatewayId, portId, deviceId, pointKey) }
  }

  /** Time of the last accepted sample, per key. */
  type Samples = map<string, int>

  predicate IsNormalTelemetry(m: Meta) {
    m.messageType == "telemetry_pack" && !m.hasAlarm && !m.hasInvalidData && !m.statusChanged
  }

  predicate AllowsSample(samples: Samples, key: string, now: int) {
    key !in samples || now <= 0 || now - samples[key] >= SAMPLE_INTERVAL_MS
  }

  predicate ShouldCache(samples: Samples, m: Meta) {
    if m.messageType == "alarm_event" || m.messageType == "ack" then true
    else if m.messageType == "device_status" then m.statusChanged
    else m.messageType == "telemetry_pack" && (!IsNormalTelemetry(m) || AllowsSample(samples, m.Key(), m.timestampMs))
  }

  /** What the sampling rule sees of a message. */
  datatype Sample = Sample(isNormal: bool, key: string, now: int)

  function View(m: Meta): Sample {
    Sample(IsNormalTelemetry(m), m.Key(), m.timestampMs)
  }

  function AfterCheck(samples: Samples, s: Sample): Samples {
    if s.isNormal && AllowsSample(samples, s.key, s.now) then samples[s.key := s.now] else samples
  }

  class CachePolicy {
    var lastSample: Samples

    constructor ()
      ensures lastSample == map[]
    {
      lastSample := map[];
    }

    method AllowSample(m: Meta) returns (allowed: bool)
      modifies this
      ensures allowed == AllowsSample(old(lastSample), m.Key(), m.timestampMs)
      ensures lastSample == if allowed then old(lastSample)[m.Key() := m.timestampMs] else old(lastSample)
    {
      var key := m.Key();
      if key !in lastSample || m.timestampMs <= 0 || m.timestampMs - lastSample[key] >= SAMPLE_INTERVAL_MS {
        lastSample := lastSample[key := m.timestampMs];
        return true;
      }
      return false;
    }

    method CheckCache(m: Meta) returns (cache: bool)
      modifies this
      ensures cache == ShouldCache(old(lastSample), m)
      ensures lastSample == AfterCheck(old(lastSample), View(m))
    {
      if m.messageType == "alarm_event" || m.messageType == "ack" {
        return true;
      }
      if m.messageType == "device_status" {
        return m.statusChanged;
      }
      if m.messageType == "telemetry_pack" {
        if m.hasAlarm || m.hasInvalidData || m.statusChanged {
          return true;
        }
        cache := AllowSample(m);
        return cache;
      }
      return false;
    }
  }

  // ---------- Sampling over every run ----------

  function SamplesAfter(ss: seq<Sample>): Samples {
    if ss == [] then map[] else AfterCheck(SamplesAfter(ss[..|ss| - 1]), ss[|ss| - 1])
  }

  /** Message i is a normal sample under the key that the policy cached. */
  ghost predicate Taken(ss: seq<Sample>, i: nat, key: string) {
    i < |ss| && ss[i].isNormal && ss[i].key == key && AllowsSample(SamplesAfter(ss[..i]), key, ss[i].now)
  }

  ghost predicate IsLastTaken(ss: seq<Sample>, i: nat, key: string) {
    Taken(ss, i, key) && forall j :: i < j < |ss| ==> !Taken(ss, j, key)
  }

  lemma TakenInPrefix(ss: seq<Sample>, n: nat, i: nat, key: string)
    requires i < n <= |ss|
    ensures Taken(ss, i, key) <==> Taken(ss[..n], i, key)
  {
    assert ss[..i] == ss[..n][..i];
  }

  lemma {:induction false} RemembersLastTaken(ss: seq<Sample>, key: string)
    ensures if key in SamplesAfter(ss)
            then exists i: nat :: IsLastTaken(ss, i, key) && SamplesAfter(ss)[key] == ss[i].now
            else forall i: nat :: !Taken(ss, i, key)
  {
    if ss != [] {
      var n := |ss| - 1;
      var pre := ss[..n];
      RemembersLastTaken(pre, key);
      forall i: nat | i < n ensures Taken(ss, i, key) <==> Taken(pre, i, key) { TakenInPrefix(ss, n, i, key); }
      if Taken(ss, n, key) {
        assert IsLastTaken(ss, n, key);
      } else if key in SamplesAfter(pre) {
        var i: nat :| IsLastTaken(pre, i, key) && SamplesAfter(pre)[key] == pre[i].now;
        assert IsLastTaken(ss, i, key);
      }
    }
  }

  /** A normal sample with a positive time is cached exactly when the last cached one under its key,
      if there is one, is at least SAMPLE_INTERVAL_MS older, in whatever order the times come. */
  lemma TakenIff(ss: seq<Sample>, n: nat)
    requires n < |ss| && ss[n].isNormal && ss[n].now > 0
    ensures Taken(ss, n, ss[n].key) <==>
            forall i: nat :: IsLastTaken(ss[..n], i, ss[n].key) ==> ss[n].now - ss[i].now >= SAMPLE_INTERVAL_MS
  {
    RemembersLastTaken(ss[..n], ss[n].key);
    if i: nat :| IsLastTaken(ss[..n], i, ss[n].key) {
      forall j: nat | IsLastTaken(ss[..n], j, ss[n].key) ensures j == i {}
    }
  }

  lemma {:induction false} TakenAreApart(ss: seq<Sample>, i: nat, j: nat, key: string)
    requires i < j && Taken(ss, i, key) && Taken(ss, j, key)
    requires forall s :: s in ss ==> s.now > 0
    ensures ss[j].now - ss[i].now >= SAMPLE_INTERVAL_MS
    decreases j
  {
    var pre := ss[..j];
    TakenInPrefix(ss, j, i, key);
    RemembersLastTaken(pre, key);
    TakenIff(ss, j);
    var k: nat :| IsLastTaken(pre, k, key);
    TakenInPrefix(ss, j, k, key);
    if i < k { TakenAreApart(ss, i, k, key); }
  }

  function Views(ms: seq<Meta>): seq<Sample> {
    seq(|ms|, i requires 0 <= i < |ms| => View(ms[i]))
  }

  predicate SamePoint(a: Meta, b: Meta) {
    a.gatewayId == b.gatewayId && a.portId == b.portId && a.deviceId == b.deviceId && a.pointKey == b.pointKey
  }

  predicate Plain(m: Meta) {
    DotFree(m.gatewayId) && DotFree(m.portId) && m.timestampMs > 0
  }

  /** Message n of the run is normal telemetry and the policy caches it. */
  ghost predicate Sampled(ms: seq<Meta>, n: nat) {
    n < |ms| && IsNormalTelemetry(ms[n]) && ShouldCache(SamplesAfter(Views(ms)[..n]), ms[n])
  }

  ghost predicate IsLastSample(ms: seq<Meta>, i: nat, n: nat) {
    i < n < |ms| && Sampled(ms, i) && SamePoint(ms[i], ms[n]) &&
    forall j :: i < j < n && SamePoint(ms[j], ms[n]) ==> !Sampled(ms, j)
  }

  lemma SampledIsTaken(ms: seq<Meta>, n: nat)
    requires n < |ms|
    ensures Sampled(ms, n) <==> Taken(Views(ms), n, ms[n].Key())
  {
  }

  /** Over any run with dot-free gateway and port ids and positive times: a normal sample is cached
      exactly when the last cached sample of the same point, if any, is a minute older.  Samples of
      other points do not matter. */
  lemma SampledIff(ms: seq<Meta>, n: nat)
    requires n < |ms| && IsNormalTelemetry(ms[n]) && forall m :: m in ms ==> Plain(m)
    ensures Sampled(ms, n) <==>
            forall i: nat :: IsLastSample(ms, i, n) ==> ms[n].timestampMs - ms[i].timestampMs >= SAMPLE_INTERVAL_MS
  {
    var ss := Views(ms);
    assert ms[n] in ms;
    SampledIsTaken(ms, n);
    TakenIff(ss, n);
    forall i: nat | i < n ensures Sampled(ms, i) && SamePoint(ms[i], ms[n]) <==> Taken(ss[..n], i, ms[n].Key()) {
      assert ms[i] in ms;
      SampledIsTaken(ms, i);
      SamePointIff(ms[i], ms[n]);
      TakenInPrefix(ss, n, i, ms[n].Key());
    }
    forall i: nat ensures IsLastSample(ms, i, n) <==> IsLastTaken(ss[..n], i, ms[n].Key()) {}
  }

  lemma SamePointIff(a: Meta, b: Meta)
    requires Plain(a) && Plain(b)
    ensures SamePoint(a, b) <==> a.Key() == b.Key()
  {
    if a.Key() == b.Key() {
      SampleKeyInjective(a.gatewayId, a.portId, a.deviceId, a.pointKey, b.gatewayId, b.portId, b.deviceId, b.pointKey);
    }
  }

  lemma SampledPairIsApart(ms: seq<Meta>, i: nat, j: nat)
    requires forall m :: m in ms ==> Plain(m)
    ensures i < j && Sampled(ms, i) && Sampled(ms, j) && SamePoint(ms[i], ms[j]) ==>
              ms[j].timestampMs - ms[i].timestampMs >= SAMPLE_INTERVAL_MS
  {
    if i < j && Sampled(ms, i) && Sampled(ms, j) && SamePoint(ms[i], ms[j]) {
      SampledIsTaken(ms, i);
      SampledIsTaken(ms, j);
      forall s | s in Views(ms) ensures s.now > 0 {
        var k :| 0 <= k < |ms| && s == View(ms[k]);
        assert ms[k] in ms;
      }
      TakenAreApart(Views(ms), i, j, ms[j].Key());
    }
  }

  /** Any two cached samples of one point are at least a minute apart. */
  lemma SamplesAreApart(ms: seq<Meta>)
    requires forall m :: m in ms ==> Plain(m)
    ensures forall i: nat, j: nat :: i < j && Sampled(ms, i) && Sampled(ms, j) && SamePoint(ms[i], ms[j]) ==>
              ms[j].timestampMs - ms[i].timestampMs >= SAMPLE_INTERVAL_MS
  {
    forall i: nat, j: nat { SampledPairIsApart(ms, i, j); }
  }

  /** Registrations and configuration snapshots are never cached, although the project's rule for the
      offline cache asks for them. */
  lemma RegistrationsAreDropped(samples: Samples, m: Meta)
    requires m.messageType == "gateway_register" || m.messageType == "port_register" ||
             m.messageType == "device_register" || m.messageType == "config_snapshot"
    ensures !ShouldCache(samples, m)
  {
  }
}
