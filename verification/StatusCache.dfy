/**
  The status-change detector of the gateway (Linux_data/data/data_publish.c,
  check_device_status_changed): a fixed array of 64 entries standing in for a map from
  (slot, device) to the last seen validity.
 */
module StatusCache {

  const CACHE_SIZE := 64

  datatype Key = Key(slot: int, deviceId: int)

  datatype Entry = Entry(key: Key, valid: int, seen: bool)

  datatype Report = Report(key: Key, valid: int)

  type Statuses = map<Key, int>

  // ---------- The map the array stands for ----------

  /** A status is a change when the device is known with another one. */
  predicate IsChange(m: Statuses, r: Report) {
    r.key in m && m[r.key] != r.valid
  }

  /** A full cache does not take new devices. */
  function Remember(m: Statuses, r: Report): Statuses {
    if r.key in m || |m| < CACHE_SIZE then m[r.key := r.valid] else m
  }

  function RememberAll(rs: seq<Report>): Statuses {
    if rs == [] then map[] else Remember(RememberAll(rs[..|rs| - 1]), rs[|rs| - 1])
  }

  /** The last status of every device that ever reported. */
  function Last(rs: seq<Report>): Statuses {
    if rs == [] then map[] else Last(rs[..|rs| - 1])[rs[|rs| - 1].key := rs[|rs| - 1].valid]
  }

  lemma SizeGrows(m: Statuses, k: Key, v: int)
    ensures |m[k := v]| == |m| + if k in m then 0 else 1
  {
    if k in m {
      assert m[k := v].Keys == m.Keys;
    } else {
      assert m[k := v].Keys == m.Keys + {k};
    }
  }

  /** Over any run of reports the cache knows the last status of every device if and only if at most
      64 devices have reported. */
  lemma {:induction false} CacheIsExactIff(rs: seq<Report>)
    ensures RememberAll(rs) == Last(rs) <==> |Last(rs)| <= CACHE_SIZE
    ensures |RememberAll(rs)| <= CACHE_SIZE
  {
    if rs != [] {
      var pre, r := rs[..|rs| - 1], rs[|rs| - 1];
      CacheIsExactIff(pre);
      SizeGrows(RememberAll(pre), r.key, r.valid);
      SizeGrows(Last(pre), r.key, r.valid);
    }
  }

  /** So a change is reported exactly when the device's previous status was another one, as long as
      no more than 64 devices report. */
  lemma ChangeMeansDifferent(rs: seq<Report>, r: Report)
    requires |Last(rs)| <= CACHE_SIZE
    ensures IsChange(RememberAll(rs), r) <==> r.key in Last(rs) && Last(rs)[r.key] != r.valid
  {
    CacheIsExactIff(rs);
  }

  /** A device that comes when the cache is full is never reported as changed. */
  lemma {:induction false} LatecomerIsNeverReported(rs: seq<Report>, more: seq<Report>, r: Report)
    requires |RememberAll(rs)| == CACHE_SIZE && r.key !in RememberAll(rs)
    ensures !IsChange(RememberAll(rs + more), r) && |RememberAll(rs + more)| == CACHE_SIZE
    ensures RememberAll(rs + more).Keys == RememberAll(rs).Keys
  {
    if more == [] {
      assert rs + more == rs;
    } else {
      var n := |more| - 1;
      LatecomerIsNeverReported(rs, more[..n], r);
      assert (rs + more)[..|rs + more| - 1] == rs + more[..n];
      SizeGrows(RememberAll(rs + more[..n]), more[n].key, more[n].valid);
    }
  }

  // ---------- The array ----------

  function Contents(es: seq<Entry>): Statuses {
    if es == [] then map[]
    else
      var e := es[|es| - 1];
      if e.seen then Contents(es[..|es| - 1])[e.key := e.valid] else Contents(es[..|es| - 1])
  }

  function CountSeen(es: seq<Entry>): nat {
    if es == [] then 0 else CountSeen(es[..|es| - 1]) + if es[|es| - 1].seen then 1 else 0
  }

  ghost predicate UniqueKeys(es: seq<Entry>) {
    forall i, j :: 0 <= i < j < |es| && es[i].seen && es[j].seen ==> es[i].key != es[j].key
  }

  ghost predicate Holds(es: seq<Entry>, k: Key) {
    exists i :: 0 <= i < |es| && es[i].seen && es[i].key == k
  }

  lemma {:induction false} ContentsAt(es: seq<Entry>, k: Key)
    ensures k in Contents(es) <==> Holds(es, k)
  {
    if es != [] {
      ContentsAt(es[..|es| - 1], k);
    }
  }

  lemma {:induction false} ContentsValue(es: seq<Entry>, i: nat)
    requires UniqueKeys(es) && i < |es| && es[i].seen
    ensures es[i].key in Contents(es) && Contents(es)[es[i].key] == es[i].valid
  {
    if i < |es| - 1 {
      ContentsValue(es[..|es| - 1], i);
    }
  }

  lemma {:induction false} ContentsSize(es: seq<Entry>)
    requires UniqueKeys(es)
    ensures |Contents(es)| == CountSeen(es)
  {
    if es != [] {
      var pre, e := es[..|es| - 1], es[|es| - 1];
      ContentsSize(pre);
      ContentsAt(pre, e.key);
      SizeGrows(Contents(pre), e.key, e.valid);
    }
  }

  lemma {:induction false} CountBelow(es: seq<Entry>)
    ensures CountSeen(es) <= |es|
    ensures CountSeen(es) == |es| <==> forall i :: 0 <= i < |es| ==> es[i].seen
  {
    if es != [] {
      CountBelow(es[..|es| - 1]);
    }
  }

  /** Writing one entry, its own or a free one, is a map update. */
  lemma {:induction false} WriteEntry(es: seq<Entry>, i: nat, r: Report)
    requires UniqueKeys(es) && i < |es|
    requires if es[i].seen then es[i].key == r.key else !Holds(es, r.key)
    ensures UniqueKeys(es[i := Entry(r.key, r.valid, true)])
    ensures Contents(es[i := Entry(r.key, r.valid, true)]) == Contents(es)[r.key := r.valid]
  {
    var n := |es| - 1;
    var e := Entry(r.key, r.valid, true);
    if i < n {
      WriteEntry(es[..n], i, r);
      assert es[i := e][..n] == es[..n][i := e];
    } else {
      assert es[i := e][..n] == es[..n];
    }
  }

  class Cache {
    const entries: array<Entry>

    ghost predicate Valid()
      reads this, entries
    {
      entries.Length == CACHE_SIZE && UniqueKeys(entries[..])
    }

    ghost function View(): Statuses
      reads this, entries
    {
      Contents(entries[..])
    }

    constructor ()
      ensures Valid() && fresh(entries)
      ensures View() == map[]
    {
      entries := new Entry[CACHE_SIZE](_ => Entry(Key(0, 0), 0, false));
      new;
      NothingSeen(entries[..]);
    }

    method CheckDeviceStatusChanged(r: Report) returns (changed: bool)
      requires Valid()
      modifies entries
      ensures Valid()
      ensures changed == IsChange(old(View()), r)
      ensures View() == Remember(old(View()), r)
    {
      var found, at := FindSlot(r.key);
      ghost var es := entries[..];
      ContentsAt(es, r.key);
      ContentsSize(es);
      CountBelow(es);
      changed := false;
      if at < entries.Length {
        changed := found && entries[at].valid != r.valid;
        if found {
          ContentsValue(es, at);
        }
        WriteEntry(es, at, r);
        entries[at] := Entry(r.key, r.valid, true);
        assert entries[..] == es[at := Entry(r.key, r.valid, true)];
      }
    }

    /** The device's own entry, or else the first free one. */
    method FindSlot(k: Key) returns (found: bool, at: nat)
      ensures at <= entries.Length && found == Holds(entries[..], k)
      ensures found ==> at < entries.Length && entries[at].seen && entries[at].key == k
      ensures !found && at < entries.Length ==> !entries[at].seen
      ensures !found ==> forall i :: 0 <= i < at ==> entries[i].seen
    {
      found, at := false, entries.Length;
      for i := 0 to entries.Length
        invariant at <= entries.Length
        invariant forall j :: 0 <= j < i ==> !(entries[j].seen && entries[j].key == k)
        invariant at < entries.Length ==> !entries[at].seen
        invariant at <= i || at == entries.Length
        invariant forall j :: 0 <= j < i && j < at ==> entries[j].seen
      {
        if entries[i].seen && entries[i].key == k {
          assert entries[..][i] == entries[i];
          return true, i;
        }
        if !entries[i].seen && at == entries.Length {
          at := i;
        }
      }
    }
  }

  lemma {:induction false} NothingSeen(es: seq<Entry>)
    requires forall i :: 0 <= i < |es| ==> !es[i].seen
    ensures Contents(es) == map[]
  {
    if es != [] {
      NothingSeen(es[..|es| - 1]);
    }
  }
}
