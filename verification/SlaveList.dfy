/**
  The touch panel's list of slave devices and its reconciliation with a runtime snapshot
  (Linux_ui/ui/widget.cpp: upsertRegisteredSlave, removeRegisteredSlave, handleRuntimeStateSnapshot).

  The reconciling loop walks the list backwards by index while a nested loop removes from it.
 */
module SlaveList {
  import opened DottedKeys
  import opened Wrappers

  datatype Key = Key(slot: int, addr: int, deviceType: string)

  datatype Slave = Slave(key: Key, displayName: string, online: bool)

  datatype DeviceSnapshot = DeviceSnapshot(deviceId: int, deviceType: string, deviceName: string)

  datatype PortSnapshot = PortSnapshot(slot: int, connected: bool, devices: seq<DeviceSnapshot>)

  type Slaves = seq<Slave>

  ghost predicate UniqueKeys(s: Slaves) {
    forall i, j :: 0 <= i < j < |s| ==> s[i].key != s[j].key
  }

  predicate ValidKey(k: Key) {
    k.slot >= 0 && k.addr > 0 && k.deviceType != ""
  }

  function DeviceKey(slot: int, d: DeviceSnapshot): Key {
    Key(slot, d.deviceId, d.deviceType)
  }

  /** The text under which a snapshot's keys are collected. */
  function KeyText(k: Key): string {
    Decimal(k.slot) + ":" + (Decimal(k.addr) + ":" + k.deviceType)
  }

  function NameOr(name: string, addr: int): string {
    if name == "" then "从站 " + Decimal(addr) else name
  }

  /** The first entry with the key. */
  function Lookup(s: Slaves, k: Key): Option<Slave> {
    if s == [] then None else if s[0].key == k then Some(s[0]) else Lookup(s[1..], k)
  }

  predicate IsOnline(s: Slaves, k: Key) {
    match Lookup(s, k)
    case Some(x) => x.online
    case None => false
  }

  /** Renames the first entry with the key, or appends an offline one. */
  function Put(s: Slaves, k: Key, name: string): (r: Slaves)
    ensures |s| <= |r| && forall i :: 0 <= i < |s| ==> r[i].key == s[i].key
    ensures |r| > |s| ==> |r| == |s| + 1 && r[|s|].key == k && forall i :: 0 <= i < |s| ==> s[i].key != k
  {
    if s == [] then [Slave(k, NameOr(name, k.addr), false)]
    else if s[0].key == k then [s[0].(displayName := NameOr(name, k.addr))] + s[1..]
    else [s[0]] + Put(s[1..], k, name)
  }

  function Upsert(s: Slaves, k: Key, name: string): Slaves {
    if ValidKey(k) then Put(s, k, name) else s
  }

  function UpsertAll(s: Slaves, slot: int, ds: seq<DeviceSnapshot>): Slaves {
    if ds == [] then s
    else
      var d := ds[|ds| - 1];
      Upsert(UpsertAll(s, slot, ds[..|ds| - 1]), DeviceKey(slot, d), d.deviceName)
  }

  /** Ports with a negative slot are skipped. */
  function UpsertPorts(s: Slaves, ports: seq<PortSnapshot>): Slaves {
    if ports == [] then s
    else
      var p := ports[|ports| - 1];
      var rest := UpsertPorts(s, ports[..|ports| - 1]);
      if p.slot < 0 then rest else UpsertAll(rest, p.slot, p.devices)
  }

  function Filter(s: Slaves, p: Key -> bool): Slaves {
    if s == [] then [] else (if p(s[0].key) then [s[0]] else []) + Filter(s[1..], p)
  }

  function OtherThan(k: Key): Key -> bool {
    (x: Key) => x != k
  }

  function SlotsOf(ports: seq<PortSnapshot>): set<int> {
    set p | p in ports && p.slot >= 0 :: p.slot
  }

  function KeysOf(ports: seq<PortSnapshot>): set<Key> {
    set p, d | p in ports && d in p.devices && ValidKey(DeviceKey(p.slot, d)) :: DeviceKey(p.slot, d)
  }

  /** What a snapshot keeps: entries of slots it does not mention, and those it lists. */
  function Keeps(ports: seq<PortSnapshot>): Key -> bool {
    (k: Key) => k.slot !in SlotsOf(ports) || k in KeysOf(ports)
  }

  function OutsideOf(slots: set<int>): Key -> bool {
    (k: Key) => k.slot !in slots
  }

  function Reconcile(s: Slaves, ports: seq<PortSnapshot>): Slaves {
    Filter(UpsertPorts(s, ports), Keeps(ports))
  }

  // ---------- What a snapshot does to one key ----------

  /** The name under which the devices of one port last list the key. */
  function ListedAs(ds: seq<DeviceSnapshot>, slot: int, k: Key): Option<string> {
    if ds == [] then None
    else
      var d := ds[|ds| - 1];
      if DeviceKey(slot, d) == k then Some(d.deviceName) else ListedAs(ds[..|ds| - 1], slot, k)
  }

  function LastName(ports: seq<PortSnapshot>, k: Key): Option<string> {
    if ports == [] then None
    else
      var p := ports[|ports| - 1];
      var here := ListedAs(p.devices, p.slot, k);
      if here.Some? then here else LastName(ports[..|ports| - 1], k)
  }

  function After(s: Slaves, k: Key, name: Option<string>): Option<Slave> {
    if name.Some? && ValidKey(k) then Some(Slave(k, NameOr(name.value, k.addr), IsOnline(s, k))) else Lookup(s, k)
  }

  lemma {:induction false} PutLookup(s: Slaves, k: Key, name: string, q: Key)
    ensures Lookup(Put(s, k, name), q)
         == if q == k then Some(Slave(k, NameOr(name, k.addr), IsOnline(s, k))) else Lookup(s, q)
  {
    if s != [] && s[0].key != k {
      PutLookup(s[1..], k, name, q);
    }
  }

  lemma {:induction false} UpsertAllLookup(s: Slaves, slot: int, ds: seq<DeviceSnapshot>, k: Key)
    ensures Lookup(UpsertAll(s, slot, ds), k) == After(s, k, ListedAs(ds, slot, k))
  {
    if ds != [] {
      var n := |ds| - 1;
      UpsertAllLookup(s, slot, ds[..n], k);
      var d := ds[n];
      PutLookup(UpsertAll(s, slot, ds[..n]), DeviceKey(slot, d), d.deviceName, k);
    }
  }

  lemma {:induction false} UpsertPortsLookup(s: Slaves, ports: seq<PortSnapshot>, k: Key)
    ensures Lookup(UpsertPorts(s, ports), k) == After(s, k, LastName(ports, k))
  {
    if ports != [] {
      var n := |ports| - 1;
      UpsertPortsLookup(s, ports[..n], k);
      var p := ports[n];
      ListedSlot(p.devices, p.slot, k);
      if p.slot >= 0 {
        UpsertAllLookup(UpsertPorts(s, ports[..n]), p.slot, p.devices, k);
      }
    }
  }

  lemma {:induction false} ListedSlot(ds: seq<DeviceSnapshot>, slot: int, k: Key)
    ensures ListedAs(ds, slot, k).Some? <==> exists d :: d in ds && DeviceKey(slot, d) == k
  {
    if ds != [] {
      var n := |ds| - 1;
      ListedSlot(ds[..n], slot, k);
      assert forall d :: d in ds <==> d in ds[..n] || d == ds[n];
    }
  }

  lemma {:induction false} NamedIffListed(ports: seq<PortSnapshot>, k: Key)
    requires ValidKey(k)
    ensures LastName(ports, k).Some? <==> k in KeysOf(ports)
  {
    if ports != [] {
      var n := |ports| - 1;
      NamedIffListed(ports[..n], k);
      ListedSlot(ports[n].devices, ports[n].slot, k);
      assert forall p :: p in ports <==> p in ports[..n] || p == ports[n];
    }
  }

  lemma {:induction false} FilterLookup(s: Slaves, p: Key -> bool, k: Key)
    ensures Lookup(Filter(s, p), k) == if p(k) then Lookup(s, k) else None
  {
    if s != [] {
      FilterLookup(s[1..], p, k);
      var rest := Filter(s[1..], p);
      assert ([s[0]] + rest)[1..] == rest && [] + rest == rest;
    }
  }

  /** After a snapshot, a mentioned slot holds exactly the devices the snapshot lists for it, under
      their listed names and with the online flag they had, new ones offline; other slots are as before. */
  lemma ReconcileMeans(s: Slaves, ports: seq<PortSnapshot>, k: Key)
    ensures k in KeysOf(ports) ==> LastName(ports, k).Some?
    ensures Lookup(Reconcile(s, ports), k)
         == if k.slot !in SlotsOf(ports) then Lookup(s, k)
            else if k in KeysOf(ports) then Some(Slave(k, NameOr(LastName(ports, k).value, k.addr), IsOnline(s, k)))
            else None
  {
    UpsertPortsLookup(s, ports, k);
    FilterLookup(UpsertPorts(s, ports), Keeps(ports), k);
    if ValidKey(k) {
      NamedIffListed(ports, k);
    }
  }

  // ---------- What a snapshot does to the rest of the list ----------

  lemma {:induction false} PutOutside(s: Slaves, k: Key, name: string, p: Key -> bool)
    requires !p(k)
    ensures Filter(Put(s, k, name), p) == Filter(s, p)
  {
    if s != [] && s[0].key != k {
      PutOutside(s[1..], k, name, p);
    }
  }

  lemma {:induction false} UpsertAllOutside(s: Slaves, slot: int, ds: seq<DeviceSnapshot>, slots: set<int>)
    requires slot in slots
    ensures Filter(UpsertAll(s, slot, ds), OutsideOf(slots)) == Filter(s, OutsideOf(slots))
  {
    if ds != [] {
      var n := |ds| - 1;
      UpsertAllOutside(s, slot, ds[..n], slots);
      PutOutside(UpsertAll(s, slot, ds[..n]), DeviceKey(slot, ds[n]), ds[n].deviceName, OutsideOf(slots));
    }
  }

  lemma {:induction false} UpsertPortsOutside(s: Slaves, ports: seq<PortSnapshot>, slots: set<int>)
    requires SlotsOf(ports) <= slots
    ensures Filter(UpsertPorts(s, ports), OutsideOf(slots)) == Filter(s, OutsideOf(slots))
  {
    if ports != [] {
      var n := |ports| - 1;
      var p := ports[n];
      UpsertPortsOutside(s, ports[..n], slots);
      if p.slot >= 0 {
        assert p in ports;
        UpsertAllOutside(UpsertPorts(s, ports[..n]), p.slot, p.devices, slots);
      }
    }
  }

  lemma {:induction false} FilterTwice(s: Slaves, p: Key -> bool, q: Key -> bool)
    requires forall k :: p(k) ==> q(k)
    ensures Filter(Filter(s, q), p) == Filter(s, p)
  {
    if s != [] {
      FilterTwice(s[1..], p, q);
      var rest := Filter(s[1..], q);
      assert ([s[0]] + rest)[1..] == rest && [] + rest == rest;
    }
  }

  /** The entries of unmentioned slots stay, in their order. */
  lemma OtherSlotsUntouched(s: Slaves, ports: seq<PortSnapshot>)
    ensures Filter(Reconcile(s, ports), OutsideOf(SlotsOf(ports))) == Filter(s, OutsideOf(SlotsOf(ports)))
  {
    FilterTwice(UpsertPorts(s, ports), OutsideOf(SlotsOf(ports)), Keeps(ports));
    UpsertPortsOutside(s, ports, SlotsOf(ports));
  }

  // ---------- Removal while looping backwards ----------

  lemma {:induction false} FilterNone(s: Slaves, p: Key -> bool)
    requires forall i :: 0 <= i < |s| ==> p(s[i].key)
    ensures Filter(s, p) == s
  {
    if s != [] {
      FilterNone(s[1..], p);
    }
  }

  lemma {:induction false} FilterAppend(s: Slaves, t: Slaves, p: Key -> bool)
    ensures Filter(s + t, p) == Filter(s, p) + Filter(t, p)
  {
    if s == [] {
      assert s + t == t;
    } else {
      assert (s + t)[0] == s[0] && (s + t)[1..] == s[1..] + t;
      FilterAppend(s[1..], t, p);
      var head := if p(s[0].key) then [s[0]] else [];
      assert head + (Filter(s[1..], p) + Filter(t, p)) == (head + Filter(s[1..], p)) + Filter(t, p);
    }
  }

  lemma OthersDiffer(a: Slaves, x: Slave, b: Slaves)
    requires UniqueKeys(a + [x] + b)
    ensures forall i :: 0 <= i < |a| ==> a[i].key != x.key
    ensures forall i :: 0 <= i < |b| ==> b[i].key != x.key
  {
    var s := a + [x] + b;
    assert forall i :: 0 <= i < |a| ==> s[i] == a[i];
    assert forall i :: 0 <= i < |b| ==> s[|a| + 1 + i] == b[i];
    assert s[|a|] == x;
  }

  /** Removing a key that one entry has takes out that entry. */
  lemma RemoveMiddle(a: Slaves, x: Slave, b: Slaves)
    requires forall i :: 0 <= i < |a| ==> a[i].key != x.key
    requires forall i :: 0 <= i < |b| ==> b[i].key != x.key
    ensures Filter(a + [x] + b, OtherThan(x.key)) == a + b
  {
    var p := OtherThan(x.key);
    FilterNone(a, p);
    FilterNone(b, p);
    FilterAppend(a, [x], p);
    FilterAppend(a + [x], b, p);
    assert [x][1..] == [] && Filter([x], p) == [];
    assert a + [] == a;
  }

  lemma {:induction false} FilterKeepsUnique(s: Slaves, p: Key -> bool)
    requires UniqueKeys(s)
    ensures UniqueKeys(Filter(s, p)) && forall x :: x in Filter(s, p) ==> x in s
  {
    if s != [] {
      FilterKeepsUnique(s[1..], p);
      assert forall x :: x in s[1..] ==> x.key != s[0].key;
    }
  }

  /** The state of the reconciling loop before it looks at index i: the entries up to i are as they
      were, those above are filtered. */
  function HalfDone(s: Slaves, i: nat, keep: Key -> bool): Slaves
    requires i <= |s|
  {
    s[..i] + Filter(s[i..], keep)
  }

  lemma HalfDoneUnique(s: Slaves, i: nat, keep: Key -> bool)
    requires UniqueKeys(s) && i <= |s|
    ensures UniqueKeys(HalfDone(s, i, keep))
  {
    FilterKeepsUnique(s[i..], keep);
    forall a, b | 0 <= a < i && 0 <= b < |Filter(s[i..], keep)|
      ensures s[a].key != Filter(s[i..], keep)[b].key
    {
      assert Filter(s[i..], keep)[b] in s[i..];
    }
  }

  lemma AllToDo(s: Slaves, keep: Key -> bool)
    ensures HalfDone(s, |s|, keep) == s
  {
    assert s[..|s|] == s && s[|s|..] == [];
  }

  lemma AllDone(s: Slaves, keep: Key -> bool)
    requires UniqueKeys(s)
    ensures HalfDone(s, 0, keep) == Filter(s, keep) && UniqueKeys(Filter(s, keep))
  {
    assert s[0..] == s && s[..0] == [];
    FilterKeepsUnique(s, keep);
  }

  lemma HalfDoneAt(s: Slaves, i: nat, keep: Key -> bool)
    requires i < |s|
    ensures var above := Filter(s[i + 1..], keep);
            && HalfDone(s, i + 1, keep) == s[..i] + [s[i]] + above
            && HalfDone(s, i, keep) == if keep(s[i].key) then s[..i] + [s[i]] + above else s[..i] + above
  {
    var x, above := s[i], Filter(s[i + 1..], keep);
    assert s[..i + 1] == s[..i] + [x] && s[i..][1..] == s[i + 1..];
    assert s[..i] + ([x] + above) == s[..i] + [x] + above && [] + above == above;
  }

  lemma HalfDoneStep(s: Slaves, i: nat, keep: Key -> bool)
    requires UniqueKeys(s) && i < |s|
    ensures var was := HalfDone(s, i + 1, keep);
            HalfDone(s, i, keep) == if keep(s[i].key) then was else Filter(was, OtherThan(s[i].key))
  {
    var above := Filter(s[i + 1..], keep);
    HalfDoneAt(s, i, keep);
    HalfDoneUnique(s, i + 1, keep);
    OthersDiffer(s[..i], s[i], above);
    RemoveMiddle(s[..i], s[i], above);
  }

  lemma KeyTextInjective(a: Key, b: Key)
    requires KeyText(a) == KeyText(b)
    ensures a == b
  {
    DecimalPlain(a.slot);
    DecimalPlain(b.slot);
    SplitAt(':', Decimal(a.slot), Decimal(b.slot), Decimal(a.addr) + ":" + a.deviceType,
            Decimal(b.addr) + ":" + b.deviceType);
    DecimalPlain(a.addr);
    DecimalPlain(b.addr);
    SplitAt(':', Decimal(a.addr), Decimal(b.addr), a.deviceType, b.deviceType);
    DecimalInjective(a.slot, b.slot);
    DecimalInjective(a.addr, b.addr);
  }

  lemma PutKeepsUnique(s: Slaves, k: Key, name: string)
    requires UniqueKeys(s)
    ensures UniqueKeys(Put(s, k, name))
  {
    var r := Put(s, k, name);
    forall i, j | 0 <= i < j < |r|
      ensures r[i].key != r[j].key
    {
      assert r[i].key == s[i].key;
    }
  }

  lemma PutCons(x: Slave, rest: Slaves, k: Key, name: string)
    requires x.key != k
    ensures Put([x] + rest, k, name) == [x] + Put(rest, k, name)
  {
    assert ([x] + rest)[1..] == rest;
  }

  lemma {:induction false} PutRenames(s: Slaves, i: nat, k: Key, name: string)
    requires i < |s| && s[i].key == k && forall j :: 0 <= j < i ==> s[j].key != k
    ensures Put(s, k, name) == s[i := s[i].(displayName := NameOr(name, k.addr))]
  {
    var x, rest := s[0], s[1..];
    assert s == [x] + rest;
    if i > 0 {
      PutCons(x, rest, k, name);
      PutRenames(rest, i - 1, k, name);
    }
  }

  lemma {:induction false} PutAppends(s: Slaves, k: Key, name: string)
    requires forall j :: 0 <= j < |s| ==> s[j].key != k
    ensures Put(s, k, name) == s + [Slave(k, NameOr(name, k.addr), false)]
  {
    if s != [] {
      var x, rest := s[0], s[1..];
      assert s == [x] + rest;
      PutCons(x, rest, k, name);
      PutAppends(rest, k, name);
    }
  }

  // ---------- Over every run of the panel ----------

  datatype Action =
    | Register(k: Key, name: string)
    | Unregister(k: Key)
    | Snapshot(ports: seq<PortSnapshot>)
    | SetOnline(which: set<Key>, online: bool)

  function MarkOnline(s: Slaves, which: set<Key>, online: bool): (r: Slaves)
    ensures |r| == |s| && forall i :: 0 <= i < |s| ==> r[i].key == s[i].key
  {
    if s == [] then []
    else [if s[0].key in which then s[0].(online := online) else s[0]] + MarkOnline(s[1..], which, online)
  }

  function Act(s: Slaves, a: Action): Slaves {
    match a
    case Register(k, name) => Upsert(s, k, name)
    case Unregister(k) => Filter(s, OtherThan(k))
    case Snapshot(ports) => Reconcile(s, ports)
    case SetOnline(which, online) => MarkOnline(s, which, online)
  }

  function Run(acts: seq<Action>): Slaves {
    if acts == [] then [] else Act(Run(acts[..|acts| - 1]), acts[|acts| - 1])
  }

  lemma {:induction false} UpsertAllKeepsUnique(s: Slaves, slot: int, ds: seq<DeviceSnapshot>)
    requires UniqueKeys(s)
    ensures UniqueKeys(UpsertAll(s, slot, ds))
  {
    if ds != [] {
      var pre, d := ds[..|ds| - 1], ds[|ds| - 1];
      UpsertAllKeepsUnique(s, slot, pre);
      PutKeepsUnique(UpsertAll(s, slot, pre), DeviceKey(slot, d), d.deviceName);
    }
  }

  lemma {:induction false} UpsertPortsKeepsUnique(s: Slaves, ports: seq<PortSnapshot>)
    requires UniqueKeys(s)
    ensures UniqueKeys(UpsertPorts(s, ports))
  {
    if ports != [] {
      var pre, p := ports[..|ports| - 1], ports[|ports| - 1];
      UpsertPortsKeepsUnique(s, pre);
      UpsertAllKeepsUnique(UpsertPorts(s, pre), p.slot, p.devices);
    }
  }

  lemma {:induction false} EveryRunKeepsUnique(acts: seq<Action>)
    ensures UniqueKeys(Run(acts))
  {
    if acts != [] {
      var s := Run(acts[..|acts| - 1]);
      EveryRunKeepsUnique(acts[..|acts| - 1]);
      match acts[|acts| - 1]
      case Register(k, name) => PutKeepsUnique(s, k, name);
      case Unregister(k) => FilterKeepsUnique(s, OtherThan(k));
      case Snapshot(ports) =>
        UpsertPortsKeepsUnique(s, ports);
        FilterKeepsUnique(UpsertPorts(s, ports), Keeps(ports));
      case SetOnline(_, _) =>
    }
  }

  /** The reconciling loop never leaves the list: in every run no key is held twice, because an entry is
      appended only after a search for its key; so a removal at index i takes out that entry alone, and
      the entries the loop still has to look at stay where they are. */
  lemma EveryRunStaysInRange(acts: seq<Action>, ports: seq<PortSnapshot>, i: nat)
    requires i < |UpsertPorts(Run(acts), ports)|
    ensures var s := UpsertPorts(Run(acts), ports);
            var was := HalfDone(s, i + 1, Keeps(ports));
            var next := if Keeps(ports)(s[i].key) then was else Filter(was, OtherThan(s[i].key));
            i < |was| && was[i] == s[i] && i <= |next| && next[..i] == s[..i]
  {
    var s := UpsertPorts(Run(acts), ports);
    EveryRunKeepsUnique(acts);
    UpsertPortsKeepsUnique(Run(acts), ports);
    HalfDoneStep(s, i, Keeps(ports));
    assert HalfDone(s, i, Keeps(ports))[..i] == s[..i];
  }

  // ---------- In place ----------

  function ConnectedAfter(slots: set<int>, ports: seq<PortSnapshot>): set<int> {
    if ports == [] then slots
    else
      var p := ports[|ports| - 1];
      var rest := ConnectedAfter(slots, ports[..|ports| - 1]);
      if p.slot < 0 then rest else if p.connected then rest + {p.slot} else rest - {p.slot}
  }

  /** The keys a snapshot has collected when it is inside port p, after its devices ds. */
  ghost predicate Collected(keys: set<string>, done: seq<PortSnapshot>, slot: int, ds: seq<DeviceSnapshot>) {
    forall k: Key :: (KeyText(k) in keys
      <==> k in KeysOf(done) || (ValidKey(k) && exists d :: d in ds && DeviceKey(slot, d) == k))
  }

  class Panel {
    var slaves: Slaves
    var connectedSlots: set<int>

    ghost predicate Valid()
      reads this
    {
      UniqueKeys(slaves)
    }

    constructor ()
      ensures Valid() && slaves == [] && connectedSlots == {}
    {
      slaves, connectedSlots := [], {};
    }

    method UpsertRegisteredSlave(k: Key, name: string)
      requires Valid()
      modifies this`slaves
      ensures Valid() && slaves == Upsert(old(slaves), k, name)
    {
      if !ValidKey(k) {
        return;
      }
      PutKeepsUnique(slaves, k, name);
      var i := 0;
      while i < |slaves|
        invariant 0 <= i <= |slaves| && slaves == old(slaves)
        invariant forall j :: 0 <= j < i ==> slaves[j].key != k
      {
        if slaves[i].key == k {
          PutRenames(slaves, i, k, name);
          slaves := slaves[i := slaves[i].(displayName := NameOr(name, k.addr))];
          return;
        }
        i := i + 1;
      }
      PutAppends(slaves, k, name);
      slaves := slaves + [Slave(k, NameOr(name, k.addr), false)];
    }

    /** Removes every entry with the key. */
    method RemoveRegisteredSlave(k: Key)
      modifies this`slaves
      ensures slaves == Filter(old(slaves), OtherThan(k))
    {
      ghost var s := slaves;
      var i := |slaves| - 1;
      while i >= 0
        invariant -1 <= i < |s|
        invariant slaves == HalfDone(s, i + 1, OtherThan(k))
      {
        assert s[i..][1..] == s[i + 1..];
        if slaves[i].key == k {
          slaves := slaves[..i] + slaves[i + 1..];
        }
        i := i - 1;
      }
    }

    method HandleRuntimeStateSnapshot(ports: seq<PortSnapshot>)
      requires Valid()
      modifies this
      ensures Valid() && slaves == Reconcile(old(slaves), ports)
      ensures connectedSlots == ConnectedAfter(old(connectedSlots), ports)
    {
      var snapshotSlots, snapshotKeys := UpsertSnapshot(ports);
      ReconcileSlaves(snapshotSlots, snapshotKeys, ports);
    }

    /** The reconciling loop: backwards by index, over a list that shrinks. */
    method ReconcileSlaves(slots: set<int>, keys: set<string>, ghost ports: seq<PortSnapshot>)
      requires Valid() && slots == SlotsOf(ports) && forall k: Key :: KeyText(k) in keys <==> k in KeysOf(ports)
      modifies this`slaves
      ensures Valid() && slaves == Filter(old(slaves), Keeps(ports))
    {
      ghost var s := slaves;
      ghost var keep := Keeps(ports);
      var i := |slaves| - 1;
      AllToDo(s, keep);
      while i >= 0
        invariant -1 <= i < |s|
        invariant slaves == HalfDone(s, i + 1, keep)
      {
        ReconcileAt(i, slots, keys, s, ports);
        i := i - 1;
      }
      AllDone(s, keep);
    }

    /** One turn of the reconciling loop: index i is in range, and removing by key leaves the entries
        below it where they are. */
    method ReconcileAt(i: nat, slots: set<int>, keys: set<string>, ghost s: Slaves, ghost ports: seq<PortSnapshot>)
      requires UniqueKeys(s) && i < |s| && slaves == HalfDone(s, i + 1, Keeps(ports))
      requires slots == SlotsOf(ports) && forall k: Key :: KeyText(k) in keys <==> k in KeysOf(ports)
      modifies this`slaves
      ensures slaves == HalfDone(s, i, Keeps(ports))
    {
      HalfDoneStep(s, i, Keeps(ports));
      var slave := slaves[i];
      assert slave == s[i];
      if slave.key.slot in slots && KeyText(slave.key) !in keys {
        RemoveRegisteredSlave(slave.key);
      }
    }

    method UpsertSnapshot(ports: seq<PortSnapshot>) returns (slots: set<int>, keys: set<string>)
      requires Valid()
      modifies this
      ensures Valid() && slaves == UpsertPorts(old(slaves), ports)
      ensures connectedSlots == ConnectedAfter(old(connectedSlots), ports)
      ensures slots == SlotsOf(ports)
      ensures forall k: Key :: KeyText(k) in keys <==> k in KeysOf(ports)
    {
      slots, keys := {}, {};
      for p := 0 to |ports|
        invariant Valid() && slaves == UpsertPorts(old(slaves), ports[..p])
        invariant connectedSlots == ConnectedAfter(old(connectedSlots), ports[..p])
        invariant slots == SlotsOf(ports[..p])
        invariant forall k: Key :: KeyText(k) in keys <==> k in KeysOf(ports[..p])
      {
        assert ports[..p + 1] == ports[..p] + [ports[p]] && ports[..p + 1][..p] == ports[..p];
        SlotsGrow(ports[..p], ports[p]);
        KeysGrow(ports[..p], ports[p]);
        if ports[p].slot >= 0 {
          slots := slots + {ports[p].slot};
          if ports[p].connected {
            connectedSlots := connectedSlots + {ports[p].slot};
          } else {
            connectedSlots := connectedSlots - {ports[p].slot};
          }
          keys := UpsertDevices(ports[p].slot, ports[p].devices, keys, ports[..p]);
        }
      }
      assert ports[..|ports|] == ports;
    }

    method UpsertDevices(slot: int, devices: seq<DeviceSnapshot>, keys0: set<string>, ghost done: seq<PortSnapshot>)
      returns (keys: set<string>)
      requires Valid() && slot >= 0 && Collected(keys0, done, slot, [])
      modifies this`slaves
      ensures Valid() && slaves == UpsertAll(old(slaves), slot, devices)
      ensures Collected(keys, done, slot, devices)
    {
      keys := keys0;
      for d := 0 to |devices|
        invariant Valid() && slaves == UpsertAll(old(slaves), slot, devices[..d])
        invariant Collected(keys, done, slot, devices[..d])
      {
        assert devices[..d + 1][..d] == devices[..d];
        var k := DeviceKey(slot, devices[d]);
        CollectedGrows(keys, done, slot, devices[..d], devices[d]);
        assert devices[..d + 1] == devices[..d] + [devices[d]];
        if k.addr > 0 && k.deviceType != "" {
          keys := keys + {KeyText(k)};
          UpsertRegisteredSlave(k, devices[d].deviceName);
        }
      }
      assert devices[..|devices|] == devices;
    }
  }

  lemma SlotsGrow(ports: seq<PortSnapshot>, p: PortSnapshot)
    ensures SlotsOf(ports + [p]) == SlotsOf(ports) + if p.slot >= 0 then {p.slot} else {}
  {
    assert forall q :: q in ports + [p] <==> q in ports || q == p;
  }

  lemma KeysGrow(ports: seq<PortSnapshot>, p: PortSnapshot)
    ensures forall k: Key :: (k in KeysOf(ports + [p])
      <==> k in KeysOf(ports) || (ValidKey(k) && exists d :: d in p.devices && DeviceKey(p.slot, d) == k))
  {
    assert forall q :: q in ports + [p] <==> q in ports || q == p;
  }

  lemma CollectedGrows(keys: set<string>, done: seq<PortSnapshot>, slot: int, ds: seq<DeviceSnapshot>,
                       d: DeviceSnapshot)
    requires Collected(keys, done, slot, ds)
    ensures var k := DeviceKey(slot, d);
            Collected(if ValidKey(k) then keys + {KeyText(k)} else keys, done, slot, ds + [d])
  {
    var k := DeviceKey(slot, d);
    forall q: Key | KeyText(q) == KeyText(k)
      ensures q == k
    {
      KeyTextInjective(q, k);
    }
    assert forall e :: e in ds + [d] <==> e in ds || e == d;
  }
}
