/** The control plane's storage nodes grouped into the machines they run on. */
module Hosts {
  import opened Text
  import opened Seqs

  datatype Node = Node(id: string, hostname: string, mgmtIp: string, online: bool, capacity: nat,
                       cpu: Option<real>, memory: Option<real>, hugepages: Option<real>, spdkMem: Option<real>)
  datatype Device = Device(id: string, kind: string, pcie: Option<string>, inUse: bool)
  datatype Nic = Nic(name: string, ip: string)

  /** A node with its device and NIC lists, None where they could not be read. */
  datatype Reading = Reading(node: Node, devices: Option<seq<Device>>, nics: Option<seq<Nic>>)

  datatype Host = Host(hostname: string, mgmtIp: string, available: bool, nodes: seq<Node>, devices: seq<Device>,
                       nics: seq<Nic>, capacity: nat, devicesKnown: bool, nicsKnown: bool)

  // ---- the machine of a storage node ----

  function TrailingDigits(s: string): (n: nat)
    ensures n <= |s|
  {
    if s == [] || !IsDigit(s[|s| - 1]) then 0 else 1 + TrailingDigits(s[..|s| - 1])
  }

  /** Without the RPC port: a trailing _ and digits. */
  function HostKey(hostname: string): string {
    var n := TrailingDigits(hostname);
    if 0 < n < |hostname| && hostname[|hostname| - n - 1] == '_' then hostname[..|hostname| - n - 1] else hostname
  }

  lemma {:induction false} PortIsTrailing(name: string, port: string)
    requires Numeral(port) || port == []
    ensures TrailingDigits(name + ['_'] + port) == |port|
  {
    var s := name + ['_'] + port;
    if port != [] {
      PortIsTrailing(name, port[..|port| - 1]);
      assert s[..|s| - 1] == name + ['_'] + port[..|port| - 1];
    }
  }

  lemma {:induction false} TrailingAre(s: string)
    ensures forall i | |s| - TrailingDigits(s) <= i < |s| :: IsDigit(s[i])
  {
    if s != [] && IsDigit(s[|s| - 1]) {
      TrailingAre(s[..|s| - 1]);
    }
  }

  /** The nodes of a machine differ in the port alone; a hostname without a port is its own machine. */
  lemma HostKeyIs(hostname: string)
    ensures forall name, port | Numeral(port) && hostname == name + ['_'] + port :: HostKey(hostname) == name
    ensures HostKey(hostname) == hostname
      || exists port | Numeral(port) :: hostname == HostKey(hostname) + ['_'] + port
  {
    forall name, port | Numeral(port) && hostname == name + ['_'] + port
      ensures HostKey(hostname) == name
    {
      PortIsTrailing(name, port);
    }
    if HostKey(hostname) != hostname {
      TrailingAre(hostname);
      var port := hostname[|hostname| - TrailingDigits(hostname)..];
      assert hostname == HostKey(hostname) + ['_'] + port;
    }
  }

  // ---- one more node on a machine ----

  predicate Named(nics: seq<Nic>, name: string) {
    exists x <- nics :: x.name == name
  }

  function AddNics(nics: seq<Nic>, more: seq<Nic>): seq<Nic>
    decreases more
  {
    if more == [] then nics
    else AddNics(if Named(nics, more[0].name) then nics else nics + [more[0]], more[1..])
  }

  function Blank(key: string, mgmtIp: string): Host {
    Host(key, mgmtIp, false, [], [], [], 0, true, true)
  }

  function Extend(h: Host, r: Reading): Host {
    h.(available := h.available || r.node.online,
       nodes := h.nodes + [r.node],
       capacity := h.capacity + r.node.capacity,
       devices := if r.devices.Some? then h.devices + r.devices.value else h.devices,
       devicesKnown := h.devicesKnown && r.devices.Some?,
       nics := if r.nics.Some? then AddNics(h.nics, r.nics.value) else h.nics,
       nicsKnown := h.nicsKnown && r.nics.Some?)
  }

  /** Where the machine of a key is, the length for none. */
  function PlaceOf(hosts: seq<Host>, key: string): (i: nat)
    ensures i <= |hosts| && (i < |hosts| ==> hosts[i].hostname == key)
    ensures forall j | 0 <= j < i :: hosts[j].hostname != key
  {
    IndexOf(Map(hosts, (h: Host) => h.hostname), key)
  }

  // ---- what a machine is: the nodes with its key, in their order ----

  function Key(r: Reading): string { HostKey(r.node.hostname) }

  function OnHost(readings: seq<Reading>, key: string): seq<Reading> {
    Filter(readings, (r: Reading) => Key(r) == key)
  }

  function NodesOf(readings: seq<Reading>): seq<Node> { Map(readings, (r: Reading) => r.node) }

  function DevicesOf(readings: seq<Reading>): seq<Device> {
    Flatten(Map(readings, (r: Reading) => if r.devices.Some? then r.devices.value else []))
  }

  function NicsOf(readings: seq<Reading>): seq<Nic> {
    Flatten(Map(readings, (r: Reading) => if r.nics.Some? then r.nics.value else []))
  }

  function Capacity(nodes: seq<Node>): nat {
    if nodes == [] then 0 else nodes[0].capacity + Capacity(nodes[1..])
  }

  /** The first NIC of every name. */
  function FirstNamed(nics: seq<Nic>): seq<Nic> {
    if nics == [] then []
    else
      var n := |nics| - 1;
      var front := FirstNamed(nics[..n]);
      if Named(front, nics[n].name) then front else front + [nics[n]]
  }

  function Machine(key: string, mgmtIp: string, on: seq<Reading>): Host {
    Host(key, mgmtIp,
         exists r <- on :: r.node.online,
         NodesOf(on), DevicesOf(on), FirstNamed(NicsOf(on)), Capacity(NodesOf(on)),
         forall r <- on :: r.devices.Some?,
         forall r <- on :: r.nics.Some?)
  }

  function Keys(readings: seq<Reading>): seq<string> { Map(readings, (r: Reading) => Key(r)) }

  /** One machine for every key, in the order the keys first come up. */
  function Machines(readings: seq<Reading>): seq<Host> {
    Map(Dedup(Keys(readings)), key => MachineOf(readings, key))
  }

  function MachineOf(readings: seq<Reading>, key: string): Host {
    var on := OnHost(readings, key);
    Machine(key, if on == [] then "" else on[0].node.mgmtIp, on)
  }

  // ---- the fold gives the machines ----

  lemma {:induction false} AddNicsIs(nics: seq<Nic>, more: seq<Nic>)
    ensures AddNics(FirstNamed(nics), more) == FirstNamed(nics + more)
    decreases more
  {
    if more == [] {
      assert nics + more == nics;
    } else {
      var next := nics + [more[0]];
      assert next[..|nics|] == nics;
      AddNicsIs(next, more[1..]);
      assert nics + more == next + more[1..];
    }
  }

  lemma {:induction false} CapacityConcat(a: seq<Node>, b: seq<Node>)
    ensures Capacity(a + b) == Capacity(a) + Capacity(b)
  {
    if a == [] {
      assert a + b == b;
    } else {
      CapacityConcat(a[1..], b);
      assert (a + b)[1..] == a[1..] + b;
    }
  }

  lemma FlattenOneMore<T>(xss: seq<seq<T>>, xs: seq<T>)
    ensures Flatten(xss + [xs]) == Flatten(xss) + xs
  {
    FlattenConcat(xss, [xs]);
    assert [xs][1..] == [];
  }

  lemma ListsOneMore(on: seq<Reading>, r: Reading)
    ensures NodesOf(on + [r]) == NodesOf(on) + [r.node]
    ensures DevicesOf(on + [r]) == DevicesOf(on) + if r.devices.Some? then r.devices.value else []
    ensures NicsOf(on + [r]) == NicsOf(on) + if r.nics.Some? then r.nics.value else []
    ensures Capacity(NodesOf(on + [r])) == Capacity(NodesOf(on)) + r.node.capacity
  {
    hide Flatten;
    var devices := (x: Reading) => if x.devices.Some? then x.devices.value else [];
    var nics := (x: Reading) => if x.nics.Some? then x.nics.value else [];
    assert Map(on + [r], devices) == Map(on, devices) + [devices(r)];
    assert Map(on + [r], nics) == Map(on, nics) + [nics(r)];
    FlattenOneMore(Map(on, devices), devices(r));
    FlattenOneMore(Map(on, nics), nics(r));
    assert NodesOf(on + [r]) == NodesOf(on) + [r.node];
    CapacityConcat(NodesOf(on), [r.node]);
    assert [r.node][1..] == [];
  }

  lemma ExtendIsMachine(key: string, mgmtIp: string, on: seq<Reading>, r: Reading)
    ensures Extend(Machine(key, mgmtIp, on), r) == Machine(key, mgmtIp, on + [r])
    ensures Machine(key, mgmtIp, []) == Blank(key, mgmtIp)
  {
    hide NodesOf, DevicesOf, NicsOf, FirstNamed, AddNics, Capacity;
    ListsOneMore(on, r);
    EmptyLists();
    assert NicsOf(on) + [] == NicsOf(on) && DevicesOf(on) + [] == DevicesOf(on);
    if r.nics.Some? {
      AddNicsIs(NicsOf(on), r.nics.value);
    }
    forall x
      ensures x in on + [r] <==> x in on || x == r
    {
    }
    assert r in on + [r];
  }

  lemma EmptyLists()
    ensures NodesOf([]) == [] && DevicesOf([]) == [] && FirstNamed(NicsOf([])) == [] && Capacity([]) == 0
  {
  }

  lemma OnHostOneMore(readings: seq<Reading>, r: Reading, key: string)
    ensures OnHost(readings + [r], key) == if Key(r) == key then OnHost(readings, key) + [r] else OnHost(readings, key)
  {
    FilterConcat(readings, [r], (x: Reading) => Key(x) == key);
    FilterStep(r, [], (x: Reading) => Key(x) == key);
    assert [r] + [] == [r] && OnHost(readings, key) + [] == OnHost(readings, key);
  }

  lemma KeyUsed(readings: seq<Reading>, key: string)
    ensures key in Keys(readings) <==> OnHost(readings, key) != []
  {
    hide Key;
    FilterIn(readings, (x: Reading) => Key(x) == key);
    if OnHost(readings, key) != [] {
      var x := OnHost(readings, key)[0];
      assert x in OnHost(readings, key);
      var i :| 0 <= i < |readings| && readings[i] == x;
      assert Keys(readings)[i] == key;
    } else {
      forall i | 0 <= i < |readings|
        ensures Keys(readings)[i] != key
      {
        assert readings[i] in readings;
      }
    }
  }

  lemma KeysOneMore(readings: seq<Reading>, r: Reading)
    ensures Dedup(Keys(readings + [r])) ==
      if Key(r) in Dedup(Keys(readings)) then Dedup(Keys(readings)) else Dedup(Keys(readings)) + [Key(r)]
    ensures Key(r) in Dedup(Keys(readings)) <==> OnHost(readings, Key(r)) != []
  {
    hide Key, Dedup, OnHost;
    assert Keys(readings + [r]) == Keys(readings) + [Key(r)];
    DedupOneMore(Keys(readings), Key(r));
    DedupIs(Keys(readings));
    KeyUsed(readings, Key(r));
  }

  lemma MachineOneMore(readings: seq<Reading>, r: Reading, key: string)
    ensures Key(r) != key ==> MachineOf(readings + [r], key) == MachineOf(readings, key)
    ensures Key(r) == key ==>
      MachineOf(readings + [r], key)
        == Extend(if OnHost(readings, key) == [] then Blank(key, r.node.mgmtIp) else MachineOf(readings, key), r)
  {
    hide OnHost, Machine, Extend, Blank, HostKey;
    OnHostOneMore(readings, r, key);
    var on := OnHost(readings, key);
    ExtendIsMachine(key, (if on == [] then r else on[0]).node.mgmtIp, on, r);
    if on == [] {
      assert on + [r] == [r];
    }
  }

  lemma MachinesAre(readings: seq<Reading>)
    ensures var keys := Dedup(Keys(readings));
      && |Machines(readings)| == |keys|
      && forall i | 0 <= i < |keys| :: Machines(readings)[i] == MachineOf(readings, keys[i]) && Machines(readings)[i].hostname == keys[i]
    ensures Distinct(Dedup(Keys(readings)))
  {
    hide Dedup;
    DedupIs(Keys(readings));
  }

  /** by[k] = by[k] || {...}; then the node's record is added to it. */
  function Put(hosts: seq<Host>, r: Reading): seq<Host> {
    var i := PlaceOf(hosts, Key(r));
    if i < |hosts| then hosts[i := Extend(hosts[i], r)] else hosts + [Extend(Blank(Key(r), r.node.mgmtIp), r)]
  }

  lemma PutIsMachines(readings: seq<Reading>, r: Reading)
    ensures Put(Machines(readings), r) == Machines(readings + [r])
  {
    hide MachineOf, Machines, Keys, Key, Dedup, Extend, Blank, OnHost;
    var hosts, next := Machines(readings), Machines(readings + [r]);
    var keys := Dedup(Keys(readings));
    MachinesAre(readings);
    MachinesAre(readings + [r]);
    KeysOneMore(readings, r);
    var i := PlaceOf(hosts, Key(r));
    MachineOneMore(readings, r, Key(r));
    forall j | 0 <= j < |hosts|
      ensures Put(hosts, r)[j] == next[j]
    {
      MachineOneMore(readings, r, keys[j]);
    }
    assert i < |hosts| <==> Key(r) in keys;
  }

  method AddNicsTo(nics: seq<Nic>, more: seq<Nic>) returns (r: seq<Nic>)
    ensures r == AddNics(nics, more)
  {
    r := nics;
    for i := 0 to |more|
      invariant AddNics(r, more[i..]) == AddNics(nics, more)
    {
      assert more[i..][1..] == more[i + 1..];
      if !exists y <- r :: y.name == more[i].name {
        r := r + [more[i]];
      }
    }
  }

  /** The hosts of a cluster before the other sources are merged in. */
  method GroupHosts(readings: seq<Reading>) returns (hosts: seq<Host>)
    ensures hosts == Machines(readings)
  {
    hide Machines, Keys, Dedup, AddNics, HostKey;
    hosts := [];
    NoMachines();
    for i := 0 to |readings|
      invariant hosts == Machines(readings[..i])
    {
      var r := readings[i];
      assert readings[..i + 1] == readings[..i] + [r];
      PutIsMachines(readings[..i], r);
      var k := HostKey(r.node.hostname);
      var at := PlaceOf(hosts, k);
      if at == |hosts| {
        hosts := hosts + [Host(k, r.node.mgmtIp, false, [], [], [], 0, true, true)];
      }
      var h := hosts[at];
      h := h.(nodes := h.nodes + [r.node]);
      if r.node.online {
        h := h.(available := true);
      }
      h := h.(capacity := h.capacity + r.node.capacity);
      if r.devices.Some? {
        h := h.(devices := h.devices + r.devices.value);
      } else {
        h := h.(devicesKnown := false);
      }
      if r.nics.Some? {
        var nics := AddNicsTo(h.nics, r.nics.value);
        h := h.(nics := nics);
      } else {
        h := h.(nicsKnown := false);
      }
      hosts := hosts[at := h];
    }
    assert readings[..|readings|] == readings;
  }

  lemma NoMachines()
    ensures Machines([]) == []
  {
  }

  // ---- what the grouping keeps ----

  function AllNodes(hosts: seq<Host>): seq<Node> {
    Flatten(Map(hosts, (h: Host) => h.nodes))
  }

  function AllDevices(hosts: seq<Host>): seq<Device> {
    Flatten(Map(hosts, (h: Host) => h.devices))
  }

  function TotalCapacity(hosts: seq<Host>): nat {
    if hosts == [] then 0 else hosts[0].capacity + TotalCapacity(hosts[1..])
  }

  lemma ListsConcat(a: seq<Host>, b: seq<Host>)
    ensures AllNodes(a + b) == AllNodes(a) + AllNodes(b)
    ensures AllDevices(a + b) == AllDevices(a) + AllDevices(b)
  {
    hide Flatten;
    var nodes, devices := (h: Host) => h.nodes, (h: Host) => h.devices;
    assert Map(a + b, nodes) == Map(a, nodes) + Map(b, nodes);
    FlattenConcat(Map(a, nodes), Map(b, nodes));
    assert Map(a + b, devices) == Map(a, devices) + Map(b, devices);
    FlattenConcat(Map(a, devices), Map(b, devices));
  }

  lemma {:induction false} TotalConcat(a: seq<Host>, b: seq<Host>)
    ensures TotalCapacity(a + b) == TotalCapacity(a) + TotalCapacity(b)
    ensures AllNodes(a + b) == AllNodes(a) + AllNodes(b)
    ensures AllDevices(a + b) == AllDevices(a) + AllDevices(b)
  {
    hide AllNodes, AllDevices;
    ListsConcat(a, b);
    if a == [] {
      assert a + b == b;
    } else {
      TotalConcat(a[1..], b);
      assert (a + b)[1..] == a[1..] + b;
    }
  }

  lemma OneTotal(h: Host)
    ensures TotalCapacity([h]) == h.capacity && AllNodes([h]) == h.nodes && AllDevices([h]) == h.devices
  {
    var nodes, devices := Map([h], (h: Host) => h.nodes), Map([h], (h: Host) => h.devices);
    assert nodes == [h.nodes] + [] && devices == [h.devices] + [];
    FlattenStep(h.nodes, []);
    FlattenStep(h.devices, []);
    assert TotalCapacity([h][1..]) == 0;
  }

  lemma PutAdds(hosts: seq<Host>, r: Reading)
    ensures TotalCapacity(Put(hosts, r)) == TotalCapacity(hosts) + r.node.capacity
    ensures multiset(AllNodes(Put(hosts, r))) == multiset(AllNodes(hosts)) + multiset{r.node}
    ensures multiset(AllDevices(Put(hosts, r))) == multiset(AllDevices(hosts)) + multiset(if r.devices.Some? then r.devices.value else [])
  {
    hide AllNodes, AllDevices, TotalCapacity, Key, AddNics;
    var i := PlaceOf(hosts, Key(r));
    if i < |hosts| {
      var h := Extend(hosts[i], r);
      assert hosts == hosts[..i] + [hosts[i]] + hosts[i + 1..];
      assert Put(hosts, r) == hosts[..i] + [h] + hosts[i + 1..];
      TotalConcat(hosts[..i] + [hosts[i]], hosts[i + 1..]);
      TotalConcat(hosts[..i], [hosts[i]]);
      TotalConcat(hosts[..i] + [h], hosts[i + 1..]);
      TotalConcat(hosts[..i], [h]);
      OneTotal(hosts[i]);
      OneTotal(h);
    } else {
      var h := Extend(Blank(Key(r), r.node.mgmtIp), r);
      TotalConcat(hosts, [h]);
      OneTotal(h);
      assert [] + [r.node] == [r.node];
    }
  }

  /** No node, no device that was read and no capacity is lost or counted twice. */
  lemma {:induction false} GroupingConserves(readings: seq<Reading>)
    ensures multiset(AllNodes(Machines(readings))) == multiset(NodesOf(readings))
    ensures multiset(AllDevices(Machines(readings))) == multiset(DevicesOf(readings))
    ensures TotalCapacity(Machines(readings)) == Capacity(NodesOf(readings))
  {
    hide Machines, Put, Capacity, AllNodes, AllDevices, DevicesOf, TotalCapacity;
    if readings == [] {
      NoMachines();
      NoTotals();
    } else {
      var before, r := readings[..|readings| - 1], readings[|readings| - 1];
      assert readings == before + [r];
      GroupingConserves(before);
      PutIsMachines(before, r);
      PutAdds(Machines(before), r);
      ListsOneMore(before, r);
      assert NodesOf(readings) == NodesOf(before) + [r.node];
    }
  }

  lemma NoTotals()
    ensures AllNodes([]) == [] && AllDevices([]) == [] && DevicesOf([]) == [] && TotalCapacity([]) == 0 && Capacity([]) == 0
  {
  }

  /** Every node is on the machine its hostname names and on no other, and no two machines share a name. */
  lemma NodesByKey(readings: seq<Reading>)
    ensures var hosts := Machines(readings);
      && (forall i, j | 0 <= i < j < |hosts| :: hosts[i].hostname != hosts[j].hostname)
      && (forall i | 0 <= i < |hosts| ::
            hosts[i].nodes == Filter(NodesOf(readings), (n: Node) => HostKey(n.hostname) == hosts[i].hostname))
      && (forall r <- readings :: exists i | 0 <= i < |hosts| :: hosts[i].hostname == Key(r))
      && (forall i | 0 <= i < |hosts| :: hosts[i].nodes != [] && hosts[i].capacity == Capacity(hosts[i].nodes))
  {
    hide Machines, Dedup, HostKey, Capacity;
    MachinesAre(readings);
    var hosts, keys := Machines(readings), Dedup(Keys(readings));
    DedupIs(Keys(readings));
    forall i | 0 <= i < |hosts|
      ensures hosts[i].nodes == Filter(NodesOf(readings), (n: Node) => HostKey(n.hostname) == hosts[i].hostname)
      ensures hosts[i].nodes != [] && hosts[i].capacity == Capacity(hosts[i].nodes)
    {
      NodesFiltered(readings, keys[i]);
      KeyUsed(readings, keys[i]);
    }
    forall r | r in readings
      ensures exists i | 0 <= i < |hosts| :: hosts[i].hostname == Key(r)
    {
      var j :| 0 <= j < |readings| && readings[j] == r;
      assert Keys(readings)[j] == Key(r);
    }
  }

  lemma NodesFiltered(readings: seq<Reading>, key: string)
    ensures NodesOf(OnHost(readings, key)) == Filter(NodesOf(readings), (n: Node) => HostKey(n.hostname) == key)
  {
    FilterImages(readings, (r: Reading) => r.node, (n: Node) => HostKey(n.hostname) == key, (r: Reading) => Key(r) == key);
  }

  /** Where a NIC of the list first has its name. */
  predicate FirstOfName(nics: seq<Nic>, y: Nic) {
    exists i | 0 <= i < |nics| :: nics[i] == y && forall j | 0 <= j < i :: nics[j].name != y.name
  }

  lemma FirstOneMore(nics: seq<Nic>, x: Nic)
    ensures forall y :: FirstOfName(nics, y) ==> FirstOfName(nics + [x], y)
    ensures (forall i | 0 <= i < |nics| :: nics[i].name != x.name) ==> FirstOfName(nics + [x], x)
  {
    forall y | FirstOfName(nics, y)
      ensures FirstOfName(nics + [x], y)
    {
      var i :| 0 <= i < |nics| && nics[i] == y && forall j | 0 <= j < i :: nics[j].name != y.name;
      assert (nics + [x])[i] == y;
    }
    assert (nics + [x])[|nics|] == x;
  }

  lemma NamedOneMore(nics: seq<Nic>, x: Nic)
    ensures forall name :: Named(nics + [x], name) <==> Named(nics, name) || x.name == name
    ensures forall i | 0 <= i < |nics| :: Named(nics, nics[i].name)
  {
    forall y
      ensures y in nics + [x] <==> y in nics || y == x
    {
    }
    assert x in nics + [x];
  }

  /** A host lists every NIC name once, as the first node that reports it does. */
  lemma {:induction false} NicsAreFirst(nics: seq<Nic>)
    ensures var r := FirstNamed(nics);
      && (forall i, j | 0 <= i < j < |r| :: r[i].name != r[j].name)
      && (forall i | 0 <= i < |nics| :: Named(r, nics[i].name))
      && (forall i | 0 <= i < |r| :: FirstOfName(nics, r[i]))
  {
    hide FirstOfName, Named;
    if nics != [] {
      var n := |nics| - 1;
      var rest, x := nics[..n], nics[n];
      NicsAreFirst(rest);
      assert nics == rest + [x];
      FirstOneMore(rest, x);
      NamedOneMore(FirstNamed(rest), x);
      assert forall i | 0 <= i < n :: nics[i] == rest[i];
    }
  }

  // ---- the cluster's own counts ----

  function HostNames(nodes: seq<Node>): set<string> {
    set n | n in nodes :: HostKey(n.hostname)
  }

  function HostsCount(nodes: seq<Node>): nat {
    |HostNames(nodes)|
  }

  function HostsAvailable(nodes: seq<Node>): nat {
    |HostNames(Filter(nodes, (n: Node) => n.online))|
  }

  lemma KeySet(readings: seq<Reading>)
    ensures (set k | k in Keys(readings)) == HostNames(NodesOf(readings))
  {
    hide HostKey;
    forall k | k in Keys(readings)
      ensures k in HostNames(NodesOf(readings))
    {
      var i :| 0 <= i < |readings| && Keys(readings)[i] == k;
      assert NodesOf(readings)[i] in NodesOf(readings);
    }
    forall n | n in NodesOf(readings)
      ensures HostKey(n.hostname) in Keys(readings)
    {
      var i :| 0 <= i < |readings| && NodesOf(readings)[i] == n;
      assert Keys(readings)[i] == HostKey(n.hostname);
    }
  }

  /** The host view lists as many hosts as the cluster counts. */
  lemma CountIsHostsCount(readings: seq<Reading>)
    ensures |Machines(readings)| == HostsCount(NodesOf(readings))
  {
    hide Machines, Dedup, HostKey, HostNames, Keys, NodesOf;
    MachinesAre(readings);
    DedupCount(Keys(readings));
    KeySet(readings);
  }

  predicate Online(readings: seq<Reading>, key: string) {
    exists r <- OnHost(readings, key) :: r.node.online
  }

  /** The machines of some keys that are available. */
  function AvailableAmong(hosts: seq<Host>): seq<Host> { Filter(hosts, (h: Host) => h.available) }

  function OnlineKeys(readings: seq<Reading>): seq<string> {
    Filter(Dedup(Keys(readings)), key => Online(readings, key))
  }

  lemma OnlineNames(readings: seq<Reading>)
    ensures (set k | k in OnlineKeys(readings))
      == HostNames(Filter(NodesOf(readings), (n: Node) => n.online))
  {
    hide HostKey, Dedup;
    var some := OnlineKeys(readings);
    var online := Filter(NodesOf(readings), (n: Node) => n.online);
    DedupIs(Keys(readings));
    FilterIn(Dedup(Keys(readings)), key => Online(readings, key));
    FilterIn(NodesOf(readings), (n: Node) => n.online);
    forall k | k in some
      ensures k in HostNames(online)
    {
      FilterIn(readings, (r: Reading) => Key(r) == k);
      var r :| r in OnHost(readings, k) && r.node.online;
      var i :| 0 <= i < |readings| && readings[i] == r;
      assert NodesOf(readings)[i] in NodesOf(readings);
    }
    forall n | n in online
      ensures HostKey(n.hostname) in some
    {
      var i :| 0 <= i < |readings| && NodesOf(readings)[i] == n;
      var k := Keys(readings)[i];
      FilterIn(readings, (r: Reading) => Key(r) == k);
      assert readings[i] in OnHost(readings, k);
    }
  }

  /** The host view shows as many available hosts as the cluster counts, before the inventory has its say. */
  lemma AvailableIsHostsAvailable(readings: seq<Reading>)
    ensures |AvailableAmong(Machines(readings))| == HostsAvailable(NodesOf(readings))
  {
    hide HostKey, Dedup, Keys, NodesOf, HostNames, Online;
    var keys := Dedup(Keys(readings));
    var machine := (key: string) => MachineOf(readings, key);
    var online := (key: string) => Online(readings, key);
    MachinesAre(readings);
    AvailableMeansOnline(readings);
    FilterImages(keys, machine, (h: Host) => h.available, online);
    FilterDistinct(keys, online);
    DistinctCount(Filter(keys, online));
    OnlineNames(readings);
  }

  lemma AvailableMeansOnline(readings: seq<Reading>)
    ensures forall key :: MachineOf(readings, key).available == Online(readings, key)
  {
  }
}
