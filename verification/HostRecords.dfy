/** One machine, every source that knows something about it: the merge and where each field came from. */
module HostRecords {
  import opened Text
  import opened Seqs
  import H = Hosts

  datatype Field =
    | VcpuCount | MemoryTotal | HugepagesReserved | HugepagesAllocated | MemoryPerPod | DataNics | Devices | Nics
    | Zone | ZoneId | Region | RackId | CabinetId | K8sCluster | MgmtNic | NumaSocketsUsed | HostClass

  /** Missing is null, undefined and NaN. */
  datatype Value = Missing | Num(n: real) | Words(s: string) | Names(names: seq<string>) | Numbers(numbers: seq<int>)

  predicate Known(v: Value) {
    match v
    case Missing => false
    case Num(_) => true
    case Words(s) => s != ""
    case Names(xs) => xs != []
    case Numbers(xs) => xs != []
  }

  /** A source knows a field unless it has nothing there, an empty text or an empty list. */
  lemma KnownIs(v: Value)
    ensures Known(v) <==> v != Missing && v != Words("") && v != Names([]) && v != Numbers([])
  {
  }

  const CPS := "control plane API"
  const INV := "dr-agent inventory"

  /** A node of the dr-agent's inventory, its quantities read; zoneId is made from the site and the zone. */
  datatype Inventory = Inventory(site: string, zone: string, zoneId: string, region: string, rack: string,
                                 cabinet: string, cpu: Value, memory: Value, hugepages: Value, ready: Option<bool>)

  datatype Group = Group(workers: seq<string>, mgmtInterface: string, dataInterfaces: seq<string>,
                         spdkMemory: Value, nvme: seq<string>)
  datatype Deployment = Deployment(name: string, sockets: seq<int>, nodeSets: seq<seq<Group>>)
  datatype Draft = Draft(group: Group, sockets: seq<int>, name: string)

  function From(dg: Draft): string { "StorageSiteDeployment " + dg.name }

  // ---- the draft group that names a host ----

  predicate IsWorker(deploys: seq<Deployment>, host: string, d: nat, s: nat, g: nat) {
    d < |deploys| && s < |deploys[d].nodeSets| && g < |deploys[d].nodeSets[s]| && host in deploys[d].nodeSets[s][g].workers
  }

  predicate Before(d: nat, s: nat, g: nat, d': nat, s': nat, g': nat) {
    d < d' || (d == d' && (s < s' || (s == s' && g < g')))
  }

  ghost predicate IsFirst(deploys: seq<Deployment>, host: string, d: nat, s: nat, g: nat) {
    && IsWorker(deploys, host, d, s, g)
    && forall x: nat, y: nat, z: nat :: IsWorker(deploys, host, x, y, z) ==> !Before(x, y, z, d, s, g)
  }

  /** The first group, in the order of deployments, node sets and groups, that has the host among its workers. */
  method DraftGroupOf(deploys: seq<Deployment>, host: string) returns (r: Option<Draft>)
    ensures r.None? <==> forall d: nat, s: nat, g: nat :: !IsWorker(deploys, host, d, s, g)
    ensures r.Some? ==> exists d: nat, s: nat, g: nat ::
      IsFirst(deploys, host, d, s, g) && r.value == Draft(deploys[d].nodeSets[s][g], deploys[d].sockets, deploys[d].name)
  {
    for d := 0 to |deploys|
      invariant forall x: nat, y: nat, z: nat :: IsWorker(deploys, host, x, y, z) ==> !Before(x, y, z, d, 0, 0)
    {
      var sets := deploys[d].nodeSets;
      for s := 0 to |sets|
        invariant forall x: nat, y: nat, z: nat :: IsWorker(deploys, host, x, y, z) ==> !Before(x, y, z, d, s, 0)
      {
        var groups := sets[s];
        for g := 0 to |groups|
          invariant forall x: nat, y: nat, z: nat :: IsWorker(deploys, host, x, y, z) ==> !Before(x, y, z, d, s, g)
        {
          if host in groups[g].workers {
            assert IsFirst(deploys, host, d, s, g);
            return Some(Draft(groups[g], deploys[d].sockets, deploys[d].name));
          }
        }
      }
    }
    r := None;
  }

  // ---- fields and their sources ----

  function Positive(xs: seq<Option<real>>): seq<real> {
    if xs == [] then []
    else (if xs[0].Some? && xs[0].value > 0.0 then [xs[0].value] else []) + Positive(xs[1..])
  }

  function Highest(xs: seq<real>): real
    requires xs != []
  {
    if |xs| == 1 then xs[0]
    else
      var rest := Highest(xs[1..]);
      if xs[0] >= rest then xs[0] else rest
  }

  function Total(xs: seq<real>): real {
    if xs == [] then 0.0 else xs[0] + Total(xs[1..])
  }

  function MaxOf(nodes: seq<H.Node>, f: H.Node -> Option<real>): Value {
    var v := Positive(Map(nodes, f));
    if v == [] then Missing else Num(Highest(v))
  }

  function SumOf(nodes: seq<H.Node>, f: H.Node -> Option<real>): Value {
    var v := Positive(Map(nodes, f));
    if v == [] then Missing else Num(Total(v))
  }

  /** A node that gives a positive number. */
  predicate Gives(nodes: seq<H.Node>, f: H.Node -> Option<real>, v: real) {
    exists n <- nodes :: f(n) == Some(v) && v > 0.0
  }

  lemma {:induction false} PositiveIs(xs: seq<Option<real>>)
    ensures forall v :: v in Positive(xs) <==> Some(v) in xs && v > 0.0
  {
    if xs != [] {
      PositiveIs(xs[1..]);
      assert xs == [xs[0]] + xs[1..];
    }
  }

  lemma {:induction false} HighestIs(xs: seq<real>)
    requires xs != []
    ensures Highest(xs) in xs && forall x <- xs :: x <= Highest(xs)
  {
    assert xs == [xs[0]] + xs[1..];
    if |xs| > 1 {
      HighestIs(xs[1..]);
    }
  }

  /** The maximum over the nodes is the highest positive number one of them gives, and missing when none gives one. */
  lemma MaxIs(nodes: seq<H.Node>, f: H.Node -> Option<real>)
    ensures var m := MaxOf(nodes, f);
      && (m.Num? || m.Missing?)
      && (m.Missing? <==> forall v :: !Gives(nodes, f, v))
      && (m.Num? ==> Gives(nodes, f, m.n) && forall v :: Gives(nodes, f, v) ==> v <= m.n)
  {
    hide Positive, Highest;
    var xs := Map(nodes, f);
    PositiveIs(xs);
    if Positive(xs) != [] {
      HighestIs(Positive(xs));
    }
    forall v
      ensures Gives(nodes, f, v) <==> v in Positive(xs)
    {
      if Some(v) in xs {
        var i :| 0 <= i < |xs| && xs[i] == Some(v);
        assert nodes[i] in nodes;
      }
      if Gives(nodes, f, v) {
        var n :| n in nodes && f(n) == Some(v);
        var i :| 0 <= i < |nodes| && nodes[i] == n;
        assert xs[i] == Some(v);
      }
    }
    if Positive(xs) != [] {
      assert Positive(xs)[0] in Positive(xs);
    }
  }

  /** What a value adds to a sum. */
  function Amount(v: Value): real {
    if v.Num? then v.n else 0.0
  }

  lemma PositiveStep(x: Option<real>, xs: seq<Option<real>>)
    ensures Positive([x] + xs) == (if x.Some? && x.value > 0.0 then [x.value] else []) + Positive(xs)
    ensures Positive([]) == []
  {
    assert ([x] + xs)[1..] == xs;
  }

  lemma {:induction false} PositiveConcat(a: seq<Option<real>>, b: seq<Option<real>>)
    ensures Positive(a + b) == Positive(a) + Positive(b)
  {
    hide Positive;
    if a == [] {
      assert a + b == b;
      PositiveStep(None, []);
    } else {
      var x, rest := a[0], a[1..];
      PositiveConcat(rest, b);
      assert a == [x] + rest && a + b == [x] + (rest + b);
      PositiveStep(x, rest);
      PositiveStep(x, rest + b);
    }
  }

  lemma {:induction false} TotalConcat(a: seq<real>, b: seq<real>)
    ensures Total(a + b) == Total(a) + Total(b)
  {
    if a == [] {
      assert a + b == b;
    } else {
      TotalConcat(a[1..], b);
      assert (a + b)[1..] == a[1..] + b;
    }
  }

  /**
   * The sum over the nodes adds up the positive numbers they give, node by node, and is missing when none
   * gives one.
   */
  lemma SumIs(nodes: seq<H.Node>, n: H.Node, f: H.Node -> Option<real>)
    ensures SumOf([], f) == Missing
    ensures SumOf(nodes + [n], f) == match f(n)
      case None => SumOf(nodes, f)
      case Some(v) => if v > 0.0 then Num(Amount(SumOf(nodes, f)) + v) else SumOf(nodes, f)
  {
    hide Total, Positive;
    assert Map(nodes + [n], f) == Map(nodes, f) + [f(n)];
    PositiveConcat(Map(nodes, f), [f(n)]);
    PositiveStep(f(n), []);
    assert [f(n)] + [] == [f(n)];
    assert Positive([f(n)]) == if f(n).Some? && f(n).value > 0.0 then [f(n).value] else [];
    if f(n).Some? && f(n).value > 0.0 {
      TotalConcat(Positive(Map(nodes, f)), [f(n).value]);
      TotalOne(f(n).value);
    } else {
      assert Positive(Map(nodes, f)) + [] == Positive(Map(nodes, f));
    }
  }

  lemma TotalOne(v: real)
    ensures Total([v]) == v && Total([]) == 0.0
  {
    assert [v][1..] == [];
  }

  function NicNames(nics: seq<H.Nic>): seq<string> {
    Filter(Map(nics, (x: H.Nic) => x.name), (name: string) => name != "")
  }

  /** The NICs' names in their order, without empty ones. */
  lemma NicNamesSay(nics: seq<H.Nic>, x: H.Nic)
    ensures NicNames([]) == []
    ensures NicNames(nics + [x]) == NicNames(nics) + if x.name == "" then [] else [x.name]
  {
    hide Filter;
    var named := (name: string) => name != "";
    assert Map(nics + [x], (y: H.Nic) => y.name) == Map(nics, (y: H.Nic) => y.name) + [x.name];
    FilterConcat(Map(nics, (y: H.Nic) => y.name), [x.name], named);
    FilterStep(x.name, [], named);
    assert [x.name] + [] == [x.name];
    assert Map([], (y: H.Nic) => y.name) == [];
  }

  /** What the control plane's storage nodes recorded. */
  function NodeValue(h: H.Host, f: Field): Value {
    match f
    case VcpuCount => MaxOf(h.nodes, (n: H.Node) => n.cpu)
    case MemoryTotal => MaxOf(h.nodes, (n: H.Node) => n.memory)
    case HugepagesReserved => MaxOf(h.nodes, (n: H.Node) => n.hugepages)
    case HugepagesAllocated => SumOf(h.nodes, (n: H.Node) => n.spdkMem)
    case MemoryPerPod => MaxOf(h.nodes, (n: H.Node) => n.spdkMem)
    case DataNics => if h.nicsKnown then Names(NicNames(h.nics)) else Missing
    case _ => Missing
  }

  function InventoryValue(inv: Inventory, f: Field): Value {
    match f
    case Zone => Words(inv.zone)
    case ZoneId => if inv.zone == "" then Missing else Words(inv.zoneId)
    case Region => Words(inv.region)
    case RackId => Words(inv.rack)
    case CabinetId => Words(inv.cabinet)
    case K8sCluster => Words(inv.site)
    case VcpuCount => inv.cpu
    case MemoryTotal => inv.memory
    case HugepagesReserved => inv.hugepages
    case _ => Missing
  }

  function DraftValue(dg: Draft, f: Field): Value {
    match f
    case MgmtNic => Words(dg.group.mgmtInterface)
    case DataNics => Names(dg.group.dataInterfaces)
    case NumaSocketsUsed => Numbers(dg.sockets)
    case MemoryPerPod => dg.group.spdkMemory
    case _ => Missing
  }

  datatype Claim = Claim(value: Value, from: string)

  /** The node's own view of the machine comes first, what a storage node recorded second, the draft last. */
  function Claims(h: H.Host, inv: Option<Inventory>, dg: Option<Draft>, f: Field): seq<Claim> {
    [Claim(if inv.Some? then InventoryValue(inv.value, f) else Missing, "dr-agent inventory"),
     Claim(NodeValue(h, f), "control plane API"),
     if dg.Some? then Claim(DraftValue(dg.value, f), "StorageSiteDeployment " + dg.value.name) else Claim(Missing, "")]
  }

  function FirstKnown(claims: seq<Claim>): Option<Claim> {
    if claims == [] then None else if Known(claims[0].value) then Some(claims[0]) else FirstKnown(claims[1..])
  }

  // ---- devices ----

  predicate Listed(ds: seq<H.Device>, pcie: string) {
    exists d <- ds :: d.pcie == Some(pcie)
  }

  function DraftDevice(pcie: string): H.Device { H.Device("draft:" + pcie, "nvme", Some(pcie), false) }

  function WithDrafts(ds: seq<H.Device>, nvme: seq<string>): seq<H.Device>
    decreases nvme
  {
    if nvme == [] then ds
    else WithDrafts(if Listed(ds, nvme[0]) then ds else ds + [DraftDevice(nvme[0])], nvme[1..])
  }

  function MergedDevices(h: H.Host, dg: Option<Draft>): seq<H.Device> {
    if dg.Some? then WithDrafts(h.devices, dg.value.group.nvme) else h.devices
  }

  function DevicesSource(h: H.Host, dg: Option<Draft>): Option<string> {
    if h.devicesKnown then Some("control plane API")
    else if dg.Some? && MergedDevices(h, dg) != [] then Some(From(dg.value))
    else None
  }

  function Kinds(ds: seq<H.Device>): seq<string> { Dedup(Map(ds, (d: H.Device) => d.kind)) }

  predicate Demoted(inv: Option<Inventory>) { inv.Some? && inv.value.ready == Some(false) }

  function Taken(ds: seq<H.Device>): nat { |Filter(ds, (d: H.Device) => d.inUse)| }

  // ---- the fields of a record and the sources they came from ----

  datatype Cells = Cells(fields: map<Field, Value>, src: map<Field, string>)

  /** What a field holds and where it came from. */
  datatype Cell = Cell(value: Option<Value>, from: Option<string>)

  function At(c: Cells, f: Field): Cell {
    Cell(if f in c.fields then Some(c.fields[f]) else None, if f in c.src then Some(c.src[f]) else None)
  }

  function Put(c: Cells, f: Field, v: Value, from: string): Cells {
    if Known(v) then Cells(c.fields[f := v], c.src[f := from]) else c
  }

  function Mark(c: Cells, f: Field, from: string): Cells {
    c.(src := c.src[f := from])
  }

  function Over(cell: Cell, v: Value, from: string): Cell {
    if Known(v) then Cell(Some(v), Some(from)) else cell
  }

  lemma PutAt(c: Cells, f: Field, v: Value, from: string, x: Field)
    ensures At(Put(c, f, v, from), x) == if x == f then Over(At(c, x), v, from) else At(c, x)
    ensures At(Mark(c, f, from), x) == if x == f then Cell(At(c, x).value, Some(from)) else At(c, x)
  {
  }

  function WithNodes(c: Cells, h: H.Host): Cells {
    var c1 := Put(c, VcpuCount, MaxOf(h.nodes, (n: H.Node) => n.cpu), CPS);
    var c2 := Put(c1, MemoryTotal, MaxOf(h.nodes, (n: H.Node) => n.memory), CPS);
    var c3 := Put(c2, HugepagesReserved, MaxOf(h.nodes, (n: H.Node) => n.hugepages), CPS);
    var c4 := Put(c3, HugepagesAllocated, SumOf(h.nodes, (n: H.Node) => n.spdkMem), CPS);
    var c5 := Put(c4, MemoryPerPod, MaxOf(h.nodes, (n: H.Node) => n.spdkMem), CPS);
    var c6 := if h.devicesKnown then Mark(c5, Devices, CPS) else c5;
    if h.nicsKnown then Put(Mark(c6, Nics, CPS), DataNics, Names(NicNames(h.nics)), CPS) else c6
  }

  lemma NodesAt(c: Cells, h: H.Host, f: Field)
    ensures At(WithNodes(c, h), f) ==
      if (f.Devices? && h.devicesKnown) || (f.Nics? && h.nicsKnown) then Cell(At(c, f).value, Some(CPS))
      else Over(At(c, f), NodeValue(h, f), CPS)
  {
    hide MaxOf, SumOf, NicNames, Put, Mark, At;
    var v1, v2, v3 := NodeValue(h, VcpuCount), NodeValue(h, MemoryTotal), NodeValue(h, HugepagesReserved);
    var v4, v5 := NodeValue(h, HugepagesAllocated), NodeValue(h, MemoryPerPod);
    var c1 := Put(c, VcpuCount, v1, CPS);
    PutAt(c, VcpuCount, v1, CPS, f);
    var c2 := Put(c1, MemoryTotal, v2, CPS);
    PutAt(c1, MemoryTotal, v2, CPS, f);
    var c3 := Put(c2, HugepagesReserved, v3, CPS);
    PutAt(c2, HugepagesReserved, v3, CPS, f);
    var c4 := Put(c3, HugepagesAllocated, v4, CPS);
    PutAt(c3, HugepagesAllocated, v4, CPS, f);
    var c5 := Put(c4, MemoryPerPod, v5, CPS);
    PutAt(c4, MemoryPerPod, v5, CPS, f);
    PutAt(c5, Devices, Missing, CPS, f);
    var c6 := if h.devicesKnown then Mark(c5, Devices, CPS) else c5;
    PutAt(c6, Nics, Missing, CPS, f);
    PutAt(Mark(c6, Nics, CPS), DataNics, Names(NicNames(h.nics)), CPS, f);
  }

  function WithInventory(c: Cells, inv: Inventory): Cells {
    var c1 := Put(c, Zone, Words(inv.zone), INV);
    var c2 := Put(c1, ZoneId, if inv.zone == "" then Missing else Words(inv.zoneId), INV);
    var c3 := Put(c2, Region, Words(inv.region), INV);
    var c4 := Put(c3, RackId, Words(inv.rack), INV);
    var c5 := Put(c4, CabinetId, Words(inv.cabinet), INV);
    var c6 := Put(c5, K8sCluster, Words(inv.site), INV);
    var c7 := Put(c6, VcpuCount, inv.cpu, INV);
    var c8 := Put(c7, MemoryTotal, inv.memory, INV);
    Put(c8, HugepagesReserved, inv.hugepages, INV)
  }

  lemma InventoryAt(c: Cells, inv: Inventory, f: Field)
    ensures At(WithInventory(c, inv), f) == Over(At(c, f), InventoryValue(inv, f), INV)
  {
    hide Put, Mark, At;
    var zoneId := if inv.zone == "" then Missing else Words(inv.zoneId);
    var c1 := Put(c, Zone, Words(inv.zone), INV);
    PutAt(c, Zone, Words(inv.zone), INV, f);
    var c2 := Put(c1, ZoneId, zoneId, INV);
    PutAt(c1, ZoneId, zoneId, INV, f);
    var c3 := Put(c2, Region, Words(inv.region), INV);
    PutAt(c2, Region, Words(inv.region), INV, f);
    var c4 := Put(c3, RackId, Words(inv.rack), INV);
    PutAt(c3, RackId, Words(inv.rack), INV, f);
    var c5 := Put(c4, CabinetId, Words(inv.cabinet), INV);
    PutAt(c4, CabinetId, Words(inv.cabinet), INV, f);
    var c6 := Put(c5, K8sCluster, Words(inv.site), INV);
    PutAt(c5, K8sCluster, Words(inv.site), INV, f);
    var c7 := Put(c6, VcpuCount, inv.cpu, INV);
    PutAt(c6, VcpuCount, inv.cpu, INV, f);
    var c8 := Put(c7, MemoryTotal, inv.memory, INV);
    PutAt(c7, MemoryTotal, inv.memory, INV, f);
    PutAt(c8, HugepagesReserved, inv.hugepages, INV, f);
  }

  /** any: whether the host has devices once those of the draft are added. */
  function WithDraft(c: Cells, dg: Draft, any: bool): Cells {
    var from := From(dg);
    var c1 := Put(c, MgmtNic, Words(dg.group.mgmtInterface), from);
    var c2 := if DataNics !in c1.src then Put(c1, DataNics, Names(dg.group.dataInterfaces), from) else c1;
    var c3 := Put(c2, NumaSocketsUsed, Numbers(dg.sockets), from);
    var c4 := if MemoryPerPod !in c3.src then Put(c3, MemoryPerPod, dg.group.spdkMemory, from) else c3;
    if Devices !in c4.src && any then Mark(c4, Devices, from) else c4
  }

  lemma HasSource(c: Cells, f: Field)
    ensures f in c.src <==> At(c, f).from.Some?
  {
  }

  lemma DraftAt(c: Cells, dg: Draft, any: bool, f: Field)
    ensures At(WithDraft(c, dg, any), f) ==
      if f.Devices? then Cell(At(c, f).value, if At(c, f).from.None? && any then Some(From(dg)) else At(c, f).from)
      else if (f.DataNics? || f.MemoryPerPod?) && At(c, f).from.Some? then At(c, f)
      else Over(At(c, f), DraftValue(dg, f), From(dg))
  {
    hide Put, Mark, At, From;
    var from := From(dg);
    var nic, data, sockets := Words(dg.group.mgmtInterface), Names(dg.group.dataInterfaces), Numbers(dg.sockets);
    var c1 := Put(c, MgmtNic, nic, from);
    var c2 := if DataNics !in c1.src then Put(c1, DataNics, data, from) else c1;
    var c3 := Put(c2, NumaSocketsUsed, sockets, from);
    var c4 := if MemoryPerPod !in c3.src then Put(c3, MemoryPerPod, dg.group.spdkMemory, from) else c3;
    forall x: Field
      ensures At(WithDraft(c, dg, any), x) ==
        if x.DataNics? && x !in c1.src then Over(At(c, x), data, from)
        else if x.MemoryPerPod? && x !in c3.src then Over(At(c, x), dg.group.spdkMemory, from)
        else if x.MgmtNic? then Over(At(c, x), nic, from)
        else if x.NumaSocketsUsed? then Over(At(c, x), sockets, from)
        else if x.Devices? && x !in c4.src && any then Cell(At(c, x).value, Some(from))
        else At(c, x)
      ensures x.DataNics? ==> At(c1, x) == At(c, x)
      ensures x.MemoryPerPod? ==> At(c3, x) == At(c, x)
      ensures x.Devices? ==> At(c4, x) == At(c, x)
    {
      PutAt(c, MgmtNic, nic, from, x);
      PutAt(c1, DataNics, data, from, x);
      PutAt(c2, NumaSocketsUsed, sockets, from, x);
      PutAt(c3, MemoryPerPod, dg.group.spdkMemory, from, x);
      PutAt(c4, Devices, Missing, from, x);
    }
    HasSource(c1, DataNics);
    HasSource(c3, MemoryPerPod);
    HasSource(c4, Devices);
  }

  function WithKinds(c: Cells, ds: seq<H.Device>): Cells {
    if Devices in c.src then Put(c, HostClass, Words(Join(Kinds(ds), " + ")), c.src[Devices]) else c
  }

  function Merged(c: Cells, h: H.Host, inv: Option<Inventory>, dg: Option<Draft>): Cells {
    var c1 := WithNodes(c, h);
    var c2 := if inv.Some? then WithInventory(c1, inv.value) else c1;
    var c3 := if dg.Some? then WithDraft(c2, dg.value, MergedDevices(h, dg) != []) else c2;
    WithKinds(c3, MergedDevices(h, dg))
  }

  class HostRecord {
    const host: H.Host
    var available: bool
    var devices: seq<H.Device>
    var fields: map<Field, Value>
    var src: map<Field, string>
    var devicesAssigned: nat
    var devicesFree: nat
    var nvmeCount: nat

    function Now(): Cells
      reads this
    {
      Cells(fields, src)
    }

    /** site is the one the cluster is mapped to, "" for none. */
    constructor (h: H.Host, site: string)
      ensures host == h && available == h.available && devices == h.devices
      ensures Now() == Fresh(site)
    {
      host, available, devices, src := h, h.available, h.devices, map[];
      fields := if site == "" then map[] else map[K8sCluster := Words(site)];
    }

    method Set(f: Field, v: Value, from: string)
      modifies `fields, `src
      ensures Now() == Put(old(Now()), f, v, from)
    {
      if !Known(v) {
        return;
      }
      fields := fields[f := v];
      src := src[f := from];
    }

    method FromNodes()
      modifies `fields, `src
      ensures Now() == WithNodes(old(Now()), host)
    {
      hide Put, MaxOf, SumOf, NicNames;
      Set(VcpuCount, MaxOf(host.nodes, (n: H.Node) => n.cpu), CPS);
      Set(MemoryTotal, MaxOf(host.nodes, (n: H.Node) => n.memory), CPS);
      Set(HugepagesReserved, MaxOf(host.nodes, (n: H.Node) => n.hugepages), CPS);
      Set(HugepagesAllocated, SumOf(host.nodes, (n: H.Node) => n.spdkMem), CPS);
      Set(MemoryPerPod, MaxOf(host.nodes, (n: H.Node) => n.spdkMem), CPS);
      if host.devicesKnown {
        src := src[Devices := CPS];
      }
      if host.nicsKnown {
        src := src[Nics := CPS];
        Set(DataNics, Names(NicNames(host.nics)), CPS);
      }
    }

    method FromInventory(inv: Inventory)
      modifies `fields, `src, `available
      ensures Now() == WithInventory(old(Now()), inv)
      ensures available == (old(available) && inv.ready != Some(false))
    {
      hide Put;
      Set(Zone, Words(inv.zone), INV);
      Set(ZoneId, if inv.zone == "" then Missing else Words(inv.zoneId), INV);
      Set(Region, Words(inv.region), INV);
      Set(RackId, Words(inv.rack), INV);
      Set(CabinetId, Words(inv.cabinet), INV);
      Set(K8sCluster, Words(inv.site), INV);
      Set(VcpuCount, inv.cpu, INV);
      Set(MemoryTotal, inv.memory, INV);
      Set(HugepagesReserved, inv.hugepages, INV);
      if inv.ready == Some(false) && available {
        available := false;
      }
    }

    method AddDrafts(nvme: seq<string>)
      modifies `devices
      ensures devices == WithDrafts(old(devices), nvme)
    {
      for i := 0 to |nvme|
        invariant WithDrafts(devices, nvme[i..]) == WithDrafts(old(devices), nvme)
      {
        assert nvme[i..][1..] == nvme[i + 1..];
        if !Listed(devices, nvme[i]) {
          devices := devices + [DraftDevice(nvme[i])];
        }
      }
    }

    method FromDraft(dg: Draft)
      modifies `fields, `src, `devices
      ensures devices == WithDrafts(old(devices), dg.group.nvme)
      ensures Now() == WithDraft(old(Now()), dg, devices != [])
    {
      hide Put, From, WithDrafts;
      Set(MgmtNic, Words(dg.group.mgmtInterface), From(dg));
      if DataNics !in src {
        Set(DataNics, Names(dg.group.dataInterfaces), From(dg));
      }
      Set(NumaSocketsUsed, Numbers(dg.sockets), From(dg));
      if MemoryPerPod !in src {
        Set(MemoryPerPod, dg.group.spdkMemory, From(dg));
      }
      AddDrafts(dg.group.nvme);
      if Devices !in src && devices != [] {
        src := src[Devices := From(dg)];
      }
    }

    method CountDevices()
      modifies `devicesAssigned, `devicesFree, `nvmeCount
      ensures devicesAssigned == Taken(devices) && devicesAssigned + devicesFree == |devices|
      ensures nvmeCount == |Filter(devices, (d: H.Device) => d.kind == "nvme")|
    {
      FilterIn(devices, (d: H.Device) => d.inUse);
      devicesAssigned := |Filter(devices, (d: H.Device) => d.inUse)|;
      devicesFree := |devices| - devicesAssigned;
      nvmeCount := |Filter(devices, (d: H.Device) => d.kind == "nvme")|;
    }

    /** The sources one after the other, then what is derived from the devices. */
    method MergeHost(inv: Option<Inventory>, dg: Option<Draft>)
      requires available == host.available && devices == host.devices
      modifies this
      ensures Now() == Merged(old(Now()), host, inv, dg)
      ensures devices == MergedDevices(host, dg)
      ensures available == (host.available && !Demoted(inv))
      ensures devicesAssigned == Taken(devices) && devicesAssigned + devicesFree == |devices|
      ensures nvmeCount == |Filter(devices, (d: H.Device) => d.kind == "nvme")|
    {
      hide WithNodes, WithInventory, WithDraft, WithDrafts, Put, Kinds, Join, Taken, Filter;
      FromNodes();
      if inv.Some? {
        FromInventory(inv.value);
      }
      if dg.Some? {
        FromDraft(dg.value);
      }
      if Devices in src {
        Set(HostClass, Words(Join(Kinds(devices), " + ")), src[Devices]);
      }
      CountDevices();
    }
  }

  // ---- what the merge keeps ----

  function Fresh(site: string): Cells {
    Cells(if site == "" then map[] else map[K8sCluster := Words(site)], map[])
  }

  /**
   * Every field holds the value of the first source that knows it and is recorded under
   * that source; a field that no source knows has no source and is as it was at first.
   */
  lemma FieldsHaveTheirSource(site: string, h: H.Host, inv: Option<Inventory>, dg: Option<Draft>, f: Field)
    requires f !in {Devices, Nics, HostClass}
    ensures At(Merged(Fresh(site), h, inv, dg), f) ==
      match FirstKnown(Claims(h, inv, dg, f))
      case Some(c) => Cell(Some(c.value), Some(c.from))
      case None => Cell(At(Fresh(site), f).value, None)
  {
    hide MergedDevices, WithNodes, WithInventory, WithDraft, Put, At;
    var c1 := WithNodes(Fresh(site), h);
    var c2 := if inv.Some? then WithInventory(c1, inv.value) else c1;
    var c3 := if dg.Some? then WithDraft(c2, dg.value, MergedDevices(h, dg) != []) else c2;
    FreshHasNone(site, f);
    NodesAt(Fresh(site), h, f);
    if inv.Some? {
      InventoryAt(c1, inv.value, f);
    }
    if dg.Some? {
      DraftAt(c2, dg.value, MergedDevices(h, dg) != [], f);
    }
    KindsAt(c3, MergedDevices(h, dg), f);
    FirstOfThree(Claims(h, inv, dg, f));
    OneSourceOnly(h, inv, dg, f);
  }

  lemma FreshHasNone(site: string, f: Field)
    ensures At(Fresh(site), f).from.None? && (!f.K8sCluster? ==> At(Fresh(site), f).value.None?)
  {
  }

  lemma KindsAt(c: Cells, ds: seq<H.Device>, f: Field)
    ensures At(WithKinds(c, ds), f) ==
      if f.HostClass? && Devices in c.src then Over(At(c, f), Words(Join(Kinds(ds), " + ")), c.src[Devices]) else At(c, f)
  {
    hide Join, Kinds;
  }

  lemma FirstOfThree(claims: seq<Claim>)
    requires |claims| == 3
    ensures FirstKnown(claims) ==
      if Known(claims[0].value) then Some(claims[0]) else if Known(claims[1].value) then Some(claims[1])
      else if Known(claims[2].value) then Some(claims[2]) else None
  {
    assert claims[1..][1..] == claims[2..] && claims[2..][1..] == [];
    assert FirstKnown([]) == None;
    assert FirstKnown(claims[2..]) == if Known(claims[2].value) then Some(claims[2]) else None;
  }

  /** A field the draft could overwrite is one no other source writes. */
  lemma OneSourceOnly(h: H.Host, inv: Option<Inventory>, dg: Option<Draft>, f: Field)
    ensures dg.Some? && Known(DraftValue(dg.value, f)) ==>
      (inv.Some? ==> !Known(InventoryValue(inv.value, f)))
      && (Known(NodeValue(h, f)) ==> f.DataNics? || f.MemoryPerPod?)
  {
  }

  lemma DevicesSourceIs(site: string, h: H.Host, inv: Option<Inventory>, dg: Option<Draft>)
    ensures At(Merged(Fresh(site), h, inv, dg), Devices).from == DevicesSource(h, dg)
    ensures At(Merged(Fresh(site), h, inv, dg), Nics).from == if h.nicsKnown then Some(CPS) else None
    ensures var kinds, source := Words(Join(Kinds(MergedDevices(h, dg)), " + ")), DevicesSource(h, dg);
      At(Merged(Fresh(site), h, inv, dg), HostClass) ==
        if source.Some? && Known(kinds) then Cell(Some(kinds), source) else Cell(None, None)
  {
    hide MergedDevices, WithNodes, WithInventory, WithDraft, Put, At, From, Kinds, Join;
    var c1 := WithNodes(Fresh(site), h);
    var c2 := if inv.Some? then WithInventory(c1, inv.value) else c1;
    var c3 := if dg.Some? then WithDraft(c2, dg.value, MergedDevices(h, dg) != []) else c2;
    forall f: Field | f in {Devices, Nics, HostClass}
      ensures At(c3, f).from ==
        if f.Nics? then if h.nicsKnown then Some(CPS) else None else if f.Devices? then DevicesSource(h, dg) else None
      ensures f.HostClass? ==> At(c3, f).value == None
      ensures !f.HostClass? ==> At(WithKinds(c3, MergedDevices(h, dg)), f) == At(c3, f)
    {
      FreshHasNone(site, f);
      NodesAt(Fresh(site), h, f);
      if inv.Some? {
        InventoryAt(c1, inv.value, f);
      }
      if dg.Some? {
        DraftAt(c2, dg.value, MergedDevices(h, dg) != [], f);
      }
      KindsAt(c3, MergedDevices(h, dg), f);
    }
    HasSource(c3, Devices);
    KindsAt(c3, MergedDevices(h, dg), HostClass);
    SourceOf(c3, Devices);
  }

  lemma SourceOf(c: Cells, f: Field)
    ensures f in c.src ==> At(c, f).from == Some(c.src[f])
  {
  }

  predicate DistinctPcie(ds: seq<H.Device>) {
    forall i, j | 0 <= i < j < |ds| :: ds[i].pcie.Some? ==> ds[i].pcie != ds[j].pcie
  }

  /** A draft device of an address that is not listed. */
  predicate AddedFrom(ds: seq<H.Device>, nvme: seq<string>, d: H.Device) {
    exists p <- nvme :: d == H.Device("draft:" + p, "nvme", Some(p), false) && !Listed(ds, p)
  }

  lemma AddOne(ds: seq<H.Device>, nvme: seq<string>)
    requires nvme != []
    ensures var p := nvme[0];
      var next := if Listed(ds, p) then ds else ds + [DraftDevice(p)];
      && Listed(next, p)
      && (next != ds ==> next == ds + [DraftDevice(p)] && AddedFrom(ds, nvme, DraftDevice(p)))
      && (forall d :: AddedFrom(next, nvme[1..], d) ==> AddedFrom(ds, nvme, d))
      && (DistinctPcie(next) <==> DistinctPcie(ds))
  {
    var p := nvme[0];
    var next := if Listed(ds, p) then ds else ds + [DraftDevice(p)];
    assert p in nvme && nvme == [p] + nvme[1..];
    if !Listed(ds, p) {
      assert DraftDevice(p) in next;
      forall i | 0 <= i < |ds|
        ensures ds[i].pcie != Some(p)
      {
        assert ds[i] in ds;
      }
      forall i | 0 <= i < |ds|
        ensures next[i] == ds[i] && ds[i] in next
      {
        assert next[i] in next;
      }
    }
    forall d | AddedFrom(next, nvme[1..], d)
      ensures AddedFrom(ds, nvme, d)
    {
      var q :| q in nvme[1..] && d == DraftDevice(q) && !Listed(next, q);
      assert q in nvme;
      forall x | x in ds
        ensures x in next
      {
      }
    }
  }

  lemma ListedStays(ds: seq<H.Device>, r: seq<H.Device>, p: string)
    requires ds <= r && Listed(ds, p)
    ensures Listed(r, p)
  {
    var d :| d in ds && d.pcie == Some(p);
    assert d in r;
  }

  /**
   * The host's own devices stay as they are, every address of the draft is listed, what is
   * added are draft devices of addresses the host does not list, and no address comes to be listed twice.
   */
  lemma {:induction false} DraftsListed(ds: seq<H.Device>, nvme: seq<string>)
    ensures var r := WithDrafts(ds, nvme);
      && ds <= r
      && (forall p <- nvme :: Listed(r, p))
      && (forall i | |ds| <= i < |r| :: AddedFrom(ds, nvme, r[i]))
      && (DistinctPcie(r) <==> DistinctPcie(ds))
    decreases nvme
  {
    hide Listed, AddedFrom, DistinctPcie, DraftDevice;
    if nvme != [] {
      var p, rest := nvme[0], nvme[1..];
      var next := if Listed(ds, p) then ds else ds + [DraftDevice(p)];
      AddOne(ds, nvme);
      DraftsListed(next, rest);
      var r := WithDrafts(ds, nvme);
      ListedStays(next, r, p);
      assert nvme == [p] + rest;
      forall i | |ds| <= i < |r|
        ensures AddedFrom(ds, nvme, r[i])
      {
        if i < |next| {
          assert r[i] == next[i] == DraftDevice(p);
        } else {
          assert AddedFrom(next, rest, r[i]);
        }
      }
    }
  }

  /** Every draft device counts as a free one. */
  lemma DraftsAreFree(ds: seq<H.Device>, nvme: seq<string>)
    ensures Taken(WithDrafts(ds, nvme)) == Taken(ds)
  {
    hide Listed, DistinctPcie, WithDrafts;
    DraftsListed(ds, nvme);
    var r := WithDrafts(ds, nvme);
    var inUse := (d: H.Device) => d.inUse;
    assert r == ds + r[|ds|..];
    FilterConcat(ds, r[|ds|..], inUse);
    FilterNone(r[|ds|..], inUse);
  }

  /**
   * Where the device list is put down to the draft, all of it comes from the draft exactly
   * when no node gave any device; else devices of the control plane are put down to the draft.
   */
  lemma DraftSourceIsWhole(h: H.Host, dg: Draft)
    requires DevicesSource(h, Some(dg)) == Some(From(dg))
    ensures (forall i | 0 <= i < |MergedDevices(h, Some(dg))| :: AddedFrom(h.devices, dg.group.nvme, MergedDevices(h, Some(dg))[i]))
      <==> h.devices == []
  {
    hide WithDrafts, Listed;
    DraftIsNotCps(dg);
    DraftsListed(h.devices, dg.group.nvme);
    var r := MergedDevices(h, Some(dg));
    if h.devices != [] {
      assert r[0] == h.devices[0];
      DraftNotListed(h.devices, dg.group.nvme);
    }
  }

  lemma DraftIsNotCps(dg: Draft)
    ensures From(dg) != CPS
  {
    assert From(dg)[0] == 'S' && CPS[0] == 'c';
  }

  /** One node lists a device and another cannot be read: the device is put down to the draft found for the host, which names none. */
  lemma DraftSourceExample(h: H.Host, d: H.Device)
    requires h.devices == [d] && !h.devicesKnown
    ensures var group := Group([h.hostname], "", [], Missing, []);
      var dg := Draft(group, [], "site");
      && IsFirst([Deployment("site", [], [[group]])], h.hostname, 0, 0, 0)
      && DevicesSource(h, Some(dg)) == Some(From(dg)) != Some(CPS)
      && MergedDevices(h, Some(dg)) == [d] && !AddedFrom(h.devices, dg.group.nvme, d)
  {
    DraftIsNotCps(Draft(Group([h.hostname], "", [], Missing, []), [], "site"));
    assert WithDrafts(h.devices, []) == h.devices;
  }

  lemma DraftNotListed(ds: seq<H.Device>, nvme: seq<string>)
    requires ds != []
    ensures !AddedFrom(ds, nvme, ds[0])
  {
    assert ds[0] in ds;
  }

  // ---- the hosts of a cluster ----

  /** What the inventory has of a host, None for a host it does not list. */
  type Inventories = string -> Option<Inventory>

  function Available(hosts: seq<H.Host>, inventory: Inventories): nat {
    |Filter(hosts, (h: H.Host) => h.available && !Demoted(inventory(h.hostname)))|
  }

  function DemotedOnline(hosts: seq<H.Host>, inventory: Inventories): nat {
    |Filter(hosts, (h: H.Host) => h.available && Demoted(inventory(h.hostname)))|
  }

  lemma AvailableSplits(hosts: seq<H.Host>, inventory: Inventories)
    ensures |H.AvailableAmong(hosts)| == Available(hosts, inventory) + DemotedOnline(hosts, inventory)
  {
    hide Filter;
    var up := H.AvailableAmong(hosts);
    var online := (h: H.Host) => h.available;
    var still := (h: H.Host) => h.available && !Demoted(inventory(h.hostname));
    var demoted := (h: H.Host) => h.available && Demoted(inventory(h.hostname));
    FilterIn(hosts, online);
    FilterSplits(up, still, demoted);
    FilterFilter(hosts, online, still);
    FilterFilter(hosts, online, demoted);
    assert |multiset(Filter(up, still)) + multiset(Filter(up, demoted))| == |multiset(up)|;
  }

  /** The hosts shown as available are those the cluster counts as available, less the ones the inventory has as not ready. */
  lemma DemotedAreTheDifference(readings: seq<H.Reading>, inventory: Inventories)
    ensures Available(H.Machines(readings), inventory) ==
      H.HostsAvailable(H.NodesOf(readings)) - DemotedOnline(H.Machines(readings), inventory)
  {
    hide *;
    AvailableSplits(H.Machines(readings), inventory);
    H.AvailableIsHostsAvailable(readings);
  }
}
