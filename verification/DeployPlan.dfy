/** The plan of a deployment: the devices that the chips leave selected, and the document made of them. */
module DeployPlan {
  import opened Text
  import opened Seqs
  import opened Overrides

  function DevicesOf(site: Site, st: State, h: Host, s: int): seq<Device> {
    Filter(h.devices, (d: Device) => d.socket == s && !d.taken && DevSel(site, st, h.id, d))
  }

  function Pieces(site: Site, st: State, h: Host, sockets: seq<int>): seq<seq<Device>> {
    Map(sockets, s => DevicesOf(site, st, h, s))
  }

  /** The devices planned on a host, socket by socket. */
  function Planned(site: Site, st: State, h: Host): seq<Device> {
    Flatten(Pieces(site, st, h, SocketsOf(site, st, h.id)))
  }

  predicate DistinctIds(ds: seq<Device>) {
    forall i, j | 0 <= i < j < |ds| :: ds[i].id != ds[j].id
  }

  lemma {:induction false} FilterDistinctIds(ds: seq<Device>, p: Device -> bool)
    requires DistinctIds(ds)
    ensures DistinctIds(Filter(ds, p))
  {
    if ds != [] {
      FilterDistinctIds(ds[1..], p);
      FilterIn(ds[1..], p);
      forall d | d in ds[1..]
        ensures d.id != ds[0].id
      {
      }
    }
  }

  lemma DevicesOfAre(site: Site, st: State, h: Host, s: int)
    requires DistinctIds(h.devices)
    ensures DistinctIds(DevicesOf(site, st, h, s))
    ensures forall d :: d in DevicesOf(site, st, h, s) <==> d in h.devices && d.socket == s && !d.taken && DevSel(site, st, h.id, d)
  {
    FilterDistinctIds(h.devices, (d: Device) => d.socket == s && !d.taken && DevSel(site, st, h.id, d));
    FilterIn(h.devices, (d: Device) => d.socket == s && !d.taken && DevSel(site, st, h.id, d));
  }

  lemma JoinDistinctIds(a: seq<Device>, b: seq<Device>, all: seq<Device>)
    requires DistinctIds(a) && DistinctIds(b) && DistinctIds(all)
    requires (forall d <- a :: d in all && d !in b) && (forall d <- b :: d in all)
    ensures DistinctIds(a + b)
  {
    forall x, y | x in a && y in b
      ensures x.id != y.id
    {
      var i :| 0 <= i < |all| && all[i] == x;
      var j :| 0 <= j < |all| && all[j] == y;
    }
  }

  lemma PiecesStep(site: Site, st: State, h: Host, sockets: seq<int>)
    ensures Pieces(site, st, h, []) == [] && Flatten<Device>([]) == []
    ensures sockets != [] ==>
      Flatten(Pieces(site, st, h, sockets)) == DevicesOf(site, st, h, sockets[0]) + Flatten(Pieces(site, st, h, sockets[1..]))
  {
    if sockets != [] {
      assert Pieces(site, st, h, sockets)[1..] == Pieces(site, st, h, sockets[1..]);
    }
  }

  lemma {:induction false} PiecesAre(site: Site, st: State, h: Host, sockets: seq<int>)
    requires DistinctIds(h.devices) && Distinct(sockets)
    ensures var r := Flatten(Pieces(site, st, h, sockets));
      && DistinctIds(r)
      && forall d :: d in r <==> d in h.devices && d.socket in sockets && !d.taken && DevSel(site, st, h.id, d)
  {
    hide DevicesOf, DevSel, DistinctIds, Flatten, Pieces;
    PiecesStep(site, st, h, sockets);
    if sockets == [] {
      NoIds();
    } else {
      var first, s, later := DevicesOf(site, st, h, sockets[0]), sockets[0], sockets[1..];
      var rest := Flatten(Pieces(site, st, h, later));
      PiecesAre(site, st, h, later);
      DevicesOfAre(site, st, h, s);
      assert sockets == [s] + later && s !in later;
      forall d
        ensures d in first + rest <==> d in first || d in rest
      {
      }
      JoinDistinctIds(first, rest, h.devices);
    }
  }

  lemma NoIds()
    ensures DistinctIds([])
  {
  }

  /**
   * After any run of clicks, searches and form edits the plan holds a device of a host
   * exactly when it is free, its socket is in use and it is selected, and holds it once.
   */
  lemma PlanFollowsLog(site: Site, form: Form, log: seq<Event>, h: Host)
    requires Offered(site, log) && DistinctIds(h.devices)
    ensures var plan := Planned(site, Run(site, Start(form), log), h);
      && DistinctIds(plan)
      && forall d :: d in plan <==>
           d in h.devices && !d.taken && Used(site, form, log, h.id, d.socket) && Selected(site, form, log, h.id, d)
  {
    hide DevSel, Selected, Used, SocketsOf, Offered, DistinctIds, Run, Pieces;
    LogDecides(site, form, log, h.id);
    LogDecidesSockets(site, form, log, h.id);
    var st := Run(site, Start(form), log);
    PiecesAre(site, st, h, SocketsOf(site, st, h.id));
  }

  /**
   * The plan is of the chosen device class exactly when no click made under another
   * class still selects a free device on a socket in use.
   */
  lemma PlanOfClass(site: Site, form: Form, log: seq<Event>, h: Host)
    requires Offered(site, log) && DistinctIds(h.devices)
    requires LastForm(form, log).deviceClass != ""
    ensures (forall d <- Planned(site, Run(site, Start(form), log), h) :: d.kind == LastForm(form, log).deviceClass)
      <==> forall d <- h.devices | !d.taken && d.kind != LastForm(form, log).deviceClass ::
             Used(site, form, log, h.id, d.socket) ==> Clicked(site, form, log, h.id, d.id) != Some(true)
  {
    hide Used, Offered, DistinctIds, Run, Pieces, Planned, LastForm, Clicked, LastSearch;
    PlanFollowsLog(site, form, log, h);
  }

  lemma WrongClassExample(site: Site)
    requires site.sockets("h") == 1 && forall f, d :: !site.fits(f, d)
    ensures var nvme, block := Form("nvme", None, ""), Form("block", None, "");
      var d := Device("d", "nvme", 0, false, 1);
      d in Planned(site, Run(site, Start(nvme), [ClickDevice("h", d), EditForm(block)]), Host("h", [d]))
  {
    var nvme, block := Form("nvme", None, ""), Form("block", None, "");
    var d := Device("d", "nvme", 0, false, 1);
    var log := [ClickDevice("h", d), EditForm(block)];
    assert log[..1] == [ClickDevice("h", d)] && log[..1][..0] == [];
    assert d in [d];
    assert !Selected(site, nvme, [], "h", d);
    assert Selected(site, nvme, log[..1], "h", d);
    assert Selected(site, nvme, log, "h", d);
    assert Used(site, nvme, log, "h", 0);
    PlanFollowsLog(site, nvme, log, Host("h", [d]));
  }

  // ---- the tallies of the page and the document that is written ----

  datatype Group = Group(host: Host, socket: int, devices: seq<Device>)

  function GroupsOf(site: Site, st: State, h: Host): seq<Group> {
    Map(SocketsOf(site, st, h.id), s => Group(h, s, DevicesOf(site, st, h, s)))
  }

  function Groups(site: Site, st: State, selected: seq<Host>): seq<Group> {
    Flatten(Map(selected, h => GroupsOf(site, st, h)))
  }

  function DeviceCount(groups: seq<Group>): nat {
    if groups == [] then 0 else |groups[0].devices| + DeviceCount(groups[1..])
  }

  function Bytes(ds: seq<Device>): nat {
    if ds == [] then 0 else ds[0].size + Bytes(ds[1..])
  }

  function Raw(groups: seq<Group>): nat {
    if groups == [] then 0 else Bytes(groups[0].devices) + Raw(groups[1..])
  }

  function Document(site: Site, st: State, selected: seq<Host>): seq<seq<Device>> {
    Map(selected, h => Planned(site, st, h))
  }

  lemma {:induction false} BytesConcat(a: seq<Device>, b: seq<Device>)
    ensures Bytes(a + b) == Bytes(a) + Bytes(b)
  {
    if a == [] {
      assert a + b == b;
    } else {
      BytesConcat(a[1..], b);
      assert (a + b)[1..] == a[1..] + b;
    }
  }

  lemma {:induction false} TalliesConcat(a: seq<Group>, b: seq<Group>)
    ensures DeviceCount(a + b) == DeviceCount(a) + DeviceCount(b)
    ensures Raw(a + b) == Raw(a) + Raw(b)
  {
    hide Bytes;
    if a == [] {
      assert a + b == b;
    } else {
      TalliesConcat(a[1..], b);
      assert (a + b)[1..] == a[1..] + b;
    }
  }

  lemma {:induction false} GroupTallies(groups: seq<Group>, pieces: seq<seq<Device>>)
    requires |groups| == |pieces| && forall i | 0 <= i < |groups| :: groups[i].devices == pieces[i]
    ensures DeviceCount(groups) == |Flatten(pieces)| && Raw(groups) == Bytes(Flatten(pieces))
  {
    if groups != [] {
      GroupTallies(groups[1..], pieces[1..]);
      BytesConcat(pieces[0], Flatten(pieces[1..]));
    }
  }

  /** The page counts the devices and bytes of the groups; the document lists those very devices. */
  lemma {:induction false} PlanIsDocument(site: Site, st: State, selected: seq<Host>)
    ensures var groups, document := Groups(site, st, selected), Flatten(Document(site, st, selected));
      DeviceCount(groups) == |document| && Raw(groups) == Bytes(document)
  {
    hide DevicesOf, SocketsOf, DeviceCount, Raw, Bytes;
    if selected == [] {
      NoTallies();
    } else {
      var h, rest := selected[0], selected[1..];
      PlanIsDocument(site, st, rest);
      assert Map(selected, h => GroupsOf(site, st, h))[1..] == Map(rest, h => GroupsOf(site, st, h));
      assert Document(site, st, selected)[1..] == Document(site, st, rest);
      TalliesConcat(GroupsOf(site, st, h), Groups(site, st, rest));
      GroupTallies(GroupsOf(site, st, h), Pieces(site, st, h, SocketsOf(site, st, h.id)));
      BytesConcat(Planned(site, st, h), Flatten(Document(site, st, rest)));
    }
  }

  lemma NoTallies()
    ensures DeviceCount([]) == 0 && Raw([]) == 0 && Bytes([]) == 0
  {
  }
}
