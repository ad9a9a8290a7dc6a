/** The DHCP server proposed for a site's guest networks, and what the other network proposals rest on. */
module GuestNetworks {
  import opened Text
  import opened Seqs
  import opened Addressing
  import opened Networks
  import opened TestNetworks
  import R = Report

  // ---- the servers in question ----

  /** A server on a role's NAD that serves no test network. */
  predicate GuestServer(site: Site, roleNads: seq<string>, testNads: set<string>, s: Server) {
    && s in site.servers
    && (exists n <- roleNads :: n != "" && Serves(site, s, n))
    && !(exists t <- testNads :: Serves(site, s, t)) && !(exists a <- s.nads :: BubbleName(a.nad))
  }

  /** The first registration that names the server's ConfigMap. */
  predicate RegistrationOf(registered: seq<Registered>, s: Server, x: Registered) {
    FirstOf(registered, (y: Registered) => y.dnsmasq == Some(DnsMasq(s.namespace, s.hostsConfigMap)), x)
  }

  predicate IsRegistered(registered: seq<Registered>, s: Server) {
    exists x <- registered :: x.dnsmasq == Some(DnsMasq(s.namespace, s.hostsConfigMap))
  }

  /** The place of the first NAD that the server serves. */
  predicate ServesFrom(site: Site, roleNads: seq<string>, s: Server, i: nat) {
    && i < |roleNads| && roleNads[i] != "" && Serves(site, s, roleNads[i])
    && forall j | 0 <= j < i :: !(roleNads[j] != "" && Serves(site, s, roleNads[j]))
  }

  /** No server on an earlier NAD is left aside for this one. */
  predicate NotLater(site: Site, roleNads: seq<string>, s: Server, t: Server) {
    forall i, j | 0 <= i < |roleNads| && 0 <= j < |roleNads| ::
      ServesFrom(site, roleNads, s, i) && ServesFrom(site, roleNads, t, j) ==> i <= j
  }

  lemma OnNadHas(site: Site, nad: string, s: Server)
    ensures s in OnNad(site, nad) <==> nad != "" && s in site.servers && Serves(site, s, nad)
  {
    FilterIn(site.servers, (s: Server) => Serves(site, s, nad));
  }

  function ServerLists(site: Site, roleNads: seq<string>): seq<seq<Server>> {
    Map(roleNads, (n: string) => OnNad(site, n))
  }

  lemma FoundAre(site: Site, roleNads: seq<string>, testNads: set<string>, s: Server)
    ensures s in FoundServers(site, roleNads, testNads) <==> GuestServer(site, roleNads, testNads, s)
  {
    hide IsBubbleServer, OnNad, Dedup, Flatten, Serves, BubbleName;
    var lists := ServerLists(site, roleNads);
    FlattenIn(lists);
    DedupIs(Flatten(lists));
    FilterIn(Dedup(Flatten(lists)), (f: Server) => !IsBubbleServer(site, f, testNads));
    BubbleServersAre(site, s, testNads);
    forall i | 0 <= i < |roleNads|
      ensures s in lists[i] <==> roleNads[i] != "" && s in site.servers && Serves(site, s, roleNads[i])
    {
      OnNadHas(site, roleNads[i], s);
    }
  }

  lemma ListsHave(site: Site, roleNads: seq<string>, s: Server)
    ensures s in Flatten(ServerLists(site, roleNads))
      <==> s in site.servers && exists i | 0 <= i < |roleNads| :: roleNads[i] != "" && Serves(site, s, roleNads[i])
  {
    hide OnNad, Flatten, Serves;
    var lists := ServerLists(site, roleNads);
    FlattenIn(lists);
    forall i | 0 <= i < |roleNads|
      ensures s in lists[i] <==> roleNads[i] != "" && s in site.servers && Serves(site, s, roleNads[i])
    {
      OnNadHas(site, roleNads[i], s);
    }
  }

  lemma ListsStep(site: Site, front: seq<string>, nad: string)
    ensures Flatten(ServerLists(site, front + [nad])) == Flatten(ServerLists(site, front)) + OnNad(site, nad)
    ensures Flatten(ServerLists(site, [])) == []
  {
    hide OnNad, Flatten;
    var lists := ServerLists(site, front + [nad]);
    assert lists == ServerLists(site, front) + [OnNad(site, nad)];
    FlattenTake(lists, |front|);
    assert lists[..|front| + 1] == lists && lists[..|front|] == ServerLists(site, front);
    FlattenStep<Server>([], []);
    assert ServerLists(site, []) == [];
  }

  /** The places of a server's NADs do not change when one more NAD follows, if it serves one of those before. */
  lemma FrontPlace(site: Site, front: seq<string>, nad: string, s: Server, k: nat)
    requires ServesFrom(site, front + [nad], s, k)
    ensures k < |front| ==> ServesFrom(site, front, s, k)
    ensures k < |front| <==> exists i | 0 <= i < |front| :: front[i] != "" && Serves(site, s, front[i])
  {
    hide Serves;
    var all := front + [nad];
    assert forall i | 0 <= i < |front| :: all[i] == front[i];
  }

  lemma {:induction false} ListsInOrder(site: Site, roleNads: seq<string>, i: nat, j: nat)
    requires i < j < |Dedup(Flatten(ServerLists(site, roleNads)))|
    ensures var d := Dedup(Flatten(ServerLists(site, roleNads))); NotLater(site, roleNads, d[i], d[j])
  {
    hide Dedup, Flatten, Serves, OnNad, ServesFrom;
    if roleNads == [] {
      assert Flatten(ServerLists(site, [])) == [] by {
        ListsStep(site, [], "");
      }
      DedupIs(Flatten(ServerLists(site, roleNads)));
    } else {
      var n := |roleNads| - 1;
      var front, nad := roleNads[..n], roleNads[n];
      var a, b := Flatten(ServerLists(site, front)), OnNad(site, nad);
      assert roleNads == front + [nad];
      ListsStep(site, front, nad);
      DedupPrefix(a, b);
      DedupIs(a);
      DedupIs(a + b);
      var d := Dedup(a + b);
      forall k, l | 0 <= k < |roleNads| && 0 <= l < |roleNads| && ServesFrom(site, roleNads, d[i], k) && ServesFrom(site, roleNads, d[j], l)
        ensures k <= l
      {
        if l < n {
          FrontPlace(site, front, nad, d[i], k);
          FrontPlace(site, front, nad, d[j], l);
          ListsHave(site, front, d[i]);
          ListsHave(site, front, d[j]);
          ServerOf(site, front, nad, d[j]);
          assert d[j] in a && j < |Dedup(a)| && d[i] == Dedup(a)[i] && d[i] in a;
          ListsInOrder(site, front, i, j);
        }
      }
    }
  }

  lemma ServerOf(site: Site, front: seq<string>, nad: string, s: Server)
    requires s in Flatten(ServerLists(site, front)) + OnNad(site, nad)
    ensures s in site.servers
  {
    ListsHave(site, front, s);
    OnNadHas(site, nad, s);
  }

  lemma FoundInOrder(site: Site, roleNads: seq<string>, testNads: set<string>, i: nat, j: nat)
    requires i < j < |FoundServers(site, roleNads, testNads)|
    ensures var found := FoundServers(site, roleNads, testNads); NotLater(site, roleNads, found[i], found[j])
  {
    hide Dedup, Flatten, Filter, OnNad, NotLater, IsBubbleServer;
    var le, place := (s: Server, t: Server) => NotLater(site, roleNads, s, t), (s: Server) => 0;
    var all := Dedup(Flatten(ServerLists(site, roleNads)));
    forall k, l | 0 <= k < l < |all|
      ensures le(all[k], all[l])
    {
      ListsInOrder(site, roleNads, k, l);
    }
    assert Stable(all, le, place);
    FilterStable(all, (f: Server) => !IsBubbleServer(site, f, testNads), le, place);
    assert le(FoundServers(site, roleNads, testNads)[i], FoundServers(site, roleNads, testNads)[j]);
  }

  // ---- the first of a list ----

  lemma {:induction false} FirstServerFirst(fs: seq<Server>, p: Server -> bool, s: Server)
    ensures FirstServer(fs, p) == Some(s) <==> FirstOf(fs, p, s)
    ensures FirstServer(fs, p).Some? <==> exists f <- fs :: p(f)
  {
    hide FirstOf;
    FirstOfStep(s, [], p, s);
    if fs != [] {
      FirstServerFirst(fs[1..], p, s);
      assert fs == [fs[0]] + fs[1..];
      FirstOfStep(fs[0], fs[1..], p, s);
    }
  }

  lemma {:induction false} FirstRegisteredFirst(registered: seq<Registered>, s: Server, x: Registered)
    ensures FirstRegistered(registered, s) == Some(x) <==> RegistrationOf(registered, s, x)
    ensures FirstRegistered(registered, s).Some? <==> IsRegistered(registered, s)
  {
    hide FirstOf;
    var names := (y: Registered) => y.dnsmasq == Some(DnsMasq(s.namespace, s.hostsConfigMap));
    FirstOfStep(x, [], names, x);
    if registered != [] {
      FirstRegisteredFirst(registered[1..], s, x);
      assert registered == [registered[0]] + registered[1..];
      FirstOfStep(registered[0], registered[1..], names, x);
    }
  }

  /** The registration found is that of the first server that has one. */
  lemma {:induction false} FirstOfFoundFirst(found: seq<Server>, registered: seq<Registered>)
    ensures var r := FirstOfFound(found, registered);
      && (r.Some? <==> exists s <- found :: IsRegistered(registered, s))
      && (r.Some? ==> exists i | 0 <= i < |found| ::
            RegistrationOf(registered, found[i], r.value) && forall j | 0 <= j < i :: !IsRegistered(registered, found[j]))
  {
    hide FirstRegistered, RegistrationOf, IsRegistered;
    if found != [] {
      var rest := found[1..];
      assert found == [found[0]] + rest;
      FirstOfFoundFirst(rest, registered);
      var r := FirstOfFound(found, registered);
      if r.Some? {
        FirstRegisteredFirst(registered, found[0], r.value);
        if !IsRegistered(registered, found[0]) {
          var i :| 0 <= i < |rest| && RegistrationOf(registered, rest[i], r.value) && forall j | 0 <= j < i :: !IsRegistered(registered, rest[j]);
          assert found[i + 1] == rest[i] && forall j | 1 <= j < i + 1 :: found[j] == rest[j - 1];
        } else {
          assert RegistrationOf(registered, found[0], r.value);
        }
      } else {
        FirstRegisteredFirst(registered, found[0], Registered("", "", None));
      }
    }
  }

  // ---- the proposal ----

  lemma FirstInOrder(site: Site, roleNads: seq<string>, testNads: set<string>, p: Server -> bool, s: Server, t: Server)
    requires FirstOf(FoundServers(site, roleNads, testNads), p, s)
    requires t in FoundServers(site, roleNads, testNads) && p(t)
    ensures NotLater(site, roleNads, s, t)
  {
    hide FoundServers, Serves;
    var found := FoundServers(site, roleNads, testNads);
    var i :| 0 <= i < |found| && FirstAt(found, p, s, i);
    var j :| 0 <= j < |found| && found[j] == t;
    if i < j {
      FoundInOrder(site, roleNads, testNads, i, j);
    }
  }

  lemma UnregisteredIs(site: Site, roleNads: seq<string>, registered: seq<Registered>, testNads: set<string>)
    requires ProposeDHCPServer(site, roleNads, registered, testNads).registered.None?
    ensures var d := ProposeDHCPServer(site, roleNads, registered, testNads).discovered;
      && (d.Some? <==> exists s <- FoundServers(site, roleNads, testNads) :: s.hostsConfigMap != "")
      && (d.Some? ==>
            && d.value in FoundServers(site, roleNads, testNads) && d.value.hostsConfigMap != ""
            && forall t <- FoundServers(site, roleNads, testNads) :: t.hostsConfigMap != "" ==> NotLater(site, roleNads, d.value, t))
  {
    hide FoundServers, FirstOfFound, NotLater, FirstOf;
    var found, named := FoundServers(site, roleNads, testNads), (f: Server) => f.hostsConfigMap != "";
    var d := FirstServer(found, named);
    if d.Some? {
      FirstServerIs(found, named);
      FirstServerFirst(found, named, d.value);
      forall t | t in found && t.hostsConfigMap != ""
        ensures NotLater(site, roleNads, d.value, t)
      {
        FirstInOrder(site, roleNads, testNads, named, d.value, t);
      }
    } else {
      FirstServerIs(found, named);
    }
  }

  lemma RegisteredIs(site: Site, roleNads: seq<string>, registered: seq<Registered>, testNads: set<string>)
    ensures var p := ProposeDHCPServer(site, roleNads, registered, testNads);
      && (p.registered.Some? <==> exists s <- FoundServers(site, roleNads, testNads) :: IsRegistered(registered, s))
      && (p.registered.Some? ==>
            && p.discovered.Some? && p.discovered.value in FoundServers(site, roleNads, testNads)
            && (exists x <- registered :: x.name == p.registered.value && RegistrationOf(registered, p.discovered.value, x))
            && forall t <- FoundServers(site, roleNads, testNads) :: IsRegistered(registered, t) ==> NotLater(site, roleNads, p.discovered.value, t))
  {
    hide FoundServers, FirstOfFound, NotLater, FirstRegistered, IsRegistered, RegistrationOf, FirstOf;
    var found := FoundServers(site, roleNads, testNads);
    var reg := FirstOfFound(found, registered);
    FirstOfFoundFirst(found, registered);
    if reg.Some? {
      var i :| 0 <= i < |found| && RegistrationOf(registered, found[i], reg.value) && forall j | 0 <= j < i :: !IsRegistered(registered, found[j]);
      FoundFirst(found, registered, reg.value, i);
      RegistrationIn(registered, found[i], reg.value);
      forall t | t in found && IsRegistered(registered, t)
        ensures NotLater(site, roleNads, found[i], t)
      {
        FirstInOrder(site, roleNads, testNads, (f: Server) => IsRegistered(registered, f), found[i], t);
      }
    }
  }

  lemma RegistrationIn(registered: seq<Registered>, s: Server, x: Registered)
    requires RegistrationOf(registered, s, x)
    ensures x in registered && IsRegistered(registered, s)
  {
  }

  /** The first server with that registration is the first with any. */
  lemma FoundFirst(found: seq<Server>, registered: seq<Registered>, x: Registered, i: nat)
    requires i < |found| && RegistrationOf(registered, found[i], x) && forall j | 0 <= j < i :: !IsRegistered(registered, found[j])
    ensures FirstServer(found, (f: Server) => FirstRegistered(registered, f) == Some(x)) == Some(found[i])
    ensures FirstOf(found, (f: Server) => IsRegistered(registered, f), found[i])
  {
    hide FirstRegistered, IsRegistered, RegistrationOf;
    var has := (f: Server) => FirstRegistered(registered, f) == Some(x);
    FirstRegisteredFirst(registered, found[i], x);
    RegistrationIn(registered, found[i], x);
    forall j | 0 <= j < i
      ensures !has(found[j])
    {
      FirstRegisteredFirst(registered, found[j], x);
    }
    assert FirstAt(found, has, found[i], i);
    assert FirstAt(found, (f: Server) => IsRegistered(registered, f), found[i], i);
    FirstServerFirst(found, has, found[i]);
  }

  /**
   * A registration is proposed exactly when one names the ConfigMap of a guest server, and is the first to name
   * that of the server given beside it; without one, a server is given exactly when some guest server has a
   * ConfigMap. No server on an earlier NAD is left aside.
   */
  lemma GuestProposalIs(site: Site, roleNads: seq<string>, registered: seq<Registered>, testNads: set<string>)
    ensures var p := ProposeDHCPServer(site, roleNads, registered, testNads);
      var guest := (s: Server) => GuestServer(site, roleNads, testNads, s);
      && (p.registered.Some? <==> exists s <- site.servers :: guest(s) && IsRegistered(registered, s))
      && (p.registered.Some? ==>
            && p.discovered.Some? && guest(p.discovered.value)
            && (exists x <- registered :: x.name == p.registered.value && RegistrationOf(registered, p.discovered.value, x))
            && forall t :: guest(t) && IsRegistered(registered, t) ==> NotLater(site, roleNads, p.discovered.value, t))
      && (p.registered.None? ==> (p.discovered.Some? <==> exists s <- site.servers :: guest(s) && s.hostsConfigMap != ""))
      && (p.registered.None? && p.discovered.Some? ==>
            && guest(p.discovered.value) && p.discovered.value.hostsConfigMap != ""
            && forall t :: guest(t) && t.hostsConfigMap != "" ==> NotLater(site, roleNads, p.discovered.value, t))
  {
    hide ProposeDHCPServer, FoundServers, NotLater, RegistrationOf, IsRegistered, Serves, BubbleName;
    forall s
      ensures s in FoundServers(site, roleNads, testNads) <==> GuestServer(site, roleNads, testNads, s)
    {
      FoundAre(site, roleNads, testNads, s);
    }
    RegisteredIs(site, roleNads, registered, testNads);
    if ProposeDHCPServer(site, roleNads, registered, testNads).registered.None? {
      UnregisteredIs(site, roleNads, registered, testNads);
    }
  }

  // ---- segments ----

  function Bridge(n: Nad): string {
    if n.bridge != "" then n.bridge else n.master
  }

  /** The first NAD reported under a reference. */
  predicate IsNad(site: Site, ref: string, n: Nad) {
    FirstOf(site.nads, (x: Nad) => x.namespace + "/" + x.name == ref, n)
  }

  lemma {:induction false} NadOfIs(nads: seq<Nad>, ref: string, n: Nad)
    ensures NadOf(nads, ref) == Some(n) <==> FirstOf(nads, (x: Nad) => x.namespace + "/" + x.name == ref, n)
    ensures NadOf(nads, ref).Some? <==> exists x <- nads :: x.namespace + "/" + x.name == ref
  {
    hide FirstOf;
    var named := (x: Nad) => x.namespace + "/" + x.name == ref;
    FirstOfStep(n, [], named, n);
    if nads != [] {
      NadOfIs(nads[1..], ref, n);
      assert nads == [nads[0]] + nads[1..];
      FirstOfStep(nads[0], nads[1..], named, n);
    }
  }

  /** Two reported NADs are one segment exactly when they share bridge and VLAN, and have one of them; a VLAN holds no bar. */
  lemma SegmentsAre(site: Site, a: string, b: string, m: Nad, n: Nad)
    requires IsNad(site, a, m) && IsNad(site, b, n) && '|' !in m.vlan && '|' !in n.vlan
    ensures SameSegment(site, a, b) <==> Bridge(m) == Bridge(n) && m.vlan == n.vlan && (Bridge(n) != "" || n.vlan != "")
  {
    hide FirstOf, NadOf;
    NadOfIs(site.nads, a, m);
    NadOfIs(site.nads, b, n);
    BarParts(Bridge(m), m.vlan, Bridge(n), n.vlan);
    BarParts(Bridge(n), n.vlan, "", "");
    assert "" + "|" + "" == "|";
  }

  lemma LastBar(a: string, v: string)
    requires '|' !in v
    ensures var s := a + "|" + v; s[|a|] == '|' && (forall j | |a| < j < |s| :: s[j] != '|') && s[..|a|] == a && s[|a| + 1..] == v
  {
    var s := a + "|" + v;
    forall j | |a| < j < |s|
      ensures s[j] != '|'
    {
      assert s[j] == v[j - |a| - 1];
    }
  }

  lemma BarParts(a: string, v: string, b: string, w: string)
    requires '|' !in v && '|' !in w
    ensures a + "|" + v == b + "|" + w <==> a == b && v == w
  {
    LastBar(a, v);
    LastBar(b, w);
    var s, t := a + "|" + v, b + "|" + w;
    if s == t {
      assert |a| == |b|;
    }
  }

  // ---- subnets and addresses ----

  lemma {:induction false} FirstBlockIs(ranges: seq<string>, c: string)
    ensures FirstBlock(ranges) == Some(c) <==> FirstOf(ranges, (r: string) => ParseCidr(r).Some?, c)
    ensures FirstBlock(ranges).Some? <==> exists r <- ranges :: ParseCidr(r).Some?
  {
    hide FirstOf, ParseCidr;
    var block := (r: string) => ParseCidr(r).Some?;
    FirstOfStep(c, [], block, c);
    if ranges != [] {
      FirstBlockIs(ranges[1..], c);
      assert ranges == [ranges[0]] + ranges[1..];
      FirstOfStep(ranges[0], ranges[1..], block, c);
    }
  }

  /** The NAD, as it is first reported, has this as its first IPAM range that is a block. */
  predicate HasRange(site: Site, nad: string, c: string) {
    exists n <- site.nads :: IsNad(site, nad, n) && FirstOf(n.ipamRanges, (r: string) => ParseCidr(r).Some?, c)
  }

  /** A NAD's subnet is its first IPAM range that is a block, and without one that of the addresses of its VMs. */
  lemma SubnetIs(site: Site, nad: string)
    ensures forall c :: HasRange(site, nad, c) ==> NadSubnet(site, nad) == c
    ensures (forall c :: !HasRange(site, nad, c)) ==> NadSubnet(site, nad) == InferCidr(NadAddresses(site, nad))
  {
    hide NadOf, FirstBlock, FirstOf, ParseCidr, InferCidr, NadAddresses;
    var found := NadOf(site.nads, nad);
    forall c | HasRange(site, nad, c)
      ensures found.Some? && FirstBlock(found.value.ipamRanges) == Some(c)
    {
      var n :| n in site.nads && IsNad(site, nad, n) && FirstOf(n.ipamRanges, (r: string) => ParseCidr(r).Some?, c);
      NadOfIs(site.nads, nad, n);
      FirstBlockIs(n.ipamRanges, c);
    }
    if found.Some? && FirstBlock(found.value.ipamRanges).Some? {
      var c := FirstBlock(found.value.ipamRanges).value;
      NadOfIs(site.nads, nad, found.value);
      FirstIn(site.nads, (x: Nad) => x.namespace + "/" + x.name == nad, found.value);
      FirstBlockIs(found.value.ipamRanges, c);
      assert HasRange(site, nad, c);
    }
  }

  /** An address that some VM reports on the NAD, without the prefix length after its slash. */
  ghost predicate ReportedOn(site: Site, nad: string, ip: string) {
    IpToInt(ip).Some? && exists vm <- site.vms :: exists a <- vm.networks :: a.nad == nad && exists text <- a.ips :: BeforeSlash(text) == ip
  }

  lemma {:induction false} IpsOnHas(networks: seq<Attachment>, nad: string, text: string)
    ensures text in IpsOn(networks, nad) <==> exists a <- networks :: a.nad == nad && text in a.ips
  {
    if networks != [] {
      IpsOnHas(networks[1..], nad, text);
      assert networks == [networks[0]] + networks[1..];
    }
  }

  lemma V4Has(ips: seq<string>, ip: string)
    ensures ip in V4(ips) <==> IpToInt(ip).Some? && exists text <- ips :: BeforeSlash(text) == ip
  {
    hide IpToInt, BeforeSlash, Filter;
    FilterIn(Map(ips, BeforeSlash), IsIp);
    if text :| text in ips && BeforeSlash(text) == ip {
      var i :| 0 <= i < |ips| && ips[i] == text;
      assert Map(ips, BeforeSlash)[i] == ip;
    }
  }

  lemma AddressesAre(site: Site, nad: string, ip: string)
    ensures ip in NadAddresses(site, nad) <==> ReportedOn(site, nad, ip)
  {
    hide V4, IpsOn, BeforeSlash, IpToInt, Flatten;
    var lists := Map(site.vms, (vm: Vm) => IpsOn(vm.networks, nad));
    V4Has(Flatten(lists), ip);
    FlattenIn(lists);
    forall vm: Vm, text
      ensures text in IpsOn(vm.networks, nad) <==> exists a <- vm.networks :: a.nad == nad && text in a.ips
    {
      IpsOnHas(vm.networks, nad, text);
    }
    if vm, a, text :| vm in site.vms && a in vm.networks && a.nad == nad && text in a.ips && BeforeSlash(text) == ip {
      var i :| 0 <= i < |site.vms| && site.vms[i] == vm;
      assert text in lists[i];
    }
  }

  // ---- the check of a typed guest row ----

  predicate IsHostNumber(text: string, size: nat) {
    text != "" && (forall i | 0 <= i < |text| :: '0' <= text[i] <= '9') && 1 <= ValueOf(text) && ValueOf(text) + 2 <= size
  }

  /** Every reserved id is a host of a block of that size: not the network's own number, nor the broadcast's. */
  predicate HostIdsOf(ids: string, size: nat) {
    forall id <- Fields(ids, IsIdSeparator) :: IsHostNumber(id, size)
  }

  function SizeOf(cidr: string): nat {
    Pow2(32 - BitsOf(cidr))
  }

  predicate Inside(site: Site, nad: string, cidr: string) {
    forall ip <- NadAddresses(site, nad) :: CidrContains(cidr, ip)
  }

  predicate GuestRefused(site: Site, row: GuestRow, nad: string, servers: Option<seq<string>>, e: GuestError) {
    var c := ParseCidr(row.cidr);
    match e
    case NotCidr => row.cidr != "" && c.None?
    case AddressesOutside => c.Some? && !Inside(site, nad, row.cidr)
    case BadHostIds => c.Some? && Inside(site, nad, row.cidr) && !HostIdsOf(row.reservedHostIDs, SizeOf(row.cidr))
    case UnknownServer =>
      && (row.cidr == "" || (c.Some? && Inside(site, nad, row.cidr) && HostIdsOf(row.reservedHostIDs, SizeOf(row.cidr))))
      && row.dhcpServerRef != "" && servers.Some? && row.dhcpServerRef !in servers.value
  }

  lemma EmptyIsNoCidr()
    ensures ParseCidr("").None?
  {
  }

  lemma GoodIs(text: string, size: nat)
    ensures GoodHostId(text, size) <==> IsHostNumber(text, size)
  {
    hide ValueOf;
    assert Numeral(text) <==> text != "" && forall i | 0 <= i < |text| :: '0' <= text[i] <= '9';
  }

  lemma HostIdsAre(ids: string, size: nat)
    ensures (exists t <- Fields(ids, IsIdSeparator) :: !GoodHostId(t, size)) <==> !HostIdsOf(ids, size)
  {
    hide GoodHostId, IsHostNumber;
    forall t | t in Fields(ids, IsIdSeparator)
      ensures GoodHostId(t, size) <==> IsHostNumber(t, size)
    {
      GoodIs(t, size);
    }
  }

  /**
   * A guest row, typed or proposed, is accepted exactly when it has no block or one that holds every address
   * of the NAD's VMs and has every reserved id among its hosts, and its DHCP server, if it names one, is known.
   */
  lemma GuestRowChecked(site: Site, row: GuestRow, nad: string, servers: Option<seq<string>>)
    ensures var e := GuestRowError(site, row, nad, servers);
      && (e.None? <==>
           && (row.cidr != "" ==>
                ParseCidr(row.cidr).Some? && Inside(site, nad, row.cidr) && HostIdsOf(row.reservedHostIDs, SizeOf(row.cidr)))
           && (row.dhcpServerRef == "" || servers.None? || row.dhcpServerRef in servers.value))
      && forall x :: e == Some(x) <==> GuestRefused(site, row, nad, servers, x)
  {
    EmptyIsNoCidr();
    hide ParseCidr, NadAddresses, CidrContains, HostIdsOf, GoodHostId, Pow2;
    if ParseCidr(row.cidr).Some? {
      HostIdsAre(row.reservedHostIDs, SizeOf(row.cidr));
    }
    var e := GuestRowError(site, row, nad, servers);
    if row.cidr == "" {
      assert e.Some? ==> e == Some(UnknownServer);
    } else if ParseCidr(row.cidr).None? {
      assert e == Some(NotCidr);
    } else if !Inside(site, nad, row.cidr) {
      assert e == Some(AddressesOutside);
    } else if !HostIdsOf(row.reservedHostIDs, SizeOf(row.cidr)) {
      assert e == Some(BadHostIds);
    } else {
      assert !exists t <- Fields(row.reservedHostIDs, IsIdSeparator) :: !GoodHostId(t, SizeOf(row.cidr));
      assert !exists ip <- NadAddresses(site, nad) :: !CidrContains(row.cidr, ip);
      assert e.Some? ==> e == Some(UnknownServer);
    }
  }

  // ---- the isolated NAD ----

  /** The word stands somewhere in the text. */
  ghost predicate Mentions(s: string, word: string) {
    exists a, b :: s == a + word + b
  }

  lemma {:induction false} HasSubIs(s: string, word: string)
    ensures HasSub(s, word) <==> Mentions(s, word)
  {
    if word <= s {
      assert s == "" + word + s[|word|..];
    }
    if s != "" {
      HasSubIs(s[1..], word);
      if a, b :| s[1..] == a + word + b {
        assert s == ([s[0]] + a) + word + b;
      }
      if a, b :| s == a + word + b {
        assert a == "" ==> word <= s;
        assert a != "" ==> s[1..] == a[1..] + word + b;
      }
    } else if a, b :| s == a + word + b {
      assert |word| == 0;
    }
  }

  /** A NAD that no DHCP server has in its own namespace. */
  predicate ForWorkloads(site: Site, n: Nad) {
    n.namespace == "" || forall s <- site.servers :: s.namespace != n.namespace
  }

  ghost predicate NamedIsolated(ref: string) {
    Mentions(ref, "drtest") || Mentions(ref, "isolat") || Mentions(ref, "bubble")
  }

  /** The references of the NADs that workloads can attach to, in the order in which they are reported. */
  function OpenRefs(site: Site): seq<string> {
    Map(Filter(site.nads, (n: Nad) => ForWorkloads(site, n)), (n: Nad) => n.namespace + "/" + n.name)
  }

  lemma {:induction false} FindRefFirst(refs: seq<string>, p: string -> bool, ref: string)
    requires ref != "" && forall r <- refs :: r != ""
    ensures FindRef(refs, p) == ref <==> FirstOf(refs, p, ref)
    ensures FindRef(refs, p) == "" <==> forall r <- refs :: !p(r)
  {
    hide FirstOf;
    FirstOfStep(ref, [], p, ref);
    if refs != [] {
      assert refs == [refs[0]] + refs[1..] && refs[0] in refs;
      assert forall r <- refs[1..] :: r in refs;
      FindRefFirst(refs[1..], p, ref);
      FirstOfStep(refs[0], refs[1..], p, ref);
    }
  }

  lemma OpenRefsAre(site: Site)
    ensures WorkloadRefs(site) == OpenRefs(site) && forall r <- OpenRefs(site) :: r != ""
  {
    FilterAgree(site.nads, (n: Nad) => !ServerNamespace(site, n.namespace), (n: Nad) => ForWorkloads(site, n));
    forall r | r in OpenRefs(site)
      ensures '/' in r
    {
      var nads := Filter(site.nads, (n: Nad) => ForWorkloads(site, n));
      var i :| 0 <= i < |nads| && r == nads[i].namespace + "/" + nads[i].name;
      assert r[|nads[i].namespace|] == '/';
    }
  }

  /**
   * A site's isolated NAD is the first that workloads can attach to whose reference mentions drtest, isolat or
   * bubble, and without one the first that mentions test; there is none exactly when no reference does.
   */
  lemma IsolatedIs(site: Site, ref: string)
    requires ref != ""
    ensures (exists r <- OpenRefs(site) :: NamedIsolated(r)) ==>
      (IsolatedNadOf(site) == ref <==> FirstOf(OpenRefs(site), NamedIsolated, ref))
    ensures (forall r <- OpenRefs(site) :: !NamedIsolated(r)) ==>
      (IsolatedNadOf(site) == ref <==> FirstOf(OpenRefs(site), (r: string) => Mentions(r, "test"), ref))
    ensures IsolatedNadOf(site) == "" <==> forall r <- OpenRefs(site) :: !NamedIsolated(r) && !Mentions(r, "test")
  {
    OpenRefsAre(site);
    hide FindRef, FirstOf, OpenRefs, WorkloadRefs, HasSub, Mentions;
    var refs := OpenRefs(site);
    forall r: string, word: string
      ensures HasSub(r, word) <==> Mentions(r, word)
    {
      HasSubIs(r, word);
    }
    FindRefFirst(refs, BubbleName, ref);
    FindRefFirst(refs, TestName, ref);
    FirstOfAgree(refs, BubbleName, NamedIsolated, ref);
    FirstOfAgree(refs, TestName, (r: string) => Mentions(r, "test"), ref);
    if FindRef(refs, BubbleName) != "" {
      FindRefIs(refs, BubbleName);
    }
  }

  lemma FirstOfAgree<T>(xs: seq<T>, p: T -> bool, q: T -> bool, x: T)
    requires forall y <- xs :: p(y) == q(y)
    ensures FirstOf(xs, p, x) <==> FirstOf(xs, q, x)
  {
    forall i | 0 <= i < |xs|
      ensures FirstAt(xs, p, x, i) <==> FirstAt(xs, q, x, i)
    {
      assert forall j | 0 <= j <= i :: xs[j] in xs;
    }
  }

  /** The test networks of a site: those its paths test on, and the one it reports itself. */
  lemma TestNadsAre(site: Site, cluster: string, paths: seq<TestPath>, nad: string)
    ensures nad in TestNadsOf(site, cluster, paths)
      <==> nad != "" && ((exists p <- paths :: p.to == cluster && p.isolatedNad == nad) || nad == IsolatedNadOf(site))
  {
    hide IsolatedNadOf;
  }

  // ---- which of several test servers ----

  lemma DhcpOrdering(before: R.Collation)
    requires Ordering(before)
    ensures Ordering(DhcpOrder(before))
  {
    var le := DhcpOrder(before);
    forall a: DhcpRow, b: DhcpRow
      ensures le(a, b) || le(b, a)
    {
      assert before(a.v, b.v) || before(b.v, a.v);
    }
    forall a: DhcpRow, b: DhcpRow, c: DhcpRow | le(a, b) && le(b, c)
      ensures le(a, c)
    {
      assert before(a.v, b.v) && before(b.v, c.v) ==> before(a.v, c.v);
    }
  }

  lemma {:induction false} FirstServingFirst(rows: seq<DhcpRow>, k: nat)
    requires k < |rows| && rows[k].serves && forall r <- rows :: r.v != ""
    ensures exists i | 0 <= i <= k :: rows[i].serves && rows[i].v == FirstServing(rows)
  {
    if !rows[0].serves {
      FirstServingFirst(rows[1..], k - 1);
      var i :| 0 <= i <= k - 1 && rows[1..][i].serves && rows[1..][i].v == FirstServing(rows[1..]);
      assert rows[i + 1].serves;
    }
  }

  lemma ServingStandsFirst(rows: seq<DhcpRow>, before: R.Collation, k: nat)
    requires Ordering(before) && Sorted(rows, DhcpOrder(before)) && forall r <- rows :: r.v != ""
    requires k < |rows| && rows[k].serves
    ensures before(FirstServing(rows), rows[k].v)
  {
    FirstServingFirst(rows, k);
    hide FirstServing;
    var i :| 0 <= i <= k && rows[i].serves && rows[i].v == FirstServing(rows);
    assert before(rows[k].v, rows[k].v);
    if i < k {
      assert DhcpOrder(before)(rows[i], rows[k]);
    }
  }

  /** The recommendation is the first by name of the registrations that suit, and the candidate the first server that can be registered. */
  lemma TestChoiceIsFirst(site: Site, registered: seq<Registered>, cluster: string, nad: string, before: R.Collation)
    requires Ordering(before) && forall x <- registered :: x.name != ""
    ensures var c := TestDHCPChoice(site, registered, cluster, nad, before);
      && (forall x <- registered :: Suits(site, nad, cluster, x) ==> before(c.recommended, x.name))
      && forall f :: c.candidate == Some(f) ==>
           FirstOf(OnNad(site, nad), (g: Server) => CanBeRegistered(site, registered, cluster, nad, g), f)
  {
    hide OnNad, SameConfig, SortBy, FirstServing, Ordering, DhcpOrder, FirstOf, Filter;
    var mine := Filter(registered, (x: Registered) => x.site == cluster);
    FilterIn(registered, (x: Registered) => x.site == cluster);
    var rows := Map(mine, DhcpRowOf(site, nad));
    var sorted := SortBy(rows, DhcpOrder(before));
    DhcpOrdering(before);
    SortSorts(rows, DhcpOrder(before));
    SortIsPermutation(rows, DhcpOrder(before));
    NamesOfRows(mine, site, nad);
    forall x | x in registered && Suits(site, nad, cluster, x)
      ensures before(FirstServing(sorted), x.name)
    {
      RowIn(mine, site, nad, x);
      var k :| 0 <= k < |sorted| && sorted[k] == DhcpRow(x.name, true);
      ServingStandsFirst(sorted, before, k);
    }
    var free := (f: Server) => f.hostsConfigMap != "" && !exists x <- mine :: SameConfig(x, f);
    forall f | TestDHCPChoice(site, registered, cluster, nad, before).candidate == Some(f)
      ensures FirstOf(OnNad(site, nad), (g: Server) => CanBeRegistered(site, registered, cluster, nad, g), f)
    {
      FirstServerFirst(OnNad(site, nad), free, f);
      FirstOfAgree(OnNad(site, nad), free, (g: Server) => CanBeRegistered(site, registered, cluster, nad, g), f);
    }
  }
}
