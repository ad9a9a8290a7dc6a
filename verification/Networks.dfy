/** A site's networks: the DHCP servers on a NAD, its guest subnet, the reserved host ids and the checks of a guest row. */
module Networks {
  import opened Text
  import opened Seqs
  import opened Addressing

  /** A NetworkAttachmentDefinition as the site reports it. */
  datatype Nad = Nad(namespace: string, name: string, bridge: string, master: string, vlan: string, ipamRanges: seq<string>)
  datatype Attachment = Attachment(nad: string, ips: seq<string>)
  datatype Server = Server(namespace: string, hostsConfigMap: string, nads: seq<Attachment>)
  datatype Vm = Vm(networks: seq<Attachment>)
  datatype Site = Site(nads: seq<Nad>, servers: seq<Server>, vms: seq<Vm>)

  function NadRef(n: Nad): string {
    n.namespace + "/" + n.name
  }

  function NadOf(nads: seq<Nad>, ref: string): Option<Nad> {
    if nads == [] then None
    else if NadRef(nads[0]) == ref then Some(nads[0])
    else NadOf(nads[1..], ref)
  }

  // ---- segments and servers ----

  /** `${n.bridge || n.master || ""}|${n.vlan || ""}`; "" for a NAD that is not reported. */
  function Segment(n: Option<Nad>): string {
    match n
    case None => ""
    case Some(x) => (if x.bridge != "" then x.bridge else x.master) + "|" + x.vlan
  }

  predicate SameSegment(site: Site, a: string, b: string) {
    && NadOf(site.nads, b).Some?
    && Segment(NadOf(site.nads, a)) == Segment(NadOf(site.nads, b))
    && Segment(NadOf(site.nads, b)) != "|"
  }

  predicate Serves(site: Site, s: Server, nad: string) {
    exists a <- s.nads :: a.nad == nad || SameSegment(site, a.nad, nad)
  }

  function DhcpServersOn(site: Site, nad: string): seq<Server> {
    Filter(site.servers, (s: Server) => Serves(site, s, nad))
  }

  // ---- guest subnets ----

  predicate IsIp(ip: string) { IpToInt(ip).Some? }

  function BeforeSlash(text: string): string {
    Split(text, '/')[0]
  }

  function V4(ips: seq<string>): seq<string> {
    Filter(Map(ips, BeforeSlash), IsIp)
  }

  /** The /24 an address lies in. */
  function Net24(ip: string): string {
    if IsIp(ip) then BlockText(And(IpToInt(ip).value, 0xffff_ff00), 24) else ""
  }

  function InferCidr(ips: seq<string>): string {
    var nets := Dedup(Map(V4(ips), Net24));
    if |nets| == 1 then nets[0] else ""
  }

  function IpsOn(networks: seq<Attachment>, nad: string): seq<string> {
    if networks == [] then []
    else (if networks[0].nad == nad then networks[0].ips else []) + IpsOn(networks[1..], nad)
  }

  function NadAddresses(site: Site, nad: string): seq<string> {
    V4(Flatten(Map(site.vms, (vm: Vm) => IpsOn(vm.networks, nad))))
  }

  function FirstBlock(ranges: seq<string>): Option<string> {
    if ranges == [] then None
    else if ParseCidr(ranges[0]).Some? then Some(ranges[0])
    else FirstBlock(ranges[1..])
  }

  function NadSubnet(site: Site, nad: string): string {
    var n := NadOf(site.nads, nad);
    var ipam := if n.Some? then FirstBlock(n.value.ipamRanges) else None;
    if ipam.Some? then ipam.value else InferCidr(NadAddresses(site, nad))
  }

  lemma Mask24()
    ensures MaskOf(24) == 0xffff_ff00
  {
    hide Doubled;
    MaskIs(24);
    Doubled8(1);
  }

  /** The base of a block with its own prefix is the block. */
  lemma BaseOfBase(ip: nat, bits: nat)
    requires ip < TWO32 && bits <= 32
    ensures CidrOf(CidrOf(ip, bits).base, bits) == CidrOf(ip, bits)
    ensures Contains(CidrOf(ip, bits), ip) && CidrOf(ip, bits).base < TWO32
  {
    hide And, Doubled, Halved;
    BaseIs(ip, bits);
    MaskRefinesInterval(ip, bits, CidrOf(ip, bits).base);
  }

  lemma Net24Is(ip: string)
    requires IsIp(ip)
    ensures ParseCidr(Net24(ip)) == Some(CidrOf(IpToInt(ip).value, 24))
    ensures CidrContains(Net24(ip), ip)
    ensures Net24(ip) != ""
  {
    hide And, ParseCidr, IpToInt, MaskOf, BlockText;
    IpRange(ip);
    Mask24();
    BaseOfBase(IpToInt(ip).value, 24);
    BlockTextReads(CidrOf(IpToInt(ip).value, 24).base, 24);
  }

  lemma V4AreIps(ips: seq<string>)
    ensures forall ip <- V4(ips) :: IsIp(ip)
  {
    FilterIn(Map(ips, BeforeSlash), IsIp);
  }

  predicate ShareBlock24(xs: seq<string>) {
    forall i | 0 <= i < |xs| :: CidrContains(Net24(xs[0]), xs[i])
  }

  /**
   * A subnet is inferred exactly when there are addresses and all lie in one
   * /24; it is then that block, and it holds every one of them.
   */
  lemma InferredSubnet(ips: seq<string>)
    ensures var xs, cidr := V4(ips), InferCidr(ips);
      && (cidr != "" <==> xs != [] && ShareBlock24(xs))
      && (cidr != "" ==>
        && cidr == Net24(xs[0])
        && ParseCidr(cidr) == Some(CidrOf(IpToInt(xs[0]).value, 24))
        && forall ip <- xs :: CidrContains(cidr, ip))
  {
    hide V4, Net24, ParseCidr, IpToInt, CidrContains, Dedup;
    var xs := V4(ips);
    var nets := Map(xs, Net24);
    V4AreIps(ips);
    DedupOne(nets);
    forall i | 0 <= i < |xs|
      ensures Net24(xs[i]) != "" && (nets[i] == nets[0] <==> CidrContains(Net24(xs[0]), xs[i]))
    {
      assert xs[0] in xs && xs[i] in xs;
      Net24Is(xs[0]);
      Net24Is(xs[i]);
      SameNet(xs[0], xs[i]);
    }
    if xs != [] && ShareBlock24(xs) {
      Net24Is(xs[0]);
      forall ip | ip in xs
        ensures CidrContains(Net24(xs[0]), ip)
      {
        var i :| 0 <= i < |xs| && xs[i] == ip;
      }
    }
  }

  lemma SameNet(a: string, b: string)
    requires IsIp(a) && IsIp(b)
    ensures Net24(a) == Net24(b) <==> CidrContains(Net24(a), b)
  {
    hide And, ParseCidr, IpToInt, MaskOf, BlockText;
    Net24Is(a);
    Net24Is(b);
    IpRange(a);
    IpRange(b);
    Mask24();
  }

  // ---- reserved host ids ----

  function AttachedIps(servers: seq<Server>): seq<string> {
    if servers == [] then []
    else Flatten(Map(servers[0].nads, (a: Attachment) => V4(a.ips))) + AttachedIps(servers[1..])
  }

  /** The addresses of the DHCP servers on a NAD's segment, on all their networks. */
  function ServerIps(site: Site, nad: string): seq<string> {
    AttachedIps(DhcpServersOn(site, nad))
  }

  function HostIds(cidr: string, ips: seq<string>): seq<nat> {
    if ips == [] then []
    else (if CidrContains(cidr, ips[0]) then [HostIdOf(cidr, ips[0]).value] else []) + HostIds(cidr, ips[1..])
  }

  function ProposedReserved(site: Site, nad: string, cidr: string): seq<nat> {
    var ids: seq<nat> := [1] + HostIds(cidr, ServerIps(site, nad));
    Ascending(ids)
  }

  method ProposeReserved(site: Site, nad: string, cidr: string) returns (ids: seq<nat>)
    ensures ids == ProposedReserved(site, nad, cidr)
  {
    hide ServerIps, CidrContains, HostIdOf, Ascending;
    var ips := ServerIps(site, nad);
    var found: seq<nat> := [1];
    for i := 0 to |ips|
      invariant found + HostIds(cidr, ips[i..]) == [1] + HostIds(cidr, ips)
    {
      assert ips[i..][1..] == ips[i + 1..];
      if CidrContains(cidr, ips[i]) {
        found := found + [HostIdOf(cidr, ips[i]).value];
      }
    }
    assert found == [1] + HostIds(cidr, ips);
    ids := Ascending(found);
  }

  lemma {:induction false} HostIdsIn(cidr: string, ips: seq<string>)
    ensures forall id: nat :: id in HostIds(cidr, ips) <==> IsHostIdOf(cidr, ips, id)
  {
    hide CidrContains, HostIdOf;
    if ips != [] {
      HostIdsIn(cidr, ips[1..]);
      assert ips == [ips[0]] + ips[1..];
      forall id: nat
        ensures IsHostIdOf(cidr, ips, id)
          <==> (CidrContains(cidr, ips[0]) && HostIdOf(cidr, ips[0]) == Some(id)) || IsHostIdOf(cidr, ips[1..], id)
      {
      }
    }
  }

  /** The host id, in the block, of one of the addresses. */
  predicate IsHostIdOf(cidr: string, ips: seq<string>, id: nat) {
    exists ip <- ips :: CidrContains(cidr, ip) && HostIdOf(cidr, ip) == Some(id)
  }

  predicate ServerHostId(site: Site, nad: string, cidr: string, id: nat) {
    IsHostIdOf(cidr, ServerIps(site, nad), id)
  }

  /** The proposal lists the gateway's id and each server's own, in ascending order and once each. */
  lemma ReservedAre(site: Site, nad: string, cidr: string)
    ensures var ids := ProposedReserved(site, nad, cidr);
      && (forall i, j | 0 <= i < j < |ids| :: ids[i] < ids[j])
      && (forall id: nat :: id in ids <==> id == 1 || ServerHostId(site, nad, cidr, id))
  {
    hide Ascending, CidrContains, HostIdOf, HostIds, ServerIps;
    HostIdsIn(cidr, ServerIps(site, nad));
    AscendingIs([1] + HostIds(cidr, ServerIps(site, nad)));
  }

  // ---- guest network rows ----

  datatype GuestRow = GuestRow(cidr: string, reservedHostIDs: string, dhcpServerRef: string)
  datatype GuestError = NotCidr | AddressesOutside | BadHostIds | UnknownServer

  predicate IsIdSeparator(c: char) { c == ',' || IsSpace(c) }

  predicate GoodHostId(text: string, size: nat) {
    Numeral(text) && 1 <= ValueOf(text) && ValueOf(text) + 1 < size
  }

  function GuestRowError(site: Site, row: GuestRow, nad: string, servers: Option<seq<string>>): Option<GuestError> {
    var c := ParseCidr(row.cidr);
    if row.cidr != "" && c.None? then Some(NotCidr)
    else if c.Some? && exists ip <- NadAddresses(site, nad) :: !CidrContains(row.cidr, ip) then Some(AddressesOutside)
    else if c.Some? && exists t <- Fields(row.reservedHostIDs, IsIdSeparator) :: !GoodHostId(t, Pow2(32 - BitsOf(row.cidr))) then Some(BadHostIds)
    else if row.dhcpServerRef != "" && servers.Some? && row.dhcpServerRef !in servers.value then Some(UnknownServer)
    else None
  }

  function BitsOf(cidr: string): (bits: nat)
    ensures bits <= 32
  {
    if ParseCidr(cidr).Some? then ParseCidr(cidr).value.bits else 0
  }

  /** proposedReserved(…).join(", ") */
  function ReservedText(ids: seq<nat>): string {
    Join(Map(ids, Decimal), ", ")
  }

  lemma ReservedTextReads(ids: seq<nat>)
    ensures Fields(ReservedText(ids), IsIdSeparator) == Map(ids, Decimal)
  {
    hide Decimal, Join, Fields;
    var words := Map(ids, Decimal);
    forall w | w in words
      ensures IsField(w, IsIdSeparator)
    {
      var i :| 0 <= i < |ids| && w == Decimal(ids[i]);
      DecimalReads(ids[i]);
      assert forall k | 0 <= k < |w| :: IsDigit(w[k]);
    }
    FieldsJoin(words, ", ", IsIdSeparator);
  }

  /** No server is named, or one that is registered for the site. */
  predicate KnownServer(dhcp: string, servers: Option<seq<string>>) {
    dhcp == "" || servers.None? || dhcp in servers.value
  }

  /** No server on the segment has the first or the last address of the block. */
  ghost predicate ServersAreHosts(site: Site, nad: string, cidr: string) {
    forall id: nat :: ServerHostId(site, nad, cidr, id) ==> 1 <= id && id + 1 < Pow2(32 - BitsOf(cidr))
  }

  lemma SmallBlocks(bits: nat)
    requires bits <= 32
    ensures 2 < Pow2(32 - bits) <==> bits <= 30
  {
    if bits <= 30 {
      DoubledTwice(1, 2, 30 - bits);
      assert Doubled(1, 1) == 2 && Doubled(1, 2) == 4;
      DoubledSum(4, 0, 30 - bits);
    } else {
      assert Doubled(1, 1) == 2;
    }
  }

  /**
   * A guest row with a given block and the reserved ids proposed for it is
   * accepted exactly when the prefix leaves hosts (at most 30 bits), the block
   * holds every VM address on the NAD, the servers sit on host addresses and
   * the DHCP server it names is known.
   */
  lemma ProposedRowAccepted(site: Site, nad: string, cidr: string, dhcp: string, servers: Option<seq<string>>)
    requires ParseCidr(cidr).Some?
    ensures GuestRowError(site, GuestRow(cidr, ReservedText(ProposedReserved(site, nad, cidr)), dhcp), nad, servers).None?
      <==> BitsOf(cidr) <= 30
           && (forall ip <- NadAddresses(site, nad) :: CidrContains(cidr, ip))
           && ServersAreHosts(site, nad, cidr)
           && KnownServer(dhcp, servers)
  {
    hide NadAddresses, ProposedReserved, ServerHostId, ParseCidr, CidrContains, Pow2, Fields, ReservedText, Decimal, Numeral, ValueOf;
    var ids := ProposedReserved(site, nad, cidr);
    var size := Pow2(32 - BitsOf(cidr));
    ReservedAre(site, nad, cidr);
    ReservedTextReads(ids);
    SmallBlocks(BitsOf(cidr));
    var texts := Map(ids, Decimal);
    forall i | 0 <= i < |ids|
      ensures GoodHostId(texts[i], size) <==> 1 <= ids[i] && ids[i] + 1 < size
    {
      DecimalReads(ids[i]);
    }
    if forall t <- texts :: GoodHostId(t, size) {
      forall id: nat | id in ids
        ensures 1 <= id && id + 1 < size
      {
        var i :| 0 <= i < |ids| && ids[i] == id;
        assert texts[i] in texts;
      }
      assert 1 in ids;
    } else {
      var t :| t in texts && !GoodHostId(t, size);
      var i :| 0 <= i < |texts| && texts[i] == t;
      assert ids[i] in ids;
    }
  }

  /**
   * The whole proposal for a NAD without an IPAM range: its inferred subnet
   * holds the VMs, so only a server on the block's first or last address, or
   * an unknown DHCP server, can make the check refuse it.
   */
  lemma InferredRowAccepted(site: Site, nad: string, dhcp: string, servers: Option<seq<string>>)
    requires NadSubnet(site, nad) == InferCidr(NadAddresses(site, nad)) != ""
    ensures var cidr := NadSubnet(site, nad);
      GuestRowError(site, GuestRow(cidr, ReservedText(ProposedReserved(site, nad, cidr)), dhcp), nad, servers).None?
      <==> ServersAreHosts(site, nad, cidr) && KnownServer(dhcp, servers)
  {
    hide NadAddresses, ProposedReserved, ServersAreHosts, ParseCidr, CidrContains, ReservedText, NadSubnet, InferCidr, GuestRowError;
    InferredSubnet(NadAddresses(site, nad));
    V4Again(Flatten(Map(site.vms, (vm: Vm) => IpsOn(vm.networks, nad))));
    NadAddressesAre(site, nad);
    ProposedRowAccepted(site, nad, NadSubnet(site, nad), dhcp, servers);
  }

  lemma NadAddressesAre(site: Site, nad: string)
    ensures NadAddresses(site, nad) == V4(Flatten(Map(site.vms, (vm: Vm) => IpsOn(vm.networks, nad))))
  {
  }

  /** Addresses already cut and checked stay as they are. */
  lemma V4Again(ips: seq<string>)
    ensures V4(V4(ips)) == V4(ips)
  {
    hide IpToInt;
    V4AreIps(ips);
    var xs := V4(ips);
    forall i | 0 <= i < |xs|
      ensures BeforeSlash(xs[i]) == xs[i] && IsIp(xs[i])
    {
      assert xs[i] in xs;
      FilterIn(Map(ips, BeforeSlash), IsIp);
      var k :| 0 <= k < |ips| && xs[i] == Split(ips[k], '/')[0];
      JoinSplit(ips[k], '/');
      assert Split(ips[k], '/')[0] in Split(ips[k], '/');
      SplitWhole(xs[i], '/');
    }
    assert Map(xs, BeforeSlash) == xs;
    FilterAll(xs, IsIp);
  }
}
