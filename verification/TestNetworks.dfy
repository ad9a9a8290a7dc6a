/** Test bubbles and production networks: which NADs and DHCP servers each may use. */
module TestNetworks {
  import opened Text
  import opened Seqs
  import opened Networks
  import R = Report

  datatype DnsMasq = DnsMasq(namespace: string, configMap: string)
  datatype Registered = Registered(name: string, site: string, dnsmasq: Option<DnsMasq>)
  datatype TestPath = TestPath(to: string, isolatedNad: string)

  predicate HasSub(s: string, t: string) {
    t <= s || (s != "" && HasSub(s[1..], t))
  }

  /** /drtest|isolat|bubble/ */
  predicate BubbleName(ref: string) {
    HasSub(ref, "drtest") || HasSub(ref, "isolat") || HasSub(ref, "bubble")
  }

  predicate TestName(ref: string) { HasSub(ref, "test") }

  function FindRef(refs: seq<string>, p: string -> bool): string {
    if refs == [] then "" else if p(refs[0]) then refs[0] else FindRef(refs[1..], p)
  }

  predicate ServerNamespace(site: Site, ns: string) {
    ns != "" && exists s <- site.servers :: s.namespace == ns
  }

  function WorkloadRefs(site: Site): seq<string> {
    Map(Filter(site.nads, (n: Nad) => !ServerNamespace(site, n.namespace)), NadRef)
  }

  function IsolatedNadOf(site: Site): string {
    var strong := FindRef(WorkloadRefs(site), BubbleName);
    if strong != "" then strong else FindRef(WorkloadRefs(site), TestName)
  }

  function TestNadsOf(site: Site, cluster: string, paths: seq<TestPath>): set<string> {
    (set p | p in paths && p.to == cluster && p.isolatedNad != "" :: p.isolatedNad)
    + if IsolatedNadOf(site) != "" then {IsolatedNadOf(site)} else {}
  }

  // ---- DHCP servers ----

  /** isBubbleServer, as its source tests it. */
  predicate IsBubbleServer(site: Site, s: Server, testNads: set<string>) {
    var tests := set t | t in testNads && Segment(NadOf(site.nads, t)) != "" && Segment(NadOf(site.nads, t)) != "|"
      :: Segment(NadOf(site.nads, t));
    exists a <- s.nads :: a.nad in testNads || Segment(NadOf(site.nads, a.nad)) in tests || BubbleName(a.nad)
  }

  /** A server is a bubble server exactly when it serves a test NAD or is attached to a NAD named like one. */
  lemma BubbleServersAre(site: Site, s: Server, testNads: set<string>)
    ensures IsBubbleServer(site, s, testNads)
      <==> (exists t <- testNads :: Serves(site, s, t)) || (exists a <- s.nads :: BubbleName(a.nad))
  {
    hide BubbleName, NadOf;
    var tests := set t | t in testNads && Segment(NadOf(site.nads, t)) != "" && Segment(NadOf(site.nads, t)) != "|"
      :: Segment(NadOf(site.nads, t));
    forall a, t | a in s.nads && t in testNads && SameSegment(site, a.nad, t)
      ensures Segment(NadOf(site.nads, a.nad)) in tests
    {
      SegmentHasBar(NadOf(site.nads, t).value);
    }
    forall a | a in s.nads && Segment(NadOf(site.nads, a.nad)) in tests
      ensures exists t <- testNads :: Serves(site, s, t)
    {
      var t :| t in testNads && Segment(NadOf(site.nads, t)) == Segment(NadOf(site.nads, a.nad))
        && Segment(NadOf(site.nads, t)) != "" && Segment(NadOf(site.nads, t)) != "|";
      assert SameSegment(site, a.nad, t);
      assert Serves(site, s, t);
    }
    forall a | a in s.nads && a.nad in testNads
      ensures Serves(site, s, a.nad)
    {
    }
  }

  lemma SegmentHasBar(n: Nad)
    ensures Segment(Some(n)) != ""
  {
  }

  predicate SameConfig(x: Registered, f: Server) {
    x.dnsmasq == Some(DnsMasq(f.namespace, f.hostsConfigMap))
  }

  datatype DhcpRow = DhcpRow(v: string, serves: bool)
  datatype DhcpChoice = DhcpChoice(recommended: string, candidate: Option<Server>)

  function DhcpRowOf(site: Site, nad: string): Registered -> DhcpRow {
    (x: Registered) => DhcpRow(x.name, exists f <- OnNad(site, nad) :: SameConfig(x, f))
  }

  function OnNad(site: Site, nad: string): seq<Server> {
    if nad == "" then [] else DhcpServersOn(site, nad)
  }

  function DhcpOrder(before: R.Collation): (DhcpRow, DhcpRow) -> bool {
    (a: DhcpRow, b: DhcpRow) => if a.serves == b.serves then before(a.v, b.v) else a.serves
  }

  function FirstServing(rows: seq<DhcpRow>): string {
    if rows == [] then "" else if rows[0].serves then rows[0].v else FirstServing(rows[1..])
  }

  function FirstServer(fs: seq<Server>, p: Server -> bool): Option<Server> {
    if fs == [] then None else if p(fs[0]) then Some(fs[0]) else FirstServer(fs[1..], p)
  }

  /** The DHCP server of a path's isolated test network. */
  function TestDHCPChoice(site: Site, registered: seq<Registered>, cluster: string, nad: string, before: R.Collation): DhcpChoice {
    var mine := Filter(registered, (x: Registered) => x.site == cluster);
    var rows := SortBy(Map(mine, DhcpRowOf(site, nad)), DhcpOrder(before));
    var recommended := FirstServing(rows);
    DhcpChoice(recommended,
      if recommended != "" then None
      else FirstServer(OnNad(site, nad), (f: Server) => f.hostsConfigMap != "" && !exists x <- mine :: SameConfig(x, f)))
  }

  function FirstRegistered(registered: seq<Registered>, f: Server): Option<Registered> {
    if registered == [] then None
    else if SameConfig(registered[0], f) then Some(registered[0])
    else FirstRegistered(registered[1..], f)
  }

  function FirstOfFound(found: seq<Server>, registered: seq<Registered>): Option<Registered> {
    if found == [] then None
    else
      var r := FirstRegistered(registered, found[0]);
      if r.Some? then r else FirstOfFound(found[1..], registered)
  }

  function FoundServers(site: Site, roleNads: seq<string>, testNads: set<string>): seq<Server> {
    Filter(Dedup(Flatten(Map(roleNads, (n: string) => OnNad(site, n)))), (f: Server) => !IsBubbleServer(site, f, testNads))
  }

  datatype DhcpProposal = DhcpProposal(registered: Option<string>, discovered: Option<Server>)

  /** The DHCP server proposed for a site's guest networks; roleNads are sorted and without repeats. */
  function ProposeDHCPServer(site: Site, roleNads: seq<string>, registered: seq<Registered>, testNads: set<string>): DhcpProposal {
    var found := FoundServers(site, roleNads, testNads);
    var reg := FirstOfFound(found, registered);
    if reg.Some?
    then DhcpProposal(Some(reg.value.name), FirstServer(found, (f: Server) => FirstRegistered(registered, f) == reg))
    else DhcpProposal(None, FirstServer(found, (f: Server) => f.hostsConfigMap != ""))
  }

  /** No ConfigMap holds the hosts of two servers; servers may have none. */
  predicate UniqueConfigMaps(site: Site) {
    forall s <- site.servers, t <- site.servers | s.hostsConfigMap != "" ::
      s.namespace == t.namespace && s.hostsConfigMap == t.hostsConfigMap ==> s == t
  }

  /** A registration that has a dnsmasq part names its ConfigMap. */
  predicate NameConfigMaps(registered: seq<Registered>) {
    forall x <- registered | x.dnsmasq.Some? :: x.dnsmasq.value.configMap != ""
  }

  predicate UniqueNames(registered: seq<Registered>) {
    forall x <- registered, y <- registered :: x.name == y.name ==> x == y
  }

  lemma OnNadIs(site: Site, nad: string)
    ensures forall f <- OnNad(site, nad) :: f in site.servers && Serves(site, f, nad)
  {
    FilterIn(site.servers, (s: Server) => Serves(site, s, nad));
  }

  lemma {:induction false} FirstServingIs(rows: seq<DhcpRow>)
    ensures FirstServing(rows) != "" ==> DhcpRow(FirstServing(rows), true) in rows
    ensures (forall r <- rows :: r.v != "") && FirstServing(rows) == "" ==> forall r <- rows :: !r.serves
  {
    if rows != [] {
      FirstServingIs(rows[1..]);
      assert rows == [rows[0]] + rows[1..] && rows[0] in rows;
    }
  }

  lemma {:induction false} FirstServerIs(fs: seq<Server>, p: Server -> bool)
    ensures FirstServer(fs, p).Some? ==> FirstServer(fs, p).value in fs && p(FirstServer(fs, p).value)
    ensures FirstServer(fs, p).None? ==> forall f <- fs :: !p(f)
  {
    if fs != [] {
      FirstServerIs(fs[1..], p);
      assert fs == [fs[0]] + fs[1..];
    }
  }

  lemma {:induction false} FirstRegisteredIs(registered: seq<Registered>, f: Server)
    ensures var r := FirstRegistered(registered, f); r.Some? ==> r.value in registered && SameConfig(r.value, f)
  {
    if registered != [] {
      FirstRegisteredIs(registered[1..], f);
    }
  }

  lemma {:induction false} FirstOfFoundIs(found: seq<Server>, registered: seq<Registered>)
    ensures var r := FirstOfFound(found, registered);
      r.Some? ==> r.value in registered && exists f <- found :: SameConfig(r.value, f)
  {
    if found != [] {
      FirstRegisteredIs(registered, found[0]);
      FirstOfFoundIs(found[1..], registered);
      assert found == [found[0]] + found[1..];
    }
  }

  lemma FoundServersAre(site: Site, roleNads: seq<string>, testNads: set<string>)
    ensures forall f <- FoundServers(site, roleNads, testNads) :: f in site.servers && !IsBubbleServer(site, f, testNads)
  {
    hide IsBubbleServer, OnNad, Dedup, Flatten;
    var lists := Map(roleNads, (n: string) => OnNad(site, n));
    FlattenIn(lists);
    DedupIs(Flatten(lists));
    FilterIn(Dedup(Flatten(lists)), (f: Server) => !IsBubbleServer(site, f, testNads));
    forall f | f in Flatten(lists)
      ensures f in site.servers
    {
      var i :| 0 <= i < |lists| && f in lists[i];
      OnNadIs(site, roleNads[i]);
    }
  }

  /** A registration for the cluster whose ConfigMap is that of a server seen on the NAD. */
  predicate Suits(site: Site, nad: string, cluster: string, x: Registered) {
    x.site == cluster && exists f <- OnNad(site, nad) :: SameConfig(x, f)
  }

  /** A server on the NAD that reads its hosts from a ConfigMap no registration for the cluster names. */
  predicate CanBeRegistered(site: Site, registered: seq<Registered>, cluster: string, nad: string, f: Server) {
    f in OnNad(site, nad) && f.hostsConfigMap != "" && forall x <- registered :: x.site == cluster ==> !SameConfig(x, f)
  }

  /**
   * The test choice recommends a registered server seen serving the test NAD whenever there is one,
   * and else offers one that can be registered whenever there is one.
   */
  lemma TestChoiceIs(site: Site, registered: seq<Registered>, cluster: string, nad: string, before: R.Collation)
    ensures var c := TestDHCPChoice(site, registered, cluster, nad, before);
      && (c.recommended != "" ==> exists x <- registered :: x.name == c.recommended && Suits(site, nad, cluster, x))
      && ((forall x <- registered :: x.name != "") && c.recommended == "" ==> forall x <- registered :: !Suits(site, nad, cluster, x))
      && (c.candidate.Some? ==> c.recommended == "" && CanBeRegistered(site, registered, cluster, nad, c.candidate.value))
      && (c.candidate.None? && c.recommended == "" ==> forall f :: !CanBeRegistered(site, registered, cluster, nad, f))
  {
    hide OnNad, SameConfig, SortBy, FirstServing;
    var mine := Filter(registered, (x: Registered) => x.site == cluster);
    FilterIn(registered, (x: Registered) => x.site == cluster);
    var rows := Map(mine, DhcpRowOf(site, nad));
    var sorted := SortBy(rows, DhcpOrder(before));
    FirstServingIs(sorted);
    FirstServerIs(OnNad(site, nad), (f: Server) => f.hostsConfigMap != "" && !exists x <- mine :: SameConfig(x, f));
    SortIsPermutation(rows, DhcpOrder(before));
    var recommended := FirstServing(sorted);
    if recommended != "" {
      var i :| 0 <= i < |rows| && rows[i] == DhcpRow(recommended, true);
      assert mine[i] in mine && mine[i] in registered;
      assert exists f <- OnNad(site, nad) :: SameConfig(mine[i], f);
    }
    if (forall x <- registered :: x.name != "") && recommended == "" {
      forall x | x in registered && x.site == cluster
        ensures !Suits(site, nad, cluster, x)
      {
        RowIn(mine, site, nad, x);
        assert forall r <- sorted :: r.v != "" by {
          NamesOfRows(mine, site, nad);
        }
      }
    }
  }

  lemma RowIn(mine: seq<Registered>, site: Site, nad: string, x: Registered)
    requires x in mine
    ensures DhcpRow(x.name, exists f <- OnNad(site, nad) :: SameConfig(x, f)) in Map(mine, DhcpRowOf(site, nad))
  {
    hide OnNad, SameConfig;
    var i :| 0 <= i < |mine| && mine[i] == x;
    assert Map(mine, DhcpRowOf(site, nad))[i] in Map(mine, DhcpRowOf(site, nad));
  }

  lemma NamesOfRows(mine: seq<Registered>, site: Site, nad: string)
    requires forall x <- mine :: x.name != ""
    ensures forall r <- Map(mine, DhcpRowOf(site, nad)) :: r.v != ""
  {
    hide OnNad, SameConfig;
    var rows := Map(mine, DhcpRowOf(site, nad));
    forall r | r in rows
      ensures r.v != ""
    {
      var i :| 0 <= i < |rows| && rows[i] == r;
      assert mine[i] in mine;
    }
  }

  /** Two servers read one ConfigMap, one of them on the test NAD and the other found for the guests. */
  predicate ShareConfigMap(site: Site, nad: string, found: seq<Server>) {
    exists f <- OnNad(site, nad), g <- found :: f != g && f.namespace == g.namespace && f.hostsConfigMap == g.hostsConfigMap
  }

  /**
   * The server found for a test network is never the one found for the guest networks, and the
   * registered ones differ too unless a server of the test network shares its ConfigMap with
   * another found for the guests.
   */
  lemma SameServerSharesConfig(site: Site, registered: seq<Registered>, cluster: string, nad: string, before: R.Collation,
                               roleNads: seq<string>, testNads: set<string>)
    requires UniqueNames(registered) && nad in testNads
    ensures var test, guest := TestDHCPChoice(site, registered, cluster, nad, before),
                               ProposeDHCPServer(site, roleNads, registered, testNads);
      && (test.recommended != "" && guest.registered == Some(test.recommended) ==>
           ShareConfigMap(site, nad, FoundServers(site, roleNads, testNads)))
      && (test.candidate.Some? ==> guest.discovered != test.candidate)
  {
    hide TestDHCPChoice, OnNad, IsBubbleServer, FoundServers, FirstRegistered;
    var test := TestDHCPChoice(site, registered, cluster, nad, before);
    var guest := ProposeDHCPServer(site, roleNads, registered, testNads);
    var found := FoundServers(site, roleNads, testNads);
    TestChoiceIs(site, registered, cluster, nad, before);
    OnNadIs(site, nad);
    FoundServersAre(site, roleNads, testNads);
    forall f | f in OnNad(site, nad)
      ensures f !in found
    {
      BubbleServersAre(site, f, testNads);
    }
    FirstOfFoundIs(found, registered);
    var reg := FirstOfFound(found, registered);
    FirstServerIs(found, (f: Server) => FirstRegistered(registered, f) == reg);
    FirstServerIs(found, (f: Server) => f.hostsConfigMap != "");
    if test.recommended != "" && guest.registered == Some(test.recommended) {
      var x :| x in registered && x.name == test.recommended && Suits(site, nad, cluster, x);
      var f :| f in OnNad(site, nad) && SameConfig(x, f);
      var g :| g in found && SameConfig(reg.value, g);
      assert x == reg.value && f != g;
    }
  }

  predicate SameChoice(site: Site, registered: seq<Registered>, cluster: string, nad: string, before: R.Collation,
                       roleNads: seq<string>, testNads: set<string>) {
    var test := TestDHCPChoice(site, registered, cluster, nad, before).recommended;
    test != "" && ProposeDHCPServer(site, roleNads, registered, testNads).registered == Some(test)
  }

  lemma {:induction false} FirstOfFoundOne(found: seq<Server>, x: Registered, g: Server)
    requires g in found && SameConfig(x, g)
    ensures FirstOfFound(found, [x]) == Some(x)
  {
    hide SameConfig;
    assert FirstRegistered([x], g) == Some(x);
    if found[0] != g {
      assert found == [found[0]] + found[1..];
      FirstOfFoundOne(found[1..], x, g);
    }
    assert FirstRegistered([x], found[0]).Some? ==> FirstRegistered([x], found[0]) == Some(x);
  }

  /** The choices coincide for some registrations exactly when two such servers read one ConfigMap. */
  lemma ChoicesCanCoincide(site: Site, cluster: string, nad: string, before: R.Collation, roleNads: seq<string>, testNads: set<string>)
    requires nad in testNads
    ensures ShareConfigMap(site, nad, FoundServers(site, roleNads, testNads))
      <==> exists registered :: UniqueNames(registered) && SameChoice(site, registered, cluster, nad, before, roleNads, testNads)
  {
    hide TestDHCPChoice, OnNad, IsBubbleServer, FoundServers;
    var found := FoundServers(site, roleNads, testNads);
    if registered :| UniqueNames(registered) && SameChoice(site, registered, cluster, nad, before, roleNads, testNads) {
      SameServerSharesConfig(site, registered, cluster, nad, before, roleNads, testNads);
    }
    if ShareConfigMap(site, nad, found) {
      var f, g :| f in OnNad(site, nad) && g in found && f != g && f.namespace == g.namespace && f.hostsConfigMap == g.hostsConfigMap;
      var x := Registered("x", cluster, Some(DnsMasq(f.namespace, f.hostsConfigMap)));
      var registered := [x];
      assert x in registered && SameConfig(x, f);
      TestChoiceIs(site, registered, cluster, nad, before);
      FirstOfFoundOne(found, x, g);
      assert UniqueNames(registered) && SameChoice(site, registered, cluster, nad, before, roleNads, testNads);
    }
  }

  /** They are never the same where no two servers read the same ConfigMap. */
  lemma TestAndGuestServersApart(site: Site, registered: seq<Registered>, cluster: string, nad: string, before: R.Collation,
                                 roleNads: seq<string>, testNads: set<string>)
    requires UniqueConfigMaps(site) && NameConfigMaps(registered) && UniqueNames(registered) && nad in testNads
    ensures var test, guest := TestDHCPChoice(site, registered, cluster, nad, before),
                               ProposeDHCPServer(site, roleNads, registered, testNads);
      && (test.recommended != "" ==> guest.registered != Some(test.recommended))
      && (test.candidate.Some? ==> guest.discovered != test.candidate)
  {
    hide TestDHCPChoice, OnNad, IsBubbleServer, FoundServers, FirstRegistered;
    var test := TestDHCPChoice(site, registered, cluster, nad, before);
    var guest := ProposeDHCPServer(site, roleNads, registered, testNads);
    var found := FoundServers(site, roleNads, testNads);
    SameServerSharesConfig(site, registered, cluster, nad, before, roleNads, testNads);
    TestChoiceIs(site, registered, cluster, nad, before);
    OnNadIs(site, nad);
    FoundServersAre(site, roleNads, testNads);
    FirstOfFoundIs(found, registered);
    if test.recommended != "" && guest.registered == Some(test.recommended) {
      var x :| x in registered && x.name == test.recommended && Suits(site, nad, cluster, x);
      var f :| f in OnNad(site, nad) && SameConfig(x, f);
      var reg := FirstOfFound(found, registered).value;
      var g :| g in found && SameConfig(reg, g);
      assert x == reg && f == g;
      BubbleServersAre(site, f, testNads);
    }
  }

  /** A site of two servers that read one ConfigMap, the first on the test NAD "t/i", the second on "p/p". */
  const SHARED := Site([], [Server("d", "h", [Attachment("t/i", [])]), Server("d", "h", [Attachment("p/p", [])])], [])
  const ONLY := Registered("x", "c", Some(DnsMasq("d", "h")))

  lemma {:induction false} TooShort(s: string, t: string)
    requires |s| < |t|
    ensures !HasSub(s, t)
  {
    if s != "" {
      TooShort(s[1..], t);
    }
  }

  lemma SharedServers()
    ensures var a, b := SHARED.servers[0], SHARED.servers[1];
      && OnNad(SHARED, "t/i") == [a] && OnNad(SHARED, "p/p") == [b]
      && !IsBubbleServer(SHARED, b, {"t/i"}) && a != b
  {
    hide HasSub;
    var a, b := SHARED.servers[0], SHARED.servers[1];
    assert "t/i"[0] != "p/p"[0] && |"t/i"| == |"p/p"| == 3;
    assert a.nads[0] in a.nads && b.nads[0] in b.nads;
    assert Serves(SHARED, a, "t/i") && !Serves(SHARED, b, "t/i") && Serves(SHARED, b, "p/p") && !Serves(SHARED, a, "p/p");
    var onTest, onGuest := (s: Server) => Serves(SHARED, s, "t/i"), (s: Server) => Serves(SHARED, s, "p/p");
    assert SHARED.servers == [a] + ([b] + []);
    FilterStep(b, [], onTest);
    FilterStep(a, [b] + [], onTest);
    FilterStep(b, [], onGuest);
    FilterStep(a, [b] + [], onGuest);
    assert [a] + [] == [a] && [b] + [] == [b];
    TooShort("p/p", "drtest");
    TooShort("p/p", "isolat");
    TooShort("p/p", "bubble");
  }

  lemma FoundOne(site: Site, role: string, testNads: set<string>, b: Server)
    requires OnNad(site, role) == [b] && !IsBubbleServer(site, b, testNads)
    ensures FoundServers(site, [role], testNads) == [b]
  {
    hide OnNad, IsBubbleServer, Dedup, Flatten;
    var lists := Map([role], (n: string) => OnNad(site, n));
    assert lists == [[b]] + [];
    FlattenStep([b], []);
    assert [b] + [] == [b];
    DedupOneMore<Server>([], b);
    DedupIs<Server>([]);
    assert [] + [b] == [b];
    FilterAll([b], (f: Server) => !IsBubbleServer(site, f, testNads));
  }

  /** With one registration for that ConfigMap, the test network and the guest networks are given the same server. */
  lemma SharedConfigExample(before: R.Collation)
    ensures !UniqueConfigMaps(SHARED)
    ensures TestDHCPChoice(SHARED, [ONLY], "c", "t/i", before).recommended == "x"
    ensures ProposeDHCPServer(SHARED, ["p/p"], [ONLY], {"t/i"}).registered == Some("x")
  {
    hide OnNad, IsBubbleServer, FoundServers, TestDHCPChoice;
    SharedServers();
    FoundOne(SHARED, "p/p", {"t/i"}, SHARED.servers[1]);
    var a, b := SHARED.servers[0], SHARED.servers[1];
    assert a in SHARED.servers && b in SHARED.servers;
    TestChoiceIs(SHARED, [ONLY], "c", "t/i", before);
    assert a in OnNad(SHARED, "t/i") && SameConfig(ONLY, a) && ONLY in [ONLY];
    assert Suits(SHARED, "t/i", "c", ONLY);
    assert FirstRegistered([ONLY], b) == Some(ONLY);
    assert FirstOfFound([b], [ONLY]) == Some(ONLY);
  }

  // ---- the NADs a test bubble may use ----

  datatype Choice = Choice(v: string, production: bool, isolated: bool)

  /** A DHCP server's own attachment: a NAD in its namespace. */
  predicate ServerOwn(site: Site, ref: string) {
    exists s <- site.servers :: s.namespace != "" && s.namespace + "/" <= ref && exists a <- s.nads :: a.nad == ref
  }

  function MakeChoice(site: Site, testNads: set<string>): Nad -> Choice {
    (n: Nad) =>
      var v := NadRef(n);
      var used := (exists vm <- site.vms :: exists a <- vm.networks :: a.nad == v)
                  || exists s <- DhcpServersOn(site, v) :: !IsBubbleServer(site, s, testNads);
      Choice(v, v !in testNads && used, v in testNads)
  }

  function ChoiceRank(c: Choice): nat {
    if c.isolated then 0 else if c.production then 2 else 1
  }

  function ChoiceOrder(before: R.Collation): (Choice, Choice) -> bool {
    (a: Choice, b: Choice) => ChoiceRank(a) < ChoiceRank(b) || (ChoiceRank(a) == ChoiceRank(b) && before(a.v, b.v))
  }

  function Offered(site: Site): seq<Nad> {
    Filter(site.nads, (n: Nad) => !ServerOwn(site, NadRef(n)))
  }

  function TestNadChoices(site: Site, cluster: string, paths: seq<TestPath>, before: R.Collation): seq<Choice> {
    SortBy(Map(Offered(site), MakeChoice(site, TestNadsOf(site, cluster, paths))), ChoiceOrder(before))
  }

  function FindChoice(cs: seq<Choice>, v: string): Option<Choice> {
    if cs == [] then None else if cs[0].v == v then Some(cs[0]) else FindChoice(cs[1..], v)
  }

  predicate TestNadRefused(site: Site, cluster: string, paths: seq<TestPath>, before: R.Collation, nad: string) {
    var c := FindChoice(TestNadChoices(site, cluster, paths, before), nad);
    c.Some? && c.value.production
  }

  /** Kubernetes namespaces hold no slash. */
  predicate PlainNamespaces(site: Site) {
    && (forall n <- site.nads :: '/' !in n.namespace)
    && (forall s <- site.servers :: '/' !in s.namespace)
  }

  lemma SlashPrefix(a: string, b: string, name: string)
    requires '/' !in a && '/' !in b && a + "/" <= b + "/" + name
    ensures a == b
  {
    var p, s := a + "/", b + "/" + name;
    assert p[|a|] == '/' && s[|b|] == '/';
    assert forall i | 0 <= i < |p| :: p[i] == s[i];
    assert forall i | 0 <= i < |a| :: p[i] == a[i] && p[i] != '/';
    assert forall i | 0 <= i < |b| :: s[i] == b[i] && s[i] != '/';
    assert |a| == |b|;
    assert a == p[..|a|] && b == s[..|b|];
  }

  lemma {:induction false} FindRefIs(refs: seq<string>, p: string -> bool)
    ensures FindRef(refs, p) != "" ==> FindRef(refs, p) in refs
  {
    if refs != [] {
      FindRefIs(refs[1..], p);
    }
  }

  lemma {:induction false} FindChoiceIs(cs: seq<Choice>, v: string)
    ensures FindChoice(cs, v).Some? <==> exists c <- cs :: c.v == v
    ensures FindChoice(cs, v).Some? ==> FindChoice(cs, v).value in cs && FindChoice(cs, v).value.v == v
  {
    if cs != [] {
      FindChoiceIs(cs[1..], v);
      assert cs == [cs[0]] + cs[1..];
    }
  }

  /** A NAD is offered unless a DHCP server has it in its own namespace and is attached to it. */
  lemma OfferedAre(site: Site, n: Nad)
    ensures n in Offered(site)
      <==> && n in site.nads
           && !exists s <- site.servers :: s.namespace != "" && (exists rest :: NadRef(n) == s.namespace + "/" + rest) && OnServer(s, NadRef(n))
  {
    FilterIn(site.nads, (n: Nad) => !ServerOwn(site, NadRef(n)));
    forall s: Server
      ensures s.namespace + "/" <= NadRef(n) <==> exists rest :: NadRef(n) == s.namespace + "/" + rest
    {
      var own, ref := s.namespace + "/", NadRef(n);
      if own <= ref {
        assert ref == own + ref[|own|..];
      }
    }
  }

  predicate OnServer(s: Server, ref: string) {
    exists a <- s.nads :: a.nad == ref
  }

  lemma ChoicesAre(site: Site, cluster: string, paths: seq<TestPath>, before: R.Collation)
    ensures var cs, tests := TestNadChoices(site, cluster, paths, before), TestNadsOf(site, cluster, paths);
      && (forall c <- cs :: c.isolated == (c.v in tests) && (c.production ==> !c.isolated))
      && (forall n <- Offered(site) :: MakeChoice(site, tests)(n) in cs)
  {
    hide IsBubbleServer, DhcpServersOn, SortBy, TestNadsOf, Offered;
    var tests := TestNadsOf(site, cluster, paths);
    var made := Map(Offered(site), MakeChoice(site, tests));
    SortIsPermutation(made, ChoiceOrder(before));
    var cs := TestNadChoices(site, cluster, paths, before);
    forall c | c in cs
      ensures c.isolated == (c.v in tests) && (c.production ==> !c.isolated)
    {
      var i :| 0 <= i < |made| && made[i] == c;
    }
    forall n | n in Offered(site)
      ensures MakeChoice(site, tests)(n) in cs
    {
      var i :| 0 <= i < |Offered(site)| && Offered(site)[i] == n;
      assert made[i] in made;
    }
  }

  /** The isolated NAD a site reports belongs to no DHCP server. */
  lemma IsolatedIsWorkloads(site: Site) returns (n: Nad)
    requires PlainNamespaces(site) && IsolatedNadOf(site) != ""
    ensures n in site.nads && NadRef(n) == IsolatedNadOf(site) && n in Offered(site)
  {
    hide BubbleName, TestName, FindRef, Filter;
    var nads := Filter(site.nads, (n: Nad) => !ServerNamespace(site, n.namespace));
    FilterIn(site.nads, (n: Nad) => !ServerNamespace(site, n.namespace));
    FindRefIs(WorkloadRefs(site), BubbleName);
    FindRefIs(WorkloadRefs(site), TestName);
    var i :| 0 <= i < |nads| && NadRef(nads[i]) == IsolatedNadOf(site);
    n := nads[i];
    assert n in nads;
    FilterIn(site.nads, (n: Nad) => !ServerOwn(site, NadRef(n)));
    forall s | s in site.servers && s.namespace + "/" <= NadRef(n)
      ensures s.namespace == n.namespace
    {
      SlashPrefix(s.namespace, n.namespace, n.name);
    }
  }

  lemma ChoicesInOrder(site: Site, cluster: string, paths: seq<TestPath>, before: R.Collation)
    requires Ordering(before)
    ensures Sorted(TestNadChoices(site, cluster, paths, before), ChoiceOrder(before))
  {
    hide *;
    ChoiceOrdering(before);
    ChoicesSorted(site, cluster, paths, before);
  }

  lemma ChoicesSorted(site: Site, cluster: string, paths: seq<TestPath>, before: R.Collation)
    requires Ordering(ChoiceOrder(before))
    ensures Sorted(TestNadChoices(site, cluster, paths, before), ChoiceOrder(before))
  {
    hide Ordering, ChoiceOrder, Sorted, SortBy, Offered, MakeChoice, TestNadsOf;
    SortSorts(Map(Offered(site), MakeChoice(site, TestNadsOf(site, cluster, paths))), ChoiceOrder(before));
  }

  lemma ChoiceOrderMeans(before: R.Collation, a: Choice, b: Choice)
    requires ChoiceOrder(before)(a, b)
    requires (a.production ==> !a.isolated) && (b.production ==> !b.isolated)
    ensures (b.isolated ==> a.isolated) && (a.production ==> b.production)
    ensures a.isolated == b.isolated && a.production == b.production ==> before(a.v, b.v)
  {
    assert ChoiceRank(a) <= ChoiceRank(b);
  }

  /**
   * A site's isolated NAD is always offered for test bubbles and is never
   * refused; isolated choices come first and production networks last, each in the order of their names.
   */
  lemma IsolatedIsOffered(site: Site, cluster: string, paths: seq<TestPath>, before: R.Collation)
    requires PlainNamespaces(site) && Ordering(before)
    ensures var nad, cs := IsolatedNadOf(site), TestNadChoices(site, cluster, paths, before);
      && (nad != "" ==> (exists c <- cs :: c.v == nad && c.isolated) && !TestNadRefused(site, cluster, paths, before, nad))
      && (forall i, j | 0 <= i < j < |cs| :: (cs[j].isolated ==> cs[i].isolated) && (cs[i].production ==> cs[j].production))
      && (forall i, j | 0 <= i < j < |cs| ::
           cs[i].isolated == cs[j].isolated && cs[i].production == cs[j].production ==> before(cs[i].v, cs[j].v))
  {
    hide IsolatedNadOf, Offered, TestNadChoices, Ordering, ChoiceOrder, IsBubbleServer, DhcpServersOn, FindChoice;
    var nad, cs := IsolatedNadOf(site), TestNadChoices(site, cluster, paths, before);
    var tests := TestNadsOf(site, cluster, paths);
    ChoicesAre(site, cluster, paths, before);
    ChoicesInOrder(site, cluster, paths, before);
    forall i, j | 0 <= i < j < |cs|
      ensures (cs[j].isolated ==> cs[i].isolated) && (cs[i].production ==> cs[j].production)
      ensures cs[i].isolated == cs[j].isolated && cs[i].production == cs[j].production ==> before(cs[i].v, cs[j].v)
    {
      assert cs[i] in cs && cs[j] in cs;
      ChoiceOrderMeans(before, cs[i], cs[j]);
    }
    FindChoiceIs(cs, nad);
    if nad != "" {
      var n := IsolatedIsWorkloads(site);
      assert MakeChoice(site, tests)(n) in cs;
    }
  }

  lemma ChoiceOrdering(before: R.Collation)
    requires Ordering(before)
    ensures Ordering(ChoiceOrder(before))
  {
    forall a: Choice, b: Choice
      ensures ChoiceOrder(before)(a, b) || ChoiceOrder(before)(b, a)
    {
      assert before(a.v, b.v) || before(b.v, a.v);
    }
    forall a: Choice, b: Choice, c: Choice | ChoiceOrder(before)(a, b) && ChoiceOrder(before)(b, c)
      ensures ChoiceOrder(before)(a, c)
    {
      assert before(a.v, b.v) && before(b.v, c.v) ==> before(a.v, c.v);
    }
  }

  /** A network that carries VMs or a DHCP server of its own is refused for tests unless it is a test NAD. */
  lemma ProductionIsRefused(site: Site, cluster: string, paths: seq<TestPath>, before: R.Collation, n: Nad)
    requires n in Offered(site)
    ensures var v, tests := NadRef(n), TestNadsOf(site, cluster, paths);
      TestNadRefused(site, cluster, paths, before, v)
      <==> v !in tests
           && ((exists vm <- site.vms :: exists a <- vm.networks :: a.nad == v)
               || exists s <- DhcpServersOn(site, v) :: !IsBubbleServer(site, s, tests))
  {
    hide IsBubbleServer, DhcpServersOn, SortBy, Offered, TestNadsOf, FindChoice;
    var v, tests := NadRef(n), TestNadsOf(site, cluster, paths);
    var made := Map(Offered(site), MakeChoice(site, tests));
    var cs := TestNadChoices(site, cluster, paths, before);
    ChoicesAre(site, cluster, paths, before);
    FindChoiceIs(cs, v);
    assert MakeChoice(site, tests)(n) in cs && MakeChoice(site, tests)(n).v == v;
    var c := FindChoice(cs, v).value;
    SortIn(made, ChoiceOrder(before), c);
    var i :| 0 <= i < |made| && made[i] == c;
  }
}
