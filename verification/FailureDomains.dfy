/** Failure domains: the balance the deployment wizard asks for, and the host filter that must keep it. */
module FailureDomains {
  import opened Seqs
  import R = Report

  // ---- sums and shares ----

  function Sum(cs: seq<nat>): nat {
    if cs == [] then 0 else cs[0] + Sum(cs[1..])
  }

  function CountOf(cs: seq<nat>, v: nat): nat {
    if cs == [] then 0 else (if cs[0] == v then 1 else 0) + CountOf(cs[1..], v)
  }

  /** No two counts differ by more than one. */
  predicate Level(cs: seq<nat>) {
    forall i, j | 0 <= i < |cs| && 0 <= j < |cs| :: cs[i] <= cs[j] + 1
  }

  predicate AtLeast(cs: seq<nat>, v: nat) {
    forall i | 0 <= i < |cs| :: v <= cs[i]
  }

  /** n shared out over k as evenly as whole numbers allow: n mod k shares of n/k + 1, the others of n/k. */
  predicate EvenShares(cs: seq<nat>, n: nat) {
    && cs != []
    && (forall i | 0 <= i < |cs| :: cs[i] == n / |cs| || cs[i] == n / |cs| + 1)
    && CountOf(cs, n / |cs| + 1) == n % |cs|
  }

  lemma TimesAtLeast(x: nat, k: nat)
    requires x >= 1
    ensures x * k >= k
  {
  }

  lemma Distribute(x: int, y: int, k: nat)
    ensures (x - y) * k == x * k - y * k
  {
  }

  lemma DivUnique(n: nat, k: nat, q: nat, r: nat)
    requires k > 0 && n == q * k + r && r < k
    ensures n / k == q && n % k == r
  {
    var a, b := n / k, n % k;
    assert n == a * k + b;
    Distribute(q, a, k);
    Distribute(a, q, k);
    if a < q {
      TimesAtLeast(q - a, k);
    } else if q < a {
      TimesAtLeast(a - q, k);
    }
  }

  lemma {:induction false} TwoValues(cs: seq<nat>, q: nat)
    requires forall i | 0 <= i < |cs| :: cs[i] == q || cs[i] == q + 1
    ensures Sum(cs) == q * |cs| + CountOf(cs, q + 1)
    ensures CountOf(cs, q) + CountOf(cs, q + 1) == |cs|
  {
    if cs != [] {
      TwoValues(cs[1..], q);
      assert q * |cs| == q * (|cs| - 1) + q;
    }
  }

  lemma {:induction false} CountedIn(cs: seq<nat>, v: nat)
    ensures CountOf(cs, v) > 0 <==> v in cs
  {
    if cs != [] {
      CountedIn(cs[1..], v);
      assert cs == [cs[0]] + cs[1..];
    }
  }

  function Least(cs: seq<nat>): nat
    requires cs != []
  {
    if |cs| == 1 then cs[0]
    else
      var rest := Least(cs[1..]);
      if cs[0] < rest then cs[0] else rest
  }

  lemma {:induction false} LeastIs(cs: seq<nat>)
    requires cs != []
    ensures Least(cs) in cs && AtLeast(cs, Least(cs))
  {
    if |cs| > 1 {
      LeastIs(cs[1..]);
      assert forall i | 1 <= i < |cs| :: cs[i] == cs[1..][i - 1];
    }
  }

  /** Counts are level exactly when they are even shares of their sum. */
  lemma LevelIsEven(cs: seq<nat>)
    requires cs != []
    ensures Level(cs) <==> EvenShares(cs, Sum(cs))
  {
    if Level(cs) {
      LeastIs(cs);
      var q := Least(cs);
      var i :| 0 <= i < |cs| && cs[i] == q;
      assert forall j | 0 <= j < |cs| :: cs[j] <= cs[i] + 1;
      TwoValues(cs, q);
      CountedIn(cs, q);
      DivUnique(Sum(cs), |cs|, q, CountOf(cs, q + 1));
    }
  }

  // ---- the wizard ----

  /** The labels of the selected hosts, trimmed; "" for a host without one. */
  function Labelled(labels: seq<string>): seq<string> {
    Filter(labels, (l: string) => l != "")
  }

  method CountDomains(labels: seq<string>) returns (tally: R.Counts<string>)
    ensures tally == R.Tally(Labelled(labels))
  {
    hide R.Tally, R.Bump, Filter;
    tally := [];
    R.TallyStep<string>([], "");
    FilterStep("", [], (l: string) => l != "");
    for i := 0 to |labels|
      invariant tally == R.Tally(Labelled(labels[..i]))
    {
      assert labels[..i + 1] == labels[..i] + [labels[i]];
      FilterConcat(labels[..i], [labels[i]], (l: string) => l != "");
      FilterStep(labels[i], [], (l: string) => l != "");
      assert [labels[i]] + [] == [labels[i]];
      assert Labelled(labels[..i]) + [] == Labelled(labels[..i]);
      if labels[i] != "" {
        R.TallyStep(Labelled(labels[..i]), labels[i]);
        tally := R.Bump(tally, labels[i]);
      }
    }
    assert labels[..|labels|] == labels;
  }

  function Values(tally: R.Counts<string>): seq<nat> {
    Map(tally, (c: (string, nat)) => c.1)
  }

  /** The wizard's conditions on failure domains: none missing, two domains, none of a single node, spread at most one. */
  predicate DomainsReady(labels: seq<string>) {
    var counts := Values(R.Tally(Labelled(labels)));
    && (forall i | 0 <= i < |labels| :: labels[i] != "")
    && |counts| >= 2
    && AtLeast(counts, 2)
    && Level(counts)
  }

  lemma {:induction false} BumpAddsOne<K>(counts: R.Counts<K>, key: K)
    ensures Sum(Map(R.Bump(counts, key), (c: (K, nat)) => c.1)) == Sum(Map(counts, (c: (K, nat)) => c.1)) + 1
  {
    var f := (c: (K, nat)) => c.1;
    if counts == [] {
      assert Map(R.Bump(counts, key), f) == [1] && Sum([1]) == 1 + Sum([]);
      assert [1][1..] == [];
    } else {
      var b := R.Bump(counts, key);
      assert Map(counts, f)[1..] == Map(counts[1..], f);
      assert Map(b, f)[1..] == Map(b[1..], f);
      if counts[0].0 != key {
        BumpAddsOne(counts[1..], key);
        assert b[1..] == R.Bump(counts[1..], key);
      } else {
        assert b[1..] == counts[1..];
      }
    }
  }

  /** The tally counts each selected host once. */
  lemma {:induction false} TallySums<K>(keys: seq<K>)
    ensures Sum(Map(R.Tally(keys), (c: (K, nat)) => c.1)) == |keys|
  {
    hide R.Bump;
    if keys == [] {
      assert Map<(K, nat), nat>([], (c: (K, nat)) => c.1) == [];
    } else {
      TallySums(keys[..|keys| - 1]);
      BumpAddsOne(R.Tally(keys[..|keys| - 1]), keys[|keys| - 1]);
    }
  }

  /**
   * The wizard accepts a selection of n hosts exactly when every host has a
   * domain, there are k >= 2 domains, n >= 2k, and each domain has n/k hosts
   * or one more, n mod k of them one more.
   */
  lemma ReadyMeansEvenShares(labels: seq<string>)
    ensures var counts := Values(R.Tally(Labelled(labels)));
      DomainsReady(labels)
      <==> (forall i | 0 <= i < |labels| :: labels[i] != "")
           && |counts| >= 2 && |labels| >= 2 * |counts| && EvenShares(counts, |labels|)
    ensures DomainsReady(labels) ==> |labels| >= 4
  {
    hide R.Tally, Sum, Filter, EvenShares;
    var counts := Values(R.Tally(Labelled(labels)));
    if forall i | 0 <= i < |labels| :: labels[i] != "" {
      FilterAll(labels, (l: string) => l != "");
      TallySums(labels);
      if counts != [] {
        LevelIsEven(counts);
        SharesOfTwo(counts, |labels|);
      }
    }
  }

  lemma SharesOfTwo(cs: seq<nat>, n: nat)
    requires cs != []
    ensures EvenShares(cs, n) ==> (AtLeast(cs, 2) <==> n >= 2 * |cs|)
  {
    var q := n / |cs|;
    TwoSharesEach(n, |cs|);
    if EvenShares(cs, n) && q < 2 {
      TwoValues(cs, q);
      CountedIn(cs, q);
      var i :| 0 <= i < |cs| && cs[i] == q;
    }
  }

  lemma TwoSharesEach(n: nat, k: nat)
    requires k > 0
    ensures n / k >= 2 <==> n >= 2 * k
  {
    var q, r := n / k, n % k;
    assert n == q * k + r;
    Distribute(q, 1, k);
    Distribute(q, 2, k);
    if q >= 3 {
      TimesAtLeast(q - 2, k);
    }
  }

  // ---- adding a node ----

  datatype Domain = Domain(name: string, nodes: nat)

  predicate DistinctNames(ds: seq<Domain>) {
    forall i, j | 0 <= i < j < |ds| :: ds[i].name != ds[j].name
  }

  function Nodes(ds: seq<Domain>): (r: seq<nat>)
    ensures |r| == |ds| && forall i | 0 <= i < |ds| :: r[i] == ds[i].nodes
  {
    Map(ds, (d: Domain) => d.nodes)
  }

  function PlaceOf(ds: seq<Domain>, name: string): (i: nat)
    ensures i <= |ds|
    ensures i < |ds| ==> ds[i].name == name
    ensures i == |ds| ==> forall j | 0 <= j < |ds| :: ds[j].name != name
  {
    IndexOf(Map(ds, (d: Domain) => d.name), name)
  }

  predicate Known(ds: seq<Domain>, name: string) {
    PlaceOf(ds, name) < |ds|
  }

  /** The filter of the Expand form on a host's domain: a new one, or one of the smallest. */
  predicate Eligible(ds: seq<Domain>, name: string) {
    name != "" && (Known(ds, name) ==> ds[PlaceOf(ds, name)].nodes <= if ds == [] then 0 else Least(Nodes(ds)))
  }

  method EligibleHosts(ds: seq<Domain>, hosts: seq<string>) returns (offered: seq<string>)
    requires DistinctNames(ds)
    ensures offered == Filter(hosts, (h: string) => Eligible(ds, h))
  {
    hide Filter, Least;
    var counts: map<string, nat> := map[];
    for i := 0 to |ds|
      invariant forall name <- counts :: exists j | 0 <= j < i :: ds[j].name == name && counts[name] == ds[j].nodes
      invariant forall j | 0 <= j < i :: ds[j].name in counts && counts[ds[j].name] == ds[j].nodes
    {
      counts := counts[ds[i].name := ds[i].nodes];
    }
    var least := if ds == [] then 0 else Least(Nodes(ds));
    offered := [];
    var p := (h: string) => Eligible(ds, h);
    FilterStep("", [], p);
    for i := 0 to |hosts|
      invariant offered == Filter(hosts[..i], p)
    {
      var f := hosts[i];
      assert hosts[..i + 1] == hosts[..i] + [f];
      FilterConcat(hosts[..i], [f], p);
      FilterStep(f, [], p);
      assert [f] + [] == [f];
      assert offered + [] == offered;
      assert f in counts <==> Known(ds, f);
      if f != "" && (f !in counts || counts[f] <= least) {
        offered := offered + [f];
      }
    }
    assert hosts[..|hosts|] == hosts;
  }

  function AddNode(ds: seq<Domain>, name: string): seq<Domain> {
    var i := PlaceOf(ds, name);
    if i < |ds| then ds[i := Domain(name, ds[i].nodes + 1)] else ds + [Domain(name, 1)]
  }

  /** At least two nodes in each domain, and counts within one of each other. */
  predicate Balanced(ds: seq<Domain>) {
    AtLeast(Nodes(ds), 2) && Level(Nodes(ds))
  }

  /**
   * From a balanced state, adding a node to a domain keeps the balance exactly
   * when the domain exists and the filter admits it. The filter also admits
   * new domains, and each of those breaks it.
   */
  lemma AddBalances(ds: seq<Domain>, name: string)
    requires ds != [] && Balanced(ds) && name != ""
    ensures Balanced(AddNode(ds, name)) <==> Known(ds, name) && Eligible(ds, name)
  {
    hide Least;
    var cs, after := Nodes(ds), Nodes(AddNode(ds, name));
    var i := PlaceOf(ds, name);
    LeastIs(cs);
    var m :| 0 <= m < |cs| && cs[m] == Least(cs);
    if i == |ds| {
      assert after[|ds|] == 1;
    } else if cs[i] > Least(cs) {
      assert after[i] == cs[i] + 1 && after[m] == cs[m];
      assert !Level(after);
    } else {
      assert forall j | 0 <= j < |cs| :: cs[i] <= cs[j];
      assert forall j | 0 <= j < |cs| :: after[j] == if j == i then cs[j] + 1 else cs[j];
    }
  }

  /** Each host of a run is admitted by the filter and goes to a domain that exists already. */
  predicate AdmittedRun(ds: seq<Domain>, hosts: seq<string>)
    decreases hosts
  {
    hosts == [] || (Known(ds, hosts[0]) && Eligible(ds, hosts[0]) && AdmittedRun(AddNode(ds, hosts[0]), hosts[1..]))
  }

  function AddAll(ds: seq<Domain>, hosts: seq<string>): seq<Domain>
    decreases hosts
  {
    if hosts == [] then ds else AddAll(AddNode(ds, hosts[0]), hosts[1..])
  }

  /** Every admitted run into the existing domains keeps a balanced state balanced. */
  lemma {:induction false} RunBalances(ds: seq<Domain>, hosts: seq<string>)
    requires ds != [] && Balanced(ds) && AdmittedRun(ds, hosts)
    ensures Balanced(AddAll(ds, hosts)) && |AddAll(ds, hosts)| == |ds|
    decreases hosts
  {
    hide Balanced, Eligible;
    if hosts != [] {
      assert hosts[0] != "" by {
        EligibleIsNamed(ds, hosts[0]);
      }
      AddBalances(ds, hosts[0]);
      RunBalances(AddNode(ds, hosts[0]), hosts[1..]);
    }
  }

  lemma EligibleIsNamed(ds: seq<Domain>, name: string)
    ensures Eligible(ds, name) ==> name != ""
  {
  }

  // ---- from any state: the filter fills up the smaller domains first ----

  /** How many nodes are missing for every domain to have top nodes. */
  function Deficit(cs: seq<nat>, top: nat): int {
    top * |cs| - Sum(cs)
  }

  /** No count is above top, or above the least by more than one. */
  predicate FilledTo(cs: seq<nat>, top: nat) {
    forall i, j | 0 <= i < |cs| && 0 <= j < |cs| :: cs[i] <= top || cs[i] <= cs[j] + 1
  }

  lemma {:induction false} SumUpdate(cs: seq<nat>, i: nat, v: nat)
    requires i < |cs|
    ensures Sum(cs[i := v]) == Sum(cs) - cs[i] + v
  {
    if i > 0 {
      SumUpdate(cs[1..], i - 1, v);
      assert cs[i := v][1..] == cs[1..][i - 1 := v];
    } else {
      assert cs[i := v][1..] == cs[1..];
    }
  }

  lemma {:induction false} SumBelow(cs: seq<nat>, top: nat)
    requires forall i | 0 <= i < |cs| :: cs[i] <= top
    ensures Sum(cs) <= top * |cs|
    ensures (exists i | 0 <= i < |cs| :: cs[i] < top) ==> Sum(cs) < top * |cs|
  {
    if cs != [] {
      SumBelow(cs[1..], top);
      assert top * |cs| == top * (|cs| - 1) + top;
      if cs[0] == top && exists i | 0 <= i < |cs| :: cs[i] < top {
        var i :| 0 <= i < |cs| && cs[i] < top;
        assert cs[1..][i - 1] < top;
      }
    }
  }

  lemma AddFills(ds: seq<Domain>, name: string, top: nat)
    requires ds != [] && Known(ds, name) && Eligible(ds, name) && FilledTo(Nodes(ds), top)
    ensures var after := AddNode(ds, name);
      FilledTo(Nodes(after), top) && Sum(Nodes(after)) == Sum(Nodes(ds)) + 1 && |after| == |ds|
  {
    hide Least, Sum, FilledTo;
    var cs, i := Nodes(ds), PlaceOf(ds, name);
    LeastIs(cs);
    SumUpdate(cs, i, cs[i] + 1);
    assert Nodes(AddNode(ds, name)) == cs[i := cs[i] + 1];
    BumpLeastFills(cs, i, top);
  }

  lemma BumpLeastFills(cs: seq<nat>, i: nat, top: nat)
    requires i < |cs| && AtLeast(cs, cs[i]) && FilledTo(cs, top)
    ensures FilledTo(cs[i := cs[i] + 1], top)
  {
  }

  lemma {:induction false} RunFills(ds: seq<Domain>, hosts: seq<string>, top: nat)
    requires ds != [] && AdmittedRun(ds, hosts) && FilledTo(Nodes(ds), top)
    ensures var after := AddAll(ds, hosts);
      FilledTo(Nodes(after), top) && Sum(Nodes(after)) == Sum(Nodes(ds)) + |hosts| && |after| == |ds|
    decreases hosts
  {
    hide FilledTo, Eligible, Sum, Nodes;
    if hosts != [] {
      AddFills(ds, hosts[0], top);
      RunFills(AddNode(ds, hosts[0]), hosts[1..], top);
    }
  }

  /**
   * From any state whose largest domain has top nodes, once an admitted run is
   * at least as long as the deficit the nodes are shared out evenly: with e
   * nodes more than the deficit over k domains, e mod k of them have
   * top + e/k + 1 nodes and the others top + e/k.
   */
  lemma RunLevelsOut(ds: seq<Domain>, hosts: seq<string>, top: nat)
    requires ds != [] && AdmittedRun(ds, hosts)
    requires forall i | 0 <= i < |ds| :: ds[i].nodes <= top
    requires |hosts| >= Deficit(Nodes(ds), top)
    ensures var extra := |hosts| - Deficit(Nodes(ds), top);
      var cs := Nodes(AddAll(ds, hosts));
      && |cs| == |ds| && EvenShares(cs, Sum(cs)) && AtLeast(cs, top)
      && Sum(cs) / |ds| == top + extra / |ds| && Sum(cs) % |ds| == extra % |ds|
  {
    hide Sum, EvenShares, AddAll, AdmittedRun;
    RunFills(ds, hosts, top);
    var cs := Nodes(AddAll(ds, hosts));
    var k, extra := |ds|, |hosts| - Deficit(Nodes(ds), top);
    assert Sum(cs) == top * k + extra;
    if i :| 0 <= i < |cs| && cs[i] < top {
      assert forall j | 0 <= j < |cs| :: cs[j] <= top;
      SumBelow(cs, top);
    }
    assert AtLeast(cs, top);
    LevelIsEven(cs);
    SplitShares(top, k, extra);
  }

  lemma SplitShares(top: nat, k: nat, extra: nat)
    requires k > 0
    ensures (top * k + extra) / k == top + extra / k && (top * k + extra) % k == extra % k
  {
    var q, r := extra / k, extra % k;
    assert extra == q * k + r;
    assert (top + q) * k == top * k + q * k;
    DivUnique(top * k + extra, k, top + q, r);
  }

  /** j nodes more than m each over k domains: j mod k of them have m + j/k + 1 nodes and the others m + j/k. */
  predicate SharesFrom(cs: seq<nat>, m: nat, j: nat) {
    && cs != []
    && (forall i | 0 <= i < |cs| :: cs[i] == m + j / |cs| || cs[i] == m + j / |cs| + 1)
    && CountOf(cs, m + j / |cs| + 1) == j % |cs|
  }

  lemma SharesFromEven(cs: seq<nat>, n: nat, m: nat, j: nat)
    requires EvenShares(cs, n) && n / |cs| == m + j / |cs| && n % |cs| == j % |cs|
    ensures SharesFrom(cs, m, j)
  {
    hide CountOf;
  }

  /** From equal domains of m nodes, j additions leave even shares from m. */
  lemma EqualRun(ds: seq<Domain>, hosts: seq<string>, m: nat)
    requires ds != [] && AdmittedRun(ds, hosts) && forall i | 0 <= i < |ds| :: ds[i].nodes == m
    ensures |AddAll(ds, hosts)| == |ds| && SharesFrom(Nodes(AddAll(ds, hosts)), m, |hosts|)
  {
    hide AddAll, AdmittedRun, CountOf, Sum, Nodes, EvenShares, SharesFrom;
    SumOfEqual(Nodes(ds), m);
    RunLevelsOut(ds, hosts, m);
    var cs := Nodes(AddAll(ds, hosts));
    SharesFromEven(cs, Sum(cs), m, |hosts|);
  }

  lemma {:induction false} SumOfEqual(cs: seq<nat>, m: nat)
    requires forall i | 0 <= i < |cs| :: cs[i] == m
    ensures Sum(cs) == m * |cs|
  {
    if cs != [] {
      SumOfEqual(cs[1..], m);
      assert m * |cs| == m * (|cs| - 1) + m;
    }
  }

  /** Opening a new domain unbalances the state; the admitted run that makes up its deficit balances it again. */
  lemma NewDomainRun(ds: seq<Domain>, name: string, hosts: seq<string>, top: nat)
    requires ds != [] && Balanced(ds) && name != "" && !Known(ds, name)
    requires forall i | 0 <= i < |ds| :: ds[i].nodes <= top
    requires AdmittedRun(AddNode(ds, name), hosts) && |hosts| >= Deficit(Nodes(AddNode(ds, name)), top)
    ensures !Balanced(AddNode(ds, name)) && Balanced(AddAll(AddNode(ds, name), hosts))
  {
    hide AddAll, AdmittedRun, Sum, EvenShares;
    AddBalances(ds, name);
    assert Nodes(ds)[0] >= 2;
    RunLevelsOut(AddNode(ds, name), hosts, top);
    LevelIsEven(Nodes(AddAll(AddNode(ds, name), hosts)));
  }

  // ---- the entry of nodes that sit in no domain ----

  /** The cluster lists nodes without a domain under this name. */
  const UNASSIGNED := "unassigned"

  function Real(ds: seq<Domain>): seq<Domain> {
    Filter(ds, (d: Domain) => d.name != UNASSIGNED)
  }

  function NodesOf(ds: seq<Domain>, name: string): nat {
    if Known(ds, name) then ds[PlaceOf(ds, name)].nodes else 0
  }

  /** The filter's minimum also counts that entry; it then is not below every real domain. */
  predicate Covered(ds: seq<Domain>) {
    Real(ds) != [] && Known(ds, UNASSIGNED) ==> Least(Nodes(Real(ds))) <= NodesOf(ds, UNASSIGNED)
  }

  lemma PlaceStep(d: Domain, ds: seq<Domain>, name: string)
    ensures PlaceOf([d] + ds, name) == if d.name == name then 0 else 1 + PlaceOf(ds, name)
    ensures AddNode([d] + ds, name) == if d.name == name then [Domain(name, d.nodes + 1)] + ds else [d] + AddNode(ds, name)
    ensures Real([d] + ds) == if d.name == UNASSIGNED then Real(ds) else [d] + Real(ds)
  {
    var names := (x: Domain) => x.name;
    assert Map([d] + ds, names)[1..] == Map(ds, names);
    FilterStep(d, ds, (x: Domain) => x.name != UNASSIGNED);
    var i := PlaceOf(ds, name);
    if d.name != name && i < |ds| {
      assert ([d] + ds)[1 + i := Domain(name, ds[i].nodes + 1)] == [d] + ds[i := Domain(name, ds[i].nodes + 1)];
    }
  }

  /** A real domain is found among the real ones as it is among all, and adding to it is the same there. */
  lemma {:induction false} RealIs(ds: seq<Domain>, name: string)
    requires name != UNASSIGNED
    ensures Known(Real(ds), name) <==> Known(ds, name)
    ensures NodesOf(Real(ds), name) == NodesOf(ds, name)
    ensures Real(AddNode(ds, name)) == AddNode(Real(ds), name)
  {
    hide Filter;
    if ds == [] {
      NoneReal();
      PlaceStep(Domain(name, 1), [], name);
      assert [] + [Domain(name, 1)] == [Domain(name, 1)] + [];
    } else {
      var d, rest := ds[0], ds[1..];
      assert ds == [d] + rest;
      RealIs(rest, name);
      PlaceStep(d, rest, name);
      PlaceStep(d, Real(rest), name);
      PlaceStep(Domain(name, d.nodes + 1), rest, name);
      PlaceStep(d, AddNode(rest, name), name);
    }
  }

  lemma NoneReal()
    ensures Real([]) == []
  {
  }

  lemma RealIn(ds: seq<Domain>)
    ensures forall d :: d in Real(ds) <==> d in ds && d.name != UNASSIGNED
  {
    FilterIn(ds, (d: Domain) => d.name != UNASSIGNED);
  }

  lemma LeastBelow(ds: seq<Domain>, d: Domain)
    requires d in ds
    ensures Least(Nodes(ds)) <= d.nodes
  {
    LeastIs(Nodes(ds));
    var i :| 0 <= i < |ds| && ds[i] == d;
    assert Nodes(ds)[i] == d.nodes;
  }

  lemma LeastAt(ds: seq<Domain>) returns (d: Domain)
    requires ds != []
    ensures d in ds && d.nodes == Least(Nodes(ds))
  {
    LeastIs(Nodes(ds));
    var i :| 0 <= i < |ds| && Nodes(ds)[i] == Least(Nodes(ds));
    d := ds[i];
  }

  lemma PlaceOfIs(ds: seq<Domain>, d: Domain)
    requires DistinctNames(ds) && d in ds
    ensures Known(ds, d.name) && NodesOf(ds, d.name) == d.nodes
  {
  }

  /**
   * A domain that exists is admitted exactly when it is one of the smallest real ones and the
   * nodes without a domain are not fewer than theirs.
   */
  lemma EligibleIs(ds: seq<Domain>, name: string)
    requires DistinctNames(ds) && name != "" && name != UNASSIGNED && Known(ds, name)
    ensures Eligible(ds, name) <==> Eligible(Real(ds), name) && Covered(ds)
  {
    hide Least, Nodes, Real, PlaceOf;
    RealIs(ds, name);
    RealIn(ds);
    var v := NodesOf(ds, name);
    var own := ds[PlaceOf(ds, name)];
    assert own in ds && own in Real(ds);
    LeastBelow(ds, own);
    LeastBelow(Real(ds), own);
    var a := LeastAt(ds);
    var b := LeastAt(Real(ds));
    LeastBelow(ds, b);
    if a.name == UNASSIGNED {
      PlaceOfIs(ds, a);
    } else {
      LeastBelow(Real(ds), a);
    }
    if Known(ds, UNASSIGNED) {
      LeastBelow(ds, ds[PlaceOf(ds, UNASSIGNED)]);
    }
  }

  /** Some existing domain is open to a host exactly when the nodes without a domain, if there are any, are not fewer than those of every real one. */
  lemma SomeDomainIsEligible(ds: seq<Domain>)
    requires DistinctNames(ds) && Real(ds) != [] && forall d <- ds :: d.name != ""
    ensures (exists d <- Real(ds) :: Eligible(ds, d.name)) <==> Covered(ds)
  {
    hide Least, Nodes, Real, Eligible, Covered, PlaceOf;
    RealIn(ds);
    var d := LeastAt(Real(ds));
    PlaceOfIs(ds, d);
    RealIs(ds, d.name);
    LeastIsEligible(Real(ds), d);
    EligibleIs(ds, d.name);
    forall e | e in Real(ds) && Eligible(ds, e.name)
      ensures Covered(ds)
    {
      PlaceOfIs(ds, e);
      EligibleIs(ds, e.name);
    }
  }

  lemma LeastIsEligible(ds: seq<Domain>, d: Domain)
    requires ds != [] && d.name != "" && Known(ds, d.name) && NodesOf(ds, d.name) == Least(Nodes(ds))
    ensures Eligible(ds, d.name)
  {
  }

  /**
   * Where the real domains are balanced, a node added to a host's domain keeps them so exactly when
   * that is one of the smallest existing ones. The filter admits just these where the nodes without
   * a domain are not fewer than theirs, and none of the existing ones where they are.
   */
  lemma AddKeepsBalance(ds: seq<Domain>, name: string)
    requires DistinctNames(ds) && Real(ds) != [] && Balanced(Real(ds)) && name != "" && name != UNASSIGNED
    ensures Balanced(Real(AddNode(ds, name))) <==> Known(ds, name) && Eligible(Real(ds), name)
    ensures Known(ds, name) ==> (Eligible(ds, name) <==> Eligible(Real(ds), name) && Covered(ds))
    ensures Known(ds, name) && Eligible(ds, name) ==> Balanced(Real(AddNode(ds, name)))
  {
    hide Balanced, Real, Eligible, Covered, PlaceOf;
    RealIs(ds, name);
    AddBalances(Real(ds), name);
    if Known(ds, name) {
      EligibleIs(ds, name);
    }
  }

  lemma AddKeepsNames(ds: seq<Domain>, name: string)
    requires DistinctNames(ds)
    ensures DistinctNames(AddNode(ds, name))
  {
  }

  /** An admitted run of hosts is an admitted run on the real domains alone. */
  lemma {:induction false} RealRun(ds: seq<Domain>, hosts: seq<string>)
    requires DistinctNames(ds) && AdmittedRun(ds, hosts) && UNASSIGNED !in hosts
    ensures AdmittedRun(Real(ds), hosts) && Real(AddAll(ds, hosts)) == AddAll(Real(ds), hosts)
    decreases hosts
  {
    hide Real, Eligible, DistinctNames, AddNode, Known;
    if hosts != [] {
      assert hosts[0] in hosts && hosts == [hosts[0]] + hosts[1..];
      RealIs(ds, hosts[0]);
      EligibleIsNamed(ds, hosts[0]);
      EligibleIs(ds, hosts[0]);
      AddKeepsNames(ds, hosts[0]);
      RealRun(AddNode(ds, hosts[0]), hosts[1..]);
    }
  }

  /** Every run of admitted hosts into existing domains keeps the real ones balanced. */
  lemma RunsKeepBalance(ds: seq<Domain>, hosts: seq<string>)
    requires DistinctNames(ds) && Real(ds) != [] && Balanced(Real(ds)) && AdmittedRun(ds, hosts) && UNASSIGNED !in hosts
    ensures Balanced(Real(AddAll(ds, hosts))) && |Real(AddAll(ds, hosts))| == |Real(ds)|
  {
    hide *;
    RealRun(ds, hosts);
    RunBalances(Real(ds), hosts);
  }

  /**
   * From any state whose largest real domain has top nodes, once an admitted run is at least as
   * long as the deficit, the real domains share the nodes out evenly from top on.
   */
  lemma RunsLevelOut(ds: seq<Domain>, hosts: seq<string>, top: nat)
    requires DistinctNames(ds) && Real(ds) != [] && AdmittedRun(ds, hosts) && UNASSIGNED !in hosts
    requires forall i | 0 <= i < |Real(ds)| :: Real(ds)[i].nodes <= top
    requires |hosts| >= Deficit(Nodes(Real(ds)), top)
    ensures var extra, k := |hosts| - Deficit(Nodes(Real(ds)), top), |Real(ds)|;
      var cs := Nodes(Real(AddAll(ds, hosts)));
      && |cs| == k && EvenShares(cs, Sum(cs)) && AtLeast(cs, top)
      && Sum(cs) == Sum(Nodes(Real(ds))) + |hosts|
      && Sum(cs) / k == top + extra / k && Sum(cs) % k == extra % k
  {
    hide Real, AdmittedRun, AddAll, EvenShares, Sum, AtLeast, Deficit;
    RealRun(ds, hosts);
    RunLevelsOut(Real(ds), hosts, top);
    RunAdds(Real(ds), hosts);
  }

  lemma {:induction false} RunAdds(ds: seq<Domain>, hosts: seq<string>)
    requires ds != [] && AdmittedRun(ds, hosts)
    ensures Sum(Nodes(AddAll(ds, hosts))) == Sum(Nodes(ds)) + |hosts|
    decreases hosts
  {
    hide Sum, Nodes, Eligible;
    if hosts != [] {
      AddSum(ds, hosts[0]);
      RunAdds(AddNode(ds, hosts[0]), hosts[1..]);
    }
  }

  lemma AddSum(ds: seq<Domain>, name: string)
    requires Known(ds, name)
    ensures Sum(Nodes(AddNode(ds, name))) == Sum(Nodes(ds)) + 1 && AddNode(ds, name) != []
  {
    hide Sum;
    var cs, i := Nodes(ds), PlaceOf(ds, name);
    SumUpdate(cs, i, cs[i] + 1);
    assert Nodes(AddNode(ds, name)) == cs[i := cs[i] + 1];
  }

  /** From equal real domains of m nodes, j additions leave even shares from m. */
  lemma EqualStaysEven(ds: seq<Domain>, hosts: seq<string>, m: nat)
    requires DistinctNames(ds) && Real(ds) != [] && AdmittedRun(ds, hosts) && UNASSIGNED !in hosts
    requires forall i | 0 <= i < |Real(ds)| :: Real(ds)[i].nodes == m
    ensures |Real(AddAll(ds, hosts))| == |Real(ds)| && SharesFrom(Nodes(Real(AddAll(ds, hosts))), m, |hosts|)
  {
    hide Real, AdmittedRun, AddAll, SharesFrom, Nodes;
    RealRun(ds, hosts);
    EqualRun(Real(ds), hosts, m);
  }

  /** Opening a new domain unbalances the real ones; the admitted run that makes up its deficit balances them again. */
  lemma NewDomainRecovers(ds: seq<Domain>, name: string, hosts: seq<string>, top: nat)
    requires DistinctNames(ds) && Real(ds) != [] && Balanced(Real(ds)) && name != "" && name != UNASSIGNED && !Known(ds, name)
    requires forall i | 0 <= i < |Real(ds)| :: Real(ds)[i].nodes <= top
    requires AdmittedRun(AddNode(ds, name), hosts) && UNASSIGNED !in hosts
    requires |hosts| >= Deficit(Nodes(Real(AddNode(ds, name))), top)
    ensures Eligible(ds, name)
    ensures !Balanced(Real(AddNode(ds, name))) && Balanced(Real(AddAll(AddNode(ds, name), hosts)))
  {
    hide Real, AdmittedRun, AddAll, Balanced, AddNode, Deficit, PlaceOf;
    RealIs(ds, name);
    AddKeepsNames(ds, name);
    RealRun(AddNode(ds, name), hosts);
    NewDomainRun(Real(ds), name, hosts, top);
  }

  /** Two domains of three nodes and two nodes in none: the balance could take a node in either, and the filter admits neither. */
  lemma UnassignedClosesAll()
    ensures var ds := [Domain("r1", 3), Domain("r2", 3), Domain(UNASSIGNED, 2)];
      && DistinctNames(ds) && Balanced(Real(ds))
      && !Eligible(ds, "r1") && !Eligible(ds, "r2") && Balanced(Real(AddNode(ds, "r1")))
  {
    var ds := [Domain("r1", 3), Domain("r2", 3), Domain(UNASSIGNED, 2)];
    assert "r1"[1] != "r2"[1] && |"r1"| == |"r2"| == 2 && |UNASSIGNED| == 10;
    RealThree(ds);
    var kept := Real(ds);
    assert ds[0] in ds && ds[1] in ds && ds[2] in ds && kept[0] in kept && kept[1] in kept;
    PlaceOfIs(ds, ds[0]);
    PlaceOfIs(ds, ds[1]);
    PlaceOfIs(ds, ds[2]);
    var d := LeastAt(kept);
    assert d == kept[0] || d == kept[1];
    assert !Covered(ds);
    EligibleIs(ds, "r1");
    EligibleIs(ds, "r2");
    RealIs(ds, "r1");
    LeastIsEligible(kept, kept[0]);
    AddKeepsBalance(ds, "r1");
  }

  lemma RealThree(ds: seq<Domain>)
    requires |ds| == 3 && ds[0].name != UNASSIGNED && ds[1].name != UNASSIGNED && ds[2].name == UNASSIGNED
    ensures Real(ds) == [ds[0], ds[1]]
  {
    assert ds == [ds[0]] + ([ds[1]] + ([ds[2]] + []));
    NoneReal();
    PlaceStep(ds[2], [], "");
    PlaceStep(ds[1], [ds[2]], "");
    PlaceStep(ds[0], [ds[1]] + [ds[2]], "");
    assert [ds[2]] + [] == [ds[2]] && [ds[1]] + [] == [ds[1]];
  }

  /** Two domains of two nodes: a host of a third one is admitted and leaves a domain of one node. */
  lemma NewDomainExample()
    ensures var ds := [Domain("r1", 2), Domain("r2", 2)];
      Balanced(ds) && Eligible(ds, "r3") && !Balanced(AddNode(ds, "r3"))
  {
    var ds := [Domain("r1", 2), Domain("r2", 2)];
    assert "r1"[1] != "r3"[1] && "r2"[1] != "r3"[1];
    assert !Known(ds, "r3");
    AddBalances(ds, "r3");
  }
}
