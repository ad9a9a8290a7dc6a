/** What the proposed tiers and gates hold, read off the reported objects. */
module TierContents {
  import opened Text
  import opened Seqs
  import opened Report
  import opened TierProposal
  import opened TierProposalLaws
  import opened RowChecks
  import S = Selectors
  import E = TierEditor

  // ---- tier labels ----

  /** A label key that names a tier: "tier", by itself or after a prefix and a slash. */
  ghost predicate NamesTier(key: string) {
    key == "tier" || exists prefix :: key == prefix + "/tier"
  }

  lemma TierKeyIs(key: string)
    ensures IsTierKey(key) <==> NamesTier(key)
  {
    var n := |"/tier"|;
    if EndsWith(key, "/tier") {
      assert key == key[..|key| - n] + "/tier";
    }
    if prefix :| key == prefix + "/tier" {
      assert key[|key| - n..] == "/tier";
    }
  }

  /** The first label of the object that names a tier. */
  ghost predicate HasTier(o: Obj, p: (string, string)) {
    FirstOf(o.labels, (q: (string, string)) => NamesTier(q.0), p)
  }

  lemma {:induction false} TierPairFirst(m: S.Labels, p: (string, string))
    ensures TierPair(m) == Some(p) <==> FirstOf(m, (q: (string, string)) => NamesTier(q.0), p)
    ensures TierPair(m).None? <==> forall q <- m :: !NamesTier(q.0)
  {
    hide FirstOf, IsTierKey, NamesTier;
    var names := (q: (string, string)) => NamesTier(q.0);
    FirstOfStep(p, [], names, p);
    if m != [] {
      TierPairFirst(m[1..], p);
      TierKeyIs(m[0].0);
      assert m == [m[0]] + m[1..];
      FirstOfStep(m[0], m[1..], names, p);
    }
  }

  /** The tools are the Deployments and StatefulSets without a tier label. */
  lemma ToolsSay(objs: seq<Obj>, o: Obj)
    ensures o in Tools(objs) <==> o in objs && (o.kind == Deployment || o.kind == StatefulSet) && forall q <- o.labels :: !NamesTier(q.0)
  {
    hide TierPair, NamesTier;
    ToolsAre(objs);
    TierPairFirst(o.labels, ("", ""));
  }

  // ---- groups ----

  function OfPair(pair: (string, string)): Obj -> bool {
    (o: Obj) => TierPair(o.labels) == Some(pair)
  }

  /** Each group holds, in their order, the objects of its tier label. */
  predicate Gathered(groups: seq<Group>, objs: seq<Obj>) {
    && (forall g <- groups :: g.objs == Filter(objs, OfPair(g.pair)) && S.TidyPair(g.pair))
    && (forall i, j | 0 <= i < j < |groups| :: groups[i].pair != groups[j].pair)
  }

  predicate HasPair(groups: seq<Group>, pair: (string, string)) {
    exists g <- groups :: g.pair == pair
  }

  lemma {:induction false} PushSays(groups: seq<Group>, pair: (string, string), o: Obj)
    requires S.TidyPair(pair) && forall g <- groups :: S.TidyPair(g.pair)
    requires forall i, j | 0 <= i < j < |groups| :: groups[i].pair != groups[j].pair
    ensures var r := Push(groups, pair, o);
      && |r| == (if HasPair(groups, pair) then |groups| else |groups| + 1)
      && (forall i | 0 <= i < |groups| ::
           r[i] == if groups[i].pair == pair then Group(pair, groups[i].objs + [o]) else groups[i])
      && (!HasPair(groups, pair) ==> r[|groups|] == Group(pair, [o]))
  {
    hide S.TidyPair, S.PairText;
    if groups != [] {
      var g, rest := groups[0], groups[1..];
      assert groups == [g] + rest && g in groups;
      if S.PairText(g.pair) == S.PairText(pair) {
        S.TidyTextInjective(g.pair, pair);
      } else {
        PushSays(rest, pair, o);
      }
    }
  }

  lemma FilterOneMore(objs: seq<Obj>, o: Obj, pair: (string, string))
    ensures Filter(objs + [o], OfPair(pair)) == Filter(objs, OfPair(pair)) + if TierPair(o.labels) == Some(pair) then [o] else []
  {
    hide Filter, TierPair;
    FilterConcat(objs, [o], OfPair(pair));
    FilterStep(o, [], OfPair(pair));
    assert [o] + [] == [o];
  }

  lemma {:induction false} GroupsSay(objs: seq<Obj>)
    requires TidyObjs(objs)
    ensures Gathered(GroupByTier(objs), objs)
    ensures forall o <- objs :: TierPair(o.labels).Some? ==> HasPair(GroupByTier(objs), TierPair(o.labels).value)
  {
    hide S.TidyPair, Push, TierPair, Filter;
    if objs == [] {
    } else {
      var n := |objs| - 1;
      var front, o := objs[..n], objs[n];
      assert objs == front + [o] && o in objs;
      GroupsSay(front);
      GroupsStep(front, o);
    }
  }

  lemma GroupsStep(front: seq<Obj>, o: Obj)
    requires TidyObjs(front) && S.TidyLabels(o.labels)
    requires Gathered(GroupByTier(front), front)
    requires forall x <- front :: TierPair(x.labels).Some? ==> HasPair(GroupByTier(front), TierPair(x.labels).value)
    ensures Gathered(GroupByTier(front + [o]), front + [o])
    ensures forall x <- front + [o] :: TierPair(x.labels).Some? ==> HasPair(GroupByTier(front + [o]), TierPair(x.labels).value)
  {
    var objs, groups, pair := front + [o], GroupByTier(front), TierPair(o.labels);
    assert objs[..|front|] == front && objs[|front|] == o;
    TierPairIn(o.labels);
    hide S.TidyPair, Push, TierPair, Filter, OfPair, Gathered, HasPair;
    if pair.None? {
      OtherStep(groups, front, o);
    } else {
      GatheredStep(groups, front, o, pair.value);
    }
  }

  lemma OtherStep(groups: seq<Group>, front: seq<Obj>, o: Obj)
    requires Gathered(groups, front) && TierPair(o.labels).None?
    ensures Gathered(groups, front + [o])
  {
    hide S.TidyPair, TierPair, Filter, OfPair;
    forall g | g in groups
      ensures Filter(front + [o], OfPair(g.pair)) == Filter(front, OfPair(g.pair))
    {
      FilterOneMore(front, o, g.pair);
    }
  }

  lemma GatheredStep(groups: seq<Group>, front: seq<Obj>, o: Obj, p: (string, string))
    requires Gathered(groups, front) && TierPair(o.labels) == Some(p) && S.TidyPair(p)
    requires forall x <- front :: TierPair(x.labels).Some? ==> HasPair(groups, TierPair(x.labels).value)
    ensures Gathered(Push(groups, p, o), front + [o])
    ensures forall x <- front + [o] :: TierPair(x.labels).Some? ==> HasPair(Push(groups, p, o), TierPair(x.labels).value)
  {
    hide S.TidyPair, Push, TierPair, Filter, OfPair;
    var objs, r := front + [o], Push(groups, p, o);
    PushSays(groups, p, o);
    if !HasPair(groups, p) {
      NoneOfPair(groups, front, p);
    }
    hide HasPair;
    forall i | 0 <= i < |r|
      ensures r[i].objs == Filter(objs, OfPair(r[i].pair)) && S.TidyPair(r[i].pair)
    {
      FilterOneMore(front, o, r[i].pair);
      if i < |groups| {
        assert groups[i] in groups;
      }
    }
    forall x | x in objs && TierPair(x.labels).Some?
      ensures HasPair(r, TierPair(x.labels).value)
    {
      PairStays(groups, r, p, TierPair(x.labels).value);
    }
  }

  lemma PairStays(groups: seq<Group>, r: seq<Group>, p: (string, string), q: (string, string))
    requires |r| == (if HasPair(groups, p) then |groups| else |groups| + 1)
    requires forall i | 0 <= i < |groups| :: r[i].pair == groups[i].pair
    requires !HasPair(groups, p) ==> r[|groups|].pair == p
    requires q == p || HasPair(groups, q)
    ensures HasPair(r, q)
  {
    if HasPair(groups, q) {
      var i :| 0 <= i < |groups| && groups[i].pair == q;
      assert r[i] in r;
    } else {
      assert r[|groups|] in r;
    }
  }

  lemma NoneOfPair(groups: seq<Group>, front: seq<Obj>, p: (string, string))
    requires !HasPair(groups, p)
    requires forall x <- front :: TierPair(x.labels).Some? ==> HasPair(groups, TierPair(x.labels).value)
    ensures Filter(front, OfPair(p)) == []
  {
    hide TierPair;
    FilterNone(front, OfPair(p));
  }

  /** There is one group for each tier label that some object has; it holds those objects, in their order. */
  lemma ValueGroupsSay(objs: seq<Obj>, before: Collation, pair: (string, string))
    requires TidyObjs(objs)
    ensures var groups := ValueGroups(objs, before);
      && (forall g <- groups :: g.objs == Filter(objs, OfPair(g.pair)) && g.objs != [])
      && (HasPair(groups, pair) <==> exists o <- objs :: HasTier(o, pair))
      && multiset(groups)[Group(pair, Filter(objs, OfPair(pair)))] <= 1
  {
    hide S.TidyPair, TierPair, SortBy, GroupByTier, Filter, HasTier, OfPair;
    var groups, unsorted := ValueGroups(objs, before), GroupByTier(objs);
    GroupsSay(objs);
    SortIsPermutation(unsorted, TierOrder(before));
    ValueGroupsAre(objs, before);
    forall o: Obj
      ensures TierPair(o.labels) == Some(pair) <==> HasTier(o, pair)
    {
      TierIs(o, pair);
    }
    if HasPair(groups, pair) {
      var g :| g in groups && g.pair == pair;
      var o := g.objs[0];
      assert o in Filter(objs, OfPair(pair));
      OfPairIn(objs, pair, o);
    }
    GroupsApart(unsorted);
    DistinctBag(unsorted);
  }

  lemma TierIs(o: Obj, pair: (string, string))
    ensures TierPair(o.labels) == Some(pair) <==> HasTier(o, pair)
  {
    TierPairFirst(o.labels, pair);
  }

  lemma OfPairIn(objs: seq<Obj>, pair: (string, string), o: Obj)
    ensures o in Filter(objs, OfPair(pair)) <==> o in objs && TierPair(o.labels) == Some(pair)
  {
    hide TierPair;
    FilterIn(objs, OfPair(pair));
  }

  lemma GroupsApart(groups: seq<Group>)
    requires forall i, j | 0 <= i < j < |groups| :: groups[i].pair != groups[j].pair
    ensures Distinct(groups)
  {
  }

  // ---- rows ----

  /** The ready checks of the kinds of workload there are, in this order. */
  predicate ReadySays(ready: seq<E.CheckType>, objs: seq<Obj>) {
    ready == (if exists o <- objs :: o.kind == Deployment then [E.DeploymentsReady] else [])
             + (if exists o <- objs :: o.kind == StatefulSet then [E.StatefulSetsReady] else [])
             + (if exists o <- objs :: o.kind == VirtualMachine then [E.VmRunning] else [])
  }

  /** The tools row takes the label chosen among those of the tools, and else their kinds. */
  predicate ToolsRowSays(r: E.Row, tools: seq<Obj>, pairs: seq<string>) {
    && r.name == "tools" && ReadySays(r.ready, tools)
    && match CommonPair(pairs, tools)
       case Some(text) => r.labels == [text] && r.kinds == []
       case None =>
         && r.labels == []
         && r.kinds == (if exists o <- tools :: o.kind == Deployment then ["deployments"] else [])
                       + (if exists o <- tools :: o.kind == StatefulSet then ["statefulsets"] else [])
  }

  predicate GroupRowSays(r: E.Row, g: Group) {
    && r.name == Cut(ValueSlug(g.pair.1), 30)
    && r.labels == [g.pair.0 + "=" + g.pair.1] && r.kinds == [] && ReadySays(r.ready, g.objs)
  }

  /** The proposed tiers: config with its four kinds, the tools if there are any, and one tier for each group. */
  lemma ProposedRowsSay(objs: seq<Obj>, before: Collation)
    requires TidyObjs(objs)
    ensures var rows, groups, tools := TierRows(objs, before), ValueGroups(objs, before), Tools(objs);
      var h := if tools == [] then 1 else 2;
      && |rows| == h + |groups|
      && rows[0] == E.Row("config", ["configmaps", "secrets", "serviceaccounts", "services"], [], [])
      && (tools != [] ==> ToolsRowSays(rows[1], tools, ObjectPairs(LabelsOf(tools), before)))
      && forall i | 0 <= i < |groups| :: GroupRowSays(rows[h + i], groups[i])
  {
    hide ValueGroups, Tools, ToolsRow, GroupRow, ToolsRowSays, GroupRowSays, ObjectPairs, S.TidyPair, TidyObjs;
    var groups, tools, rows := ValueGroups(objs, before), Tools(objs), TierRows(objs, before);
    ValueGroupsAre(objs, before);
    if tools != [] {
      ToolsRowSaid(tools, before);
    }
    var h := if tools == [] then 1 else 2;
    forall i | 0 <= i < |groups|
      ensures GroupRowSays(rows[h + i], groups[i])
    {
      assert groups[i] in groups && rows[h + i] == GroupRow(groups[i]);
      GroupRowSaid(groups[i]);
    }
  }

  lemma ToolsRowSaid(tools: seq<Obj>, before: Collation)
    ensures ToolsRowSays(ToolsRow(tools, before), tools, ObjectPairs(LabelsOf(tools), before))
  {
    hide CommonPair, ObjectPairs;
  }

  lemma GroupRowSaid(g: Group)
    requires S.TidyPair(g.pair)
    ensures GroupRowSays(GroupRow(g), g)
  {
    hide ValueSlug, ValueName, S.TidyPair;
    ValueNameIs(g.pair);
  }

  // ---- gates ----

  predicate DataTier(name: string) {
    name in ["db", "database", "data", "storage", "cache"]
  }

  /** The first target whose service has the name. */
  predicate TargetFor(targets: seq<string>, name: string, t: string) {
    FirstOf(targets, (x: string) => Split(x, ':')[0] == name, t)
  }

  /** Some service has the object's name. */
  function Aimed(targets: seq<string>): Obj -> bool {
    (o: Obj) => exists t <- targets :: t != "" && TargetFor(targets, o.name, t)
  }

  /** The target of the first object that has one. */
  predicate TargetOfFirst(objs: seq<Obj>, targets: seq<string>, t: string) {
    t != "" && exists o <- objs :: FirstOf(objs, Aimed(targets), o) && TargetFor(targets, o.name, t)
  }

  lemma {:induction false} FindTargetFirst(targets: seq<string>, name: string, t: string)
    ensures FindTarget(targets, name) == Some(t) <==> TargetFor(targets, name, t)
    ensures FindTarget(targets, name).Some? ==> FindTarget(targets, name).value in targets
  {
    hide FirstOf, Split;
    var named := (x: string) => Split(x, ':')[0] == name;
    FirstOfStep(t, [], named, t);
    if targets != [] {
      FindTargetFirst(targets[1..], name, t);
      assert targets == [targets[0]] + targets[1..];
      FirstOfStep(targets[0], targets[1..], named, t);
    }
  }

  lemma AimedIs(o: Obj, targets: seq<string>)
    ensures Aimed(targets)(o) <==> FindTarget(targets, o.name).Some? && FindTarget(targets, o.name).value != ""
  {
    hide FindTarget, TargetFor;
    forall t
      ensures FindTarget(targets, o.name) == Some(t) <==> TargetFor(targets, o.name, t)
      ensures FindTarget(targets, o.name).Some? ==> FindTarget(targets, o.name).value in targets
    {
      FindTargetFirst(targets, o.name, t);
    }
  }

  lemma {:induction false} FirstTargetSays(objs: seq<Obj>, targets: seq<string>, t: string)
    ensures FirstTarget(objs, targets) == Some(t) <==> TargetOfFirst(objs, targets, t)
  {
    hide FindTarget, TargetFor, FirstOf, Aimed;
    if objs != [] {
      var o, rest := objs[0], objs[1..];
      assert objs == [o] + rest;
      FirstTargetSays(rest, targets, t);
      AimedIs(o, targets);
      FindTargetFirst(targets, o.name, t);
      forall x: Obj
        ensures FirstOf(objs, Aimed(targets), x) <==> if Aimed(targets)(o) then x == o else FirstOf(rest, Aimed(targets), x)
      {
        FirstOfStep(o, rest, Aimed(targets), x);
      }
      forall x | FirstOf(rest, Aimed(targets), x)
        ensures x in rest
      {
        FirstIn(rest, Aimed(targets), x);
      }
    }
  }

  /** One gate for every data tier an object of which has a target, if there is a pod to run it in. */
  predicate GateSays(g: E.Gate, group: Group, targets: seq<string>, pod: string) {
    && DataTier(GroupRow(group).name) && pod != ""
    && TargetOfFirst(group.objs, targets, g.target)
    && g == E.Gate(GroupRow(group).name, pod, Some(900), "", E.Tcp, g.target)
  }

  lemma {:induction false} GatesSay(groups: seq<Group>, targets: seq<string>, pod: string, g: E.Gate)
    ensures g in GatesFor(groups, targets, pod) <==> exists group <- groups :: GateSays(g, group, targets, pod)
  {
    hide GateFor, GateSays;
    if groups != [] {
      assert groups == [groups[0]] + groups[1..];
      GatesSay(groups[1..], targets, pod, g);
      GateSaid(groups[0], targets, pod, g);
    }
  }

  lemma GateSaid(group: Group, targets: seq<string>, pod: string, g: E.Gate)
    ensures g in GateFor(group, targets, pod) <==> GateSays(g, group, targets, pod)
  {
    hide FirstTarget, TargetOfFirst, ValueName, S.PairText, ReadyTypes;
    forall t
      ensures FirstTarget(group.objs, targets) == Some(t) <==> TargetOfFirst(group.objs, targets, t)
    {
      FirstTargetSays(group.objs, targets, t);
    }
  }

  /** A target is a port of a service of a chosen namespace. */
  lemma {:induction false} TargetsSay(reports: seq<NsReport>, namespaces: seq<string>, t: string)
    ensures t in ServiceTargets(reports, namespaces)
      <==> exists ns <- namespaces, r <- reports :: IsReport(reports, ns, r) && OfService(r, t)
  {
    hide NsOf, IsReport, OfService;
    if namespaces != [] {
      var ns, rest := namespaces[0], namespaces[1..];
      assert namespaces == [ns] + rest;
      TargetsSay(reports, rest, t);
      forall r
        ensures NsOf(reports, ns) == Some(r) <==> IsReport(reports, ns, r)
        ensures IsReport(reports, ns, r) ==> r in reports
      {
        NsOfIs(reports, ns, r);
        ReportIn(reports, ns, r);
      }
      if NsOf(reports, ns).Some? {
        ServicesSay(NsOf(reports, ns).value, t);
      }
    }
  }

  lemma ReportIn(reports: seq<NsReport>, ns: string, r: NsReport)
    ensures IsReport(reports, ns, r) ==> r in reports
  {
  }

  predicate OfService(r: NsReport, t: string) {
    exists s <- r.services :: exists port <- s.ports :: t == s.name + ":" + port
  }

  lemma ServicesSay(r: NsReport, t: string)
    ensures t in Flatten(Map(r.services, (s: Service) => TargetsOf(s))) <==> OfService(r, t)
  {
    hide Flatten;
    var lists := Map(r.services, (s: Service) => TargetsOf(s));
    FlattenIn(lists);
    if s, port :| s in r.services && port in s.ports && t == s.name + ":" + port {
      var i :| 0 <= i < |r.services| && r.services[i] == s;
      var j :| 0 <= j < |s.ports| && s.ports[j] == port;
      assert lists[i][j] == t;
    }
  }
}
