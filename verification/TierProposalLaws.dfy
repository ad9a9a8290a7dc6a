/** The forms' checks accept what is proposed, and what is proposed leaves no workload out. */
module TierProposalLaws {
  import opened Text
  import opened Seqs
  import opened Report
  import opened TierProposal
  import S = Selectors
  import E = TierEditor

  predicate TidyObjs(objs: seq<Obj>) {
    forall o <- objs :: S.TidyLabels(o.labels)
  }

  /** The objects of the chosen namespaces carry Kubernetes labels. */
  predicate TidyChosen(reports: seq<NsReport>, namespaces: seq<string>) {
    TidyObjs(ObjectsOf(reports, namespaces, false))
  }

  // ---- one offered pair ----

  /** An offered pair is the text of a label that some object carries. */
  lemma OfferedPair(objs: seq<Obj>, before: Collation, text: string) returns (p: (string, string), o: Obj)
    requires TidyObjs(objs) && text in ObjectPairs(LabelsOf(objs), before)
    ensures S.TidyPair(p) && text == S.PairText(p) && o in objs && p in o.labels
  {
    hide S.TidyPair, S.PairText, ObjectPairs, AllPairs;
    PairCountsAre(LabelsOf(objs), before);
    AllPairsIn(LabelsOf(objs));
    assert text in AllPairs(LabelsOf(objs)) && Carried(text, LabelsOf(objs));
    var m, q :| m in LabelsOf(objs) && q in m && text == S.PairText(q);
    var i :| 0 <= i < |objs| && LabelsOf(objs)[i] == m;
    assert objs[i] in objs;
    p, o := q, objs[i];
  }

  // ---- tiers ----

  lemma ReadyTypesAre(objs: seq<Obj>)
    ensures var ready := ReadyTypes(objs);
      && (E.DeploymentsReady in ready <==> exists o <- objs :: o.kind.Deployment?)
      && (E.StatefulSetsReady in ready <==> exists o <- objs :: o.kind.StatefulSet?)
      && (E.VmRunning in ready <==> exists o <- objs :: o.kind.VirtualMachine?)
      && forall t <- ready :: t.DeploymentsReady? || t.StatefulSetsReady? || t.VmRunning?
  {
  }

  lemma ReadyKinds(objs: seq<Obj>)
    ensures var (ks, known) := TierKinds([], ReadyTypes(objs));
      && (forall o <- objs :: o.kind.Deployment? || o.kind.StatefulSet? || o.kind.VirtualMachine? ==> o.kind in ks && known)
      && (known ==> forall k <- ks :: exists o <- objs :: o.kind == k)
  {
    hide ReadyTypes;
    ReadyTypesAre(objs);
    var ready := ReadyTypes(objs);
    var ks := set t | t in ready && ReadyKind(t).Some? :: ReadyKind(t).value;
    forall o | o in objs && (o.kind.Deployment? || o.kind.StatefulSet? || o.kind.VirtualMachine?)
      ensures o.kind in ks
    {
      var t := if o.kind.Deployment? then E.DeploymentsReady else if o.kind.StatefulSet? then E.StatefulSetsReady else E.VmRunning;
      assert t in ready && ReadyKind(t) == Some(o.kind);
    }
  }

  /** A row whose label text has no value. */
  predicate TakesEmptyValue(r: E.Row) {
    r.labels != [] && S.ValueMissing(r.labels[0])
  }

  /**
   * A row of one label is refused for its selection exactly when the label has no value, where the
   * row's objects carry the label; and it selects those of them it waits for, a refused text
   * being taken to select all.
   */
  lemma PairRow(reports: seq<NsReport>, namespaces: seq<string>, name: string, p: (string, string), objs: seq<Obj>)
    requires S.TidyPair(p) && objs != [] && TidyObjs(objs)
    requires forall o <- objs :: o in ObjectsOf(reports, namespaces, false) && (p in o.labels || p.1 == "")
    ensures var r := E.Row(name, [], [S.PairText(p)], ReadyTypes(objs));
      && (SelectionError(reports, namespaces, r).None? <==> !TakesEmptyValue(r))
      && forall o <- objs :: o.kind.Deployment? || o.kind.StatefulSet? || o.kind.VirtualMachine? ==> Selects(r, o)
  {
    hide S.TidyPair, S.TidyLabels, S.PairText, S.Parse, S.Matches, S.ValueMissing, ObjectsOf, TierKinds, ReadyTypes, Join, Reported;
    var r := E.Row(name, [], [S.PairText(p)], ReadyTypes(objs));
    ReadyKinds(objs);
    S.TidyText(p);
    forall o | o in objs
      ensures (RowSelector(r).Parsed? <==> !TakesEmptyValue(r)) && S.Matches(RowSelector(r).Seen(), o.labels)
    {
      TidyIsDistinct(o.labels);
      S.TidyPairSelects(p, o.labels, true);
    }
    assert objs[0] in objs;
    var (ks, known) := TierKinds(r.kinds, r.ready);
    if known {
      SomeKind(r.ready);
      var k :| k in ks;
      var o :| o in objs && o.kind == k;
      assert Selects(r, o);
    }
  }

  lemma TidyIsDistinct(m: S.Labels)
    requires S.TidyLabels(m)
    ensures DistinctKeys(m)
  {
  }

  lemma SomeKind(ready: seq<E.CheckType>)
    ensures TierKinds([], ready).0 != {}
  {
    assert Deployment in ALL_KINDS;
  }

  lemma {:induction false} CommonPairIs(pairs: seq<string>, tools: seq<Obj>)
    ensures CommonPair(pairs, tools).Some? ==>
      CommonPair(pairs, tools).value in pairs
      && forall o <- tools :: S.Matches(S.Parse(CommonPair(pairs, tools).value).Seen(), o.labels)
  {
    hide S.Parse, S.Matches;
    if pairs != [] {
      CommonPairIs(pairs[1..], tools);
      assert pairs == [pairs[0]] + pairs[1..];
    }
  }

  /** The label of some tools that a text is of, and whether it is on all of them. */
  ghost predicate OnAllTools(text: string, tools: seq<Obj>) {
    exists p :: S.TidyPair(p) && text == S.PairText(p) && forall o <- tools :: p in o.labels
  }

  /** The place of the first text without a value, or of the first whose label all tools carry. */
  ghost predicate TakenAt(pairs: seq<string>, tools: seq<Obj>, i: nat) {
    && i < |pairs| && (S.ValueMissing(pairs[i]) || OnAllTools(pairs[i], tools))
    && forall j | 0 <= j < i :: !S.ValueMissing(pairs[j]) && !OnAllTools(pairs[j], tools)
  }

  lemma TextMatchesAll(tools: seq<Obj>, before: Collation, text: string)
    requires tools != [] && TidyObjs(tools) && text in ObjectPairs(LabelsOf(tools), before)
    ensures (forall o <- tools :: S.Matches(S.Parse(text).Seen(), o.labels)) <==> S.ValueMissing(text) || OnAllTools(text, tools)
  {
    hide S.Parse, S.Matches, S.PairText, S.ValueMissing, S.TidyPair, S.TidyLabels, ObjectPairs;
    var p, carrier := OfferedPair(tools, before, text);
    forall o | o in tools
      ensures S.Matches(S.Parse(text).Seen(), o.labels) <==> S.ValueMissing(text) || p in o.labels
    {
      TidyIsDistinct(o.labels);
      S.TidyPairSelects(p, o.labels, true);
    }
    if OnAllTools(text, tools) {
      var q :| S.TidyPair(q) && text == S.PairText(q) && forall o <- tools :: q in o.labels;
      S.TidyTextInjective(p, q);
    }
  }

  lemma {:induction false} FirstTaken(pairs: seq<string>, tools: seq<Obj>)
    requires forall i | 0 <= i < |pairs| ::
      (forall o <- tools :: S.Matches(S.Parse(pairs[i]).Seen(), o.labels)) <==> S.ValueMissing(pairs[i]) || OnAllTools(pairs[i], tools)
    ensures match CommonPair(pairs, tools)
      case None => forall i: nat :: !TakenAt(pairs, tools, i)
      case Some(text) => exists i: nat :: TakenAt(pairs, tools, i) && pairs[i] == text
  {
    hide S.Parse, S.Matches, S.ValueMissing, OnAllTools;
    if pairs != [] {
      var rest := pairs[1..];
      FirstTaken(rest, tools);
      if CommonPair(pairs, tools) == Some(pairs[0]) && forall o <- tools :: S.Matches(S.Parse(pairs[0]).Seen(), o.labels) {
        assert TakenAt(pairs, tools, 0);
      } else {
        forall i: nat
          ensures TakenAt(rest, tools, i) <==> TakenAt(pairs, tools, i + 1)
        {
          assert i < |rest| ==> rest[i] == pairs[i + 1];
          assert forall j | 0 <= j < i && j < |rest| :: rest[j] == pairs[j + 1];
          assert forall j | 1 <= j < i + 1 && j < |pairs| :: pairs[j] == rest[j - 1];
        }
        assert !TakenAt(pairs, tools, 0);
        assert forall i: nat :: TakenAt(pairs, tools, i) ==> i > 0 && TakenAt(rest, tools, i - 1);
      }
    }
  }

  lemma ToolsAre(objs: seq<Obj>)
    ensures forall o :: o in Tools(objs) <==> o in objs && IsTool(o)
  {
    FilterIn(objs, IsTool);
  }

  lemma ToolKindsRow(tools: seq<Obj>)
    requires tools != [] && forall o <- tools :: o.kind.Deployment? || o.kind.StatefulSet?
    ensures ToolKinds(tools) != []
    ensures forall o <- tools :: o.kind in TierKinds(ToolKinds(tools), ReadyTypes(tools)).0
  {
    hide ReadyTypes;
    ResourceNames();
    assert tools[0] in tools;
    var names := ToolKinds(tools);
    forall o | o in tools
      ensures o.kind in TierKinds(names, ReadyTypes(tools)).0
    {
      var name := if o.kind.Deployment? then "deployments" else "statefulsets";
      assert name in names && ResourceKind(name) == Some(o.kind);
    }
  }

  lemma ResourceNames()
    ensures ResourceKind("deployments") == Some(Deployment)
    ensures ResourceKind("statefulsets") == Some(StatefulSet)
  {
    hide Split;
    assert Lower("deployments") == "deployments";
    assert Lower("statefulsets") == "statefulsets";
    SplitWhole("deployments", '.');
    SplitWhole("statefulsets", '.');
    assert "deployments"[0] != "statefulsets"[0];
  }

  lemma EmptySelectorMatches(labels: S.Labels)
    ensures S.Matches(S.Parse("").Seen(), labels)
  {
    S.PartsNone();
    assert S.Terms([], true) == [];
  }

  /** The tools row is refused for its selection exactly when it takes a label without a value; it selects every tool. */
  lemma ToolsRowIs(reports: seq<NsReport>, namespaces: seq<string>, tools: seq<Obj>, before: Collation)
    requires tools != [] && TidyObjs(tools)
    requires forall o <- tools :: o in ObjectsOf(reports, namespaces, false) && (o.kind.Deployment? || o.kind.StatefulSet?)
    ensures SelectionError(reports, namespaces, ToolsRow(tools, before)).None? <==> !TakesEmptyValue(ToolsRow(tools, before))
    ensures forall o <- tools :: Selects(ToolsRow(tools, before), o)
  {
    hide S.TidyPair, S.TidyLabels, S.PairText, S.Parse, S.Matches, S.ValueMissing, ObjectsOf, TierKinds, ReadyTypes, ToolKinds,
      CommonPair, ObjectPairs;
    var pairs := ObjectPairs(LabelsOf(tools), before);
    var common := CommonPair(pairs, tools);
    CommonPairIs(pairs, tools);
    if common.Some? {
      var p, carrier := OfferedPair(tools, before, common.value);
      S.TidyText(p);
      forall o | o in tools
        ensures p in o.labels || p.1 == ""
      {
        TidyIsDistinct(o.labels);
        S.TidyPairSelects(p, o.labels, true);
      }
      PairRow(reports, namespaces, "tools", p, tools);
    } else {
      ToolKindsRow(tools);
      forall o | o in tools
        ensures S.Matches(S.Parse("").Seen(), o.labels)
      {
        EmptySelectorMatches(o.labels);
      }
    }
  }

  /**
   * The tools row takes a label without a value exactly when, among the labels of the tools, most
   * common first, such a one comes before every label that all tools carry.
   */
  lemma ToolsTakeEmptyValue(tools: seq<Obj>, before: Collation)
    requires tools != [] && TidyObjs(tools)
    ensures var pairs := ObjectPairs(LabelsOf(tools), before);
      TakesEmptyValue(ToolsRow(tools, before)) <==> exists i: nat :: TakenAt(pairs, tools, i) && S.ValueMissing(pairs[i])
  {
    hide S.Parse, S.Matches, S.ValueMissing, OnAllTools, ObjectPairs, CommonPair, S.TidyLabels, ReadyTypes, ToolKinds;
    var pairs := ObjectPairs(LabelsOf(tools), before);
    forall i | 0 <= i < |pairs|
      ensures (forall o <- tools :: S.Matches(S.Parse(pairs[i]).Seen(), o.labels))
        <==> S.ValueMissing(pairs[i]) || OnAllTools(pairs[i], tools)
    {
      TextMatchesAll(tools, before, pairs[i]);
    }
    FirstTaken(pairs, tools);
    forall i: nat, j: nat | TakenAt(pairs, tools, i) && TakenAt(pairs, tools, j)
      ensures i == j
    {
    }
  }

  // ---- groups ----

  predicate GroupOk(g: Group, objs: seq<Obj>) {
    g.objs != [] && S.TidyPair(g.pair) && forall o <- g.objs :: o in objs && g.pair in o.labels
  }

  predicate InGroups(groups: seq<Group>, o: Obj) {
    exists g <- groups :: o in g.objs
  }

  lemma InGroupsStep(g: Group, groups: seq<Group>, o: Obj)
    ensures InGroups([g] + groups, o) <==> o in g.objs || InGroups(groups, o)
  {
    assert g in [g] + groups;
  }

  predicate GroupsCover(groups: seq<Group>, o: Obj) {
    TierPair(o.labels).Some? ==> InGroups(groups, o)
  }

  lemma {:induction false} TierPairIn(m: S.Labels)
    ensures TierPair(m).Some? ==> TierPair(m).value in m
  {
    if m != [] && !IsTierKey(m[0].0) {
      TierPairIn(m[1..]);
    }
  }

  lemma {:induction false} PushKeeps(groups: seq<Group>, pair: (string, string), o: Obj, objs: seq<Obj>)
    requires forall g <- groups :: GroupOk(g, objs)
    requires o in objs && pair in o.labels && S.TidyPair(pair)
    ensures forall g <- Push(groups, pair, o) :: GroupOk(g, objs)
    ensures InGroups(Push(groups, pair, o), o)
    ensures forall x :: InGroups(groups, x) ==> InGroups(Push(groups, pair, o), x)
  {
    hide S.TidyPair, S.PairText;
    var after := Push(groups, pair, o);
    forall x: Obj
      ensures groups != [] ==> (InGroups(groups, x) <==> x in groups[0].objs || InGroups(groups[1..], x))
      ensures InGroups(after, x) <==> x in after[0].objs || InGroups(after[1..], x)
    {
      InGroupsStep(after[0], after[1..], x);
      assert after == [after[0]] + after[1..];
      if groups != [] {
        InGroupsStep(groups[0], groups[1..], x);
        assert groups == [groups[0]] + groups[1..];
      }
    }
    if groups == [] {
      assert Group(pair, [o]) in after;
    } else {
      assert groups == [groups[0]] + groups[1..] && groups[0] in groups && after[0] in after;
      if S.PairText(groups[0].pair) == S.PairText(pair) {
        S.TidyTextInjective(groups[0].pair, pair);
        assert GroupOk(groups[0], objs);
      } else {
        PushKeeps(groups[1..], pair, o, objs);
      }
    }
  }

  lemma {:induction false} GroupsAre(part: seq<Obj>, objs: seq<Obj>)
    requires TidyObjs(part) && forall o <- part :: o in objs
    ensures forall g <- GroupByTier(part) :: GroupOk(g, objs)
    ensures forall o <- part :: GroupsCover(GroupByTier(part), o)
  {
    hide S.TidyPair, Push, TierPair, GroupOk;
    if part != [] {
      var n := |part| - 1;
      var front, o := part[..n], part[n];
      assert part == front + [o];
      GroupsAre(front, objs);
      TierPairIn(o.labels);
      var pair := TierPair(o.labels);
      if pair.Some? {
        assert S.TidyLabels(o.labels);
        PushKeeps(GroupByTier(front), pair.value, o, objs);
      }
    }
  }

  lemma ValueGroupsAre(objs: seq<Obj>, before: Collation)
    requires TidyObjs(objs)
    ensures forall g <- ValueGroups(objs, before) :: GroupOk(g, objs)
    ensures forall o <- objs :: GroupsCover(ValueGroups(objs, before), o)
  {
    hide SortBy, GroupByTier, GroupOk, TierPair;
    GroupsAre(objs, objs);
    var groups := GroupByTier(objs);
    forall g
      ensures g in ValueGroups(objs, before) <==> g in groups
    {
      SortIn(groups, TierOrder(before), g);
    }
  }

  // ---- the main results ----

  lemma PlainObjectsAre(reports: seq<NsReport>, namespaces: seq<string>)
    requires TidyChosen(reports, namespaces)
    ensures TidyObjs(PlainObjects(reports, namespaces))
    ensures forall o :: o in PlainObjects(reports, namespaces) <==> o in ObjectsOf(reports, namespaces, false) && PlainName(o)
  {
    FilterIn(ObjectsOf(reports, namespaces, false), PlainName);
  }

  lemma GroupRowIs(reports: seq<NsReport>, namespaces: seq<string>, g: Group)
    requires TidyChosen(reports, namespaces) && GroupOk(g, PlainObjects(reports, namespaces))
    ensures SelectionError(reports, namespaces, GroupRow(g)).None? <==> !TakesEmptyValue(GroupRow(g))
    ensures forall o <- g.objs :: o.kind.Deployment? || o.kind.StatefulSet? || o.kind.VirtualMachine? ==> Selects(GroupRow(g), o)
  {
    hide PlainObjects, S.TidyPair, S.TidyLabels, SelectionError, Selects, ReadyTypes, ObjectsOf;
    PlainObjectsAre(reports, namespaces);
    PairRow(reports, namespaces, ValueName(g.pair), g.pair, g.objs);
  }

  lemma ProposedTools(reports: seq<NsReport>, namespaces: seq<string>, before: Collation)
    requires TidyChosen(reports, namespaces)
    ensures var tools := Tools(PlainObjects(reports, namespaces));
      tools != [] ==>
        && (SelectionError(reports, namespaces, ToolsRow(tools, before)).None? <==> !TakesEmptyValue(ToolsRow(tools, before)))
        && forall o <- tools :: Selects(ToolsRow(tools, before), o)
  {
    hide PlainObjects, Tools, S.TidyLabels, SelectionError, Selects, ToolsRow, ObjectsOf, TierPair;
    PlainObjectsAre(reports, namespaces);
    ToolsAre(PlainObjects(reports, namespaces));
    var tools := Tools(PlainObjects(reports, namespaces));
    if tools != [] {
      ToolsRowIs(reports, namespaces, tools, before);
    }
  }

  /** A proposed tier is refused for what it selects exactly when it takes a label without a value. */
  lemma ProposedSelections(reports: seq<NsReport>, namespaces: seq<string>, before: Collation)
    requires TidyChosen(reports, namespaces)
    ensures forall r <- TierRows(PlainObjects(reports, namespaces), before) ::
      SelectionError(reports, namespaces, r).None? <==> !TakesEmptyValue(r)
  {
    hide SelectionError, ToolsRow, GroupRow, PlainObjects, Tools, ValueGroups, GroupOk, TidyChosen;
    var objs := PlainObjects(reports, namespaces);
    PlainObjectsAre(reports, namespaces);
    ValueGroupsAre(objs, before);
    ProposedTools(reports, namespaces, before);
    ConfigIsFine(reports, namespaces);
    forall r | r in TierRows(objs, before)
      ensures SelectionError(reports, namespaces, r).None? <==> !TakesEmptyValue(r)
    {
      if r in Map(ValueGroups(objs, before), GroupRow) {
        var i :| 0 <= i < |ValueGroups(objs, before)| && r == GroupRow(ValueGroups(objs, before)[i]);
        assert ValueGroups(objs, before)[i] in ValueGroups(objs, before);
        GroupRowIs(reports, namespaces, ValueGroups(objs, before)[i]);
      }
    }
  }

  lemma ConfigIsFine(reports: seq<NsReport>, namespaces: seq<string>)
    ensures SelectionError(reports, namespaces, CONFIG_ROW).None?
  {
  }

  /**
   * Every proposed tier passes the row check exactly when its name is a DNS label of at most 30
   * characters that no other proposed tier has, and it takes no label without a value.
   */
  lemma ProposedTiersAccepted(reports: seq<NsReport>, namespaces: seq<string>, before: Collation, r: E.Row)
    requires TidyChosen(reports, namespaces)
    requires r in TierRows(PlainObjects(reports, namespaces), before)
    ensures var rows := TierRows(PlainObjects(reports, namespaces), before);
      TierRowError(reports, namespaces, r, rows).None?
      <==> IsDnsLabel(r.name) && |r.name| <= 30 && |Filter(rows, (x: E.Row) => x.name == r.name)| == 1 && !TakesEmptyValue(r)
  {
    hide SelectionError, TierRows, PlainObjects, TidyChosen, IsDnsLabel;
    ProposedSelections(reports, namespaces, before);
    var rows := TierRows(PlainObjects(reports, namespaces), before);
    FilterIn(rows, (x: E.Row) => x.name == r.name);
    assert r in Filter(rows, (x: E.Row) => x.name == r.name);
    DnsNonEmpty(r.name);
  }

  lemma DnsNonEmpty(s: string)
    ensures IsDnsLabel(s) ==> s != ""
  {
  }

  /**
   * Every reported Deployment and StatefulSet not named "… pods" is selected by a proposed tier, and
   * by one that is not refused for its selection unless the workload carries a label without a value
   * or the tier is that of the tools.
   */
  lemma EveryWorkloadIsInATier(reports: seq<NsReport>, namespaces: seq<string>, before: Collation, o: Obj)
    requires TidyChosen(reports, namespaces)
    requires o in ObjectsOf(reports, namespaces, false) && PlainName(o)
    requires o.kind.Deployment? || o.kind.StatefulSet?
    ensures exists r <- TierRows(PlainObjects(reports, namespaces), before) ::
      Selects(r, o) && (TakesEmptyValue(r) ==> r.name == "tools" || exists p <- o.labels :: p.1 == "")
  {
    hide Selects, ToolsRow, GroupRow, PlainObjects, Tools, ValueGroups, GroupOk, TidyChosen, TierPair, TakesEmptyValue;
    var objs := PlainObjects(reports, namespaces);
    PlainObjectsAre(reports, namespaces);
    ToolsAre(objs);
    ProposedTools(reports, namespaces, before);
    var rows := TierRows(objs, before);
    if TierPair(o.labels).None? {
      assert o in Tools(objs);
      assert ToolsRow(Tools(objs), before) in rows;
      ToolsName(Tools(objs), before);
    } else {
      ValueGroupsAre(objs, before);
      assert GroupsCover(ValueGroups(objs, before), o);
      var g :| g in ValueGroups(objs, before) && o in g.objs;
      GroupRowIs(reports, namespaces, g);
      GroupTakes(objs, g, o);
      var i :| 0 <= i < |ValueGroups(objs, before)| && ValueGroups(objs, before)[i] == g;
      assert Map(ValueGroups(objs, before), GroupRow)[i] == GroupRow(g);
      assert GroupRow(g) in rows;
    }
  }

  lemma ToolsName(tools: seq<Obj>, before: Collation)
    ensures ToolsRow(tools, before).name == "tools"
  {
    hide CommonPair, ObjectPairs, ToolKinds, ReadyTypes;
  }

  lemma GroupTakes(objs: seq<Obj>, g: Group, o: Obj)
    requires GroupOk(g, objs) && o in g.objs
    ensures TakesEmptyValue(GroupRow(g)) ==> exists p <- o.labels :: p.1 == ""
  {
    hide S.TidyPair, S.PairText, S.ValueMissing, ValueName, ReadyTypes;
    S.TidyText(g.pair);
  }

  /** A Deployment whose only label has no value: the tools row takes that label and is refused. */
  lemma ToolsRefusedExample(before: Collation)
    ensures var w := Workload(Deployment, "d", None, Some([("a", "")]));
      var reports := [NsReport("n", [w], [], [])];
      exists r <- TierRows(PlainObjects(reports, ["n"]), before) ::
        r.labels == ["a="] && SelectionError(reports, ["n"], r) == Some(BadSelector(S.EmptyValue("a")))
  {
    hide ObjectPairs, S.Parse, S.Matches, ReadyTypes, ToolKinds, ValueGroups, CommonPair, GroupRow;
    var w := Workload(Deployment, "d", None, Some([("a", "")]));
    var o := Obj(Deployment, "d", [("a", "")]);
    var reports := [NsReport("n", [w], [], [])];
    OneObject(reports, w, o);
    OneTool(o);
    var tools := [o];
    var pairs := ObjectPairs(LabelsOf(tools), before);
    OnePair(o, before);
    S.EmptyText("a");
    assert "a" + "=" == "a=";
    S.EmptyValueRefused("a", true, o.labels);
    CommonFirst(pairs, tools);
    var r := ToolsRow(tools, before);
    assert r in TierRows([o], before);
    assert Join(["a="], ", ") == "a=";
  }

  lemma CommonFirst(pairs: seq<string>, tools: seq<Obj>)
    requires pairs != [] && forall o <- tools :: S.Matches(S.Parse(pairs[0]).Seen(), o.labels)
    ensures CommonPair(pairs, tools) == Some(pairs[0])
  {
    hide S.Parse, S.Matches;
  }

  lemma OnePair(o: Obj, before: Collation)
    requires o.labels == [("a", "")]
    ensures ObjectPairs(LabelsOf([o]), before) == ["a="]
    ensures S.CleanKey("a")
  {
    var tools := [o];
    var lists := PairLists(LabelsOf(tools));
    assert S.PairText(("a", "")) == "a=";
    assert S.PairTexts([("a", "")]) == ["a="];
    assert lists == [["a="]] + [];
    FlattenStep(["a="], []);
    assert AllPairs(LabelsOf(tools)) == ["a="];
    TallyStep<string>([], "a=");
    assert [] + ["a="] == ["a="];
    assert Tally(["a="]) == [("a=", 1)];
    var counts: Counts<string> := [("a=", 1)];
    assert counts[..0] == [];
    assert SortBy(counts[..0], PairOrder(before)) == [];
    assert SortBy(counts, PairOrder(before)) == counts;
  }

  lemma OneObject(reports: seq<NsReport>, w: Workload, o: Obj)
    requires w == Workload(Deployment, "d", None, Some(o.labels)) && o == Obj(Deployment, "d", o.labels)
    requires reports == [NsReport("n", [w], [], [])]
    ensures PlainObjects(reports, ["n"]) == [o]
  {
    assert WorkloadObjs(w, false) == [o] + [] == [o];
    assert WorkloadLists([w], false) == [[o]] + [];
    FlattenStep([o], []);
    assert NsObjs(reports[0], false) == [o];
    assert ["n"][1..] == [];
    assert ObjectsOf(reports, ["n"], false) == [o] + [];
    assert PlainName(o) by {
      assert |"d"| < |" pods"|;
    }
    FilterAll([o], PlainName);
  }

  lemma OneTool(o: Obj)
    requires o == Obj(Deployment, "d", [("a", "")])
    ensures Tools([o]) == [o]
  {
    assert TierPair([("a", "")]) == None by {
      assert |"a"| < |"tier"|;
      assert [("a", "")][1..] == [];
    }
    FilterAll([o], IsTool);
  }

  // ---- gates ----

  lemma {:induction false} FindTargetIs(targets: seq<string>, name: string)
    ensures FindTarget(targets, name).Some? ==> FindTarget(targets, name).value in targets
  {
    if targets != [] {
      FindTargetIs(targets[1..], name);
    }
  }

  lemma {:induction false} FirstTargetIs(objs: seq<Obj>, targets: seq<string>)
    ensures FirstTarget(objs, targets).Some? ==> FirstTarget(objs, targets).value != ""
  {
    if objs != [] {
      FirstTargetIs(objs[1..], targets);
    }
  }

  lemma {:induction false} GatesForIn(groups: seq<Group>, targets: seq<string>, pod: string, g: E.Gate)
    requires g in GatesFor(groups, targets, pod)
    ensures exists group <- groups :: g in GateFor(group, targets, pod)
  {
    hide GateFor;
    assert groups == [groups[0]] + groups[1..];
    if g !in GateFor(groups[0], targets, pod) {
      GatesForIn(groups[1..], targets, pod, g);
    }
  }

  /** The proposed pod selector, where there is one, is accepted exactly when it has a value; then it selects a reported pod. */
  lemma ToolsPodIs(reports: seq<NsReport>, namespaces: seq<string>, tools: seq<Obj>, before: Collation)
    requires TidyObjs(ObjectsOf(reports, namespaces, true)) && ToolsPod(reports, namespaces, tools, before) != ""
    ensures var pod := ToolsPod(reports, namespaces, tools, before);
      var sel := S.Parse(pod, false);
      && (sel.Parsed? <==> !S.ValueMissing(pod))
      && (sel.Parsed? ==> exists o <- ObjectsOf(reports, namespaces, true) :: S.Matches(sel.sel, o.labels))
  {
    hide ObjectsOf, S.Parse, S.Matches, S.TidyLabels, S.TidyPair, S.PairText, S.ValueMissing, ObjectPairs;
    var all := ObjectsOf(reports, namespaces, true);
    var pods := ToolPods(reports, namespaces, tools);
    FilterIn(all, (p: Obj) => exists t <- tools :: p.name == t.name + " pods");
    var pairs := ObjectPairs(LabelsOf(pods), before);
    assert pairs[0] in pairs;
    var p, o := OfferedPair(pods, before, pairs[0]);
    TidyIsDistinct(o.labels);
    S.TidyPairSelects(p, o.labels, false);
  }

  lemma GateOfGroup(group: Group, targets: seq<string>, pod: string, g: E.Gate)
    requires g in GateFor(group, targets, pod)
    ensures g.tier == ValueName(group.pair) && g.pod == pod != "" && g.timeout == Some(900) && g.template == E.Tcp && g.target != ""
  {
    hide ValueName, FirstTarget, IsDataTier;
    FirstTargetIs(group.objs, targets);
  }

  lemma GroupRowNamed(groups: seq<Group>, group: Group, head: seq<E.Row>)
    requires group in groups
    ensures ValueName(group.pair) in Map(head + Map(groups, GroupRow), (r: E.Row) => r.name)
  {
    hide ValueName, ReadyTypes, S.PairText;
    var rows := head + Map(groups, GroupRow);
    var i :| 0 <= i < |groups| && groups[i] == group;
    assert rows[|head| + i] == GroupRow(group);
    assert Map(rows, (r: E.Row) => r.name)[|head| + i] == ValueName(group.pair);
  }

  /** A proposed gate passes the gate check exactly when its pod text has a value. */
  lemma GateAccepted(reports: seq<NsReport>, namespaces: seq<string>, before: Collation, g: E.Gate)
    requires TidyObjs(ObjectsOf(reports, namespaces, true))
    requires var objs := PlainObjects(reports, namespaces);
      g in GatesFor(ValueGroups(objs, before), ServiceTargets(reports, namespaces),
                    ToolsPod(reports, namespaces, Tools(objs), before))
    ensures var rows := TierRows(PlainObjects(reports, namespaces), before);
      GateRowError(reports, namespaces, g, Map(rows, (r: E.Row) => r.name)).None? <==> !S.ValueMissing(g.pod)
  {
    hide PlainObjects, ValueGroups, ServiceTargets, ToolsPod, Tools, GatesFor, GateFor, GroupRow, S.Parse, S.Matches, ObjectsOf, ToolsRow,
      FirstTarget, IsDataTier, ValueName, S.ValueMissing, TidyObjs, Reported;
    var objs := PlainObjects(reports, namespaces);
    var groups := ValueGroups(objs, before);
    var targets, pod := ServiceTargets(reports, namespaces), ToolsPod(reports, namespaces, Tools(objs), before);
    GatesForIn(groups, targets, pod, g);
    var group :| group in groups && g in GateFor(group, targets, pod);
    GateOfGroup(group, targets, pod, g);
    ToolsPodIs(reports, namespaces, Tools(objs), before);
    GroupRowNamed(groups, group, [CONFIG_ROW] + if Tools(objs) == [] then [] else [ToolsRow(Tools(objs), before)]);
  }

  lemma ToolPodsTidy(reports: seq<NsReport>, namespaces: seq<string>, tools: seq<Obj>)
    requires TidyObjs(ObjectsOf(reports, namespaces, true))
    ensures TidyAll(LabelsOf(ToolPods(reports, namespaces, tools)))
  {
    hide S.TidyLabels, ObjectsOf;
    FilterIn(ObjectsOf(reports, namespaces, true), (p: Obj) => exists t <- tools :: p.name == t.name + " pods");
    var pods := ToolPods(reports, namespaces, tools);
    forall m | m in LabelsOf(pods)
      ensures S.TidyLabels(m)
    {
      var i :| 0 <= i < |pods| && LabelsOf(pods)[i] == m;
      assert pods[i] in pods;
    }
  }

  /** The pod text is that of the label which most pods of the tools carry. */
  lemma ToolsPodIsCommon(reports: seq<NsReport>, namespaces: seq<string>, tools: seq<Obj>, before: Collation)
    requires TidyObjs(ObjectsOf(reports, namespaces, true)) && Ordering(before) && ToolsPod(reports, namespaces, tools, before) != ""
    ensures var labels := LabelsOf(ToolPods(reports, namespaces, tools));
      && (exists p :: MostCommon(p, labels, before))
      && forall p :: MostCommon(p, labels, before) ==> S.TidyPair(p) && S.PairText(p) == ToolsPod(reports, namespaces, tools, before)
  {
    hide ToolPods, ObjectPairs, Carriers, TextBefore, S.PairText, S.TidyPair, S.TidyLabels, Ordering, ObjectsOf;
    var labels := LabelsOf(ToolPods(reports, namespaces, tools));
    ToolPodsTidy(reports, namespaces, tools);
    FirstOffered(labels, before);
    forall p | MostCommon(p, labels, before)
      ensures S.TidyPair(p)
    {
      CarriedPair(labels, p);
    }
  }

  /**
   * The proposed gates find their pod by the label that most pods of the tools carry, of equally common ones the
   * first by its text; they pass the gate check exactly when that label has a value.
   */
  lemma ProposedGatesAccepted(reports: seq<NsReport>, namespaces: seq<string>, before: Collation, g: E.Gate)
    requires TidyObjs(ObjectsOf(reports, namespaces, true)) && Ordering(before)
    requires var objs := PlainObjects(reports, namespaces);
      g in GatesFor(ValueGroups(objs, before), ServiceTargets(reports, namespaces),
                    ToolsPod(reports, namespaces, Tools(objs), before))
    ensures var objs := PlainObjects(reports, namespaces);
      var labels := LabelsOf(ToolPods(reports, namespaces, Tools(objs)));
      && (exists p :: MostCommon(p, labels, before) && g.pod == S.PairText(p))
      && (GateRowError(reports, namespaces, g, Map(TierRows(objs, before), (r: E.Row) => r.name)).None?
          <==> exists p :: MostCommon(p, labels, before) && p.1 != "")
  {
    hide PlainObjects, ValueGroups, ServiceTargets, ToolsPod, Tools, GatesFor, GateFor, ToolPods, TierRows, GateRowError, MostCommon,
      S.PairText, S.ValueMissing, S.TidyPair, TidyObjs, Ordering;
    var objs := PlainObjects(reports, namespaces);
    var groups, targets := ValueGroups(objs, before), ServiceTargets(reports, namespaces);
    var pod, labels := ToolsPod(reports, namespaces, Tools(objs), before), LabelsOf(ToolPods(reports, namespaces, Tools(objs)));
    GateAccepted(reports, namespaces, before, g);
    GatesForIn(groups, targets, pod, g);
    var group :| group in groups && g in GateFor(group, targets, pod);
    GateOfGroup(group, targets, pod, g);
    ToolsPodIsCommon(reports, namespaces, Tools(objs), before);
    var p :| MostCommon(p, labels, before);
    S.TidyText(p);
    forall q | MostCommon(q, labels, before)
      ensures q == p
    {
      S.TidyTextInjective(p, q);
    }
  }

  const GATE_TOOL := Obj(Deployment, "d", [])
  const GATE_POD := Obj(Pod, "d pods", [("a", "")])
  const GATE_DATA := Obj(StatefulSet, "db", [("tier", "db")])
  const GATE_REPORT := NsReport("n", [Workload(Deployment, "d", Some([("a", "")]), None), Workload(StatefulSet, "db", None, Some([("tier", "db")]))],
                                [], [Service("db", ["5432"])])

  lemma GateObjects()
    ensures PlainObjects([GATE_REPORT], ["n"]) == [GATE_TOOL, GATE_DATA]
    ensures ObjectsOf([GATE_REPORT], ["n"], true) == [GATE_POD, Obj(Pod, "db pods", [])]
  {
    hide Filter, PlainName;
    var d, db := GATE_REPORT.workloads[0], GATE_REPORT.workloads[1];
    assert "d" + " pods" == "d pods" && "db" + " pods" == "db pods";
    forall forPods: bool
      ensures ObjectsOf([GATE_REPORT], ["n"], forPods) == WorkloadObjs(d, forPods) + WorkloadObjs(db, forPods)
    {
      assert WorkloadLists(GATE_REPORT.workloads, forPods) == [WorkloadObjs(d, forPods)] + ([WorkloadObjs(db, forPods)] + []);
      FlattenStep(WorkloadObjs(db, forPods), []);
      FlattenStep(WorkloadObjs(d, forPods), [WorkloadObjs(db, forPods)]);
      assert ["n"][1..] == [];
    }
    PlainNames();
    var middle := [GATE_POD, GATE_DATA];
    FilterTwo(GATE_POD, GATE_DATA, PlainName);
    FilterStep(GATE_TOOL, middle, PlainName);
    assert ObjectsOf([GATE_REPORT], ["n"], false) == [GATE_TOOL] + middle;
    assert [GATE_TOOL] + [GATE_DATA] == [GATE_TOOL, GATE_DATA];
  }

  lemma PlainNames()
    ensures PlainName(GATE_TOOL) && !PlainName(GATE_POD) && PlainName(GATE_DATA)
  {
    assert |"d"| < |" pods"| && |"db"| < |" pods"|;
    assert "d pods"[1..] == " pods";
  }

  lemma GateTools()
    ensures Tools([GATE_TOOL, GATE_DATA]) == [GATE_TOOL]
    ensures ToolPods([GATE_REPORT], ["n"], [GATE_TOOL]) == [GATE_POD]
    ensures TierPair(GATE_TOOL.labels) == None && TierPair(GATE_DATA.labels) == Some(("tier", "db"))
  {
    hide Filter, ObjectsOf;
    GateObjects();
    FilterTwo(GATE_TOOL, GATE_DATA, IsTool);
    var ofTool := (p: Obj) => exists t <- [GATE_TOOL] :: p.name == t.name + " pods";
    assert GATE_TOOL in [GATE_TOOL] && "d" + " pods" == "d pods" && |"db pods"| != |"d pods"|;
    FilterTwo(GATE_POD, Obj(Pod, "db pods", []), ofTool);
  }

  lemma GateTargets()
    ensures ServiceTargets([GATE_REPORT], ["n"]) == ["db:5432"]
  {
    hide Flatten;
    var s := GATE_REPORT.services[0];
    assert "db" + ":" + "5432" == "db:5432";
    assert TargetsOf(s) == ["db:5432"];
    assert Map([s], (s: Service) => TargetsOf(s)) == [["db:5432"]] + [];
    FlattenStep(["db:5432"], []);
    assert ["n"][1..] == [];
  }

  lemma GateTarget()
    ensures FirstTarget([GATE_DATA], ["db:5432"]) == Some("db:5432")
  {
    hide Split;
    assert "db" + ":" + "5432" == "db:5432";
    SplitConcat("db", "5432", ':');
    SplitWhole("db", ':');
  }

  lemma GateName()
    ensures ValueName(("tier", "db")) == "db" && IsDataTier("db")
  {
    hide ValueName, ValueSlug;
    assert S.TidyPair(("tier", "db"));
    ValueNameIs(("tier", "db"));
    DnsValueSlug("db");
  }

  lemma GateTexts(before: Collation)
    ensures ToolsPod([GATE_REPORT], ["n"], [GATE_TOOL], before) == "a="
    ensures S.Parse("a=", false) == S.Refused(S.EmptyValue("a"))
  {
    hide ToolPods, ObjectPairs, S.Parse;
    GateTools();
    OnePair(GATE_POD, before);
    assert "a" + "=" == "a=";
    S.EmptyValueRefused("a", false, []);
  }

  /** The pods of a Deployment have one label, without a value, and a data tier has a service: its gate is refused for its pod. */
  lemma GateRefusedExample(before: Collation)
    ensures var objs := PlainObjects([GATE_REPORT], ["n"]);
      var names := Map(TierRows(objs, before), (r: E.Row) => r.name);
      GatesFor(ValueGroups(objs, before), ServiceTargets([GATE_REPORT], ["n"]), ToolsPod([GATE_REPORT], ["n"], Tools(objs), before))
      == [E.Gate("db", "a=", Some(900), "", E.Tcp, "db:5432")]
      && GateRowError([GATE_REPORT], ["n"], E.Gate("db", "a=", Some(900), "", E.Tcp, "db:5432"), names) == Some(BadPod(S.EmptyValue("a")))
  {
    hide PlainObjects, ValueGroups, ServiceTargets, ToolsPod, Tools, FirstTarget, ValueName, IsDataTier, ToolsRow, S.Parse, TierPair, GroupRow;
    var objs := [GATE_TOOL, GATE_DATA];
    var g := Group(("tier", "db"), [GATE_DATA]);
    GateObjects();
    GateTools();
    GateTargets();
    GateTarget();
    GateName();
    GateTexts(before);
    GateGroups(before);
    assert GatesFor([g], ["db:5432"], "a=") == GateFor(g, ["db:5432"], "a=") + [];
    GroupRowNamed([g], g, [CONFIG_ROW] + [ToolsRow([GATE_TOOL], before)]);
  }

  lemma GateGroups(before: Collation)
    ensures ValueGroups([GATE_TOOL, GATE_DATA], before) == [Group(("tier", "db"), [GATE_DATA])]
  {
    hide TierPair;
    GateTools();
    assert [GATE_TOOL, GATE_DATA][..1] == [GATE_TOOL] && [GATE_TOOL][..0] == [];
    assert GroupByTier([GATE_TOOL]) == GroupByTier([]) == [];
    OneGroup(GATE_DATA, ("tier", "db"), before);
  }

  // ---- where names make the check refuse a proposal ----

  /** What the tier of a label value is called before the name is cut. A value of Kubernetes holds no "=". */
  function ValueSlug(value: string): string {
    Slug(Split(value, '=')[0])
  }

  function ValueSlugs(groups: seq<Group>): seq<string> {
    Map(groups, (g: Group) => ValueSlug(g.pair.1))
  }

  lemma ValueNameIs(p: (string, string))
    requires S.TidyPair(p)
    ensures ValueName(p) == Cut(ValueSlug(p.1), 30)
    ensures IsDnsLabel(ValueName(p)) <==> ValueSlug(p.1) != "" && (|ValueSlug(p.1)| <= 30 || ValueSlug(p.1)[29] != '-')
    ensures p.1 == "" ==> ValueSlug(p.1) == ""
  {
    SplitConcat(p.0, p.1, '=');
    SplitWhole(p.0, '=');
    DnsifyIsLabel(Split(p.1, '=')[0]);
  }

  /**
   * Every value gives a name that is not empty, is not cut behind a dash, is not that of the config tier or of
   * a tools tier, and is not cut to what another value is cut to.
   */
  predicate Fitting(slugs: seq<string>, tools: seq<Obj>) {
    && (forall i | 0 <= i < |slugs| :: var s := slugs[i];
         s != "" && (|s| <= 30 || s[29] != '-') && s != "config" && (s == "tools" ==> tools == []))
    && (forall i, j | 0 <= i < j < |slugs| :: Cut(slugs[i], 30) != Cut(slugs[j], 30))
  }

  /** The rows in their order: config, tools if there are any, and one for each value. */
  ghost predicate NamedBy(rows: seq<E.Row>, slugs: seq<string>, tools: seq<Obj>) {
    var h := if tools == [] then 1 else 2;
    && |rows| == h + |slugs|
    && rows[0].name == "config" && !TakesEmptyValue(rows[0]) && (h == 2 ==> rows[1].name == "tools")
    && forall i | 0 <= i < |slugs| :: ValueRow(rows[h + i], slugs[i])
  }

  predicate ValueRow(r: E.Row, slug: string) {
    && r.name == Cut(slug, 30)
    && (IsDnsLabel(r.name) <==> slug != "" && (|slug| <= 30 || slug[29] != '-'))
    && (TakesEmptyValue(r) ==> slug == "")
  }

  lemma ValueRowIs(g: Group)
    requires S.TidyPair(g.pair)
    ensures ValueRow(GroupRow(g), ValueSlug(g.pair.1))
  {
    hide ValueName, ValueSlug, IsDnsLabel, S.TidyPair, S.PairText, S.ValueMissing, ReadyTypes;
    ValueNameIs(g.pair);
    S.TidyText(g.pair);
  }

  lemma RowsAre(objs: seq<Obj>, before: Collation)
    requires TidyObjs(objs)
    ensures NamedBy(TierRows(objs, before), ValueSlugs(ValueGroups(objs, before)), Tools(objs))
  {
    hide ValueGroups, Tools, ToolsRow, GroupRow, ValueRow, ValueSlug, S.TidyPair, TidyObjs;
    var groups, tools, rows := ValueGroups(objs, before), Tools(objs), TierRows(objs, before);
    ValueGroupsAre(objs, before);
    ToolsName(tools, before);
    var h := if tools == [] then 1 else 2;
    forall i | 0 <= i < |groups|
      ensures rows[h + i] == GroupRow(groups[i]) && ValueRow(GroupRow(groups[i]), ValueSlug(groups[i].pair.1))
    {
      assert groups[i] in groups;
      ValueRowIs(groups[i]);
    }
  }

  ghost predicate Fine(rows: seq<E.Row>, k: nat)
    requires k < |rows|
  {
    && IsDnsLabel(rows[k].name) && |rows[k].name| <= 30 && !TakesEmptyValue(rows[k])
    && forall j | 0 <= j < |rows| && j != k :: rows[j].name != rows[k].name
  }

  lemma RowAccepted(reports: seq<NsReport>, namespaces: seq<string>, before: Collation, k: nat)
    requires TidyChosen(reports, namespaces) && k < |TierRows(PlainObjects(reports, namespaces), before)|
    ensures var rows := TierRows(PlainObjects(reports, namespaces), before);
      TierRowError(reports, namespaces, rows[k], rows).None? <==> Fine(rows, k)
  {
    hide TierRows, PlainObjects, TierRowError, TidyChosen, IsDnsLabel, TakesEmptyValue;
    var rows := TierRows(PlainObjects(reports, namespaces), before);
    ProposedTiersAccepted(reports, namespaces, before, rows[k]);
    FilterOne(rows, k, (x: E.Row) => x.name == rows[k].name);
  }

  lemma CutIsNot(slug: string, name: string)
    requires slug != name && |name| < 30
    ensures Cut(slug, 30) != name
  {
  }

  lemma NamesApart(rows: seq<E.Row>, slugs: seq<string>, tools: seq<Obj>, j: nat, k: nat)
    requires NamedBy(rows, slugs, tools) && Fitting(slugs, tools) && j < k < |rows|
    ensures rows[j].name != rows[k].name
  {
    hide IsDnsLabel, TakesEmptyValue, Cut;
    FixedNames();
    var h := if tools == [] then 1 else 2;
    if h <= k {
      assert ValueRow(rows[h + (k - h)], slugs[k - h]);
      if h <= j {
        assert ValueRow(rows[h + (j - h)], slugs[j - h]);
      } else {
        CutIsNot(slugs[k - h], rows[j].name);
      }
    }
  }

  lemma FittingIsFine(rows: seq<E.Row>, slugs: seq<string>, tools: seq<Obj>, k: nat)
    requires NamedBy(rows, slugs, tools) && Fitting(slugs, tools) && k < |rows|
    ensures Fine(rows, k) || (rows[k].name == "tools" && TakesEmptyValue(rows[k]))
  {
    FixedNames();
    forall j | 0 <= j < |rows| && j != k
      ensures rows[j].name != rows[k].name
    {
      NamesApart(rows, slugs, tools, if j < k then j else k, if j < k then k else j);
    }
    hide IsDnsLabel, TakesEmptyValue;
    var h := if tools == [] then 1 else 2;
    if h <= k {
      assert ValueRow(rows[h + (k - h)], slugs[k - h]);
    }
  }

  lemma FineIsFitting(rows: seq<E.Row>, slugs: seq<string>, tools: seq<Obj>)
    requires NamedBy(rows, slugs, tools)
    requires forall k | 0 <= k < |rows| :: Fine(rows, k) || (rows[k].name == "tools" && TakesEmptyValue(rows[k]))
    ensures Fitting(slugs, tools)
  {
    hide IsDnsLabel, TakesEmptyValue;
    var h := if tools == [] then 1 else 2;
    forall i | 0 <= i < |slugs|
      ensures Fine(rows, h + i) && ValueRow(rows[h + i], slugs[i])
    {
      if slugs[i] == "" {
        assert rows[h + i].name == "";
      }
    }
  }

  /**
   * All of the proposal is accepted as it stands, but for a tools row that takes a label without a value,
   * exactly when the values of the tier labels fit.
   */
  lemma LabelValuesAccepted(reports: seq<NsReport>, namespaces: seq<string>, before: Collation)
    requires TidyChosen(reports, namespaces)
    ensures var objs := PlainObjects(reports, namespaces);
      var rows := TierRows(objs, before);
      Fitting(ValueSlugs(ValueGroups(objs, before)), Tools(objs))
      <==> forall r <- rows :: TierRowError(reports, namespaces, r, rows).None? || (r.name == "tools" && TakesEmptyValue(r))
  {
    hide *;
    var objs := PlainObjects(reports, namespaces);
    var rows, slugs := TierRows(objs, before), ValueSlugs(ValueGroups(objs, before));
    PlainObjectsAre(reports, namespaces);
    RowsAre(objs, before);
    forall k | 0 <= k < |rows|
      ensures TierRowError(reports, namespaces, rows[k], rows).None? <==> Fine(rows, k)
      ensures Fitting(slugs, Tools(objs)) ==> Fine(rows, k) || (rows[k].name == "tools" && TakesEmptyValue(rows[k]))
    {
      RowAccepted(reports, namespaces, before, k);
      if Fitting(slugs, Tools(objs)) {
        FittingIsFine(rows, slugs, Tools(objs), k);
      }
    }
    if forall r <- rows :: TierRowError(reports, namespaces, r, rows).None? || (r.name == "tools" && TakesEmptyValue(r)) {
      assert forall k | 0 <= k < |rows| :: rows[k] in rows;
      FineIsFitting(rows, slugs, Tools(objs));
    }
  }

  function LabelValues(groups: seq<Group>): seq<string> {
    Map(groups, (g: Group) => g.pair.1)
  }

  /** Where the values are DNS labels of any length, it is they themselves that have to fit. */
  lemma DnsValuesAccepted(reports: seq<NsReport>, namespaces: seq<string>, before: Collation)
    requires TidyChosen(reports, namespaces)
    requires forall g <- ValueGroups(PlainObjects(reports, namespaces), before) :: IsDnsLabel(g.pair.1)
    ensures var objs := PlainObjects(reports, namespaces);
      var rows := TierRows(objs, before);
      Fitting(LabelValues(ValueGroups(objs, before)), Tools(objs))
      <==> forall r <- rows :: TierRowError(reports, namespaces, r, rows).None? || (r.name == "tools" && TakesEmptyValue(r))
  {
    hide Fitting, TierRows, ValueGroups, PlainObjects, Tools, TierRowError, TakesEmptyValue, IsDnsLabel, TidyChosen, ValueSlug;
    LabelValuesAccepted(reports, namespaces, before);
    var groups := ValueGroups(PlainObjects(reports, namespaces), before);
    forall i | 0 <= i < |groups|
      ensures ValueSlug(groups[i].pair.1) == groups[i].pair.1
    {
      assert groups[i] in groups;
      DnsValueSlug(groups[i].pair.1);
    }
    assert ValueSlugs(groups) == LabelValues(groups);
  }

  lemma DnsValueSlug(value: string)
    requires IsDnsLabel(value)
    ensures ValueSlug(value) == value
  {
    assert '=' !in value by {
      assert forall i | 0 <= i < |value| :: IsDnsChar(value[i]);
    }
    SplitWhole(value, '=');
    DnsifyOfLabel(value);
  }

  const LONG_VALUE := "aaaaaaaaaaaaaaaaaaaaaaaaaaaaa-b"

  /** A tier value of 31 characters, a DNS label, is cut behind its dash: the row proposed for it is refused for its name. */
  lemma CutNameExample(before: Collation)
    ensures var w := Workload(Deployment, "d", None, Some([("tier", LONG_VALUE)]));
      var reports := [NsReport("n", [w], [], [])];
      var rows := TierRows(PlainObjects(reports, ["n"]), before);
      IsDnsLabel(LONG_VALUE) && exists r <- rows :: r.labels == ["tier=" + LONG_VALUE] && TierRowError(reports, ["n"], r, rows) == Some(BadName)
  {
    hide ValueName, ReadyTypes, ToolsRow, Tools, SelectionError, PlainObjects, ValueGroups, IsDnsLabel;
    var w := Workload(Deployment, "d", None, Some([("tier", LONG_VALUE)]));
    var o := Obj(Deployment, "d", [("tier", LONG_VALUE)]);
    var reports := [NsReport("n", [w], [], [])];
    OneObject(reports, w, o);
    var g := Group(("tier", LONG_VALUE), [o]);
    OneGroup(o, g.pair, before);
    var r := GroupRow(g);
    assert "tier" + "=" + LONG_VALUE == "tier=" + LONG_VALUE;
    LongValueIs();
    CutBehindDash("tier", LONG_VALUE);
    assert Map([g], GroupRow)[0] == r;
    assert r in TierRows([o], before);
  }

  lemma LongValueIs()
    ensures IsDnsLabel(LONG_VALUE) && |LONG_VALUE| == 31 && LONG_VALUE[29] == '-'
    ensures S.CleanKey("tier")
  {
  }

  lemma DnsIsClean(value: string)
    requires IsDnsLabel(value)
    ensures S.CleanValue(value)
  {
    assert forall i | 0 <= i < |value| :: IsDnsChar(value[i]);
  }

  lemma CutBehindDash(key: string, value: string)
    requires S.CleanKey(key) && IsDnsLabel(value) && |value| > 30 && value[29] == '-'
    ensures ValueName((key, value)) != "" && !IsDnsLabel(ValueName((key, value)))
  {
    hide ValueName, IsDnsLabel, S.CleanKey, S.CleanValue, ValueSlug;
    DnsIsClean(value);
    ValueNameIs((key, value));
    DnsValueSlug(value);
  }

  lemma OneGroup(o: Obj, pair: (string, string), before: Collation)
    requires TierPair(o.labels) == Some(pair)
    ensures ValueGroups([o], before) == [Group(pair, [o])]
  {
    hide TierPair;
    assert [o][..0] == [] && GroupByTier([]) == [];
    var groups := [Group(pair, [o])];
    assert GroupByTier([o]) == groups;
    assert groups[..0] == [];
    assert SortBy(groups[..0], TierOrder(before)) == [];
  }

  lemma FixedNames()
    ensures IsDnsLabel("config") && IsDnsLabel("tools") && "config" != "tools"
  {
    assert "config"[0] != "tools"[0];
  }

  // ---- order and gates ----

  /**
   * The first tier has to be up before the second: it is named earlier in the list, and a name that is not in
   * the list stands between "app" and "api".
   */
  predicate BootsBefore(a: string, b: string) {
    var order := ["config", "tools", "db", "database", "data", "storage", "cache", "queue", "mq", "backend", "app",
                  "api", "worker", "web", "frontend", "ui"];
    var i, j := IndexOf(order, a), IndexOf(order, b);
    if i < 16 && j < 16 then i < j else if i < 16 then i <= 10 else 11 <= j < 16
  }

  /** One name, or two that are not in the list. */
  predicate SameStage(a: string, b: string) {
    !BootsBefore(a, b) && !BootsBefore(b, a)
  }

  lemma RankIsOrder(a: string, b: string)
    ensures TierRank(a) < TierRank(b) <==> BootsBefore(a, b)
  {
    hide IndexOf;
    AppPlace();
  }

  lemma AppPlace()
    ensures IndexOf(TIER_ORDER, "app") == 10
  {
    hide IndexOf;
    var i := IndexOf(TIER_ORDER, "app");
    assert TIER_ORDER[10] == "app";
    assert forall j | 0 <= j < 10 :: |TIER_ORDER[j]| != 3;
  }

  lemma RowOrder(objs: seq<Obj>, before: Collation, i: nat, j: nat)
    requires Ordering(before) && i < j < |ValueGroups(objs, before)|
    ensures TierOrder(before)(ValueGroups(objs, before)[i], ValueGroups(objs, before)[j])
  {
    hide SortBy, GroupByTier, TierRank, ValueName, Ordering, TierOrder;
    TierOrdering(before);
    SortSorts(GroupByTier(objs), TierOrder(before));
  }

  /** The rows of tier label values come in boot order, those of one stage in the order of their names. */
  lemma TiersInBootOrder(objs: seq<Obj>, before: Collation, i: nat, j: nat)
    requires Ordering(before) && i < j < |ValueGroups(objs, before)|
    ensures var a, b := GroupRow(ValueGroups(objs, before)[i]).name, GroupRow(ValueGroups(objs, before)[j]).name;
      BootsBefore(a, b) || (SameStage(a, b) && before(a, b))
  {
    hide ValueGroups, TierRank, ValueName, Ordering, BootsBefore;
    RowOrder(objs, before, i, j);
    var a, b := GroupRow(ValueGroups(objs, before)[i]).name, GroupRow(ValueGroups(objs, before)[j]).name;
    RankIsOrder(a, b);
    RankIsOrder(b, a);
  }

  /** Length, first and last character tell the listed names apart. */
  function Mark(s: string): (int, char, char) {
    if s == "" then (0, ' ', ' ') else (|s|, s[0], s[|s| - 1])
  }

  const MARKS := [(6, 'c', 'g'), (5, 't', 's'), (2, 'd', 'b'), (8, 'd', 'e'), (4, 'd', 'a'), (7, 's', 'e'), (5, 'c', 'e'), (5, 'q', 'e'),
                  (2, 'm', 'q'), (7, 'b', 'd'), (3, 'a', 'p'), (3, 'a', 'i'), (6, 'w', 'r'), (3, 'w', 'b'), (8, 'f', 'd'), (2, 'u', 'i')]

  lemma MarksAre()
    ensures |MARKS| == |TIER_ORDER| == 16 && forall i | 0 <= i < 16 :: Mark(TIER_ORDER[i]) == MARKS[i]
  {
  }

  lemma MarksDiffer(i: nat, j: nat)
    requires i < j < 16
    ensures MARKS[i] != MARKS[j]
  {
  }

  lemma PlaceOf(i: nat)
    requires i < 16
    ensures IndexOf(TIER_ORDER, TIER_ORDER[i]) == i
  {
    hide IndexOf, Mark, MARKS, TIER_ORDER;
    MarksAre();
    var j := IndexOf(TIER_ORDER, TIER_ORDER[i]);
    assert TIER_ORDER[j] == TIER_ORDER[i];
    if j < i {
      MarksDiffer(j, i);
    }
  }

  /** The listed tiers boot in the order of the list, and any other tier after "app" and before "api". */
  lemma StagesAre(i: nat, other: string)
    requires i < 16
    ensures var order := ["config", "tools", "db", "database", "data", "storage", "cache", "queue", "mq", "backend", "app",
                          "api", "worker", "web", "frontend", "ui"];
      && (forall j | 0 <= j < 16 :: BootsBefore(order[i], order[j]) <==> i < j)
      && (other !in order ==> if i <= 10 then BootsBefore(order[i], other) else BootsBefore(other, order[i]))
  {
    hide IndexOf;
    forall j | 0 <= j < 16
      ensures IndexOf(TIER_ORDER, TIER_ORDER[j]) == j
    {
      PlaceOf(j);
    }
  }

  lemma TierOrdering(before: Collation)
    requires Ordering(before)
    ensures Ordering(TierOrder(before))
  {
    hide TierRank, ValueName;
    var le := TierOrder(before);
    forall a, b
      ensures le(a, b) || le(b, a)
    {
      assert before(ValueName(a.pair), ValueName(b.pair)) || before(ValueName(b.pair), ValueName(a.pair));
    }
    forall a, b, c | le(a, b) && le(b, c)
      ensures le(a, c)
    {
      var x, y, z := ValueName(a.pair), ValueName(b.pair), ValueName(c.pair);
      assert before(x, y) && before(y, z) ==> before(x, z);
    }
  }

  /** A proposed gate is a port check of a data tier, against a reported service with the name of one of the tier's objects. */
  lemma ProposedGateIs(groups: seq<Group>, targets: seq<string>, pod: string, g: E.Gate)
    requires g in GatesFor(groups, targets, pod)
    ensures g.template == E.Tcp && g.pod == pod && g.timeout == Some(900) && IsDataTier(g.tier)
    ensures g.target in targets
    ensures exists group <- groups :: g.tier == GroupRow(group).name && exists o <- group.objs :: Split(g.target, ':')[0] == o.name
  {
    hide ValueName, FirstTarget, IsDataTier;
    GatesForIn(groups, targets, pod, g);
    var group :| group in groups && g in GateFor(group, targets, pod);
    FirstTargetNames(group.objs, targets);
  }

  lemma {:induction false} FirstTargetNames(objs: seq<Obj>, targets: seq<string>)
    ensures var t := FirstTarget(objs, targets);
      t.Some? ==> t.value in targets && exists o <- objs :: Split(t.value, ':')[0] == o.name
  {
    if objs != [] {
      FindTargetNames(targets, objs[0].name);
      FirstTargetNames(objs[1..], targets);
      assert objs[0] in objs;
    }
  }

  lemma {:induction false} FindTargetNames(targets: seq<string>, name: string)
    ensures var t := FindTarget(targets, name);
      t.Some? ==> t.value in targets && Split(t.value, ':')[0] == name
  {
    if targets != [] {
      FindTargetNames(targets[1..], name);
    }
  }
}
