/** The tiers and gates proposed for an application's namespaces, and the checks their rows must pass. */
module TierProposal {
  import opened Text
  import opened Seqs
  import opened Report
  import S = Selectors
  import E = TierEditor

  // ---- names ----

  function LowerChar(c: char): char {
    if 'A' <= c <= 'Z' then c - 'A' + 'a' else c
  }

  function Lower(s: string): string {
    Map(s, LowerChar)
  }

  /** replace(/[^a-z0-9-]+/g, "-") */
  function Dash(s: string): string
    decreases |s|
  {
    if s == "" then ""
    else if IsDnsChar(s[0]) then [s[0]] + Dash(s[1..])
    else "-" + Dash(s[RunLength(s, IsDnsChar)..])
  }

  predicate NotDash(c: char) { c != '-' }

  function StripDashes(s: string): string {
    var front := s[RunLength(s, NotDash)..];
    DropLastDashes(front)
  }

  function DropLastDashes(s: string): string {
    if s != "" && s[|s| - 1] == '-' then DropLastDashes(s[..|s| - 1]) else s
  }

  /** Lower case, runs of other characters as one dash, no dash at either end. */
  function Slug(s: string): string {
    StripDashes(Dash(Lower(s)))
  }

  function Dnsify(s: string): string {
    Cut(Slug(s), 30)
  }

  predicate HasAlnum(s: string) {
    exists i | 0 <= i < |s| :: IsLowerAlnum(s[i])
  }

  lemma HasAlnumConcat(a: string, b: string)
    ensures HasAlnum(a + b) <==> HasAlnum(a) || HasAlnum(b)
  {
    hide IsLowerAlnum;
    forall i | 0 <= i < |b|
      ensures (a + b)[|a| + i] == b[i]
    {
    }
    if i :| 0 <= i < |a| && IsLowerAlnum(a[i]) {
      assert (a + b)[i] == a[i];
    }
    if i :| 0 <= i < |b| && IsLowerAlnum(b[i]) {
      assert (a + b)[|a| + i] == b[i];
    }
  }

  lemma {:induction false} DashIsDns(s: string)
    ensures All(Dash(s), IsDnsChar)
    ensures HasAlnum(Dash(s)) <==> HasAlnum(s)
    decreases |s|
  {
    hide *;
    if s == "" {
      DashNone();
    } else {
      var n := if IsDnsChar(s[0]) then 1 else RunLength(s, IsDnsChar);
      var c := if IsDnsChar(s[0]) then s[0] else '-';
      DashHead(s, n, c);
      DashIsDns(s[n..]);
      assert s == s[..n] + s[n..];
      HasAlnumConcat(s[..n], s[n..]);
      HasAlnumConcat([c], Dash(s[n..]));
      AllCons(c, Dash(s[n..]));
    }
  }

  lemma DashNone()
    ensures Dash("") == "" && All("", IsDnsChar) && !HasAlnum("")
  {
  }

  lemma AllCons(c: char, s: string)
    requires IsDnsChar(c) && All(s, IsDnsChar)
    ensures All([c] + s, IsDnsChar)
  {
  }

  lemma DashHead(s: string, n: nat, c: char)
    requires s != "" && n == if IsDnsChar(s[0]) then 1 else RunLength(s, IsDnsChar)
    requires c == if IsDnsChar(s[0]) then s[0] else '-'
    ensures 0 < n <= |s| && IsDnsChar(c) && Dash(s) == [c] + Dash(s[n..])
    ensures HasAlnum(s[..n]) <==> HasAlnum([c])
  {
    assert [c][0] == c;
    if IsDnsChar(s[0]) {
      assert s[..n] == [c];
    }
  }

  lemma {:induction false} DropLastDashesIs(s: string)
    ensures var t := DropLastDashes(s);
      && t <= s && (t != "" ==> t[|t| - 1] != '-')
      && forall i | |t| <= i < |s| :: s[i] == '-'
  {
    if s != "" && s[|s| - 1] == '-' {
      DropLastDashesIs(s[..|s| - 1]);
    }
  }

  lemma StripIs(s: string)
    requires All(s, IsDnsChar)
    ensures var t := StripDashes(s);
      && All(t, IsDnsChar)
      && (t != "" <==> HasAlnum(s))
      && (t != "" ==> t[0] != '-' && t[|t| - 1] != '-')
  {
    var n := RunLength(s, NotDash);
    var front, t := s[n..], StripDashes(s);
    DropLastDashesIs(front);
    if t != "" {
      assert t[0] == front[0] == s[n];
    }
    if i :| 0 <= i < |s| && IsLowerAlnum(s[i]) {
      assert front[i - n] == s[i];
    }
  }

  /** A tier name is a DNS label exactly when the value has a letter or a digit and the cut does not leave a dash at the end. */
  lemma DnsifyIsLabel(s: string)
    ensures Slug(s) != "" <==> HasAlnum(Lower(s))
    ensures IsDnsLabel(Dnsify(s)) <==> Slug(s) != "" && (|Slug(s)| <= 30 || Slug(s)[29] != '-')
  {
    hide Lower, Dash, StripDashes;
    DashIsDns(Lower(s));
    StripIs(Dash(Lower(s)));
  }

  lemma {:induction false} DashOfDns(s: string)
    requires All(s, IsDnsChar)
    ensures Dash(s) == s
  {
    if s != "" {
      assert IsDnsChar(s[0]);
      DashOfDns(s[1..]);
    }
  }

  /** A DNS label is proposed as it is, cut to 30 characters, which is no DNS label when the cut leaves a dash at the end. */
  lemma DnsifyOfLabel(s: string)
    requires IsDnsLabel(s)
    ensures Slug(s) == s && Dnsify(s) == Cut(s, 30)
    ensures IsDnsLabel(Dnsify(s)) <==> |s| <= 30 || s[29] != '-'
  {
    LowerOfDns(s);
    DashOfDns(s);
    DnsifyIsLabel(s);
    hide Lower, Dash;
    assert s[0..] == s;
  }

  lemma LowerOfDns(s: string)
    requires All(s, IsDnsChar)
    ensures Lower(s) == s
  {
    assert forall i | 0 <= i < |s| :: IsDnsChar(s[i]);
  }

  // ---- what a row selects ----

  function ReadyKind(t: E.CheckType): Option<Kind> {
    match t
    case VmRunning => Some(VirtualMachine)
    case DeploymentsReady => Some(Deployment)
    case StatefulSetsReady => Some(StatefulSet)
    case PodsReady => Some(Pod)
    case _ => None
  }

  function ResourceKind(rt: string): Option<Kind> {
    var name := Split(Lower(rt), '.')[0];
    if name == "deployments" then Some(Deployment)
    else if name == "statefulsets" then Some(StatefulSet)
    else if name == "virtualmachines" then Some(VirtualMachine)
    else if name == "pods" then Some(Pod)
    else if name == "persistentvolumeclaims" then Some(PersistentVolumeClaim)
    else None
  }

  const ALL_KINDS := {Deployment, StatefulSet, VirtualMachine, Pod, PersistentVolumeClaim}

  /** The kinds a tier selects, and whether they are known rather than assumed. */
  function TierKinds(resourceTypes: seq<string>, ready: seq<E.CheckType>): (set<Kind>, bool) {
    if resourceTypes != [] then (set rt | rt in resourceTypes && ResourceKind(rt).Some? :: ResourceKind(rt).value, true)
    else
      var ks := set t | t in ready && ReadyKind(t).Some? :: ReadyKind(t).value;
      if ks != {} then (ks, true) else (ALL_KINDS, false)
  }

  function RowSelector(r: E.Row): S.Parsed {
    S.Parse(Join(r.labels, ", "))
  }

  predicate Selects(r: E.Row, o: Obj) {
    o.kind in TierKinds(r.kinds, r.ready).0 && S.Matches(RowSelector(r).Seen(), o.labels)
  }

  datatype RowError = NoName | BadName | Twice | NothingChosen | BadSelector(error: S.Error) | SelectsNothing

  function NameError(r: E.Row, rows: seq<E.Row>): Option<RowError> {
    if r.name == "" then Some(NoName)
    else if !IsDnsLabel(r.name) || |r.name| > 30 then Some(BadName)
    else if |Filter(rows, (x: E.Row) => x.name == r.name)| > 1 then Some(Twice)
    else None
  }

  function SelectionError(reports: seq<NsReport>, namespaces: seq<string>, r: E.Row): Option<RowError> {
    if r.kinds == [] && r.labels == [] then Some(NothingChosen)
    else if r.labels == [] then None
    else if RowSelector(r).Refused? then Some(BadSelector(RowSelector(r).error))
    else if !Reported(reports, namespaces) then None
    else if TierKinds(r.kinds, r.ready).1 && !exists o <- ObjectsOf(reports, namespaces, false) :: Selects(r, o) then Some(SelectsNothing)
    else None
  }

  function TierRowError(reports: seq<NsReport>, namespaces: seq<string>, r: E.Row, rows: seq<E.Row>): Option<RowError> {
    var e := NameError(r, rows);
    if e.Some? then e else SelectionError(reports, namespaces, r)
  }

  datatype GateError = NoTier | NoPod | NoTarget | NoCommand | BadTimeout | BadPod(error: S.Error) | NoMatch

  function GateRowError(reports: seq<NsReport>, namespaces: seq<string>, g: E.Gate, tierNames: seq<string>): Option<GateError> {
    if g.tier !in tierNames then Some(NoTier)
    else if g.pod == "" then Some(NoPod)
    else if !g.template.Custom? && g.target == "" then Some(NoTarget)
    else if g.template.Custom? && Trim(g.command) == "" then Some(NoCommand)
    else if g.timeout.Some? && !(1 <= g.timeout.value <= 3600) then Some(BadTimeout)
    else
      var sel := S.Parse(g.pod, false);
      if sel.Refused? then Some(BadPod(sel.error))
      else if Reported(reports, namespaces)
              && !exists o <- ObjectsOf(reports, namespaces, true) :: S.Matches(sel.sel, o.labels) then Some(NoMatch)
      else None
  }

  // ---- the proposal ----

  predicate IsTierKey(k: string) {
    k == "tier" || EndsWith(k, "/tier")
  }

  /** The first label that names a tier. */
  function TierPair(m: S.Labels): Option<(string, string)> {
    if m == [] then None
    else if IsTierKey(m[0].0) then Some(m[0])
    else TierPair(m[1..])
  }

  predicate PlainName(o: Obj) { !EndsWith(o.name, " pods") }

  predicate IsTool(o: Obj) {
    (o.kind.Deployment? || o.kind.StatefulSet?) && TierPair(o.labels).None?
  }

  function ReadyTypes(objs: seq<Obj>): seq<E.CheckType> {
    (if exists o <- objs :: o.kind.Deployment? then [E.DeploymentsReady] else [])
    + (if exists o <- objs :: o.kind.StatefulSet? then [E.StatefulSetsReady] else [])
    + (if exists o <- objs :: o.kind.VirtualMachine? then [E.VmRunning] else [])
  }

  function ToolKinds(tools: seq<Obj>): seq<string> {
    (if exists o <- tools :: o.kind.Deployment? then ["deployments"] else [])
    + (if exists o <- tools :: o.kind.StatefulSet? then ["statefulsets"] else [])
  }

  /** The first pair, most common first, that every tool carries. */
  function CommonPair(pairs: seq<string>, tools: seq<Obj>): Option<string> {
    if pairs == [] then None
    else if forall o <- tools :: S.Matches(S.Parse(pairs[0]).Seen(), o.labels) then Some(pairs[0])
    else CommonPair(pairs[1..], tools)
  }

  function ToolsRow(tools: seq<Obj>, before: Collation): E.Row {
    match CommonPair(ObjectPairs(LabelsOf(tools), before), tools)
    case Some(p) => E.Row("tools", [], [p], ReadyTypes(tools))
    case None => E.Row("tools", ToolKinds(tools), [], ReadyTypes(tools))
  }

  function ToolPods(reports: seq<NsReport>, namespaces: seq<string>, tools: seq<Obj>): seq<Obj> {
    Filter(ObjectsOf(reports, namespaces, true), (p: Obj) => exists t <- tools :: p.name == t.name + " pods")
  }

  function ToolsPod(reports: seq<NsReport>, namespaces: seq<string>, tools: seq<Obj>, before: Collation): string {
    var pairs := ObjectPairs(LabelsOf(ToolPods(reports, namespaces, tools)), before);
    if tools == [] || pairs == [] then "" else pairs[0]
  }

  const CONFIG_ROW := E.Row("config", ["configmaps", "secrets", "serviceaccounts", "services"], [], [])

  /** The objects of one tier label pair. */
  datatype Group = Group(pair: (string, string), objs: seq<Obj>)

  /** (byValue[pair] = byValue[pair] || []).push(o); the key is the pair's text. */
  function Push(groups: seq<Group>, pair: (string, string), o: Obj): seq<Group> {
    if groups == [] then [Group(pair, [o])]
    else if S.PairText(groups[0].pair) == S.PairText(pair) then [groups[0].(objs := groups[0].objs + [o])] + groups[1..]
    else [groups[0]] + Push(groups[1..], pair, o)
  }

  function GroupByTier(objs: seq<Obj>): seq<Group> {
    if objs == [] then []
    else
      var n := |objs| - 1;
      var groups, pair := GroupByTier(objs[..n]), TierPair(objs[n].labels);
      if pair.Some? then Push(groups, pair.value, objs[n]) else groups
  }

  method CollectGroups(objs: seq<Obj>) returns (groups: seq<Group>)
    ensures groups == GroupByTier(objs)
  {
    groups := [];
    for i := 0 to |objs|
      invariant groups == GroupByTier(objs[..i])
    {
      var pair := TierPair(objs[i].labels);
      if pair.Some? {
        groups := Push(groups, pair.value, objs[i]);
      }
      assert objs[..i + 1][..i] == objs[..i];
    }
    assert objs[..|objs|] == objs;
  }

  function ValueName(pair: (string, string)): string {
    var pieces := Split(S.PairText(pair), '=');
    Dnsify(if |pieces| > 1 then pieces[1] else "")
  }

  function GroupRow(g: Group): E.Row {
    E.Row(ValueName(g.pair), [], [S.PairText(g.pair)], ReadyTypes(g.objs))
  }

  const TIER_ORDER := ["config", "tools", "db", "database", "data", "storage", "cache", "queue", "mq", "backend", "app", "api", "worker",
                       "web", "frontend", "ui"]

  /** Twice the rank of a tier name: an unknown one comes right after "app". */
  function TierRank(name: string): nat {
    var i := IndexOf(TIER_ORDER, name);
    if i == |TIER_ORDER| then 2 * IndexOf(TIER_ORDER, "app") + 1 else 2 * i
  }

  function TierOrder(before: Collation): (Group, Group) -> bool {
    (a: Group, b: Group) =>
      var x, y := ValueName(a.pair), ValueName(b.pair);
      TierRank(x) < TierRank(y) || (TierRank(x) == TierRank(y) && before(x, y))
  }

  predicate IsDataTier(name: string) {
    name == "db" || name == "database" || name == "data" || name == "storage" || name == "cache"
  }

  function TargetsOf(s: Service): seq<string> {
    Map(s.ports, (p: string) => s.name + ":" + p)
  }

  function ServiceTargets(reports: seq<NsReport>, namespaces: seq<string>): seq<string> {
    if namespaces == [] then []
    else
      var rest := ServiceTargets(reports, namespaces[1..]);
      match NsOf(reports, namespaces[0])
      case None => rest
      case Some(r) => Flatten(Map(r.services, (s: Service) => TargetsOf(s))) + rest
  }

  function FindTarget(targets: seq<string>, name: string): Option<string> {
    if targets == [] then None
    else if Split(targets[0], ':')[0] == name then Some(targets[0])
    else FindTarget(targets[1..], name)
  }

  function FirstTarget(objs: seq<Obj>, targets: seq<string>): Option<string> {
    if objs == [] then None
    else
      var t := FindTarget(targets, objs[0].name);
      if t.Some? && t.value != "" then t else FirstTarget(objs[1..], targets)
  }

  function GateFor(g: Group, targets: seq<string>, pod: string): seq<E.Gate> {
    var target := FirstTarget(g.objs, targets);
    if IsDataTier(ValueName(g.pair)) && target.Some? && pod != ""
    then [E.Gate(ValueName(g.pair), pod, Some(900), "", E.Tcp, target.value)]
    else []
  }

  function GatesFor(groups: seq<Group>, targets: seq<string>, pod: string): seq<E.Gate> {
    if groups == [] then [] else GateFor(groups[0], targets, pod) + GatesFor(groups[1..], targets, pod)
  }

  function PlainObjects(reports: seq<NsReport>, namespaces: seq<string>): seq<Obj> {
    Filter(ObjectsOf(reports, namespaces, false), PlainName)
  }

  function Tools(objs: seq<Obj>): seq<Obj> {
    Filter(objs, IsTool)
  }

  function ValueGroups(objs: seq<Obj>, before: Collation): seq<Group> {
    SortBy(GroupByTier(objs), TierOrder(before))
  }

  function TierRows(objs: seq<Obj>, before: Collation): seq<E.Row> {
    [CONFIG_ROW]
    + (if Tools(objs) == [] then [] else [ToolsRow(Tools(objs), before)])
    + Map(ValueGroups(objs, before), GroupRow)
  }

  /** The proposed tiers in boot order, and the proposed gates. */
  method ProposeTiers(reports: seq<NsReport>, namespaces: seq<string>, before: Collation)
    returns (tiers: seq<E.Row>, gates: seq<E.Gate>)
    ensures var objs := PlainObjects(reports, namespaces);
      && tiers == TierRows(objs, before)
      && gates == GatesFor(ValueGroups(objs, before), ServiceTargets(reports, namespaces),
                           ToolsPod(reports, namespaces, Tools(objs), before))
  {
    hide ToolsRow, GateFor, GatesFor, ObjectsOf, ServiceTargets, Filter, SortBy, GroupByTier, ObjectPairs, ToolPods, GroupRow, TierOrder,
      IsTool, PlainName;
    var all := CollectObjects(reports, namespaces, false);
    var objs := Filter(all, PlainName);
    tiers := [CONFIG_ROW];
    var tools := Tools(objs);
    var pod := "";
    if tools != [] {
      tiers := tiers + [ToolsRow(tools, before)];
      pod := ToolsPod(reports, namespaces, tools, before);
    }
    var byValue := CollectGroups(objs);
    var groups := SortBy(byValue, TierOrder(before));
    tiers := tiers + Map(groups, GroupRow);
    gates := CollectGates(groups, ServiceTargets(reports, namespaces), pod);
  }

  method CollectGates(groups: seq<Group>, targets: seq<string>, pod: string) returns (gates: seq<E.Gate>)
    ensures gates == GatesFor(groups, targets, pod)
  {
    hide GateFor;
    gates := [];
    for i := 0 to |groups|
      invariant gates + GatesFor(groups[i..], targets, pod) == GatesFor(groups, targets, pod)
    {
      assert groups[i..][1..] == groups[i + 1..];
      gates := gates + GateFor(groups[i], targets, pod);
    }
  }
}
