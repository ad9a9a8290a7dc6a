/** The checks of typed tier rows and gates, said over what the namespaces report. */
module RowChecks {
  import opened Text
  import opened Seqs
  import opened Report
  import opened TierProposal
  import S = Selectors
  import E = TierEditor

  // ---- what is reported ----

  /** The first report of a namespace. */
  predicate IsReport(reports: seq<NsReport>, ns: string, r: NsReport) {
    FirstOf(reports, (x: NsReport) => x.namespace == ns, r)
  }

  predicate HasReport(reports: seq<NsReport>, ns: string) {
    exists r <- reports :: r.namespace == ns
  }

  lemma {:induction false} NsOfIs(reports: seq<NsReport>, ns: string, r: NsReport)
    ensures NsOf(reports, ns) == Some(r) <==> IsReport(reports, ns, r)
    ensures NsOf(reports, ns).Some? <==> HasReport(reports, ns)
  {
    hide FirstOf;
    var p := (x: NsReport) => x.namespace == ns;
    FirstOfStep(r, [], p, r);
    if reports != [] {
      NsOfIs(reports[1..], ns, r);
      assert reports == [reports[0]] + reports[1..] && reports[0] in reports;
      FirstOfStep(reports[0], reports[1..], p, r);
    }
  }

  /** An object that a tier can select: a workload, its pods where it reports their labels, or a PVC. */
  ghost predicate TierObject(r: NsReport, o: Obj) {
    || (exists w <- r.workloads ::
          if w.kind.Pod? then o == Obj(Pod, w.name, OrNone(w.labels))
          else || o == Obj(w.kind, w.name, OrNone(w.objectLabels))
               || (w.labels.Some? && o == Obj(Pod, w.name + " pods", w.labels.value)))
    || (exists p <- r.pvcs :: o == Obj(PersistentVolumeClaim, p.name, p.labels))
  }

  /** The pods of a workload as a gate can select them. */
  ghost predicate GateObject(r: NsReport, o: Obj) {
    exists w <- r.workloads ::
      o == Obj(Pod, if w.kind.Pod? then w.name else w.name + " pods", if w.labels.Some? then w.labels.value else [])
  }

  lemma NsObjsAre(r: NsReport, forPods: bool, o: Obj)
    ensures o in NsObjs(r, forPods) <==> if forPods then GateObject(r, o) else TierObject(r, o)
  {
    hide Flatten;
    var lists := WorkloadLists(r.workloads, forPods);
    FlattenIn(lists);
    if forPods {
      if w :| w in r.workloads && o == Obj(Pod, if w.kind.Pod? then w.name else w.name + " pods", OrNone(w.labels)) {
        var i :| 0 <= i < |r.workloads| && r.workloads[i] == w;
        assert o in lists[i];
      }
    } else {
      PvcsAre(r.pvcs, o);
      if w :| w in r.workloads && o in WorkloadObjs(w, false) {
        var i :| 0 <= i < |r.workloads| && r.workloads[i] == w;
        assert o in lists[i];
      }
    }
  }

  lemma PvcsAre(pvcs: seq<Pvc>, o: Obj)
    ensures o in Map(pvcs, PvcObj) <==> exists p <- pvcs :: o == Obj(PersistentVolumeClaim, p.name, p.labels)
  {
    if p :| p in pvcs && o == PvcObj(p) {
      var i :| 0 <= i < |pvcs| && pvcs[i] == p;
      assert Map(pvcs, PvcObj)[i] == o;
    }
  }

  ghost predicate InReport(reports: seq<NsReport>, ns: string, forPods: bool, o: Obj) {
    exists r :: IsReport(reports, ns, r) && if forPods then GateObject(r, o) else TierObject(r, o)
  }

  lemma InReportIs(reports: seq<NsReport>, ns: string, forPods: bool, o: Obj)
    ensures InReport(reports, ns, forPods, o) <==> NsOf(reports, ns).Some? && o in NsObjs(NsOf(reports, ns).value, forPods)
  {
    hide NsObjs, NsOf, IsReport, GateObject, TierObject;
    forall r
      ensures NsOf(reports, ns) == Some(r) <==> IsReport(reports, ns, r)
    {
      NsOfIs(reports, ns, r);
    }
    forall r
      ensures o in NsObjs(r, forPods) <==> if forPods then GateObject(r, o) else TierObject(r, o)
    {
      NsObjsAre(r, forPods, o);
    }
    if NsOf(reports, ns).Some? {
      assert IsReport(reports, ns, NsOf(reports, ns).value);
    }
  }

  /** The objects of the chosen namespaces are those that the first report of one of them holds. */
  lemma {:induction false} ObjectsAre(reports: seq<NsReport>, namespaces: seq<string>, forPods: bool, o: Obj)
    ensures o in ObjectsOf(reports, namespaces, forPods) <==> exists ns <- namespaces :: InReport(reports, ns, forPods, o)
  {
    hide NsObjs, NsOf, InReport;
    if namespaces != [] {
      var ns, rest := namespaces[0], namespaces[1..];
      assert namespaces == [ns] + rest;
      ObjectsAre(reports, rest, forPods, o);
      InReportIs(reports, ns, forPods, o);
    }
  }

  // ---- kinds ----

  /** The word in any letter case. */
  predicate Spells(s: string, word: string) {
    |s| == |word| && forall i | 0 <= i < |s| :: s[i] == word[i] || s[i] as int + 32 == word[i] as int
  }

  /** What comes before the first dot spells the word. */
  predicate TypeNamed(rt: string, word: string) {
    |word| <= |rt| && Spells(rt[..|word|], word) && (|rt| == |word| || rt[|word|] == '.')
  }

  /** The resource type names the kind. */
  predicate NamesKind(rt: string, k: Kind) {
    || (TypeNamed(rt, "deployments") && k == Deployment)
    || (TypeNamed(rt, "statefulsets") && k == StatefulSet)
    || (TypeNamed(rt, "virtualmachines") && k == VirtualMachine)
    || (TypeNamed(rt, "pods") && k == Pod)
    || (TypeNamed(rt, "persistentvolumeclaims") && k == PersistentVolumeClaim)
  }

  /** The ready check waits for objects of the kind. */
  predicate WaitsFor(t: E.CheckType, k: Kind) {
    || (t == E.VmRunning && k == VirtualMachine)
    || (t == E.DeploymentsReady && k == Deployment)
    || (t == E.StatefulSetsReady && k == StatefulSet)
    || (t == E.PodsReady && k == Pod)
  }

  predicate Waits(ready: seq<E.CheckType>) {
    E.VmRunning in ready || E.DeploymentsReady in ready || E.StatefulSetsReady in ready || E.PodsReady in ready
  }

  /** The row says which kinds it selects: it names types or waits for some. */
  predicate KindsKnown(types: seq<string>, ready: seq<E.CheckType>) {
    types != [] || Waits(ready)
  }

  /** The types decide, without types the ready checks, without either every kind there is. */
  predicate OfKinds(types: seq<string>, ready: seq<E.CheckType>, k: Kind) {
    if types != [] then exists rt <- types :: NamesKind(rt, k)
    else if Waits(ready) then exists t <- ready :: WaitsFor(t, k)
    else k == Deployment || k == StatefulSet || k == VirtualMachine || k == Pod || k == PersistentVolumeClaim
  }

  lemma FirstPiece(s: string, sep: char)
    ensures Split(s, sep)[0] == s[..RunLength(s, (c: char) => c == sep)]
  {
    if s != [] && s[0] != sep {
      FirstPiece(s[1..], sep);
    }
  }

  lemma LowerSpells(s: string, word: string)
    requires forall c <- word :: 'a' <= c <= 'z'
    ensures Lower(s) == word <==> Spells(s, word)
  {
    if Spells(s, word) {
      forall i | 0 <= i < |s|
        ensures Lower(s)[i] == word[i]
      {
        assert word[i] in word;
      }
    }
    if Lower(s) == word {
      forall i | 0 <= i < |s|
        ensures s[i] == word[i] || s[i] as int + 32 == word[i] as int
      {
        assert Lower(s)[i] == LowerChar(s[i]);
      }
    }
  }

  lemma TypeNamedIs(rt: string, word: string)
    requires forall c <- word :: 'a' <= c <= 'z'
    ensures Split(Lower(rt), '.')[0] == word <==> TypeNamed(rt, word)
  {
    hide Lower, Split, RunLength, Spells;
    var low, dot := Lower(rt), (c: char) => c == '.';
    LowerKeepsDots(rt);
    FirstPiece(low, '.');
    var n := RunLength(low, dot);
    assert forall i | 0 <= i < n :: !dot(low[i]);
    assert n < |low| ==> dot(low[n]);
    LowerPrefix(rt, n);
    LowerSpells(rt[..n], word);
    if TypeNamed(rt, word) {
      LowerPrefix(rt, |word|);
      LowerSpells(rt[..|word|], word);
      assert forall i | 0 <= i < |word| :: low[i] == word[i] && word[i] in word;
    }
  }

  lemma LowerKeepsDots(s: string)
    ensures |Lower(s)| == |s| && forall i | 0 <= i < |s| :: Lower(s)[i] == '.' <==> s[i] == '.'
  {
  }

  lemma LowerPrefix(s: string, n: nat)
    requires n <= |s|
    ensures n <= |Lower(s)| && Lower(s[..n]) == Lower(s)[..n]
  {
  }

  lemma ResourceKindIs(rt: string, k: Kind)
    ensures ResourceKind(rt) == Some(k) <==> NamesKind(rt, k)
  {
    hide TypeNamed, Split, Lower;
    TypeNamedIs(rt, "deployments");
    TypeNamedIs(rt, "statefulsets");
    TypeNamedIs(rt, "virtualmachines");
    TypeNamedIs(rt, "pods");
    TypeNamedIs(rt, "persistentvolumeclaims");
    WordsDiffer();
  }

  lemma WordsDiffer()
    ensures var a, b, c, d, e := "deployments", "statefulsets", "virtualmachines", "pods", "persistentvolumeclaims";
      a != b && a != c && a != d && a != e && b != c && b != d && b != e && c != d && c != e && d != e
  {
    assert "deployments"[0] == 'd' && "statefulsets"[0] == 's' && "virtualmachines"[0] == 'v';
    assert |"pods"| == 4 && |"persistentvolumeclaims"| == 22;
  }

  lemma KindsAre(types: seq<string>, ready: seq<E.CheckType>, k: Kind)
    ensures k in TierKinds(types, ready).0 <==> OfKinds(types, ready, k)
    ensures TierKinds(types, ready).1 <==> KindsKnown(types, ready)
  {
    hide ResourceKind, NamesKind;
    if types != [] {
      forall rt
        ensures ResourceKind(rt) == Some(k) <==> NamesKind(rt, k)
      {
        ResourceKindIs(rt, k);
      }
    } else {
      var ks := set t | t in ready && ReadyKind(t).Some? :: ReadyKind(t).value;
      forall t, j
        ensures ReadyKind(t) == Some(j) <==> WaitsFor(t, j)
      {
      }
      assert E.VmRunning in ready ==> VirtualMachine in ks;
      assert E.DeploymentsReady in ready ==> Deployment in ks;
      assert E.StatefulSetsReady in ready ==> StatefulSet in ks;
      assert E.PodsReady in ready ==> Pod in ks;
    }
  }

  // ---- what a selector asks for ----

  /** The object carries every pair of the selector and a label of every key it asks for. */
  predicate Carries(o: Obj, sel: S.Selector) {
    && (forall p <- sel.matchLabels :: p in o.labels)
    && (forall e <- sel.matchExpressions :: exists q <- o.labels :: q.0 == e.key)
  }

  lemma CarriesIs(o: Obj, text: string, allowExists: bool)
    requires DistinctKeys(o.labels) && S.Parse(text, allowExists).Parsed?
    ensures S.Matches(S.Parse(text, allowExists).sel, o.labels) <==> Carries(o, S.Parse(text, allowExists).sel)
  {
    hide S.Parse, S.Lookup, S.CleanLabels, DistinctKeys;
    S.ParsedIsWellFormed(text, allowExists);
    var sel := S.Parse(text, allowExists).sel;
    forall p: (string, string)
      ensures S.Lookup(o.labels, p.0) == Some(p.1) <==> p in o.labels
    {
      S.LookupIn(o.labels, p.0);
      if p in o.labels {
        S.LookupOf(o.labels, p);
      }
    }
    forall key
      ensures S.Lookup(o.labels, key).Some? <==> exists q <- o.labels :: q.0 == key
    {
      S.LookupIn(o.labels, key);
    }
    assert forall e <- sel.matchExpressions :: S.CleanRequirement(e) && e.operator == "Exists";
  }

  // ---- tier rows ----

  predicate GoodName(name: string) {
    IsDnsLabel(name) && |name| <= 30
  }

  /** The row has a good name that no other row has. */
  predicate WellNamed(rows: seq<E.Row>, k: nat)
    requires k < |rows|
  {
    GoodName(rows[k].name) && forall j | 0 <= j < |rows| && j != k :: rows[j].name != rows[k].name
  }

  /** Every chosen namespace is reported, and some is chosen. */
  predicate AllReported(reports: seq<NsReport>, namespaces: seq<string>) {
    namespaces != [] && forall ns <- namespaces :: HasReport(reports, ns)
  }

  /** Some reported object of the row's kinds carries what its labels ask for. */
  predicate SelectsSome(reports: seq<NsReport>, namespaces: seq<string>, r: E.Row, sel: S.Selector) {
    exists o <- ObjectsOf(reports, namespaces, false) :: OfKinds(r.kinds, r.ready, o.kind) && Carries(o, sel)
  }

  /** The selector of a row, its labels joined by commas. */
  function SelectorOf(r: E.Row): S.Parsed {
    S.Parse(Join(r.labels, ", "))
  }

  /** The row's selection can be used: it names something, its labels parse, and what it waits for is there as far as one can see. */
  predicate GoodSelection(reports: seq<NsReport>, namespaces: seq<string>, r: E.Row) {
    && (r.kinds != [] || r.labels != [])
    && (r.labels != [] ==>
         && SelectorOf(r).Parsed?
         && (AllReported(reports, namespaces) && KindsKnown(r.kinds, r.ready) ==> SelectsSome(reports, namespaces, r, SelectorOf(r).sel)))
  }

  predicate RowRefused(reports: seq<NsReport>, namespaces: seq<string>, rows: seq<E.Row>, k: nat, e: RowError)
    requires k < |rows|
  {
    var r := rows[k];
    match e
    case NoName => r.name == ""
    case BadName => r.name != "" && !GoodName(r.name)
    case Twice => GoodName(r.name) && exists j | 0 <= j < |rows| && j != k :: rows[j].name == r.name
    case NothingChosen => WellNamed(rows, k) && r.kinds == [] && r.labels == []
    case BadSelector(error) => WellNamed(rows, k) && r.labels != [] && SelectorOf(r) == S.Refused(error)
    case SelectsNothing =>
      && WellNamed(rows, k) && r.labels != [] && SelectorOf(r).Parsed?
      && AllReported(reports, namespaces) && KindsKnown(r.kinds, r.ready)
      && !SelectsSome(reports, namespaces, r, SelectorOf(r).sel)
  }

  predicate DistinctLabels(objs: seq<Obj>) {
    forall o <- objs :: DistinctKeys(o.labels)
  }

  lemma ReportedIs(reports: seq<NsReport>, namespaces: seq<string>)
    ensures Reported(reports, namespaces) <==> AllReported(reports, namespaces)
  {
    hide NsOf, HasReport;
    forall ns
      ensures NsOf(reports, ns).Some? <==> HasReport(reports, ns)
    {
      NsOfIs(reports, ns, NsReport(ns, [], [], []));
    }
  }

  lemma SelectsIs(reports: seq<NsReport>, namespaces: seq<string>, r: E.Row)
    requires DistinctLabels(ObjectsOf(reports, namespaces, false)) && SelectorOf(r).Parsed?
    ensures (exists o <- ObjectsOf(reports, namespaces, false) :: Selects(r, o)) <==> SelectsSome(reports, namespaces, r, SelectorOf(r).sel)
  {
    hide ObjectsOf, TierKinds, OfKinds, Carries, S.Parse, S.Matches, DistinctKeys, Join;
    forall o | o in ObjectsOf(reports, namespaces, false)
      ensures Selects(r, o) <==> OfKinds(r.kinds, r.ready, o.kind) && Carries(o, SelectorOf(r).sel)
    {
      KindsAre(r.kinds, r.ready, o.kind);
      CarriesIs(o, Join(r.labels, ", "), true);
    }
  }

  lemma SelectionIs(reports: seq<NsReport>, namespaces: seq<string>, rows: seq<E.Row>, k: nat)
    requires DistinctLabels(ObjectsOf(reports, namespaces, false)) && k < |rows| && WellNamed(rows, k)
    ensures var e := SelectionError(reports, namespaces, rows[k]);
      && (e.None? <==> GoodSelection(reports, namespaces, rows[k]))
      && forall x :: e == Some(x) <==> RowRefused(reports, namespaces, rows, k, x)
  {
    hide ObjectsOf, TierKinds, OfKinds, KindsKnown, Selects, SelectsSome, Reported, AllReported, S.Parse, Join, DistinctLabels, IsDnsLabel;
    var r := rows[k];
    ReportedIs(reports, namespaces);
    KindsAre(r.kinds, r.ready, Pod);
    EmptyIsBad();
    if SelectorOf(r).Parsed? {
      SelectsIs(reports, namespaces, r);
    }
  }

  /**
   * A tier row, typed or proposed, is accepted exactly when it has a good name that no other row has and
   * its selection is good; each other row draws the error of the first thing that is wrong with it.
   */
  lemma TierRowChecked(reports: seq<NsReport>, namespaces: seq<string>, rows: seq<E.Row>, k: nat)
    requires DistinctLabels(ObjectsOf(reports, namespaces, false)) && k < |rows|
    ensures var e := TierRowError(reports, namespaces, rows[k], rows);
      && (e.None? <==> WellNamed(rows, k) && GoodSelection(reports, namespaces, rows[k]))
      && forall x :: e == Some(x) <==> RowRefused(reports, namespaces, rows, k, x)
  {
    hide ObjectsOf, SelectionError, GoodSelection, DistinctLabels, Filter, IsDnsLabel, AllReported, KindsKnown, SelectsSome, S.Parse;
    var r := rows[k];
    var named := (x: E.Row) => x.name == r.name;
    FilterIn(rows, named);
    FilterOne(rows, k, named);
    assert r in Filter(rows, named);
    EmptyIsBad();
    if WellNamed(rows, k) {
      SelectionIs(reports, namespaces, rows, k);
    }
  }

  lemma EmptyIsBad()
    ensures !IsDnsLabel("")
  {
  }

  // ---- gate rows ----

  predicate GateRefused(reports: seq<NsReport>, namespaces: seq<string>, g: E.Gate, tierNames: seq<string>, e: GateError) {
    var placed := g.tier in tierNames && g.pod != "";
    var aimed := placed && if g.template.Custom? then Trim(g.command) != "" else g.target != "";
    var timed := aimed && (g.timeout.Some? ==> 1 <= g.timeout.value <= 3600);
    match e
    case NoTier => g.tier !in tierNames
    case NoPod => g.tier in tierNames && g.pod == ""
    case NoTarget => placed && !g.template.Custom? && g.target == ""
    case NoCommand => placed && g.template.Custom? && Trim(g.command) == ""
    case BadTimeout => aimed && !timed
    case BadPod(error) => timed && S.Parse(g.pod, false) == S.Refused(error)
    case NoMatch => timed && S.Parse(g.pod, false).Parsed? && AllReported(reports, namespaces) && !RunsSomewhere(reports, namespaces, g)
  }

  /** Some reported pod carries what the gate asks for. */
  predicate RunsSomewhere(reports: seq<NsReport>, namespaces: seq<string>, g: E.Gate) {
    exists o <- ObjectsOf(reports, namespaces, true) :: Carries(o, S.Parse(g.pod, false).Seen())
  }

  /**
   * A gate row is accepted exactly when it gates a tier, names its pod and target or command, waits 1 to 3600
   * seconds if it says how long, and its pod text parses and, where all is reported, finds a pod.
   */
  lemma GateRowChecked(reports: seq<NsReport>, namespaces: seq<string>, g: E.Gate, tierNames: seq<string>)
    requires DistinctLabels(ObjectsOf(reports, namespaces, true))
    ensures var e := GateRowError(reports, namespaces, g, tierNames);
      && (e.None? <==>
           && g.tier in tierNames && g.pod != "" && (if g.template.Custom? then Trim(g.command) != "" else g.target != "")
           && (g.timeout.Some? ==> 1 <= g.timeout.value <= 3600)
           && S.Parse(g.pod, false).Parsed? && (AllReported(reports, namespaces) ==> RunsSomewhere(reports, namespaces, g)))
      && forall x :: e == Some(x) <==> GateRefused(reports, namespaces, g, tierNames, x)
  {
    hide ObjectsOf, Carries, S.Parse, S.Matches, Reported, AllReported, Trim, DistinctKeys;
    ReportedIs(reports, namespaces);
    if S.Parse(g.pod, false).Parsed? {
      forall o | o in ObjectsOf(reports, namespaces, true)
        ensures S.Matches(S.Parse(g.pod, false).sel, o.labels) <==> Carries(o, S.Parse(g.pod, false).sel)
      {
        CarriesIs(o, g.pod, false);
      }
    }
  }
}
