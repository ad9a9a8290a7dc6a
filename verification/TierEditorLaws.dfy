/** What survives the tier editor: rows and gates through a spec, and a spec through the rows. */
module TierEditorLaws {
  import opened Text
  import opened Seqs
  import opened TierEditor
  import S = Selectors

  // ---- rows -> spec -> rows ----

  /** The chips of some well-formed selector, in the order the editor shows them. */
  ghost predicate PrintedLabels(labels: seq<string>) {
    exists sel :: S.WellFormed(sel) && labels == S.Texts(sel)
  }

  ghost predicate CanonicalRow(r: Row) {
    && r.name != "" && Trimmed(r.name)
    && PrintedLabels(r.labels)
    && forall t <- r.ready :: IsReadyKind(t)
  }

  predicate AllConditions(rs: seq<Ready>) {
    forall i | 0 <= i < |rs| :: IsCondition(rs[i])
  }

  predicate KeepsOnlyConditions(keep: Keep) {
    forall name <- keep :: AllConditions(keep[name])
  }

  lemma PlainChecks(types: seq<CheckType>)
    ensures var rs := Map(types, Plainer());
      && Map(Filter(rs, IsTyped), TypeOf) == Filter(types, IsReadyKind)
      && ((forall t <- types :: IsReadyKind(t)) ==> Filter(rs, IsExec) == [] && Filter(rs, IsCondition) == [])
  {
    var rs := Map(types, Plainer());
    FilterImages(types, Plainer(), IsTyped, IsReadyKind);
    assert Map(Map(Filter(types, IsReadyKind), Plainer()), TypeOf) == Filter(types, IsReadyKind);
    if forall t <- types :: IsReadyKind(t) {
      forall i | 0 <= i < |rs|
        ensures !IsExec(rs[i]) && !IsCondition(rs[i])
      {
        assert types[i] in types && rs[i] == Plain(types[i]);
      }
      FilterNone(rs, IsExec);
      FilterNone(rs, IsCondition);
    }
  }

  lemma FilterThree(a: seq<Ready>, b: seq<Ready>, c: seq<Ready>, p: Ready -> bool)
    ensures Filter(a + b + c, p) == Filter(a, p) + Filter(b, p) + Filter(c, p)
  {
    FilterConcat(a + b, c, p);
    FilterConcat(a, b, p);
  }

  lemma TrimIsTrimmed(s: string)
    ensures Trim(s) == s <==> Trimmed(s)
  {
    TrimShape(s);
    if Trimmed(s) {
      TrimTrimmed(s);
    }
  }

  lemma LabelsRoundTrip(labels: seq<string>)
    ensures var sel := S.Parse(Join(labels, ", ")).Seen();
      S.WellFormed(sel) && (Chips(sel) == labels <==> PrintedLabels(labels))
  {
    var sel := S.Parse(Join(labels, ", ")).Seen();
    S.ParsedIsWellFormed(Join(labels, ", "), true);
    ChipsAreTexts(sel);
    if PrintedLabels(labels) {
      var sel' :| S.WellFormed(sel') && labels == S.Texts(sel');
      S.SelectorRoundTrip(sel');
    }
  }

  /** The checks of a written tier, told apart by kind. */
  lemma WrittenChecks(r: Row, gates: seq<Gate>, kept: seq<Ready>)
    requires AllConditions(kept)
    ensures var ready, execs := SpecTier(r, gates, kept).ready, Map(Filter(gates, OfTier(r.name)), Writer());
      && Map(Filter(ready, IsTyped), TypeOf) == Filter(r.ready, IsReadyKind)
      && ((forall t <- r.ready :: IsReadyKind(t)) ==> Filter(ready, IsExec) == execs && Filter(ready, IsCondition) == kept)
  {
    hide Filter, ExecOf, S.Parse, Join, Trim;
    var plain, execs := Map(r.ready, Plainer()), Map(Filter(gates, OfTier(r.name)), Writer());
    FilterThree(plain, execs, kept, IsTyped);
    FilterThree(plain, execs, kept, IsExec);
    FilterThree(plain, execs, kept, IsCondition);
    FilterNone(execs, IsTyped);
    FilterNone(kept, IsTyped);
    FilterAll(execs, IsExec);
    FilterNone(kept, IsExec);
    FilterNone(execs, IsCondition);
    FilterAll(kept, IsCondition);
    PlainChecks(r.ready);
    assert Filter(plain, IsTyped) + [] + [] == Filter(plain, IsTyped);
    assert [] + execs + [] == execs;
    assert [] + [] + kept == kept;
  }

  lemma FilterKeepsAll(types: seq<CheckType>)
    ensures Filter(types, IsReadyKind) == types <==> forall t <- types :: IsReadyKind(t)
  {
    FilterIn(types, IsReadyKind);
    if forall t <- types :: IsReadyKind(t) {
      assert forall i | 0 <= i < |types| :: types[i] in types;
      FilterAll(types, IsReadyKind);
    }
  }

  lemma RowRoundTrip(r: Row, gates: seq<Gate>, kept: seq<Ready>)
    requires Named(r) && AllConditions(kept)
    ensures RowOf(SpecTier(r, gates, kept)) == r <==> CanonicalRow(r)
  {
    TrimIsTrimmed(r.name);
    LabelsRoundTrip(r.labels);
    WrittenChecks(r, gates, kept);
    FilterKeepsAll(r.ready);
  }

  lemma {:induction false} FilterSameLength<T>(xs: seq<T>, p: T -> bool)
    ensures |Filter(xs, p)| == |xs| <==> forall i | 0 <= i < |xs| :: p(xs[i])
  {
    FilterIn(xs, p);
    if xs != [] {
      FilterSameLength(xs[1..], p);
      FilterIn(xs[1..], p);
      assert xs == [xs[0]] + xs[1..];
      if i :| 0 <= i < |xs[1..]| && !p(xs[1..][i]) {
        assert !p(xs[i + 1]);
      }
    }
  }

  lemma SpecOfNamed(rows: seq<Row>, gates: seq<Gate>, keep: Keep)
    ensures var spec := TierEditorSpec(rows, gates, keep);
      && (|spec| == |rows| <==> forall i | 0 <= i < |rows| :: Named(rows[i]))
      && (|spec| == |rows| ==> forall i | 0 <= i < |rows| :: spec[i] == SpecTier(rows[i], gates, KeptOf(keep, rows[i].name)))
  {
    FilterSameLength(rows, Named);
    if forall i | 0 <= i < |rows| :: Named(rows[i]) {
      FilterAll(rows, Named);
    }
  }

  /** Rows come back unchanged exactly when each of them is in the form the editor itself gives a row. */
  lemma RowsRoundTrip(rows: seq<Row>, gates: seq<Gate>, keep: Keep)
    requires KeepsOnlyConditions(keep)
    ensures Rows(TierEditorSpec(rows, gates, keep)) == rows <==> forall i | 0 <= i < |rows| :: CanonicalRow(rows[i])
  {
    SpecOfNamed(rows, gates, keep);
    forall i | 0 <= i < |rows|
      ensures CanonicalRow(rows[i]) ==> Named(rows[i])
      ensures Named(rows[i]) ==>
        (RowOf(SpecTier(rows[i], gates, KeptOf(keep, rows[i].name))) == rows[i] <==> CanonicalRow(rows[i]))
    {
      TrimIsTrimmed(rows[i].name);
      if Named(rows[i]) {
        RowRoundTrip(rows[i], gates, KeptOf(keep, rows[i].name));
      }
    }
    var back := Rows(TierEditorSpec(rows, gates, keep));
    if back == rows {
      forall i | 0 <= i < |rows|
        ensures CanonicalRow(rows[i])
      {
        assert back[i] == rows[i];
      }
    }
  }

  // ---- the gates, grouped by tier ----

  function GateLists(rows: seq<Row>, gates: seq<Gate>): (r: seq<seq<Gate>>)
    ensures |r| == |rows| && forall i | 0 <= i < |rows| :: r[i] == Filter(gates, OfTier(rows[i].name))
  {
    seq(|rows|, i requires 0 <= i < |rows| => Filter(gates, OfTier(rows[i].name)))
  }

  function Grouped(rows: seq<Row>, gates: seq<Gate>): seq<Gate> {
    Flatten(GateLists(rows, gates))
  }

  lemma {:induction false} FlattenSame<T>(a: seq<seq<T>>, b: seq<seq<T>>)
    requires |a| == |b| && forall i | 0 <= i < |a| :: |a[i]| == |b[i]|
    ensures Flatten(a) == Flatten(b) <==> a == b
  {
    if a != [] {
      FlattenSame(a[1..], b[1..]);
      assert a == [a[0]] + a[1..] && b == [b[0]] + b[1..];
      if Flatten(a) == Flatten(b) {
        assert a[0] == Flatten(a)[..|a[0]|] && b[0] == Flatten(b)[..|b[0]|];
        assert Flatten(a[1..]) == Flatten(a)[|a[0]|..] && Flatten(b[1..]) == Flatten(b)[|b[0]|..];
      }
    }
  }

  lemma TierGates(r: Row, gates: seq<Gate>, kept: seq<Ready>)
    requires CanonicalRow(r) && AllConditions(kept)
    ensures var back, own := GatesOf(SpecTier(r, gates, kept)), Filter(gates, OfTier(r.name));
      |back| == |own| && (back == own <==> forall g <- own :: CanonicalGate(g))
  {
    hide ReadGate, ExecOf, CanonicalGate, Filter, PrintedLabels, Trim, S.Parse, Join;
    WrittenChecks(r, gates, kept);
    TrimIsTrimmed(r.name);
    var back, own := GatesOf(SpecTier(r, gates, kept)), Filter(gates, OfTier(r.name));
    FilterIn(gates, OfTier(r.name));
    forall i | 0 <= i < |own|
      ensures back[i] == ReadGate(own[i].tier, ExecOf(own[i]))
      ensures back[i] == own[i] <==> CanonicalGate(own[i])
    {
      assert own[i] in own;
      GateRoundTrip(own[i]);
    }
    if back == own {
      forall g | g in own
        ensures CanonicalGate(g)
      {
        var i :| 0 <= i < |own| && own[i] == g;
        assert back[i] == own[i];
      }
    }
  }

  /**
   * Gates come back grouped by tier, in the order of the rows, exactly when
   * every gate of a row has the form the editor shows.
   */
  lemma GatesRoundTrip(rows: seq<Row>, gates: seq<Gate>, keep: Keep)
    requires KeepsOnlyConditions(keep)
    requires forall i | 0 <= i < |rows| :: CanonicalRow(rows[i])
    ensures Gates(TierEditorSpec(rows, gates, keep)) == Grouped(rows, gates)
      <==> forall g <- gates :: (exists r <- rows :: r.name == g.tier) ==> CanonicalGate(g)
  {
    hide SpecTier, GatesOf, CanonicalGate, Trim, Flatten, Filter;
    var tiers := TierEditorSpec(rows, gates, keep);
    SpecOfNamed(rows, gates, keep);
    forall i | 0 <= i < |rows|
      ensures Named(rows[i])
    {
      TrimIsTrimmed(rows[i].name);
    }
    var back, own := Map(tiers, GatesOfTier()), GateLists(rows, gates);
    forall i | 0 <= i < |rows|
      ensures |back[i]| == |own[i]|
      ensures back[i] == own[i] <==> forall g <- own[i] :: CanonicalGate(g)
      ensures forall g :: g in own[i] <==> g in gates && g.tier == rows[i].name
    {
      TierGates(rows[i], gates, KeptOf(keep, rows[i].name));
      FilterIn(gates, OfTier(rows[i].name));
    }
    FlattenSame(back, own);
    if back == own {
      forall g, r | g in gates && r in rows && r.name == g.tier
        ensures CanonicalGate(g)
      {
        var i :| 0 <= i < |rows| && rows[i] == r;
        assert g in own[i];
      }
    } else {
      var i :| 0 <= i < |rows| && back[i] != own[i];
      var g :| g in own[i] && !CanonicalGate(g);
      assert rows[i] in rows;
    }
  }

  predicate DistinctNames(rows: seq<Row>) {
    forall i, j | 0 <= i < j < |rows| :: rows[i].name != rows[j].name
  }

  /** With distinct tier names, grouping loses no gate and repeats none. */
  lemma {:induction false} GroupedKeepsGates(rows: seq<Row>, gates: seq<Gate>)
    requires DistinctNames(rows)
    requires forall g <- gates :: exists r <- rows :: r.name == g.tier
    ensures multiset(Grouped(rows, gates)) == multiset(gates)
  {
    assert gates != [] ==> gates[0] in gates;
    if rows != [] {
      hide Filter, Flatten;
      var own := OfTier(rows[0].name);
      var others := (g: Gate) => g.tier != rows[0].name;
      var rest := Filter(gates, others);
      FilterSplits(gates, own, others);
      FilterIn(gates, others);
      assert rows == [rows[0]] + rows[1..];
      GroupedKeepsGates(rows[1..], rest);
      forall i | 1 <= i < |rows|
        ensures Filter(rest, OfTier(rows[i].name)) == Filter(gates, OfTier(rows[i].name))
      {
        FilterFilter(gates, others, OfTier(rows[i].name));
      }
      assert GateLists(rows, gates) == [Filter(gates, own)] + GateLists(rows[1..], rest);
      FlattenStep(Filter(gates, own), GateLists(rows[1..], rest));
    }
  }

  // ---- spec -> rows -> spec ----

  function KeepOf(tiers: seq<Tier>): Keep {
    map t | t in tiers && Conditions(tiers, t.name) != [] :: t.name := Conditions(tiers, t.name)
  }

  /** What the editor keeps on opening a spec is this map and no other. */
  lemma KeepIs(tiers: seq<Tier>, keep: Keep)
    requires KeepsConditions(keep, tiers)
    ensures keep == KeepOf(tiers)
  {
    hide Conditions;
    forall name
      ensures name in keep <==> name in KeepOf(tiers)
    {
      assert KeptOf(keep, name) == Conditions(tiers, name);
      if forall t <- tiers :: t.name != name {
        NoConditions(tiers, name);
      }
    }
  }

  /** A spec opened in the editor and written back unedited. */
  function Renew(tiers: seq<Tier>): seq<Tier> {
    TierEditorSpec(Rows(tiers), Gates(tiers), KeepOf(tiers))
  }

  /** What that does to one tier. */
  function NormTier(t: Tier): Tier {
    SpecTier(RowOf(t), GatesOf(t), Filter(t.ready, IsCondition))
  }

  function Normer(): Tier -> Tier { (t: Tier) => NormTier(t) }
  predicate HasName(t: Tier) { Trim(t.name) != "" }

  predicate DistinctTiers(tiers: seq<Tier>) {
    forall i, j | 0 <= i < j < |tiers| :: tiers[i].name != tiers[j].name
  }

  lemma {:induction false} NoConditions(tiers: seq<Tier>, name: string)
    requires forall t <- tiers :: t.name != name
    ensures Conditions(tiers, name) == []
    ensures Filter(Gates(tiers), OfTier(name)) == []
  {
    if tiers != [] {
      assert tiers[0] in tiers;
      NoConditions(tiers[1..], name);
      GatesStep(tiers);
      FilterConcat(GatesOf(tiers[0]), Gates(tiers[1..]), OfTier(name));
      FilterNone(GatesOf(tiers[0]), OfTier(name));
    }
  }

  lemma GatesStep(tiers: seq<Tier>)
    requires tiers != []
    ensures Gates(tiers) == GatesOf(tiers[0]) + Gates(tiers[1..])
  {
    assert Map(tiers, GatesOfTier())[1..] == Map(tiers[1..], GatesOfTier());
  }

  lemma {:induction false} OwnChecks(tiers: seq<Tier>, i: nat)
    requires DistinctTiers(tiers) && i < |tiers|
    ensures Conditions(tiers, tiers[i].name) == Filter(tiers[i].ready, IsCondition)
    ensures Filter(Gates(tiers), OfTier(tiers[i].name)) == GatesOf(tiers[i])
  {
    hide ReadGate, Gates, Filter;
    var name := tiers[i].name;
    GatesStep(tiers);
    FilterConcat(GatesOf(tiers[0]), Gates(tiers[1..]), OfTier(name));
    if i == 0 {
      NoConditions(tiers[1..], name);
      FilterAll(GatesOf(tiers[0]), OfTier(name));
    } else {
      OwnChecks(tiers[1..], i - 1);
      FilterNone(GatesOf(tiers[0]), OfTier(name));
    }
  }

  lemma {:induction false} NamedRows(tiers: seq<Tier>)
    ensures Filter(Rows(tiers), Named) == Rows(Filter(tiers, HasName))
  {
    hide Chips, Trim;
    if tiers != [] {
      assert Rows(tiers)[1..] == Rows(tiers[1..]) && Rows(tiers)[0].name == tiers[0].name;
      NamedRows(tiers[1..]);
      var rest := Filter(tiers[1..], HasName);
      assert Rows([tiers[0]] + rest) == [RowOf(tiers[0])] + Rows(rest);
    }
  }

  /** With distinct names the editor works tier by tier: it drops the nameless and normalises the rest. */
  lemma RenewTierwise(tiers: seq<Tier>)
    requires DistinctTiers(tiers)
    ensures Renew(tiers) == Map(Filter(tiers, HasName), Normer())
  {
    hide Chips, ReadGate, ExecOf, S.Parse, Join, Trim, Filter, Conditions, Gates, Rows;
    NamedRows(tiers);
    var named := Filter(tiers, HasName);
    FilterIn(tiers, HasName);
    forall i | 0 <= i < |named|
      ensures Renew(tiers)[i] == NormTier(named[i])
    {
      var t := named[i];
      assert t in named;
      var k :| 0 <= k < |tiers| && tiers[k] == t;
      OwnChecks(tiers, k);
      FilterAll(GatesOf(t), OfTier(t.name));
    }
  }

  // ---- one tier ----

  /** An exec check read into a gate and written back. */
  function NormExec(r: Ready): (n: Ready)
    ensures n.check.Exec?
  {
    ExecOf(ReadGate("", r))
  }

  function ExecNormer(): Ready -> Ready { (r: Ready) => NormExec(r) }

  predicate CanonicalExec(r: Ready) {
    && IsExec(r) && r.detail == "" && r.timeout != Some(0)
    && S.CleanLabels(r.selector) && CanonicalCommand(r.command)
  }

  lemma PodRoundTrip(m: S.Labels)
    ensures PodLabels(PodText(m)) == m <==> S.CleanLabels(m)
    ensures S.CleanLabels(PodLabels(PodText(m)))
  {
    S.ParsedIsWellFormed(PodText(m), false);
    if S.CleanLabels(m) {
      S.PairsRoundTrip(m, false);
    }
  }

  lemma NormExecFields(tier: string, r: Ready)
    ensures ExecOf(ReadGate(tier, r)) == Ready(Exec, PodLabels(PodText(r.selector)), NormCommand(r.command), SomeSeconds(r.timeout), "")
  {
    hide PodLabels, PodText, Split, Join, Fields, HttpTarget, IsTcp, IsHttp;
  }

  lemma ExecRoundTrip(r: Ready)
    ensures NormExec(r) == r <==> CanonicalExec(r)
    ensures NormExec(NormExec(r)) == NormExec(r) <==> StableCommand(r.command)
  {
    hide PodLabels, PodText, NormCommand, StableCommand, CanonicalCommand, S.CleanLabels, ReadGate;
    NormExecFields("", r);
    NormExecFields("", NormExec(r));
    PodRoundTrip(r.selector);
    PodRoundTrip(PodLabels(PodText(r.selector)));
    CommandRoundTrip(r.command);
    CommandStability(r.command);
  }

  /** A tier's checks after one pass: typed ones, then exec checks, then conditions. */
  function NormReady(rs: seq<Ready>): seq<Ready> {
    Map(Map(Filter(rs, IsTyped), TypeOf), Plainer()) + Map(Filter(rs, IsExec), ExecNormer()) + Filter(rs, IsCondition)
  }

  lemma NormTierFields(t: Tier)
    ensures NormTier(t).name == Trim(t.name)
    ensures NormTier(t).resourceTypes == t.resourceTypes
    ensures NormTier(t).ready == NormReady(t.ready)
  {
    FilterAll(GatesOf(t), OfTier(t.name));
    ReadWrite(t.name, Filter(t.ready, IsExec));
  }

  lemma ReadWrite(tier: string, execs: seq<Ready>)
    ensures Map(Map(execs, Reader(tier)), Writer()) == Map(execs, ExecNormer())
  {
    hide ExecOf, ReadGate;
    forall i | 0 <= i < |execs|
      ensures ExecOf(ReadGate(tier, execs[i])) == NormExec(execs[i])
    {
      NormExecFields(tier, execs[i]);
      NormExecFields("", execs[i]);
    }
  }

  lemma NormReadyParts(rs: seq<Ready>)
    ensures var n := NormReady(rs);
      && Map(Filter(n, IsTyped), TypeOf) == Map(Filter(rs, IsTyped), TypeOf)
      && Filter(n, IsExec) == Map(Filter(rs, IsExec), ExecNormer())
      && Filter(n, IsCondition) == Filter(rs, IsCondition)
  {
    hide NormExec, ExecOf;
    var typed := Map(Filter(rs, IsTyped), TypeOf);
    var plain, execs, conds := Map(typed, Plainer()), Map(Filter(rs, IsExec), ExecNormer()), Filter(rs, IsCondition);
    CheckKinds(rs);
    forall i | 0 <= i < |plain|
      ensures IsTyped(plain[i]) && !IsExec(plain[i]) && !IsCondition(plain[i])
    {
      assert IsTyped(Filter(rs, IsTyped)[i]) && plain[i] == Plain(typed[i]);
    }
    forall i | 0 <= i < |conds|
      ensures !IsTyped(conds[i]) && !IsExec(conds[i]) && IsCondition(conds[i])
    {
      assert IsCondition(Filter(rs, IsCondition)[i]);
    }
    FilterParts(plain, execs, conds, IsTyped, IsExec, IsCondition);
    assert Map(plain, TypeOf) == typed;
  }

  lemma CheckKinds(rs: seq<Ready>)
    ensures var f := Filter(rs, IsTyped); forall i | 0 <= i < |f| :: IsTyped(f[i])
    ensures var f := Filter(rs, IsExec); forall i | 0 <= i < |f| :: IsExec(f[i])
    ensures var f := Filter(rs, IsCondition); forall i | 0 <= i < |f| :: IsCondition(f[i])
  {
    hide Filter;
    FilterIn(rs, IsTyped);
    FilterIn(rs, IsExec);
    FilterIn(rs, IsCondition);
    var a, b, c := Filter(rs, IsTyped), Filter(rs, IsExec), Filter(rs, IsCondition);
    assert forall i | 0 <= i < |a| :: a[i] in a;
    assert forall i | 0 <= i < |b| :: b[i] in b;
    assert forall i | 0 <= i < |c| :: c[i] in c;
  }

  predicate StableChecks(rs: seq<Ready>) {
    forall r <- rs :: IsExec(r) ==> StableCommand(r.command)
  }

  lemma ExecsStability(execs: seq<Ready>)
    requires forall i | 0 <= i < |execs| :: IsExec(execs[i])
    ensures var once := Map(execs, ExecNormer()); Map(once, ExecNormer()) == once <==> StableChecks(execs)
  {
    var once := Map(execs, ExecNormer());
    var twice := Map(once, ExecNormer());
    forall i | 0 <= i < |execs|
      ensures twice[i] == once[i] <==> StableCommand(execs[i].command)
    {
      ExecRoundTrip(execs[i]);
    }
    if twice == once {
      forall r | r in execs
        ensures StableCommand(r.command)
      {
        var i :| 0 <= i < |execs| && execs[i] == r;
        assert twice[i] == once[i];
      }
    } else {
      var i :| 0 <= i < |execs| && twice[i] != once[i];
      assert execs[i] in execs;
    }
  }

  lemma NormReadyStability(rs: seq<Ready>)
    ensures NormReady(NormReady(rs)) == NormReady(rs) <==> StableChecks(rs)
  {
    var n, execs := NormReady(rs), Filter(rs, IsExec);
    NormReadyParts(rs);
    FilterIn(rs, IsExec);
    assert forall i | 0 <= i < |execs| :: execs[i] in execs;
    ExecsStability(execs);
    var plain, conds := Map(Map(Filter(rs, IsTyped), TypeOf), Plainer()), Filter(rs, IsCondition);
    var once := Map(execs, ExecNormer());
    var twice := Map(once, ExecNormer());
    assert n == plain + once + conds && NormReady(n) == plain + twice + conds;
    assert once == n[|plain|..|plain| + |once|];
    assert twice == NormReady(n)[|plain|..|plain| + |twice|];
  }

  lemma NormTierSelector(t: Tier)
    ensures S.WellFormed(NormTier(t).selector)
    ensures S.WellFormed(t.selector) ==> NormTier(t).selector == t.selector
  {
    LabelsRoundTrip(Chips(t.selector));
    if S.WellFormed(t.selector) {
      ChipsAreTexts(t.selector);
    }
  }

  /** Normalising a tier twice is normalising it once exactly when its exec commands settle in one pass. */
  lemma NormTierStability(t: Tier)
    ensures NormTier(NormTier(t)) == NormTier(t) <==> StableChecks(t.ready)
  {
    var n := NormTier(t);
    NormTierFields(t);
    NormTierFields(n);
    NormReadyStability(t.ready);
    NormTierSelector(t);
    NormTierSelector(n);
    TrimShape(t.name);
    TrimTrimmed(Trim(t.name));
  }

  predicate DistinctTrimmed(tiers: seq<Tier>) {
    forall i, j | 0 <= i < j < |tiers| :: Trim(tiers[i].name) != Trim(tiers[j].name)
  }

  lemma NormNamed(named: seq<Tier>)
    requires forall i | 0 <= i < |named| :: HasName(named[i])
    ensures var once := Map(named, Normer());
      && (forall i | 0 <= i < |named| :: once[i].name == Trim(named[i].name) && HasName(once[i]))
      && (Map(once, Normer()) == once <==> forall t <- named :: StableChecks(t.ready))
  {
    var once := Map(named, Normer());
    var twice := Map(once, Normer());
    forall i | 0 <= i < |named|
      ensures once[i].name == Trim(named[i].name) && HasName(once[i])
      ensures twice[i] == once[i] <==> StableChecks(named[i].ready)
    {
      TrimShape(named[i].name);
      TrimTrimmed(Trim(named[i].name));
      NormTierFields(named[i]);
      NormTierStability(named[i]);
    }
    if twice == once {
      forall t | t in named
        ensures StableChecks(t.ready)
      {
        var i :| 0 <= i < |named| && named[i] == t;
        assert twice[i] == once[i];
      }
    } else {
      var i :| 0 <= i < |named| && twice[i] != once[i];
      assert named[i] in named;
    }
  }

  /**
   * The editor is an idempotent normaliser of specs with distinct tier names
   * exactly where every exec command of a named tier settles in one pass.
   */
  lemma RenewIsIdempotent(tiers: seq<Tier>)
    requires DistinctTrimmed(tiers)
    ensures Renew(Renew(tiers)) == Renew(tiers) <==> forall t <- tiers :: HasName(t) ==> StableChecks(t.ready)
  {
    DistinctFiltered(tiers);
    RenewTierwise(tiers);
    var named := Filter(tiers, HasName);
    FilterIn(tiers, HasName);
    assert forall i | 0 <= i < |named| :: named[i] in named;
    NormNamed(named);
    var once := Map(named, Normer());
    RenewTierwise(once);
    FilterAll(once, HasName);
  }

  lemma {:induction false} DistinctFiltered(tiers: seq<Tier>)
    requires DistinctTrimmed(tiers)
    ensures DistinctTrimmed(Filter(tiers, HasName))
    ensures DistinctTiers(tiers)
  {
    if tiers != [] {
      DistinctFiltered(tiers[1..]);
      FilterIn(tiers[1..], HasName);
      var rest := Filter(tiers[1..], HasName);
      forall j | 0 <= j < |rest|
        ensures Trim(rest[j].name) != Trim(tiers[0].name)
      {
        assert rest[j] in rest;
        var k :| 0 <= k < |tiers[1..]| && tiers[1..][k] == rest[j];
        assert tiers[k + 1] == rest[j];
      }
    }
  }

  // ---- the specs the editor leaves alone ----

  /** Plain typed checks first, then canonical exec checks, then conditions. */
  ghost predicate InOrder(rs: seq<Ready>, k: nat, l: nat) {
    && k <= l <= |rs|
    && (forall i | 0 <= i < k :: IsTyped(rs[i]) && rs[i] == Plain(rs[i].check))
    && (forall i | k <= i < l :: CanonicalExec(rs[i]))
    && (forall i | l <= i < |rs| :: IsCondition(rs[i]))
  }

  ghost predicate CanonicalTier(t: Tier) {
    && Trimmed(t.name)
    && S.WellFormed(t.selector)
    && exists k, l :: InOrder(t.ready, k, l)
  }

  /** Three stretches of three kinds of checks. */
  lemma KindStretches(rs: seq<Ready>, k: nat, l: nat)
    requires k <= l <= |rs|
    requires forall i | 0 <= i < |rs| :: if i < k then IsTyped(rs[i]) else if i < l then IsExec(rs[i]) else IsCondition(rs[i])
    ensures Filter(rs, IsTyped) == rs[..k] && Filter(rs, IsExec) == rs[k..l] && Filter(rs, IsCondition) == rs[l..]
  {
    hide Filter;
    var a, b, c := rs[..k], rs[k..l], rs[l..];
    assert rs == a + b + c;
    FilterParts(a, b, c, IsTyped, IsExec, IsCondition);
  }

  lemma OrderedKinds(rs: seq<Ready>, k: nat, l: nat)
    requires InOrder(rs, k, l)
    ensures Filter(rs, IsTyped) == rs[..k] && Filter(rs, IsExec) == rs[k..l] && Filter(rs, IsCondition) == rs[l..]
  {
    hide Filter, IsTyped, IsExec, IsCondition, CanonicalCommand, S.CleanLabels, Plain;
    forall i | 0 <= i < |rs|
      ensures if i < k then IsTyped(rs[i]) else if i < l then IsExec(rs[i]) else IsCondition(rs[i])
    {
      if k <= i < l {
        assert CanonicalExec(rs[i]);
      }
    }
    KindStretches(rs, k, l);
  }

  lemma ReadyInOrder(rs: seq<Ready>, k: nat, l: nat)
    requires InOrder(rs, k, l)
    ensures NormReady(rs) == rs
  {
    hide NormExec, Filter, CanonicalExec, IsTyped, IsExec, IsCondition;
    OrderedKinds(rs, k, l);
    var a, b := rs[..k], rs[k..l];
    forall i | 0 <= i < |b|
      ensures Map(b, ExecNormer())[i] == b[i]
    {
      ExecRoundTrip(b[i]);
      assert CanonicalExec(rs[k + i]);
    }
    assert Map(b, ExecNormer()) == b;
    assert Map(Map(a, TypeOf), Plainer()) == a;
    assert rs == a + b + rs[l..];
  }

  lemma ReadyStays(rs: seq<Ready>)
    requires NormReady(rs) == rs
    ensures exists k, l :: InOrder(rs, k, l)
  {
    CheckKinds(rs);
    NormReadyParts(rs);
    var typed, execs, conds := Filter(rs, IsTyped), Filter(rs, IsExec), Filter(rs, IsCondition);
    StaysInOrder(rs, Map(Map(typed, TypeOf), Plainer()), execs, conds);
  }

  lemma StaysInOrder(rs: seq<Ready>, plain: seq<Ready>, execs: seq<Ready>, conds: seq<Ready>)
    requires rs == plain + execs + conds
    requires forall i | 0 <= i < |plain| :: IsTyped(plain[i]) && plain[i] == Plain(plain[i].check)
    requires execs == Map(execs, ExecNormer())
    requires forall i | 0 <= i < |conds| :: IsCondition(conds[i])
    ensures exists k, l :: InOrder(rs, k, l)
  {
    hide NormExec, CanonicalExec, IsTyped, IsExec, IsCondition;
    var k, l := |plain|, |plain| + |execs|;
    forall i | k <= i < l
      ensures CanonicalExec(rs[i])
    {
      var e := execs[i - k];
      assert Map(execs, ExecNormer())[i - k] == NormExec(e);
      ExecRoundTrip(e);
      assert rs[i] == e;
    }
    forall i | 0 <= i < k
      ensures IsTyped(rs[i]) && rs[i] == Plain(rs[i].check)
    {
      assert rs[i] == plain[i];
    }
    forall i | l <= i < |rs|
      ensures IsCondition(rs[i])
    {
      assert rs[i] == conds[i - l];
    }
    assert InOrder(rs, k, l);
  }

  /** The editor writes a tier back unchanged exactly when the tier is canonical. */
  lemma TierRoundTrip(t: Tier)
    ensures NormTier(t) == t <==> CanonicalTier(t)
  {
    NormTierFields(t);
    NormTierSelector(t);
    TrimIsTrimmed(t.name);
    if CanonicalTier(t) {
      var k, l :| InOrder(t.ready, k, l);
      ReadyInOrder(t.ready, k, l);
    }
    if NormTier(t) == t {
      ReadyStays(t.ready);
    }
  }

  /** With distinct names, the conditions kept for a row come back under its name. */
  lemma KeptRoundTrip(rows: seq<Row>, gates: seq<Gate>, keep: Keep, i: nat)
    requires KeepsOnlyConditions(keep) && DistinctNames(rows) && i < |rows|
    requires forall j | 0 <= j < |rows| :: CanonicalRow(rows[j])
    ensures Conditions(TierEditorSpec(rows, gates, keep), rows[i].name) == KeptOf(keep, rows[i].name)
  {
    hide Filter, Conditions, Gates, GatesOf, S.Parse, Join, Trim, ExecOf;
    SpecOfNamed(rows, gates, keep);
    forall j | 0 <= j < |rows|
      ensures Trim(rows[j].name) == rows[j].name
    {
      TrimIsTrimmed(rows[j].name);
    }
    var tiers := TierEditorSpec(rows, gates, keep);
    assert tiers[i].name == rows[i].name;
    OwnChecks(tiers, i);
    WrittenChecks(rows[i], gates, KeptOf(keep, rows[i].name));
  }

  // ---- where the editor changes what a gate does ----

  /** A TCP check of a host with a colon loses a piece of the host at every pass. */
  lemma ColonHostExample()
    ensures var once := NormCommand(["nc", "db:x", "5432"]);
      once == NC + ["db", "x", "5432"] && NormCommand(once) == NC + ["x", "5432"]
  {
    hide NormCommand, CanonicalCommand, Split;
    assert Split("db:x", ':') == ["db", "x"] by {
      SplitConcat("db", "x", ':');
      SplitWhole("db", ':');
      SplitWhole("x", ':');
      assert "db" + ":" + "x" == "db:x";
    }
    SplitWhole("x", ':');
    assert Numeral("5432");
    var c := ["nc", "db:x", "5432"];
    TcpRoundTrip(c);
    var once := ["nc", "-z", "-w", "3", "db", "x", "5432"];
    assert NC + ["db", "x"] + ["5432"] == once;
    TcpRoundTrip(once);
    assert NC + ["x"] + ["5432"] == NC + ["x", "5432"];
  }

  /** An HTTPS check is written back as a plain HTTP one. */
  lemma HttpsBecomesHttp(cmd: seq<string>, target: string)
    requires cmd != [] && cmd[0] == "wget" && Last(cmd) == "https://" + target
    ensures exists t :: NormCommand(cmd) == WGET + [SCHEME + t + "/"] && (t == target || t + "/" == target)
    ensures NormCommand(cmd) != cmd
  {
    var url := Last(cmd);
    assert url[..8] == "https://" && url[8..] == target && url[4] == 's';
    assert IsHttp(cmd) && !IsTcp(cmd);
    var t := HttpTarget(url);
    assert EndsWith(target, "/") ==> target == target[..|target| - 1] + "/";
    assert NormCommand(cmd) == WGET + [SCHEME + t + "/"];
    assert Last(NormCommand(cmd))[4] == ':';
  }
}
