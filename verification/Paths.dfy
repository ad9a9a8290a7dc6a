/** DR paths: the ordered site pairs proposed for a plan, and the check a declared path must pass. */
module Paths {
  import opened Text
  import opened Seqs

  datatype PlanSite = PlanSite(name: string, cluster: string)
  datatype Plan = Plan(name: string, sites: seq<PlanSite>, methods: seq<string>)
  datatype Path = Path(name: string, plan: string, from: string, to: string)

  /** The isolated NAD each cluster reports, "" for none. */
  type Isolated = string -> string

  datatype Action = Failover | Relocate | Test
  datatype Proposal = Proposal(from: string, to: string, name: string, sync: bool, how: Option<string>,
                               actions: seq<Action>, nad: string, declared: Option<string>)

  function PathName(from: string, to: string): string {
    Cut(from + "-to-" + to, 63)
  }

  function FindMethod(methods: seq<string>, sync: bool): Option<string> {
    if methods == [] then None
    else if sync == ("sync" <= methods[0]) then Some(methods[0])
    else FindMethod(methods[1..], sync)
  }

  function FindPath(paths: seq<Path>, plan: string, from: string, to: string): Option<Path> {
    if paths == [] then None
    else if paths[0].plan == plan && paths[0].from == from && paths[0].to == to then Some(paths[0])
    else FindPath(paths[1..], plan, from, to)
  }

  function Propose(plan: Plan, isolated: Isolated, paths: seq<Path>, a: PlanSite, b: PlanSite): Proposal {
    var sync := a.cluster == b.cluster;
    var found := FindMethod(plan.methods, sync);
    var nad := isolated(b.cluster);
    var path := FindPath(paths, plan.name, a.name, b.name);
    Proposal(a.name, b.name, PathName(a.name, b.name), sync,
             if found.Some? then found else if plan.methods != [] then Some(plan.methods[0]) else None,
             if !sync && nad != "" then [Failover, Relocate, Test] else [Failover, Relocate],
             nad, if path.Some? then Some(path.value.name) else None)
  }

  /** The proposals from site a to the listed ones. */
  function RowFrom(plan: Plan, isolated: Isolated, paths: seq<Path>, a: PlanSite, targets: seq<PlanSite>): seq<Proposal> {
    if targets == [] then []
    else
      (if a.name == targets[0].name then [] else [Propose(plan, isolated, paths, a, targets[0])])
      + RowFrom(plan, isolated, paths, a, targets[1..])
  }

  function Rows(plan: Plan, isolated: Isolated, paths: seq<Path>, sources: seq<PlanSite>): seq<Proposal> {
    if sources == [] then []
    else RowFrom(plan, isolated, paths, sources[0], plan.sites) + Rows(plan, isolated, paths, sources[1..])
  }

  method ProposePaths(plan: Plan, isolated: Isolated, paths: seq<Path>) returns (out: seq<Proposal>)
    ensures out == Rows(plan, isolated, paths, plan.sites)
  {
    hide Propose;
    out := [];
    for i := 0 to |plan.sites|
      invariant out + Rows(plan, isolated, paths, plan.sites[i..]) == Rows(plan, isolated, paths, plan.sites)
    {
      assert plan.sites[i..][1..] == plan.sites[i + 1..];
      var row := ProposeFrom(plan, isolated, paths, plan.sites[i]);
      out := out + row;
    }
  }

  method ProposeFrom(plan: Plan, isolated: Isolated, paths: seq<Path>, a: PlanSite) returns (out: seq<Proposal>)
    ensures out == RowFrom(plan, isolated, paths, a, plan.sites)
  {
    hide Propose;
    out := [];
    for j := 0 to |plan.sites|
      invariant out + RowFrom(plan, isolated, paths, a, plan.sites[j..]) == RowFrom(plan, isolated, paths, a, plan.sites)
    {
      var b := plan.sites[j];
      assert plan.sites[j..][1..] == plan.sites[j + 1..];
      if a.name != b.name {
        out := out + [Propose(plan, isolated, paths, a, b)];
      }
    }
  }

  // ---- what is listed ----

  predicate DistinctSites(sites: seq<PlanSite>) {
    forall i, j | 0 <= i < j < |sites| :: sites[i].name != sites[j].name
  }

  predicate ProposedFrom(plan: Plan, isolated: Isolated, paths: seq<Path>, a: PlanSite, targets: seq<PlanSite>, p: Proposal) {
    exists b <- targets :: a.name != b.name && p == Propose(plan, isolated, paths, a, b)
  }

  lemma {:induction false} RowMembers(plan: Plan, isolated: Isolated, paths: seq<Path>, a: PlanSite, targets: seq<PlanSite>)
    ensures forall p :: p in RowFrom(plan, isolated, paths, a, targets) <==> ProposedFrom(plan, isolated, paths, a, targets, p)
  {
    hide Propose;
    if targets != [] {
      RowMembers(plan, isolated, paths, a, targets[1..]);
      assert targets == [targets[0]] + targets[1..];
      forall p
        ensures ProposedFrom(plan, isolated, paths, a, targets, p)
          <==> (a.name != targets[0].name && p == Propose(plan, isolated, paths, a, targets[0]))
               || ProposedFrom(plan, isolated, paths, a, targets[1..], p)
      {
      }
    }
  }

  predicate IsNameOf(sites: seq<PlanSite>, name: string) {
    exists s <- sites :: s.name == name
  }

  lemma NameStep(s: PlanSite, sites: seq<PlanSite>, name: string)
    ensures IsNameOf([s] + sites, name) <==> s.name == name || IsNameOf(sites, name)
  {
    assert s in [s] + sites;
  }

  lemma {:induction false} RowTargets(plan: Plan, isolated: Isolated, paths: seq<Path>, a: PlanSite, targets: seq<PlanSite>)
    requires DistinctSites(targets)
    ensures var row := RowFrom(plan, isolated, paths, a, targets);
      && (forall i | 0 <= i < |row| :: row[i].from == a.name && IsNameOf(targets, row[i].to))
      && (forall i, j | 0 <= i < j < |row| :: row[i].to != row[j].to)
      && |row| == |targets| - (if IsNameOf(targets, a.name) then 1 else 0)
  {
    hide Propose, IsNameOf;
    if targets == [] {
      assert !IsNameOf([], a.name) by {
        NoNames(a.name);
      }
    } else {
      var b, rest := targets[0], RowFrom(plan, isolated, paths, a, targets[1..]);
      assert targets == [b] + targets[1..];
      RowTargets(plan, isolated, paths, a, targets[1..]);
      PairOf(plan, isolated, paths, a, b);
      OnceNamed(targets);
      NameStep(b, targets[1..], a.name);
      NamedIn(targets, b);
      forall i | 0 <= i < |rest|
        ensures IsNameOf(targets, rest[i].to) && rest[i].to != b.name
      {
        NameStep(b, targets[1..], rest[i].to);
      }
    }
  }

  lemma NamedIn(sites: seq<PlanSite>, s: PlanSite)
    requires s in sites
    ensures IsNameOf(sites, s.name)
  {
  }

  lemma NoNames(name: string)
    ensures !IsNameOf([], name)
  {
  }

  lemma OnceNamed(sites: seq<PlanSite>)
    requires sites != [] && DistinctSites(sites)
    ensures !IsNameOf(sites[1..], sites[0].name)
  {
    forall c | c in sites[1..]
      ensures c.name != sites[0].name
    {
      var k :| 0 <= k < |sites| - 1 && sites[1..][k] == c;
      assert sites[k + 1] == c;
    }
  }

  predicate ProposedPair(plan: Plan, isolated: Isolated, paths: seq<Path>, sources: seq<PlanSite>, p: Proposal) {
    exists a <- sources :: ProposedFrom(plan, isolated, paths, a, plan.sites, p)
  }

  lemma {:induction false} RowsMembers(plan: Plan, isolated: Isolated, paths: seq<Path>, sources: seq<PlanSite>)
    ensures forall p :: p in Rows(plan, isolated, paths, sources) <==> ProposedPair(plan, isolated, paths, sources, p)
  {
    hide RowFrom, ProposedFrom;
    if sources != [] {
      RowMembers(plan, isolated, paths, sources[0], plan.sites);
      RowsMembers(plan, isolated, paths, sources[1..]);
      assert sources == [sources[0]] + sources[1..];
    }
  }

  lemma {:induction false} RowsPairs(plan: Plan, isolated: Isolated, paths: seq<Path>, sources: seq<PlanSite>)
    requires DistinctSites(plan.sites) && DistinctSites(sources) && forall a <- sources :: a in plan.sites
    ensures var rows := Rows(plan, isolated, paths, sources);
      && (forall i | 0 <= i < |rows| :: IsNameOf(sources, rows[i].from))
      && (forall i, j | 0 <= i < j < |rows| :: (rows[i].from, rows[i].to) != (rows[j].from, rows[j].to))
      && |rows| == |sources| * (|plan.sites| - 1)
  {
    hide RowFrom, Propose, IsNameOf;
    if sources != [] {
      var a := sources[0];
      var row, rest := RowFrom(plan, isolated, paths, a, plan.sites), Rows(plan, isolated, paths, sources[1..]);
      assert sources == [a] + sources[1..] && a in sources;
      assert forall c <- sources[1..] :: c in sources;
      RowTargets(plan, isolated, paths, a, plan.sites);
      RowsPairs(plan, isolated, paths, sources[1..]);
      OnceNamed(sources);
      NamedIn(plan.sites, a);
      NameStep(a, sources[1..], a.name);
      forall i | 0 <= i < |rest|
        ensures IsNameOf(sources, rest[i].from) && rest[i].from != a.name
      {
        NameStep(a, sources[1..], rest[i].from);
      }
      Times(|sources|, |plan.sites| - 1);
    }
  }

  lemma Times(n: nat, k: int)
    requires n > 0
    ensures n * k == k + (n - 1) * k
  {
  }

  predicate Declared(paths: seq<Path>, plan: string, from: string, to: string) {
    exists p <- paths :: p.plan == plan && p.from == from && p.to == to
  }

  lemma {:induction false} FindPathIs(paths: seq<Path>, plan: string, from: string, to: string)
    ensures FindPath(paths, plan, from, to).Some? <==> Declared(paths, plan, from, to)
    ensures var f := FindPath(paths, plan, from, to);
      f.Some? ==> f.value in paths && f.value.plan == plan && f.value.from == from && f.value.to == to
  {
    if paths != [] {
      FindPathIs(paths[1..], plan, from, to);
      assert paths == [paths[0]] + paths[1..];
    }
  }

  /**
   * The proposal lists every ordered pair of distinct sites of the plan once:
   * k(k-1) of them for k sites.
   */
  lemma ProposedPathsAre(plan: Plan, isolated: Isolated, paths: seq<Path>)
    requires DistinctSites(plan.sites)
    ensures var rows := Rows(plan, isolated, paths, plan.sites);
      && |rows| == |plan.sites| * (|plan.sites| - 1)
      && (forall i, j | 0 <= i < j < |rows| :: (rows[i].from, rows[i].to) != (rows[j].from, rows[j].to))
      && (forall a <- plan.sites, b <- plan.sites :: Lists(rows, a.name, b.name) <==> a.name != b.name)
  {
    hide Propose, Rows;
    RowsMembers(plan, isolated, paths, plan.sites);
    RowsPairs(plan, isolated, paths, plan.sites);
    var rows := Rows(plan, isolated, paths, plan.sites);
    forall a, b | a in plan.sites && b in plan.sites
      ensures Lists(rows, a.name, b.name) <==> a.name != b.name
    {
      PairOf(plan, isolated, paths, a, b);
      if a.name != b.name {
        assert ProposedFrom(plan, isolated, paths, a, plan.sites, Propose(plan, isolated, paths, a, b));
        assert Propose(plan, isolated, paths, a, b) in rows;
      }
      forall p | p in rows
        ensures p.from != p.to
      {
        var x :| x in plan.sites && ProposedFrom(plan, isolated, paths, x, plan.sites, p);
        var y :| y in plan.sites && x.name != y.name && p == Propose(plan, isolated, paths, x, y);
        PairOf(plan, isolated, paths, x, y);
      }
    }
  }

  predicate Lists(rows: seq<Proposal>, from: string, to: string) {
    exists p <- rows :: p.from == from && p.to == to
  }

  lemma PairOf(plan: Plan, isolated: Isolated, paths: seq<Path>, a: PlanSite, b: PlanSite)
    ensures var p := Propose(plan, isolated, paths, a, b); p.from == a.name && p.to == b.name
  {
  }

  /** The proposal marks exactly the declared pairs, with the name of a path that declares them. */
  lemma MarksAreDeclarations(plan: Plan, isolated: Isolated, paths: seq<Path>, p: Proposal)
    requires p in Rows(plan, isolated, paths, plan.sites)
    ensures p.declared.Some? <==> Declared(paths, plan.name, p.from, p.to)
    ensures p.declared.Some? ==>
      exists q <- paths :: q.name == p.declared.value && FirstOf(paths, (x: Path) => x.plan == plan.name && x.from == p.from && x.to == p.to, q)
  {
    hide FindMethod, PathName, FindPath, Rows, FirstOf;
    RowsMembers(plan, isolated, paths, plan.sites);
    FindPathIs(paths, plan.name, p.from, p.to);
    var found := FindPath(paths, plan.name, p.from, p.to);
    if found.Some? {
      FindPathFirst(paths, plan.name, p.from, p.to, found.value);
    }
  }

  // ---- what a proposal says ----

  /** The plan's first method of the wanted kind, else its first one. */
  predicate IsMethod(methods: seq<string>, sync: bool, how: Option<string>) {
    var fits := (m: string) => ("sync" <= m) == sync;
    match how
    case None => methods == []
    case Some(m) => FirstOf(methods, fits, m) || ((forall x <- methods :: !fits(x)) && methods != [] && m == methods[0])
  }

  lemma {:induction false} FindMethodIs(methods: seq<string>, sync: bool)
    ensures match FindMethod(methods, sync)
      case Some(m) => FirstOf(methods, (x: string) => ("sync" <= x) == sync, m)
      case None => forall x <- methods :: ("sync" <= x) != sync
  {
    hide FirstOf;
    if methods != [] {
      var m, rest, fits := methods[0], methods[1..], (x: string) => ("sync" <= x) == sync;
      FindMethodIs(rest, sync);
      assert methods == [m] + rest;
      FirstOfStep(m, rest, fits, m);
      if FindMethod(rest, sync).Some? {
        FirstOfStep(m, rest, fits, FindMethod(rest, sync).value);
      }
    }
  }

  /** What is proposed from site a to site b. */
  predicate Joins(plan: Plan, isolated: Isolated, p: Proposal, a: PlanSite, b: PlanSite) {
    && p.from == a.name && p.to == b.name && a.name != b.name
    && (p.sync <==> a.cluster == b.cluster)
    && p.nad == isolated(b.cluster)
    && p.actions == [Failover, Relocate] + (if a.cluster != b.cluster && isolated(b.cluster) != "" then [Test] else [])
    && IsMethod(plan.methods, a.cluster == b.cluster, p.how)
  }

  /**
   * A proposal joins two sites of the plan: it is sync when they share a cluster, tests on the isolated NAD
   * of the target's cluster where there is one and they do not, and uses the plan's first method of its kind.
   */
  lemma ProposalJoins(plan: Plan, isolated: Isolated, paths: seq<Path>, p: Proposal)
    requires p in Rows(plan, isolated, paths, plan.sites)
    ensures exists a <- plan.sites, b <- plan.sites :: Joins(plan, isolated, p, a, b)
  {
    hide Rows, FindMethod, FindPath, PathName, FirstOf;
    RowsMembers(plan, isolated, paths, plan.sites);
    var a :| a in plan.sites && ProposedFrom(plan, isolated, paths, a, plan.sites, p);
    var b :| b in plan.sites && a.name != b.name && p == Propose(plan, isolated, paths, a, b);
    FindMethodIs(plan.methods, a.cluster == b.cluster);
    assert Joins(plan, isolated, p, a, b);
  }

  // ---- the check ----

  /** cap and recent are texts typed for a test; their formats are parameters. */
  datatype PathForm = PathForm(from: string, to: string, name: string, actions: seq<Action>, nad: string, cap: string, recent: string)
  datatype Formats = Formats(quantity: string -> bool, duration: string -> bool)

  datatype PathError = NoSource | NoTarget | SameSite | AlreadyDeclared(name: string) | BadName | NameTaken | BadNad | BadCap | BadRecent

  /** <namespace>/<name>, both DNS labels */
  predicate IsNadRef(s: string) {
    var parts := Split(s, '/');
    |parts| == 2 && IsDnsLabel(parts[0]) && IsDnsLabel(parts[1])
  }

  predicate NameUsed(paths: seq<Path>, name: string) {
    exists p <- paths :: p.name == name
  }

  function CheckPath(plan: Plan, paths: seq<Path>, v: PathForm, formats: Formats): Option<PathError> {
    if !IsNameOf(plan.sites, v.from) then Some(NoSource)
    else if !IsNameOf(plan.sites, v.to) then Some(NoTarget)
    else if v.from == v.to then Some(SameSite)
    else
      var dup := FindPath(paths, plan.name, v.from, v.to);
      if dup.Some? then Some(AlreadyDeclared(dup.value.name))
      else if |v.name| > 63 || !IsDnsLabel(v.name) then Some(BadName)
      else if NameUsed(paths, v.name) then Some(NameTaken)
      else if Test in v.actions && !IsNadRef(v.nad) then Some(BadNad)
      else if Test in v.actions && v.cap != "" && !formats.quantity(v.cap) then Some(BadCap)
      else if Test in v.actions && v.recent != "" && !formats.duration(v.recent) then Some(BadRecent)
      else None
  }

  function FormOf(p: Proposal): PathForm {
    PathForm(p.from, p.to, p.name, p.actions, p.nad, "", "")
  }

  /** The name of a path between two sites is kept whole, or at least not cut behind a dash. */
  predicate NameFits(from: string, to: string) {
    |from| + |to| <= 59 || (from + "-to-" + to)[62] != '-'
  }

  /** The name proposed for two sites whose names are DNS labels is one exactly when it is not cut, or not behind a dash. */
  lemma PathNameIsLabel(from: string, to: string)
    requires IsDnsLabel(from) && IsDnsLabel(to)
    ensures IsDnsLabel(PathName(from, to)) <==> NameFits(from, to)
  {
    var s := from + "-to-" + to;
    assert "-to-"[0] == '-' && "-to-"[1] == 't' && "-to-"[2] == 'o' && "-to-"[3] == '-';
    assert forall i | 0 <= i < |s| ::
      s[i] == (if i < |from| then from[i] else if i < |from| + 4 then "-to-"[i - |from|] else to[i - |from| - 4]);
  }

  /** From a site of 59 or of 62 characters the name is cut behind a dash of the separator whatever the target. */
  lemma CutNameExample(from: string, to: string)
    requires IsDnsLabel(from) && IsDnsLabel(to) && (|from| == 59 || |from| == 62)
    ensures |PathName(from, to)| == 63 && PathName(from, to)[62] == '-' && !IsDnsLabel(PathName(from, to))
  {
    Separator();
    NameAt(from, to, 62);
  }

  lemma NameLength(from: string, to: string)
    ensures |PathName(from, to)| <= 63
  {
  }

  /** What a proposal says of its two sites. */
  lemma ProposalIs(plan: Plan, isolated: Isolated, paths: seq<Path>, p: Proposal)
    requires p in Rows(plan, isolated, paths, plan.sites)
    ensures IsNameOf(plan.sites, p.from) && IsNameOf(plan.sites, p.to) && p.from != p.to
    ensures p.name == PathName(p.from, p.to) && |p.name| <= 63
    ensures var path := FindPath(paths, plan.name, p.from, p.to);
      p.declared == if path.Some? then Some(path.value.name) else None
    ensures Test in p.actions <==> !p.sync && p.nad != ""
  {
    hide Rows, FindMethod, FindPath, PathName;
    RowsMembers(plan, isolated, paths, plan.sites);
    var a :| a in plan.sites && ProposedFrom(plan, isolated, paths, a, plan.sites, p);
    var b :| b in plan.sites && a.name != b.name && p == Propose(plan, isolated, paths, a, b);
    NameLength(p.from, p.to);
  }

  /**
   * A proposal between sites whose names are DNS labels is accepted as it stands exactly
   * when it is not declared yet, its name is not cut behind a dash and no path has it, and
   * the NAD it would test on, if it would test, is a pair of DNS labels. Whatever the sites
   * are called, the name has to be a DNS label.
   */
  lemma ProposalAccepted(plan: Plan, isolated: Isolated, paths: seq<Path>, formats: Formats, p: Proposal)
    requires DistinctSites(plan.sites) && p in Rows(plan, isolated, paths, plan.sites)
    ensures IsDnsLabel(p.from) && IsDnsLabel(p.to) ==>
      (CheckPath(plan, paths, FormOf(p), formats).None?
       <==> p.declared.None? && NameFits(p.from, p.to) && !NameUsed(paths, p.name) && (!p.sync && p.nad != "" ==> IsNadRef(p.nad)))
    ensures CheckPath(plan, paths, FormOf(p), formats).None?
      <==> p.declared.None? && IsDnsLabel(p.name) && !NameUsed(paths, p.name) && (!p.sync && p.nad != "" ==> IsNadRef(p.nad))
  {
    hide Rows, FindPath, PathName, NameFits, NameUsed, IsNameOf, IsDnsLabel, IsNadRef;
    ProposalIs(plan, isolated, paths, p);
    if IsDnsLabel(p.from) && IsDnsLabel(p.to) {
      PathNameIsLabel(p.from, p.to);
    }
  }

  // ---- the check of a typed path ----

  /** The first path declared for the plan between the two sites. */
  predicate IsDeclaration(plan: Plan, paths: seq<Path>, v: PathForm, q: Path) {
    FirstOf(paths, (x: Path) => x.plan == plan.name && x.from == v.from && x.to == v.to, q)
  }

  lemma {:induction false} FindPathFirst(paths: seq<Path>, plan: string, from: string, to: string, q: Path)
    ensures FindPath(paths, plan, from, to) == Some(q)
      <==> FirstOf(paths, (x: Path) => x.plan == plan && x.from == from && x.to == to, q)
    ensures FindPath(paths, plan, from, to).Some? ==> FindPath(paths, plan, from, to).value in paths
  {
    hide FirstOf;
    var fits := (x: Path) => x.plan == plan && x.from == from && x.to == to;
    FirstOfStep(q, [], fits, q);
    if paths != [] {
      FindPathFirst(paths[1..], plan, from, to, q);
      assert paths == [paths[0]] + paths[1..];
      FirstOfStep(paths[0], paths[1..], fits, q);
    }
  }

  /** Namespace and name, both DNS labels. */
  ghost predicate NadParts(nad: string) {
    exists ns, name :: IsDnsLabel(ns) && IsDnsLabel(name) && nad == ns + "/" + name
  }

  lemma NadRefIs(nad: string)
    ensures IsNadRef(nad) <==> NadParts(nad)
  {
    hide IsDnsLabel, Split;
    JoinSplit(nad, '/');
    var parts := Split(nad, '/');
    if |parts| == 2 {
      assert parts == [parts[0], parts[1]] && parts[1..] == [parts[1]];
      assert Join(parts, "/") == parts[0] + "/" + parts[1];
    }
    if ns, name :| IsDnsLabel(ns) && IsDnsLabel(name) && nad == ns + "/" + name {
      NoSlash(ns);
      NoSlash(name);
      SplitConcat(ns, name, '/');
      SplitWhole(ns, '/');
      SplitWhole(name, '/');
    }
  }

  lemma NoSlash(s: string)
    requires IsDnsLabel(s)
    ensures '/' !in s
  {
    assert forall i | 0 <= i < |s| :: IsDnsChar(s[i]);
  }

  /** Both ends are sites of the plan, and not the same. */
  predicate GoodEnds(plan: Plan, v: PathForm) {
    IsNameOf(plan.sites, v.from) && IsNameOf(plan.sites, v.to) && v.from != v.to
  }

  predicate FreshName(paths: seq<Path>, v: PathForm) {
    |v.name| <= 63 && IsDnsLabel(v.name) && forall q <- paths :: q.name != v.name
  }

  ghost predicate PathRefused(plan: Plan, paths: seq<Path>, v: PathForm, formats: Formats, e: PathError) {
    var open := GoodEnds(plan, v) && !Declared(paths, plan.name, v.from, v.to);
    var named := open && FreshName(paths, v);
    match e
    case NoSource => !IsNameOf(plan.sites, v.from)
    case NoTarget => IsNameOf(plan.sites, v.from) && !IsNameOf(plan.sites, v.to)
    case SameSite => IsNameOf(plan.sites, v.from) && v.to == v.from
    case AlreadyDeclared(name) => GoodEnds(plan, v) && exists q <- paths :: IsDeclaration(plan, paths, v, q) && q.name == name
    case BadName => open && !(|v.name| <= 63 && IsDnsLabel(v.name))
    case NameTaken => open && |v.name| <= 63 && IsDnsLabel(v.name) && exists q <- paths :: q.name == v.name
    case BadNad => named && Test in v.actions && !NadParts(v.nad)
    case BadCap => named && Test in v.actions && NadParts(v.nad) && v.cap != "" && !formats.quantity(v.cap)
    case BadRecent =>
      && named && Test in v.actions && NadParts(v.nad) && (v.cap == "" || formats.quantity(v.cap))
      && v.recent != "" && !formats.duration(v.recent)
  }

  /**
   * A path, typed or proposed, can be declared exactly when it joins two sites of the plan, is not declared
   * yet, has a fresh name and, if it tests, a NAD and figures of the right form; each other one draws the
   * error of the first thing that is wrong with it.
   */
  lemma PathChecked(plan: Plan, paths: seq<Path>, v: PathForm, formats: Formats)
    ensures var e := CheckPath(plan, paths, v, formats);
      && (e.None? <==>
           && GoodEnds(plan, v) && !Declared(paths, plan.name, v.from, v.to) && FreshName(paths, v)
           && (Test in v.actions ==>
                && NadParts(v.nad) && (v.cap == "" || formats.quantity(v.cap)) && (v.recent == "" || formats.duration(v.recent))))
      && forall x :: e == Some(x) <==> PathRefused(plan, paths, v, formats, x)
  {
    hide IsNameOf, FindPath, IsDnsLabel, IsNadRef, NadParts, FirstOf;
    NadRefIs(v.nad);
    var dup := FindPath(paths, plan.name, v.from, v.to);
    forall q
      ensures dup == Some(q) <==> IsDeclaration(plan, paths, v, q)
      ensures dup.Some? ==> dup.value in paths
    {
      FindPathFirst(paths, plan.name, v.from, v.to, q);
    }
    FindPathIs(paths, plan.name, v.from, v.to);
  }

  // ---- when two proposals have one name ----

  /**
   * How the name of a to b is that of c to d, a being no longer than c. A name keeps
   * 59 - |a| characters of the target; the separator of c is then found in b, right
   * after the "-" that ends the separator of a or overlapping it. A source of more than
   * 59 characters leaves no room for the target.
   */
  ghost predicate NamesCollide(a: string, b: string, c: string, d: string) {
    if |a| > 59 then a == c || (|c| >= 63 && Cut(a + "-to-", 63) == c[..63])
    else
      var n := 59 - |a|;
      || (a == c && Cut(b, n) == Cut(d, n))
      || (c == a + "-to" && Cut(b, n) == Cut("to-" + d, n))
      || exists m :: c == a + "-to-" + m && Cut(b, n) == Cut(m + "-to-" + d, n)
  }

  lemma Separator()
    ensures var t := "-to-"; |t| == 4 && t[0] == '-' && t[1] == 't' && t[2] == 'o' && t[3] == '-'
    ensures "-to" == "-to-"[..3] && "to-" == "-to-"[1..]
  {
  }

  /** The parts of a name that are compared. */
  lemma NameAt(a: string, b: string, i: nat)
    requires i < |PathName(a, b)|
    ensures PathName(a, b)[i] == if i < |a| then a[i] else if i < |a| + 4 then "-to-"[i - |a|] else b[i - |a| - 4]
    ensures i < 63
  {
  }

  lemma CutName(a: string, b: string)
    requires |a| <= 59
    ensures PathName(a, b) == a + "-to-" + Cut(b, 59 - |a|)
  {
  }

  lemma CutAfter(a: string, t: string)
    requires |a| <= 59
    ensures Cut(a + "-to-" + t, 63) == a + "-to-" + Cut(t, 59 - |a|)
  {
  }

  lemma SameRest(p: string, x: string, y: string)
    ensures p + x == p + y <==> x == y
  {
    if p + x == p + y {
      assert x == (p + x)[|p|..] && y == (p + y)[|p|..];
    }
  }

  /** c begins with a and the separator. */
  lemma InnerName(a: string, b: string, c: string, d: string, m: string)
    requires |a| <= 59 && c == a + "-to-" + m
    ensures PathName(a, b) == PathName(c, d) <==> Cut(b, 59 - |a|) == Cut(m + "-to-" + d, 59 - |a|)
  {
    assert c + "-to-" + d == a + "-to-" + (m + "-to-" + d);
    CutAfter(a, m + "-to-" + d);
    CutName(a, b);
    SameRest(a + "-to-", Cut(b, 59 - |a|), Cut(m + "-to-" + d, 59 - |a|));
  }

  /** The separators share a "-". */
  lemma OverlappingName(a: string, b: string, c: string, d: string)
    requires |a| <= 59 && c == a + "-to"
    ensures PathName(a, b) == PathName(c, d) <==> Cut(b, 59 - |a|) == Cut("to-" + d, 59 - |a|)
  {
    assert c + "-to-" + d == a + "-to-" + ("to-" + d);
    CutAfter(a, "to-" + d);
    CutName(a, b);
    SameRest(a + "-to-", Cut(b, 59 - |a|), Cut("to-" + d, 59 - |a|));
  }

  lemma SameSource(a: string, b: string, d: string)
    requires |a| <= 59
    ensures PathName(a, b) == PathName(a, d) <==> Cut(b, 59 - |a|) == Cut(d, 59 - |a|)
  {
    CutName(a, b);
    CutName(a, d);
    SameRest(a + "-to-", Cut(b, 59 - |a|), Cut(d, 59 - |a|));
  }

  lemma LongSource(a: string, b: string)
    requires |a| > 59
    ensures PathName(a, b) == Cut(a + "-to-", 63) && |PathName(a, b)| == 63
  {
  }

  /** Sources of one name are equal in length or one begins with the other and what follows it in the name. */
  lemma SourcesInName(a: string, b: string, c: string, d: string)
    requires |a| <= 59 && |a| <= |c| && PathName(a, b) == PathName(c, d)
    ensures a == c || c == a + "-to" || (|c| >= |a| + 4 && c[..|a| + 4] == a + "-to-")
  {
    hide PathName;
    var s := PathName(a, b);
    NameLong(a, b);
    NameLong(c, d);
    forall i | 0 <= i < |s|
      ensures s[i] == if i < |a| then a[i] else if i < |a| + 4 then "-to-"[i - |a|] else b[i - |a| - 4]
      ensures s[i] == if i < |c| then c[i] else if i < |c| + 4 then "-to-"[i - |c|] else d[i - |c| - 4]
    {
      NameAt(a, b, i);
      NameAt(c, d, i);
    }
    Separator();
    assert c[..|a|] == a;
    assert s[|a| + 1] == 't' && s[|a| + 2] == 'o';
  }

  lemma NameLong(a: string, b: string)
    ensures |PathName(a, b)| == if |a| + |b| <= 59 then |a| + |b| + 4 else 63
  {
  }

  /** Exactly when two ordered pairs of sites are proposed one path name. */
  lemma NameClash(a: string, b: string, c: string, d: string)
    requires |a| <= |c|
    ensures PathName(a, b) == PathName(c, d) <==> NamesCollide(a, b, c, d)
  {
    hide PathName;
    if |a| > 59 {
      LongSource(a, b);
      LongSource(c, d);
      LongClash(a, c);
    } else {
      if PathName(a, b) == PathName(c, d) {
        SourcesInName(a, b, c, d);
        if |c| >= |a| + 4 && c[..|a| + 4] == a + "-to-" {
          assert c == a + "-to-" + c[|a| + 4..];
          InnerName(a, b, c, d, c[|a| + 4..]);
        }
      }
      SameSource(a, b, d);
      if c == a + "-to" {
        OverlappingName(a, b, c, d);
      }
      if m :| c == a + "-to-" + m && Cut(b, 59 - |a|) == Cut(m + "-to-" + d, 59 - |a|) {
        InnerName(a, b, c, d, m);
      }
    }
  }

  lemma LongClash(a: string, c: string)
    requires 59 < |a| <= |c|
    ensures Cut(a + "-to-", 63) == Cut(c + "-to-", 63) <==> a == c || (|c| >= 63 && Cut(a + "-to-", 63) == c[..63])
  {
    var x, y := Cut(a + "-to-", 63), Cut(c + "-to-", 63);
    Separator();
    if |c| >= 63 {
      assert y == c[..63];
    } else {
      assert x[..|a|] == a && y[..|c|] == c && y[|c|] == '-';
      assert forall i | |a| < i < 63 :: x[i] != '-';
    }
  }

  /** Names that are not cut clash where the source and the separator of one begin the source of the other. */
  lemma UncutNameClash(a: string, b: string, c: string, d: string)
    requires |a| < |c| && |a| + |b| <= 59 && |c| + |d| <= 59
    ensures PathName(a, b) == PathName(c, d)
      <==> (c == a + "-to" && b == "to-" + d) || exists m :: c == a + "-to-" + m && b == m + "-to-" + d
  {
    hide PathName;
    NameClash(a, b, c, d);
    if m :| c == a + "-to-" + m && Cut(b, 59 - |a|) == Cut(m + "-to-" + d, 59 - |a|) {
      assert b == m + "-to-" + d;
    }
    if m :| c == a + "-to-" + m && b == m + "-to-" + d {
      assert Cut(b, 59 - |a|) == Cut(m + "-to-" + d, 59 - |a|);
    }
  }

  /** Two proposals' pairs, in either order of their sources' lengths. */
  ghost predicate PairsCollide(p: Proposal, q: Proposal) {
    if |p.from| <= |q.from| then NamesCollide(p.from, p.to, q.from, q.to) else NamesCollide(q.from, q.to, p.from, p.to)
  }

  lemma ProposalNames(plan: Plan, isolated: Isolated, paths: seq<Path>, p: Proposal, q: Proposal)
    requires p in Rows(plan, isolated, paths, plan.sites) && q in Rows(plan, isolated, paths, plan.sites)
    ensures p.name == q.name <==> PairsCollide(p, q)
  {
    hide Rows, PathName, FindMethod, FindPath, NamesCollide;
    RowsMembers(plan, isolated, paths, plan.sites);
    assert p.name == PathName(p.from, p.to) && q.name == PathName(q.from, q.to);
    if |p.from| <= |q.from| {
      NameClash(p.from, p.to, q.from, q.to);
    } else {
      NameClash(q.from, q.to, p.from, p.to);
    }
  }

  /** The proposals of a plan have different names exactly when no two of its site pairs collide. */
  lemma NamesAreDistinct(plan: Plan, isolated: Isolated, paths: seq<Path>)
    requires DistinctSites(plan.sites)
    ensures var rows := Rows(plan, isolated, paths, plan.sites);
      (forall i, j | 0 <= i < j < |rows| :: rows[i].name != rows[j].name)
      <==> (forall i, j | 0 <= i < j < |rows| :: !PairsCollide(rows[i], rows[j]))
  {
    hide Rows, PairsCollide;
    var rows := Rows(plan, isolated, paths, plan.sites);
    forall i, j | 0 <= i < j < |rows|
      ensures rows[i].name == rows[j].name <==> PairsCollide(rows[i], rows[j])
    {
      assert rows[i] in rows && rows[j] in rows;
      ProposalNames(plan, isolated, paths, rows[i], rows[j]);
    }
  }

  function ProposalOf(plan: Plan, isolated: Isolated, paths: seq<Path>, i: nat, j: nat): Proposal
    requires i < |plan.sites| && j < |plan.sites|
  {
    Propose(plan, isolated, paths, plan.sites[i], plan.sites[j])
  }

  const CLASHING := Plan("p", [PlanSite("a", "1"), PlanSite("to-d", "2"), PlanSite("a-to", "3"), PlanSite("d", "4")], [])

  lemma ClashingSites()
    ensures var sites := CLASHING.sites;
      && |sites| == 4 && sites[0].name == "a" && sites[1].name == "to-d" && sites[2].name == "a-to" && sites[3].name == "d"
      && DistinctSites(sites) && forall s <- sites :: IsDnsLabel(s.name)
  {
    hide IsDnsLabel;
    ClashingNames();
    assert "a"[0] == 'a' && "d"[0] == 'd' && "to-d"[0] == 't' && |"a"| == |"d"| == 1 && |"to-d"| == |"a-to"| == 4 && "a-to"[0] == 'a';
    assert forall n <- ["a", "to-d", "a-to", "d"] :: IsDnsLabel(n);
    assert "a" in ["a", "to-d", "a-to", "d"] && "to-d" in ["a", "to-d", "a-to", "d"];
    assert "a-to" in ["a", "to-d", "a-to", "d"] && "d" in ["a", "to-d", "a-to", "d"];
  }

  lemma ProposalFields(plan: Plan, isolated: Isolated, paths: seq<Path>, i: nat, j: nat)
    requires i < |plan.sites| && j < |plan.sites|
    ensures var p := ProposalOf(plan, isolated, paths, i, j);
      p.from == plan.sites[i].name && p.to == plan.sites[j].name && p.name == PathName(p.from, p.to)
  {
    hide FindMethod, FindPath, PathName;
  }

  /** A plan of four sites, each named by a DNS label, with two proposals of one name. */
  lemma NamesCanClash(isolated: Isolated)
    ensures DistinctSites(CLASHING.sites) && forall s <- CLASHING.sites :: IsDnsLabel(s.name)
    ensures var rows := Rows(CLASHING, isolated, [], CLASHING.sites);
      exists p, q :: p in rows && q in rows && (p.from, p.to) != (q.from, q.to) && p.name == q.name
  {
    hide *;
    ClashingSites();
    ProposalFields(CLASHING, isolated, [], 0, 1);
    ProposalFields(CLASHING, isolated, [], 2, 3);
    Apart4();
    Listed(CLASHING, isolated, [], 0, 1);
    Listed(CLASHING, isolated, [], 2, 3);
    ClashingNames();
  }

  lemma Apart4()
    ensures "a" != "to-d" && "a-to" != "d" && "a" != "a-to"
  {
    assert |"a"| == |"d"| == 1 && |"to-d"| == |"a-to"| == 4;
  }

  lemma Listed(plan: Plan, isolated: Isolated, paths: seq<Path>, i: nat, j: nat)
    requires i < |plan.sites| && j < |plan.sites| && plan.sites[i].name != plan.sites[j].name
    ensures ProposalOf(plan, isolated, paths, i, j) in Rows(plan, isolated, paths, plan.sites)
  {
    hide Rows, Propose;
    RowsMembers(plan, isolated, paths, plan.sites);
    var a, b := plan.sites[i], plan.sites[j];
    assert a in plan.sites && b in plan.sites;
    assert ProposedFrom(plan, isolated, paths, a, plan.sites, ProposalOf(plan, isolated, paths, i, j));
  }

  lemma ClashingNames()
    ensures PathName("a", "to-d") == PathName("a-to", "d")
    ensures forall name <- ["a", "to-d", "a-to", "d"] :: IsDnsLabel(name)
  {
    assert "a-to" == "a" + "-to" && "to-d" == "to-" + "d";
    OverlappingName("a", "to-d", "a-to", "d");
  }

  // ---- runs of declarations ----

  datatype Step = Declare(plan: Plan, form: PathForm) | Remove(name: string)

  /** A declaration is carried out when the check lets it pass. */
  function Next(paths: seq<Path>, step: Step, formats: Formats): seq<Path> {
    match step
    case Declare(plan, v) =>
      if CheckPath(plan, paths, v, formats).None? then paths + [Path(v.name, plan.name, v.from, v.to)] else paths
    case Remove(name) => Filter(paths, (p: Path) => p.name != name)
  }

  function Run(paths: seq<Path>, steps: seq<Step>, formats: Formats): seq<Path>
    decreases steps
  {
    if steps == [] then paths else Run(Next(paths, steps[0], formats), steps[1..], formats)
  }

  predicate Apart(p: Path, q: Path) {
    p.name != q.name && (p.plan, p.from, p.to) != (q.plan, q.from, q.to)
  }

  /** Names and (plan, from, to) are unique, and each path joins two sites. */
  predicate Consistent(paths: seq<Path>) {
    && (forall i, j | 0 <= i < j < |paths| :: Apart(paths[i], paths[j]))
    && (forall i | 0 <= i < |paths| :: paths[i].from != paths[i].to)
  }

  lemma {:induction false} FilterConsistent(paths: seq<Path>, keep: Path -> bool)
    requires Consistent(paths)
    ensures Consistent(Filter(paths, keep))
  {
    if paths != [] {
      FilterConsistent(paths[1..], keep);
      FilterIn(paths[1..], keep);
      var rest := Filter(paths[1..], keep);
      forall j | 0 <= j < |rest|
        ensures Apart(paths[0], rest[j])
      {
        assert rest[j] in rest;
        var k :| 0 <= k < |paths[1..]| && paths[1..][k] == rest[j];
        assert paths[k + 1] == rest[j];
      }
    }
  }

  lemma NextConsistent(paths: seq<Path>, step: Step, formats: Formats)
    requires Consistent(paths)
    ensures Consistent(Next(paths, step, formats))
  {
    hide IsDnsLabel, IsNadRef, FindPath, Filter;
    match step
    case Declare(plan, v) =>
      FindPathIs(paths, plan.name, v.from, v.to);
      if CheckPath(plan, paths, v, formats).None? {
        forall i | 0 <= i < |paths|
          ensures Apart(paths[i], Path(v.name, plan.name, v.from, v.to))
        {
          assert paths[i] in paths;
        }
      }
    case Remove(name) =>
      FilterConsistent(paths, (p: Path) => p.name != name);
  }

  /** Every run of declarations and removals keeps the declared paths consistent. */
  lemma {:induction false} RunsStayConsistent(paths: seq<Path>, steps: seq<Step>, formats: Formats)
    requires Consistent(paths)
    ensures Consistent(Run(paths, steps, formats))
    decreases steps
  {
    hide Next;
    if steps != [] {
      NextConsistent(paths, steps[0], formats);
      RunsStayConsistent(Next(paths, steps[0], formats), steps[1..], formats);
    }
  }

  /** A path was there at first, or a step declared it for a plan that then had both its ends among its sites. */
  predicate JoinsSites(paths: seq<Path>, steps: seq<Step>, p: Path) {
    || p in paths
    || exists step <- steps :: step.Declare? && step.plan.name == p.plan
                               && IsNameOf(step.plan.sites, p.from) && IsNameOf(step.plan.sites, p.to)
  }

  lemma NextJoins(paths: seq<Path>, step: Step, formats: Formats, p: Path)
    requires p in Next(paths, step, formats)
    ensures JoinsSites(paths, [step], p)
  {
    hide IsDnsLabel, IsNadRef, FindPath, Filter, NameUsed;
    assert step in [step];
    if step.Remove? {
      FilterIn(paths, (q: Path) => q.name != step.name);
    }
  }

  /** In every run each path joins two sites of its plan, as the plan was when the path was declared. */
  lemma {:induction false} RunsJoinSites(paths: seq<Path>, steps: seq<Step>, formats: Formats, p: Path)
    requires p in Run(paths, steps, formats)
    ensures JoinsSites(paths, steps, p)
    decreases steps
  {
    hide Next;
    if steps != [] {
      RunsJoinSites(Next(paths, steps[0], formats), steps[1..], formats, p);
      assert steps == [steps[0]] + steps[1..] && steps[0] in steps;
      if p in Next(paths, steps[0], formats) {
        NextJoins(paths, steps[0], formats, p);
      }
    }
  }

  /** Declaring one accepted path leaves another accepted exactly when they differ in name and in sites. */
  lemma OthersStayAccepted(plan: Plan, paths: seq<Path>, formats: Formats, v: PathForm, w: PathForm)
    requires CheckPath(plan, paths, v, formats).None? && CheckPath(plan, paths, w, formats).None?
    ensures CheckPath(plan, Next(paths, Declare(plan, v), formats), w, formats).None?
      <==> v.name != w.name && (v.from, v.to) != (w.from, w.to)
  {
    hide IsDnsLabel, IsNadRef, FindPath;
    var after := paths + [Path(v.name, plan.name, v.from, v.to)];
    var last := after[|paths|];
    assert last in after;
    FindPathIs(paths, plan.name, w.from, w.to);
    FindPathIs(after, plan.name, w.from, w.to);
  }

  /** Declaring one acceptable proposal of a plan leaves another acceptable exactly when their pairs do not collide. */
  lemma ProposalsStayAccepted(plan: Plan, isolated: Isolated, paths: seq<Path>, formats: Formats, p: Proposal, q: Proposal)
    requires p in Rows(plan, isolated, paths, plan.sites) && q in Rows(plan, isolated, paths, plan.sites)
    requires (p.from, p.to) != (q.from, q.to)
    requires CheckPath(plan, paths, FormOf(p), formats).None? && CheckPath(plan, paths, FormOf(q), formats).None?
    ensures CheckPath(plan, Next(paths, Declare(plan, FormOf(p)), formats), FormOf(q), formats).None? <==> !PairsCollide(p, q)
  {
    hide Rows, CheckPath, Next, PairsCollide;
    OthersStayAccepted(plan, paths, formats, FormOf(p), FormOf(q));
    ProposalNames(plan, isolated, paths, p, q);
  }
}
