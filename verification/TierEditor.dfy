/** The tier editor: a recovery spec's tiers as rows and gates, and back. */
module TierEditor {
  import opened Text
  import opened Seqs
  import S = Selectors

  /** The type of a ready check: the four that READY_KIND knows, and the rest. */
  datatype CheckType = VmRunning | DeploymentsReady | StatefulSetsReady | PodsReady | Exec | Condition | OtherCheck(name: string)

  /** One ready check of a tier; detail stands for what a condition holds besides. */
  datatype Ready = Ready(check: CheckType, selector: S.Labels, command: seq<string>, timeout: Option<nat>, detail: string)
  datatype Tier = Tier(name: string, resourceTypes: seq<string>, selector: S.Selector, ready: seq<Ready>)

  datatype Row = Row(name: string, kinds: seq<string>, labels: seq<string>, ready: seq<CheckType>)
  datatype Template = Tcp | Http | Custom

  /** timeout is what is typed, None for nothing: reading a spec never gives 0, and a typed 0 is a text the form refuses. */
  datatype Gate = Gate(tier: string, pod: string, timeout: Option<nat>, command: string, template: Template, target: string)

  type Keep = map<string, seq<Ready>>

  predicate IsReadyKind(t: CheckType) {
    t.VmRunning? || t.DeploymentsReady? || t.StatefulSetsReady? || t.PodsReady?
  }

  // ---- gate commands ----

  const NC := ["nc", "-z", "-w", "3"]
  const WGET := ["wget", "-q", "-O", "/dev/null", "-T", "5"]
  const SCHEME := "http://"

  function GateCommand(g: Gate): seq<string> {
    match g.template
    case Tcp => NC + Split(g.target, ':')
    case Http => WGET + [SCHEME + g.target + "/"]
    case Custom => Fields(g.command, IsSpace)
  }

  function Last(cmd: seq<string>): string {
    if cmd == [] then "" else cmd[|cmd| - 1]
  }

  predicate IsTcp(cmd: seq<string>) {
    |cmd| >= 3 && cmd[0] == "nc" && Numeral(Last(cmd))
  }

  function SchemeLength(s: string): nat {
    if "http://" <= s then 7 else if "https://" <= s then 8 else 0
  }

  predicate IsHttp(cmd: seq<string>) {
    cmd != [] && cmd[0] == "wget" && SchemeLength(Last(cmd)) > 0
  }

  function HttpTarget(url: string): string {
    var rest := url[SchemeLength(url)..];
    if EndsWith(rest, "/") then rest[..|rest| - 1] else rest
  }

  function TemplateOf(cmd: seq<string>): Template {
    if IsTcp(cmd) then Tcp else if IsHttp(cmd) then Http else Custom
  }

  /** A command read into a gate. */
  function GateOf(tier: string, pod: string, timeout: Option<nat>, cmd: seq<string>): (g: Gate)
    ensures g.tier == tier && g.pod == pod && g.timeout == timeout
  {
    match TemplateOf(cmd)
    case Tcp => Gate(tier, pod, timeout, "", Tcp, cmd[|cmd| - 2] + ":" + Last(cmd))
    case Http => Gate(tier, pod, timeout, "", Http, HttpTarget(Last(cmd)))
    case Custom => Gate(tier, pod, timeout, Join(cmd, " "), Custom, "")
  }

  /** What reading a command into a gate and writing it back gives. */
  function NormCommand(cmd: seq<string>): seq<string> {
    GateCommand(GateOf("", "", None, cmd))
  }

  /** The commands the editor itself writes. */
  predicate CanonicalCommand(cmd: seq<string>) {
    if IsTcp(cmd) then |cmd| == 6 && cmd[..4] == ["nc", "-z", "-w", "3"] && ':' !in cmd[4]
    else if IsHttp(cmd) then
      && |cmd| == 7 && cmd[..6] == ["wget", "-q", "-O", "/dev/null", "-T", "5"]
      && |Last(cmd)| > 7 && "http://" <= Last(cmd) && EndsWith(Last(cmd), "/")
    else forall w <- cmd :: IsField(w, IsSpace)
  }

  lemma TcpCommand(h: string, p: string)
    requires ':' !in p
    ensures NC + Split(h + ":" + p, ':') == NC + Split(h, ':') + [p]
  {
    SplitConcat(h, p, ':');
    SplitWhole(p, ':');
  }

  lemma TcpRoundTrip(cmd: seq<string>)
    requires IsTcp(cmd)
    ensures NormCommand(cmd) == cmd <==> CanonicalCommand(cmd)
    ensures NormCommand(cmd) == ["nc", "-z", "-w", "3"] + Split(cmd[|cmd| - 2], ':') + [Last(cmd)]
  {
    var h, p := cmd[|cmd| - 2], Last(cmd);
    assert ':' !in p;
    TcpCommand(h, p);
    var n := NormCommand(cmd);
    JoinSplit(h, ':');
    if n == cmd {
      var parts := Split(h, ':');
      assert n[|n| - 2] == parts[|parts| - 1] && parts[|parts| - 1] in parts;
      SplitWhole(h, ':');
    }
    if CanonicalCommand(cmd) {
      SplitWhole(h, ':');
      assert cmd == cmd[..4] + [cmd[4]] + [cmd[5]];
    }
  }

  lemma HttpTargetOf(target: string)
    ensures SchemeLength(SCHEME + target + "/") == 7
    ensures HttpTarget(SCHEME + target + "/") == target
  {
    var url := SCHEME + target + "/";
    assert "http://" <= url;
    assert url[7..] == target + "/";
  }

  lemma HttpCommand(cmd: seq<string>)
    requires IsHttp(cmd)
    ensures NormCommand(cmd) == WGET + [SCHEME + HttpTarget(Last(cmd)) + "/"]
  {
    hide HttpTarget;
    assert !IsTcp(cmd);
  }

  lemma HttpWritten(target: string)
    ensures var cmd := WGET + [SCHEME + target + "/"];
      IsHttp(cmd) && CanonicalCommand(cmd)
  {
    hide HttpTarget;
    var cmd := WGET + [SCHEME + target + "/"];
    HttpTargetOf(target);
    assert Last(cmd) == SCHEME + target + "/" && !IsTcp(cmd);
  }

  lemma HttpKept(cmd: seq<string>)
    requires IsHttp(cmd) && CanonicalCommand(cmd)
    ensures cmd == WGET + [SCHEME + HttpTarget(Last(cmd)) + "/"]
  {
    hide HttpTarget;
    assert !IsTcp(cmd);
    var url := Last(cmd);
    var t := url[7..|url| - 1];
    assert url == SCHEME + t + "/" by {
      assert url[..7] == SCHEME && url[|url| - 1..] == "/";
    }
    HttpTargetOf(t);
    assert cmd == cmd[..6] + [cmd[6]];
  }

  lemma HttpRoundTrip(cmd: seq<string>)
    requires IsHttp(cmd)
    ensures NormCommand(cmd) == cmd <==> CanonicalCommand(cmd)
    ensures CanonicalCommand(NormCommand(cmd))
  {
    hide *;
    HttpCommand(cmd);
    HttpWritten(HttpTarget(Last(cmd)));
    if CanonicalCommand(cmd) {
      HttpKept(cmd);
    }
  }

  lemma CustomRoundTrip(cmd: seq<string>)
    requires !IsTcp(cmd) && !IsHttp(cmd)
    ensures NormCommand(cmd) == Fields(Join(cmd, " "), IsSpace)
    ensures NormCommand(cmd) == cmd <==> CanonicalCommand(cmd)
  {
    FieldsAreFields(Join(cmd, " "), IsSpace);
    if CanonicalCommand(cmd) {
      FieldsJoin(cmd, " ", IsSpace);
    }
  }

  /** A gate command survives the editor exactly when it has the editor's own form. */
  lemma CommandRoundTrip(cmd: seq<string>)
    ensures NormCommand(cmd) == cmd <==> CanonicalCommand(cmd)
  {
    if IsTcp(cmd) {
      TcpRoundTrip(cmd);
    } else if IsHttp(cmd) {
      HttpRoundTrip(cmd);
    } else {
      CustomRoundTrip(cmd);
    }
  }

  /** The commands that one pass through the editor settles. */
  predicate StableCommand(cmd: seq<string>) {
    if IsTcp(cmd) then ':' !in cmd[|cmd| - 2]
    else IsHttp(cmd) || CanonicalCommand(Fields(Join(cmd, " "), IsSpace))
  }

  /** A second pass changes a command exactly when the host of a TCP check holds a colon or its words hide a template. */
  lemma CommandStability(cmd: seq<string>)
    ensures NormCommand(NormCommand(cmd)) == NormCommand(cmd) <==> StableCommand(cmd)
  {
    var n := NormCommand(cmd);
    CommandRoundTrip(n);
    if IsTcp(cmd) {
      TcpRoundTrip(cmd);
      var h := cmd[|cmd| - 2];
      assert n[0] == "nc" && Last(n) == Last(cmd);
      JoinSplit(h, ':');
      SplitTwo(h);
      if ':' !in h {
        SplitWhole(h, ':');
        assert n == NC + [h] + [Last(cmd)];
      }
    } else if IsHttp(cmd) {
      HttpRoundTrip(cmd);
    } else {
      CustomRoundTrip(cmd);
    }
  }

  lemma SplitTwo(s: string)
    ensures |Split(s, ':')| == 1 <==> ':' !in s
  {
    JoinSplit(s, ':');
    if ':' !in s {
      SplitWhole(s, ':');
    }
  }

  // ---- gates and exec checks ----

  function PodText(m: S.Labels): string {
    Join(S.PairTexts(m), ", ")
  }

  function PodLabels(pod: string): S.Labels {
    S.Parse(pod, false).Seen().matchLabels
  }

  /** A timeout of 0 seconds is no timeout: `Number(t) ? … : {}` and `timeoutSeconds || ""`. */
  function SomeSeconds(t: Option<nat>): Option<nat> {
    if t == Some(0) then None else t
  }

  function ExecOf(g: Gate): (r: Ready)
    ensures r.check.Exec?
  {
    Ready(Exec, PodLabels(g.pod), GateCommand(g), SomeSeconds(g.timeout), "")
  }

  function ReadGate(tier: string, r: Ready): (g: Gate)
    ensures g.tier == tier
  {
    GateOf(tier, PodText(r.selector), SomeSeconds(r.timeout), r.command)
  }

  /** The text of some clean label pairs. */
  ghost predicate PrintedPod(pod: string) {
    exists m: S.Labels :: S.CleanLabels(m) && pod == PodText(m)
  }

  /** Words separated by single blanks, none at the ends. */
  predicate SingleSpaced(s: string) {
    && Trimmed(s)
    && forall i | 0 <= i < |s| && IsSpace(s[i]) :: s[i] == ' ' && (i + 1 < |s| ==> !IsSpace(s[i + 1]))
  }

  predicate CanonicalCheck(g: Gate) {
    match g.template
    case Tcp => g.command == "" && var parts := Split(g.target, ':'); |parts| == 2 && Numeral(parts[1])
    case Http => g.command == ""
    case Custom => g.target == "" && SingleSpaced(g.command) && TemplateOf(Fields(g.command, IsSpace)) == Custom
  }

  ghost predicate CanonicalGate(g: Gate) {
    g.timeout != Some(0) && PrintedPod(g.pod) && CanonicalCheck(g)
  }

  lemma {:induction false} SpacedJoin(words: seq<string>)
    requires forall w <- words :: IsField(w, IsSpace)
    ensures var s := Join(words, " "); SingleSpaced(s) && (words != [] ==> s != "" && !IsSpace(s[0]))
  {
    if words != [] {
      var w := words[0];
      assert w in words && w[0] in w && w[|w| - 1] in w;
      assert forall i | 0 <= i < |w| :: w[i] in w;
      if |words| > 1 {
        SpacedJoin(words[1..]);
        var rest := Join(words[1..], " ");
        var s := w + " " + rest;
        assert forall i | |w| < i < |s| :: s[i] == rest[i - |w| - 1];
        assert forall i | 0 <= i < |w| :: s[i] == w[i];
        assert s[|s| - 1] == rest[|rest| - 1];
      }
    }
  }

  lemma SpacedTail(s: string, n: nat)
    requires SingleSpaced(s) && n < |s| && IsSpace(s[n])
    ensures s[n] == ' ' && n + 1 < |s| && SingleSpaced(s[n + 1..])
  {
    var rest := s[n + 1..];
    assert forall i | 0 <= i < |rest| :: rest[i] == s[n + 1 + i];
  }

  lemma {:induction false} JoinFields(s: string)
    requires SingleSpaced(s)
    ensures Join(Fields(s, IsSpace), " ") == s
    ensures s != "" ==> Fields(s, IsSpace) != []
    decreases |s|
  {
    if s != "" {
      var n := RunLength(s, IsSpace);
      var w := s[..n];
      if n == |s| {
        assert s == w;
        FieldsOne(s, IsSpace);
      } else {
        var rest := s[n + 1..];
        SpacedTail(s, n);
        assert s == w + " " + rest;
        FieldsCons(w, " ", rest, IsSpace);
        JoinFields(rest);
        assert ([w] + Fields(rest, IsSpace))[1..] == Fields(rest, IsSpace);
      }
    }
  }

  lemma TcpGateRoundTrip(g: Gate)
    requires g.template == Tcp
    ensures var c := GateCommand(g);
      (IsTcp(c) && c[|c| - 2] + ":" + Last(c) == g.target)
      <==> (|Split(g.target, ':')| == 2 && Numeral(Split(g.target, ':')[1]))
  {
    var parts, c := Split(g.target, ':'), GateCommand(g);
    JoinSplit(g.target, ':');
    assert Last(c) == parts[|parts| - 1] && parts[|parts| - 1] in parts;
    assert |parts| == 1 ==> c[|c| - 2] == "3";
    SplitWhole("3", ':');
    if IsTcp(c) && c[|c| - 2] + ":" + Last(c) == g.target {
      SplitConcat(c[|c| - 2], Last(c), ':');
      SplitWhole(Last(c), ':');
      if |parts| > 1 {
        assert c[|c| - 2] == parts[|parts| - 2] && parts[|parts| - 2] in parts;
        SplitWhole(c[|c| - 2], ':');
      }
    }
    if |parts| == 2 && Numeral(parts[1]) {
      assert parts == [parts[0], parts[1]];
      assert Join(parts, ":") == parts[0] + ":" + Join([parts[1]], ":");
    }
  }

  lemma CheckRoundTrip(g: Gate)
    ensures var h := GateOf(g.tier, g.pod, g.timeout, GateCommand(g)); h == g <==> CanonicalCheck(g)
  {
    match g.template
    case Tcp =>
      TcpGateRoundTrip(g);
    case Http =>
      HttpTargetOf(g.target);
      assert IsHttp(GateCommand(g)) && !IsTcp(GateCommand(g));
    case Custom =>
      FieldsAreFields(g.command, IsSpace);
      SpacedJoin(Fields(g.command, IsSpace));
      if SingleSpaced(g.command) {
        JoinFields(g.command);
      }
  }

  /** A gate survives the spec exactly when its fields already have the form the editor shows. */
  lemma GateRoundTrip(g: Gate)
    ensures ReadGate(g.tier, ExecOf(g)) == g <==> CanonicalGate(g)
  {
    CheckRoundTrip(g);
    S.ParsedIsWellFormed(g.pod, false);
    assert S.CleanLabels(PodLabels(g.pod));
    if PrintedPod(g.pod) {
      var m :| S.CleanLabels(m) && g.pod == PodText(m);
      S.PairsRoundTrip(m, false);
    }
  }

  // ---- rows ----

  /** text.split(", ").filter(Boolean) */
  function SplitList(s: string): (parts: seq<string>)
    ensures parts != []
  {
    if |s| < 2 then [s]
    else if s[..2] == ", " then [""] + SplitList(s[2..])
    else
      var rest := SplitList(s[1..]);
      [[s[0]] + rest[0]] + rest[1..]
  }

  predicate NonEmpty(s: string) { s != "" }

  function Chips(sel: S.Selector): seq<string> {
    Filter(SplitList(S.SelectorText(sel)), NonEmpty)
  }

  lemma SplitListChar(c: char, s: string)
    requires c != ','
    ensures SplitList([c] + s) == [[c] + SplitList(s)[0]] + SplitList(s)[1..]
  {
    if s == "" {
      assert SplitList(s) == [""] && [c] + "" == [c];
    } else {
      assert ([c] + s)[..2] != ", " && ([c] + s)[1..] == s;
    }
  }

  lemma SplitListSeparator(s: string)
    ensures SplitList("") == [""]
    ensures SplitList(", " + s) == [""] + SplitList(s)
  {
    assert (", " + s)[..2] == ", " && (", " + s)[2..] == s;
  }

  lemma {:induction false} SplitListStep(t: string, rest: string)
    requires ',' !in t
    ensures SplitList(t) == [t]
    ensures SplitList(t + ", " + rest) == [t] + SplitList(rest)
  {
    hide SplitList;
    if t == "" {
      SplitListSeparator(rest);
      assert "" + ", " + rest == ", " + rest;
    } else {
      var c, t' := t[0], t[1..];
      assert t == [c] + t' && c in t;
      assert t + ", " + rest == [c] + (t' + ", " + rest);
      SplitListStep(t', rest);
      SplitListChar(c, t');
      SplitListChar(c, t' + ", " + rest);
      assert ([t'] + SplitList(rest))[1..] == SplitList(rest);
    }
  }

  lemma {:induction false} SplitListJoin(texts: seq<string>)
    requires texts != [] && forall t <- texts :: S.CleanPart(t)
    ensures SplitList(Join(texts, ", ")) == texts
  {
    assert texts[0] in texts;
    SplitListStep(texts[0], Join(texts[1..], ", "));
    if |texts| > 1 {
      SplitListJoin(texts[1..]);
      assert texts == [texts[0]] + texts[1..];
    }
  }

  /** Clean texts are the chips of their printed list. */
  lemma ChipsOfList(texts: seq<string>)
    requires forall t <- texts :: S.CleanPart(t)
    ensures Filter(SplitList(Join(texts, ", ")), NonEmpty) == texts
  {
    hide SplitList, Filter, S.CleanPart;
    if texts == [] {
      SplitListSeparator("");
      FilterNone([""], NonEmpty);
    } else {
      SplitListJoin(texts);
      forall i | 0 <= i < |texts|
        ensures NonEmpty(texts[i])
      {
        CleanIsNonEmpty(texts[i]);
        assert texts[i] in texts;
      }
      FilterAll(texts, NonEmpty);
    }
  }

  lemma CleanIsNonEmpty(t: string)
    ensures S.CleanPart(t) ==> NonEmpty(t)
  {
  }

  lemma ChipsAreTexts(sel: S.Selector)
    requires S.WellFormed(sel)
    ensures Chips(sel) == S.Texts(sel)
    ensures S.Parse(Join(Chips(sel), ", ")) == S.Parsed(sel)
  {
    hide SplitList, Filter, S.CleanPart, S.Parse, S.Parts, S.WellFormed, S.Texts;
    S.SelectorRoundTrip(sel);
    S.PartsAreClean(S.SelectorText(sel));
    S.TermsOfText(sel);
    ChipsOfList(S.Texts(sel));
  }

  function Plain(check: CheckType): Ready {
    Ready(check, [], [], None, "")
  }

  predicate IsTyped(r: Ready) { IsReadyKind(r.check) }
  predicate IsExec(r: Ready) { r.check.Exec? }
  predicate IsCondition(r: Ready) { r.check.Condition? }

  function TypeOf(r: Ready): CheckType { r.check }
  function OfTier(name: string): Gate -> bool { (g: Gate) => g.tier == name }
  function Reader(name: string): Ready -> Gate { (r: Ready) => ReadGate(name, r) }
  function Writer(): Gate -> Ready { (g: Gate) => ExecOf(g) }
  function Plainer(): CheckType -> Ready { (t: CheckType) => Plain(t) }

  function RowOf(t: Tier): Row {
    Row(t.name, t.resourceTypes, Chips(t.selector), Map(Filter(t.ready, IsTyped), TypeOf))
  }

  function GatesOf(t: Tier): seq<Gate> {
    Map(Filter(t.ready, IsExec), Reader(t.name))
  }

  function Rows(tiers: seq<Tier>): (r: seq<Row>)
    ensures |r| == |tiers| && forall i | 0 <= i < |tiers| :: r[i] == RowOf(tiers[i])
  {
    seq(|tiers|, i requires 0 <= i < |tiers| => RowOf(tiers[i]))
  }

  function GatesOfTier(): Tier -> seq<Gate> { (t: Tier) => GatesOf(t) }

  function Gates(tiers: seq<Tier>): seq<Gate> {
    Flatten(Map(tiers, GatesOfTier()))
  }

  function KeptOf(keep: Keep, name: string): seq<Ready> {
    if name in keep then keep[name] else []
  }

  /** The conditions of the tiers of one name, in order. */
  function Conditions(tiers: seq<Tier>, name: string): seq<Ready> {
    if tiers == [] then []
    else (if tiers[0].name == name then Filter(tiers[0].ready, IsCondition) else []) + Conditions(tiers[1..], name)
  }

  /** The inner loop: one tier's ready checks, added to the gates and to what is kept. */
  method ReadChecks(t: Tier, gates0: seq<Gate>, keep0: Keep) returns (gates: seq<Gate>, keep: Keep)
    ensures gates == gates0 + GatesOf(t)
    ensures keep == WithKept(keep0, t.name, Filter(t.ready, IsCondition))
  {
    hide Filter, KeptOf, ReadGate;
    gates, keep := gates0, keep0;
    NoChecks(t);
    assert gates0 + [] == gates0;
    for j := 0 to |t.ready|
      invariant gates == gates0 + Map(Filter(t.ready[..j], IsExec), Reader(t.name))
      invariant keep == WithKept(keep0, t.name, Filter(t.ready[..j], IsCondition))
    {
      var r := t.ready[j];
      FilterTake(t.ready, j, IsExec);
      FilterTake(t.ready, j, IsCondition);
      if r.check.Condition? {
        KeepOneMore(keep0, t.name, Filter(t.ready[..j], IsCondition), r);
        keep := keep[t.name := KeptOf(keep, t.name) + [r]];
      }
      if r.check.Exec? {
        ghost var execs := Filter(t.ready[..j], IsExec);
        assert Map(execs + [r], Reader(t.name)) == Map(execs, Reader(t.name)) + [ReadGate(t.name, r)];
        gates := gates + [ReadGate(t.name, r)];
      }
    }
    assert t.ready[..|t.ready|] == t.ready;
  }

  lemma NoChecks(t: Tier)
    ensures Filter(t.ready[..0], IsExec) == [] && Filter(t.ready[..0], IsCondition) == []
    ensures Map(Filter(t.ready[..0], IsExec), Reader(t.name)) == []
  {
  }

  function WithKept(keep: Keep, name: string, kept: seq<Ready>): Keep {
    if kept == [] then keep else keep[name := KeptOf(keep, name) + kept]
  }

  lemma KeepOneMore(keep: Keep, name: string, kept: seq<Ready>, r: Ready)
    ensures var so := WithKept(keep, name, kept);
      WithKept(keep, name, kept + [r]) == so[name := KeptOf(so, name) + [r]]
  {
    var was, so := KeptOf(keep, name), WithKept(keep, name, kept);
    assert was + (kept + [r]) == was + kept + [r];
    if kept == [] {
      assert was + [] == was;
    } else {
      assert so[name := was + kept + [r]] == keep[name := was + kept + [r]];
    }
  }

  /** Reads a spec's tiers into the editor. */
  method TierEditorRows(tiers: seq<Tier>) returns (rows: seq<Row>, gates: seq<Gate>, keep: Keep)
    ensures rows == Rows(tiers) && gates == Gates(tiers)
    ensures KeepsConditions(keep, tiers)
  {
    hide Rows, Gates, KeepsConditions, GatesOf, WithKept, RowOf;
    rows, gates, keep := [], [], map[];
    NoTiers();
    for i := 0 to |tiers|
      invariant rows == Rows(tiers[..i])
      invariant gates == Gates(tiers[..i])
      invariant KeepsConditions(keep, tiers[..i])
    {
      var t := tiers[i];
      assert tiers[..i + 1] == tiers[..i] + [t];
      RowsAppend(tiers[..i], t);
      GatesAppend(tiers[..i], t);
      KeepAppend(keep, tiers[..i], t);
      rows := rows + [RowOf(t)];
      gates, keep := ReadChecks(t, gates, keep);
    }
    assert tiers[..|tiers|] == tiers;
  }

  lemma NoTiers()
    ensures Rows([]) == [] && Gates([]) == [] && KeepsConditions(map[], [])
  {
  }

  lemma RowsAppend(tiers: seq<Tier>, t: Tier)
    ensures Rows(tiers + [t]) == Rows(tiers) + [RowOf(t)]
  {
    hide RowOf;
  }

  lemma KeepAppend(keep: Keep, tiers: seq<Tier>, t: Tier)
    requires KeepsConditions(keep, tiers)
    ensures KeepsConditions(WithKept(keep, t.name, Filter(t.ready, IsCondition)), tiers + [t])
  {
    hide Conditions, Filter;
    var next := WithKept(keep, t.name, Filter(t.ready, IsCondition));
    forall name
      ensures KeptOf(next, name) == Conditions(tiers + [t], name)
    {
      ConditionsAppend(tiers, t, name);
      assert KeptOf(keep, name) == Conditions(tiers, name);
    }
  }

  /** The kept conditions are those of the tiers, by tier name, and no name is kept for nothing. */
  ghost predicate KeepsConditions(keep: Keep, tiers: seq<Tier>) {
    && (forall name :: KeptOf(keep, name) == Conditions(tiers, name))
    && (forall name <- keep :: keep[name] != [])
  }

  lemma GatesAppend(tiers: seq<Tier>, t: Tier)
    ensures Gates(tiers + [t]) == Gates(tiers) + GatesOf(t)
  {
    var lists, own := Map(tiers, GatesOfTier()), GatesOf(t);
    assert Map(tiers + [t], GatesOfTier()) == lists + [own];
    FlattenConcat(lists, [own]);
    assert Flatten([own]) == own + Flatten([]);
  }

  lemma {:induction false} ConditionsAppend(tiers: seq<Tier>, t: Tier, name: string)
    ensures Conditions(tiers + [t], name)
      == Conditions(tiers, name) + (if t.name == name then Filter(t.ready, IsCondition) else [])
  {
    var all := tiers + [t];
    if tiers == [] {
      assert all == [t];
    } else {
      ConditionsAppend(tiers[1..], t, name);
      assert all[1..] == tiers[1..] + [t];
    }
  }

  // ---- spec ----

  predicate Named(r: Row) {
    Trim(r.name) != ""
  }

  function SpecTier(r: Row, gates: seq<Gate>, kept: seq<Ready>): Tier {
    Tier(Trim(r.name), r.kinds, S.Parse(Join(r.labels, ", ")).Seen(),
         Map(r.ready, Plainer()) + Map(Filter(gates, OfTier(r.name)), Writer()) + kept)
  }

  function Speccer(gates: seq<Gate>, keep: Keep): Row -> Tier {
    (r: Row) => SpecTier(r, gates, KeptOf(keep, r.name))
  }

  function TierEditorSpec(rows: seq<Row>, gates: seq<Gate>, keep: Keep): seq<Tier> {
    Map(Filter(rows, Named), Speccer(gates, keep))
  }
}
