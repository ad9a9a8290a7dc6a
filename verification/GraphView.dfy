/** The dependency graph's drawing: which nodes a scope shows and where their boxes go. */
module GraphView {
  import opened Text
  import opened Seqs

  datatype Kind = External | Service | Workload | VirtualMachine | Pod | PVC | NAD | Namespace | OtherKind(name: string)
  datatype Node = Node(id: string, kind: Kind, ns: string, name: string)
  datatype Edge = Edge(from: string, to: string, kind: string)
  datatype Scope = Candidate(members: seq<string>) | OfNamespace(value: string)

  // ---- the nodes of a scope ----

  function Core(nodes: seq<Node>, scope: Scope): set<string> {
    match scope
    case Candidate(members) => set id | id in members
    case OfNamespace(ns) => set n | n in nodes && n.ns == ns :: n.id
  }

  method ScopeNodes(nodes: seq<Node>, edges: seq<Edge>, scope: Scope) returns (ids: set<string>, core: set<string>)
    ensures core == Core(nodes, scope)
    ensures ids == InScope(edges, core)
  {
    core := Core(nodes, scope);
    ids := core;
    for i := 0 to |edges|
      invariant ids == InScope(edges[..i], core)
    {
      assert edges[..i + 1] == edges[..i] + [edges[i]];
      ScopeOneMore(edges[..i], edges[i], core);
      if edges[i].from in core {
        ids := ids + {edges[i].to};
      }
      if edges[i].to in core {
        ids := ids + {edges[i].from};
      }
    }
    assert edges[..|edges|] == edges;
  }

  /** The core and every node an edge joins to it. */
  function InScope(edges: seq<Edge>, core: set<string>): set<string> {
    core + (set e | e in edges && e.from in core :: e.to) + (set e | e in edges && e.to in core :: e.from)
  }

  lemma ScopeOneMore(edges: seq<Edge>, e: Edge, core: set<string>)
    ensures InScope(edges + [e], core) ==
      InScope(edges, core) + (if e.from in core then {e.to} else {}) + (if e.to in core then {e.from} else {})
  {
    forall x
      ensures x in edges + [e] <==> x in edges || x == e
    {
    }
    assert e in edges + [e];
  }

  // ---- columns ----

  const COLUMNS: nat := 6

  function ColumnOf(kind: Kind): (c: nat)
    ensures c < COLUMNS
  {
    match kind
    case External => 0
    case Service => 1
    case Workload => 2
    case VirtualMachine => 2
    case Pod => 2
    case PVC => 3
    case NAD => 4
    case Namespace => 5
    case OtherKind(_) => 2
  }

  predicate InMiddle(k: Kind) {
    k.Workload? || k.VirtualMachine? || k.Pod? || k.OtherKind?
  }

  /** What reaches in from outside, services, workloads, volumes, networks and namespaces, from left to right. */
  predicate LeftOf(a: Kind, b: Kind) {
    || (a.External? && !b.External?)
    || (a.Service? && !b.External? && !b.Service?)
    || (InMiddle(a) && (b.PVC? || b.NAD? || b.Namespace?))
    || (a.PVC? && (b.NAD? || b.Namespace?))
    || (a.NAD? && b.Namespace?)
  }

  lemma ColumnsAre(a: Kind, b: Kind)
    ensures ColumnOf(a) < ColumnOf(b) <==> LeftOf(a, b)
  {
  }

  function Column(nodes: seq<Node>, c: nat): seq<Node> {
    Filter(nodes, (n: Node) => ColumnOf(n.kind) == c)
  }

  /** The columns up to c that have a node, in ascending order. */
  function UsedUpTo(nodes: seq<Node>, c: nat): seq<nat> {
    if c == 0 then [] else UsedUpTo(nodes, c - 1) + if Column(nodes, c - 1) == [] then [] else [c - 1]
  }

  function Used(nodes: seq<Node>): seq<nat> { UsedUpTo(nodes, COLUMNS) }

  const W := 168
  const H := 22
  const GX := 64
  const GY := 10
  const PAD := 8

  datatype Pos = Pos(x: int, y: int)

  function Spot(ci: nat, ri: nat): Pos { Pos(PAD + ci * (W + GX), PAD + ri * (H + GY)) }

  predicate DistinctIds(nodes: seq<Node>) {
    forall i, j | 0 <= i < j < |nodes| :: nodes[i].id != nodes[j].id
  }

  type Columns = map<nat, seq<Node>>

  /** cols[c] = cols[c] || []; cols[c].push(n) */
  method FillColumns(nodes: seq<Node>) returns (cols: Columns)
    ensures forall c: nat :: c in cols <==> Column(nodes, c) != []
    ensures forall c <- cols :: cols[c] == Column(nodes, c)
  {
    hide Column;
    cols := map[];
    NoColumns();
    for i := 0 to |nodes|
      invariant forall c: nat :: c in cols <==> Column(nodes[..i], c) != []
      invariant forall c <- cols :: cols[c] == Column(nodes[..i], c)
    {
      var c := ColumnOf(nodes[i].kind);
      forall x: nat
        ensures Column(nodes[..i + 1], x) == if x == c then Column(nodes[..i], x) + [nodes[i]] else Column(nodes[..i], x)
      {
        ColumnOneMore(nodes, i, x);
      }
      cols := cols[c := (if c in cols then cols[c] else []) + [nodes[i]]];
    }
    assert nodes[..|nodes|] == nodes;
  }

  lemma NoColumns()
    ensures forall c: nat :: Column([], c) == []
  {
  }

  lemma ColumnOneMore(nodes: seq<Node>, i: nat, c: nat)
    requires i < |nodes|
    ensures Column(nodes[..i + 1], c) ==
      if ColumnOf(nodes[i].kind) == c then Column(nodes[..i], c) + [nodes[i]] else Column(nodes[..i], c)
  {
    FilterTake(nodes, i, (n: Node) => ColumnOf(n.kind) == c);
  }

  /** Where every node of the first ci columns and of the first ri rows of column ci is. */
  ghost predicate PlacedUpTo(pos: map<string, Pos>, nodes: seq<Node>, ci: nat, ri: nat) {
    forall c, r | 0 <= c < |Used(nodes)| && 0 <= r < |Column(nodes, Used(nodes)[c])| && (c < ci || (c == ci && r < ri)) ::
      var id := Column(nodes, Used(nodes)[c])[r].id; id in pos && pos[id] == Spot(c, r)
  }

  /** The nodes of the first ci columns and of the first ri rows of column ci have a place. */
  ghost predicate ListedUpTo(pos: map<string, Pos>, nodes: seq<Node>, ci: nat, ri: nat) {
    forall c, r | 0 <= c < |Used(nodes)| && 0 <= r < |Column(nodes, Used(nodes)[c])| && (c < ci || (c == ci && r < ri)) ::
      Column(nodes, Used(nodes)[c])[r].id in pos
  }

  lemma {:induction false} UsedUpToIs(nodes: seq<Node>, c: nat)
    ensures var u := UsedUpTo(nodes, c);
      && (forall i, j | 0 <= i < j < |u| :: u[i] < u[j])
      && (forall x <- u :: x < c && Column(nodes, x) != [])
      && (forall x: nat | x < c && Column(nodes, x) != [] :: x in u)
  {
    hide Column;
    if c > 0 {
      UsedUpToIs(nodes, c - 1);
      var before, u := UsedUpTo(nodes, c - 1), UsedUpTo(nodes, c);
      forall i | 0 <= i < |before|
        ensures before[i] < c - 1
      {
        assert before[i] in before;
      }
    }
  }

  lemma UsedIs(nodes: seq<Node>)
    ensures var u := Used(nodes);
      && (forall i, j | 0 <= i < j < |u| :: u[i] < u[j])
      && (forall i | 0 <= i < |u| :: Column(nodes, u[i]) != [])
      && (forall n <- nodes :: ColumnOf(n.kind) in u)
  {
    hide Column, UsedUpTo, ColumnOf;
    UsedUpToIs(nodes, COLUMNS);
    var u := Used(nodes);
    forall i | 0 <= i < |u|
      ensures Column(nodes, u[i]) != []
    {
      assert u[i] in u;
    }
    forall n | n in nodes
      ensures ColumnOf(n.kind) in u
    {
      ColumnHas(nodes, n);
    }
  }

  lemma ColumnHas(nodes: seq<Node>, n: Node)
    requires n in nodes
    ensures n in Column(nodes, ColumnOf(n.kind))
  {
    FilterIn(nodes, (x: Node) => ColumnOf(x.kind) == ColumnOf(n.kind));
  }

  lemma ColumnIn(nodes: seq<Node>, c: nat, r: nat)
    requires r < |Column(nodes, c)|
    ensures Column(nodes, c)[r] in nodes && ColumnOf(Column(nodes, c)[r].kind) == c
  {
    FilterIn(nodes, (n: Node) => ColumnOf(n.kind) == c);
    assert Column(nodes, c)[r] in Column(nodes, c);
  }

  lemma {:induction false} ColumnDistinct(nodes: seq<Node>, c: nat)
    requires DistinctIds(nodes)
    ensures DistinctIds(Column(nodes, c))
  {
    if nodes != [] {
      ColumnDistinct(nodes[1..], c);
      FilterIn(nodes[1..], (n: Node) => ColumnOf(n.kind) == c);
      assert forall n <- nodes[1..] :: n.id != nodes[0].id;
    }
  }

  /** One id stands in one column and row. */
  lemma OneCell(nodes: seq<Node>, c: nat, r: nat, c': nat, r': nat)
    requires DistinctIds(nodes) && r < |Column(nodes, c)| && r' < |Column(nodes, c')|
    requires Column(nodes, c)[r].id == Column(nodes, c')[r'].id
    ensures c == c' && r == r'
  {
    hide Column, ColumnOf;
    ColumnIn(nodes, c, r);
    ColumnIn(nodes, c', r');
    ColumnDistinct(nodes, c);
    var i :| 0 <= i < |nodes| && nodes[i] == Column(nodes, c)[r];
    var j :| 0 <= j < |nodes| && nodes[j] == Column(nodes, c')[r'];
  }

  lemma PlaceOne(pos: map<string, Pos>, nodes: seq<Node>, ci: nat, ri: nat)
    requires ci < |Used(nodes)| && ri < |Column(nodes, Used(nodes)[ci])|
    ensures var next := pos[Column(nodes, Used(nodes)[ci])[ri].id := Spot(ci, ri)];
      && (ListedUpTo(pos, nodes, ci, ri) ==> ListedUpTo(next, nodes, ci, ri + 1))
      && (DistinctIds(nodes) && PlacedUpTo(pos, nodes, ci, ri) ==> PlacedUpTo(next, nodes, ci, ri + 1))
  {
    hide Column, Used, Spot, DistinctIds;
    var used := Used(nodes);
    UsedIs(nodes);
    var id := Column(nodes, used[ci])[ri].id;
    var next := pos[id := Spot(ci, ri)];
    if DistinctIds(nodes) && PlacedUpTo(pos, nodes, ci, ri) {
      forall c, r | 0 <= c < |used| && 0 <= r < |Column(nodes, used[c])| && (c < ci || (c == ci && r < ri + 1))
        ensures var x := Column(nodes, used[c])[r].id; x in next && next[x] == Spot(c, r)
      {
        if Column(nodes, used[c])[r].id == id {
          OneCell(nodes, used[c], r, used[ci], ri);
        }
      }
    }
  }

  /** Every node is placed at its column and row; of nodes with one id the last place is kept. */
  method Layout(nodes: seq<Node>) returns (pos: map<string, Pos>)
    ensures DistinctIds(nodes) ==> PlacedUpTo(pos, nodes, |Used(nodes)|, 0)
    ensures ListedUpTo(pos, nodes, |Used(nodes)|, 0)
    ensures forall id <- pos :: exists n <- nodes :: n.id == id
  {
    hide Column, Used, DistinctIds;
    var cols := FillColumns(nodes);
    var used := SortedKeys(nodes, cols);
    pos := map[];
    UsedIs(nodes);
    for ci := 0 to |used|
      invariant DistinctIds(nodes) ==> PlacedUpTo(pos, nodes, ci, 0)
      invariant ListedUpTo(pos, nodes, ci, 0)
      invariant forall id <- pos :: exists n <- nodes :: n.id == id
    {
      var col := cols[used[ci]];
      for ri := 0 to |col|
        invariant DistinctIds(nodes) ==> PlacedUpTo(pos, nodes, ci, ri)
        invariant ListedUpTo(pos, nodes, ci, ri)
        invariant forall id <- pos :: exists n <- nodes :: n.id == id
      {
        ColumnIn(nodes, used[ci], ri);
        PlaceOne(pos, nodes, ci, ri);
        pos := pos[col[ri].id := Pos(PAD + ci * (W + GX), PAD + ri * (H + GY))];
      }
    }
  }

  /** Object.keys(cols).map(Number).sort() */
  method SortedKeys(nodes: seq<Node>, cols: Columns) returns (used: seq<nat>)
    requires forall c: nat :: c in cols <==> Column(nodes, c) != []
    ensures used == Used(nodes)
  {
    hide Column;
    used := [];
    for c := 0 to COLUMNS
      invariant used == UsedUpTo(nodes, c)
    {
      if c in cols {
        used := used + [c];
      }
    }
  }

  // ---- the drawing ----

  /** The scoped nodes in the order that localeCompare gives. */
  function Drawn(nodes: seq<Node>, ids: set<string>, before: (Node, Node) -> bool): seq<Node> {
    SortBy(Filter(nodes, (n: Node) => n.id in ids), before)
  }

  function Longest(nodes: seq<Node>, used: seq<nat>): nat {
    if used == [] then 0
    else
      var rest := Longest(nodes, used[1..]);
      if |Column(nodes, used[0])| > rest then |Column(nodes, used[0])| else rest
  }

  function Width(nodes: seq<Node>): int { 2 * PAD + |Used(nodes)| * W + (|Used(nodes)| - 1) * GX }

  /** None is the maximum of nothing. */
  function Height(nodes: seq<Node>): Option<int> {
    if Used(nodes) == [] then None else Some(2 * PAD + Longest(nodes, Used(nodes)) * (H + GY) - GY)
  }

  /** Boxes are 168 by 22, 64 apart from column to column and 10 from row to row, with 8 around the drawing. */
  lemma DrawingSays(nodes: seq<Node>, c: nat, r: nat)
    ensures Spot(c, r) == Pos(8 + 232 * c, 8 + 32 * r)
    ensures Width(nodes) == 232 * |Used(nodes)| - 48
    ensures Used(nodes) != [] ==> Height(nodes) == Some(32 * Longest(nodes, Used(nodes)) + 6)
  {
  }

  /** Two boxes keep the gap between columns or the gap between rows. */
  predicate Apart(p: Pos, q: Pos) {
    p.x + W + GX <= q.x || q.x + W + GX <= p.x || p.y + H + GY <= q.y || q.y + H + GY <= p.y
  }

  predicate Inside(nodes: seq<Node>, p: Pos) {
    PAD <= p.x <= Width(nodes) - PAD - W && PAD <= p.y && Height(nodes).Some? && p.y <= Height(nodes).value - PAD - H
  }

  lemma {:induction false} LongestIs(nodes: seq<Node>, used: seq<nat>, i: nat)
    requires i < |used|
    ensures |Column(nodes, used[i])| <= Longest(nodes, used)
  {
    hide Column;
    if i > 0 {
      LongestIs(nodes, used[1..], i - 1);
    }
  }

  lemma CellOf(nodes: seq<Node>, n: Node) returns (c: nat, r: nat)
    requires n in nodes
    ensures c < |Used(nodes)| && Used(nodes)[c] == ColumnOf(n.kind)
    ensures r < |Column(nodes, Used(nodes)[c])| && Column(nodes, Used(nodes)[c])[r] == n
  {
    hide Column, Used, ColumnOf;
    UsedIs(nodes);
    ColumnHas(nodes, n);
    var used := Used(nodes);
    c :| 0 <= c < |used| && used[c] == ColumnOf(n.kind);
    r :| 0 <= r < |Column(nodes, used[c])| && Column(nodes, used[c])[r] == n;
  }

  lemma AllListed(pos: map<string, Pos>, nodes: seq<Node>)
    requires ListedUpTo(pos, nodes, |Used(nodes)|, 0)
    ensures forall n <- nodes :: n.id in pos
  {
    hide Column, Used, ColumnOf;
    forall n | n in nodes
      ensures n.id in pos
    {
      var c, r := CellOf(nodes, n);
    }
  }

  lemma SpotsApart(c: nat, r: nat, c': nat, r': nat)
    ensures (c, r) != (c', r') ==> Apart(Spot(c, r), Spot(c', r'))
    ensures c < c' <==> Spot(c, r).x < Spot(c', r').x
  {
  }

  /**
   * Boxes of different nodes keep their gaps exactly when no two nodes share an id;
   * every box is within the drawing, and columns run from left to right by kind.
   */
  lemma BoxesApart(nodes: seq<Node>, pos: map<string, Pos>)
    requires DistinctIds(nodes) ==> PlacedUpTo(pos, nodes, |Used(nodes)|, 0)
    requires ListedUpTo(pos, nodes, |Used(nodes)|, 0)
    ensures forall n <- nodes :: n.id in pos
    ensures DistinctIds(nodes)
      <==> forall i, j | 0 <= i < j < |nodes| :: Apart(pos[nodes[i].id], pos[nodes[j].id])
    ensures DistinctIds(nodes) ==> forall n <- nodes :: Inside(nodes, pos[n.id])
    ensures DistinctIds(nodes) ==> forall a, b | a in nodes && b in nodes ::
      LeftOf(a.kind, b.kind) <==> pos[a.id].x < pos[b.id].x
  {
    hide Column, Used, ColumnOf, LeftOf, Spot, Inside, Longest;
    AllListed(pos, nodes);
    if DistinctIds(nodes) {
      UsedIs(nodes);
      forall n | n in nodes
        ensures Inside(nodes, pos[n.id])
      {
        var c, r := CellOf(nodes, n);
        InsideSpot(nodes, c, r);
      }
      forall a, b | a in nodes && b in nodes
        ensures a.id != b.id ==> Apart(pos[a.id], pos[b.id])
        ensures LeftOf(a.kind, b.kind) <==> pos[a.id].x < pos[b.id].x
      {
        ColumnsAre(a.kind, b.kind);
        var c, r := CellOf(nodes, a);
        var c', r' := CellOf(nodes, b);
        SpotsApart(c, r, c', r');
      }
    }
  }

  lemma InsideSpot(nodes: seq<Node>, c: nat, r: nat)
    requires c < |Used(nodes)| && r < |Column(nodes, Used(nodes)[c])|
    ensures Inside(nodes, Spot(c, r))
  {
    hide Column, Used, Longest;
    LongestIs(nodes, Used(nodes), c);
  }

  /** The drawing has a height exactly when the graph holds a node of the scope, whatever ids the scope lists. */
  lemma DrawingHasHeight(nodes: seq<Node>, ids: set<string>, before: (Node, Node) -> bool)
    ensures Height(Drawn(nodes, ids, before)).Some? <==> exists n <- nodes :: n.id in ids
  {
    hide Column, Used, SortBy, Filter;
    var some := Filter(nodes, (n: Node) => n.id in ids);
    var drawn := Drawn(nodes, ids, before);
    FilterIn(nodes, (n: Node) => n.id in ids);
    SortIsPermutation(some, before);
    UsedIs(drawn);
    if Used(drawn) != [] {
      ColumnIn(drawn, Used(drawn)[0], 0);
    }
  }

  /** A member of a candidate, or a node an edge joins to one. */
  predicate MemberOrNeighbour(edges: seq<Edge>, members: seq<string>, id: string) {
    || id in members
    || (exists e <- edges :: e.from in members && e.to == id)
    || (exists e <- edges :: e.to in members && e.from == id)
  }

  /**
   * What a namespace shows always has a height. What a candidate shows has one exactly when the
   * graph still holds a member of it or a node an edge joins to one.
   */
  lemma ScopeHasHeight(nodes: seq<Node>, edges: seq<Edge>, scope: Scope, before: (Node, Node) -> bool)
    requires InScope(edges, Core(nodes, scope)) != {}
    ensures var height := Height(Drawn(nodes, InScope(edges, Core(nodes, scope)), before));
      match scope
      case OfNamespace(_) => height.Some?
      case Candidate(members) => height.Some? <==> exists n <- nodes :: MemberOrNeighbour(edges, members, n.id)
  {
    hide Drawn, Height;
    var core := Core(nodes, scope);
    var ids := InScope(edges, core);
    DrawingHasHeight(nodes, ids, before);
    match scope
    case OfNamespace(ns) =>
      assert core != {};
      var id :| id in core;
      var n :| n in nodes && n.ns == ns && n.id == id;
    case Candidate(members) =>
      forall n | n in nodes
        ensures n.id in ids <==> MemberOrNeighbour(edges, members, n.id)
      {
      }
  }

  /** A candidate whose member the graph no longer holds has ids to draw and no height to draw them in. */
  lemma NoHeightExample(before: (Node, Node) -> bool)
    ensures var ids := InScope([], Core([], Candidate(["gone"])));
      ids != {} && Height(Drawn([], ids, before)) == None
  {
    var ids := InScope([], Core([], Candidate(["gone"])));
    assert "gone" in ["gone"];
    assert "gone" in ids;
    DrawingHasHeight([], ids, before);
  }

  function DrawnEdges(edges: seq<Edge>, pos: map<string, Pos>, kinds: seq<string>): seq<Edge> {
    Filter(edges, (e: Edge) => e.from in pos && e.to in pos && e.kind in kinds)
  }

  /** An edge of the core is drawn exactly when its kind is chosen and the graph holds both its ends. */
  lemma CoreEdgesDrawn(nodes: seq<Node>, edges: seq<Edge>, core: set<string>, before: (Node, Node) -> bool,
                       pos: map<string, Pos>, kinds: seq<string>, e: Edge)
    requires var drawn := Drawn(nodes, InScope(edges, core), before);
      && ListedUpTo(pos, drawn, |Used(drawn)|, 0)
      && forall id <- pos :: exists n <- drawn :: n.id == id
    requires e in edges && (e.from in core || e.to in core)
    ensures e in DrawnEdges(edges, pos, kinds)
      <==> e.kind in kinds && (exists n <- nodes :: n.id == e.from) && (exists n <- nodes :: n.id == e.to)
  {
    hide Column, Used, SortBy, Filter, ListedUpTo;
    var ids := InScope(edges, core);
    var some := Filter(nodes, (n: Node) => n.id in ids);
    var drawn := Drawn(nodes, ids, before);
    FilterIn(nodes, (n: Node) => n.id in ids);
    SortIsPermutation(some, before);
    AllListed(pos, drawn);
    FilterIn(edges, (x: Edge) => x.from in pos && x.to in pos && x.kind in kinds);
    forall id: string | id in ids
      ensures id in pos <==> exists n <- nodes :: n.id == id
    {
    }
  }
}
