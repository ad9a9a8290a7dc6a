/** The priority-lane editor: items in lanes, moved, inserted and removed one at a time. */
module Lanes {
  import opened Text
  import opened Seqs

  datatype Item = Item(v: string, priority: int)

  function NameOf(c: Item): string { c.v }
  function PriorityOf(c: Item): int { c.priority }

  function Others(items: seq<Item>, v: string): seq<Item> {
    Filter(items, (c: Item) => c.v != v)
  }

  /** findIndex(c => c.v === v), the length standing for -1 */
  function PlaceOf(items: seq<Item>, v: string): (i: nat)
    ensures i <= |items|
    ensures i < |items| ==> items[i].v == v
    ensures forall j | 0 <= j < i :: items[j].v != v
  {
    IndexOf(Map(items, NameOf), v)
  }

  /** The item put before another one, or last when that is not there. */
  function Placed(items: seq<Item>, item: Item, before: Option<string>): seq<Item> {
    var at := if before.Some? then PlaceOf(items, before.value) else |items|;
    items[..at] + [item] + items[at..]
  }

  function Lower(items: seq<Item>, p: int): set<int> {
    set c | c in items && c.priority <= p :: c.priority
  }

  /** The lane an item of priority p ends up in: how many distinct priorities are at most p. */
  function LaneOf(items: seq<Item>, p: int): nat {
    |Lower(items, p)|
  }

  /** Every item in its lane, lanes numbered without gaps. */
  function Closed(items: seq<Item>): (r: seq<Item>)
    ensures |r| == |items| && forall i | 0 <= i < |r| :: r[i] == Item(items[i].v, LaneOf(items, items[i].priority))
  {
    seq(|items|, i requires 0 <= i < |items| => Item(items[i].v, LaneOf(items, items[i].priority)))
  }

  /** What dropping v into a lane, on the item `before` or on the lane itself, makes of the field. */
  function PutIn(items: seq<Item>, v: string, priority: int, before: Option<string>): seq<Item> {
    Closed(Placed(Others(items, v), Item(v, priority), before))
  }

  method Renumber(n: seq<Item>) returns (r: seq<Item>)
    ensures r == Closed(n)
  {
    hide LaneOf, Ascending;
    var used := Ascending(Map(n, PriorityOf));
    UsedPriorities(n, used);
    r := [];
    for i := 0 to |n|
      invariant |r| == i && forall j | 0 <= j < i :: r[j] == Item(n[j].v, LaneOf(n, n[j].priority))
    {
      assert n[i] in n;
      r := r + [Item(n[i].v, IndexOf(used, n[i].priority) + 1)];
    }
  }

  class LanesField {
    var chosen: seq<Item>

    constructor (items: seq<Item>)
      ensures chosen == items
    {
      chosen := items;
    }

    /** Filter out, splice in, then renumber by the place of each priority among those in use. */
    method Put(v: string, priority: int, before: Option<string>)
      modifies this
      ensures chosen == PutIn(old(chosen), v, priority, before)
    {
      hide Closed, Filter, PlaceOf;
      var n := Filter(chosen, (c: Item) => c.v != v);
      var at := if before.Some? then PlaceOf(n, before.value) else |n|;
      n := n[..at] + [Item(v, priority)] + n[at..];
      chosen := Renumber(n);
    }

    method Remove(v: string)
      modifies this
      ensures chosen == Others(old(chosen), v)
    {
      chosen := Filter(chosen, (c: Item) => c.v != v);
    }
  }

  // ---- a priority's place among those in use is its lane ----

  predicate InLane(items: seq<Item>, p: int) {
    exists c <- items :: c.priority == p
  }

  lemma UsedAre(items: seq<Item>, used: seq<int>)
    requires used == Ascending(Map(items, PriorityOf))
    ensures forall i, j | 0 <= i < j < |used| :: used[i] < used[j]
    ensures forall i | 0 <= i < |used| :: InLane(items, used[i])
    ensures forall c <- items :: c.priority in used
  {
    hide Ascending;
    var all := Map(items, PriorityOf);
    AscendingIs(all);
    forall i | 0 <= i < |used|
      ensures InLane(items, used[i])
    {
      var k :| 0 <= k < |all| && all[k] == used[i];
      assert items[k] in items;
    }
    forall c | c in items
      ensures c.priority in all
    {
      var k :| 0 <= k < |items| && items[k] == c;
      assert all[k] in all;
    }
  }

  function Front(xs: seq<int>): set<int> {
    set x | x in xs
  }

  lemma {:induction false} FrontSize(xs: seq<int>)
    requires forall i, j | 0 <= i < j < |xs| :: xs[i] < xs[j]
    ensures |Front(xs)| == |xs|
  {
    if xs == [] {
      assert Front(xs) == {};
    } else {
      var n := |xs| - 1;
      FrontSize(xs[..n]);
      assert xs == xs[..n] + [xs[n]];
      assert Front(xs) == Front(xs[..n]) + {xs[n]};
    }
  }

  /** The used priorities up to one of them are the priorities at most it. */
  lemma FrontIsLower(items: seq<Item>, used: seq<int>, i: nat)
    requires i < |used| && forall j, k | 0 <= j < k < |used| :: used[j] < used[k]
    requires forall k | 0 <= k < |used| :: InLane(items, used[k])
    requires forall c <- items :: c.priority in used
    ensures Front(used[..i + 1]) == Lower(items, used[i])
  {
    var front, lower := Front(used[..i + 1]), Lower(items, used[i]);
    forall x | x in front
      ensures x in lower
    {
      var k :| 0 <= k < i + 1 && used[k] == x;
      var c :| c in items && c.priority == used[k];
    }
    forall x | x in lower
      ensures x in front
    {
      var k :| 0 <= k < |used| && used[k] == x;
      assert used[..i + 1][k] == x;
    }
  }

  lemma UsedPriorities(items: seq<Item>, used: seq<int>)
    requires used == Ascending(Map(items, PriorityOf))
    ensures forall c <- items :: IndexOf(used, c.priority) + 1 == LaneOf(items, c.priority)
  {
    hide Ascending, Front, Lower, IndexOf;
    UsedAre(items, used);
    forall c | c in items
      ensures IndexOf(used, c.priority) + 1 == LaneOf(items, c.priority)
    {
      var i := IndexOf(used, c.priority);
      FrontSize(used[..i + 1]);
      FrontIsLower(items, used, i);
    }
  }

  // ---- lanes are numbered without gaps, and keep their order ----

  lemma LowerGrows(items: seq<Item>, p: int, q: int)
    requires p < q && InLane(items, q)
    ensures LaneOf(items, p) < LaneOf(items, q)
  {
    var a, b := Lower(items, p), Lower(items, q);
    var c :| c in items && c.priority == q;
    assert q in b && q !in a && a <= b;
    SmallerSet(a, b, q);
  }

  lemma SmallerSet(a: set<int>, b: set<int>, x: int)
    requires a <= b && x in b && x !in a
    ensures |a| < |b|
  {
    assert b == a + (b - a);
    assert |b - a| >= |{x}| by {
      assert b - a == {x} + (b - a - {x});
    }
  }

  /** The order of lanes is the order of priorities: strictly lower stays lower, equal stays equal. */
  lemma LanesKeepOrder(items: seq<Item>, i: nat, j: nat)
    requires i < |items| && j < |items|
    ensures var r := Closed(items);
      && (r[i].priority < r[j].priority <==> items[i].priority < items[j].priority)
      && (r[i].priority == r[j].priority <==> items[i].priority == items[j].priority)
  {
    hide LaneOf;
    assert items[i] in items && items[j] in items;
    if items[i].priority < items[j].priority {
      LowerGrows(items, items[i].priority, items[j].priority);
    } else if items[j].priority < items[i].priority {
      LowerGrows(items, items[j].priority, items[i].priority);
    }
  }

  /** Lanes run from 1 without a gap. */
  predicate Contiguous(items: seq<Item>) {
    && (forall i | 0 <= i < |items| :: items[i].priority >= 1)
    && (forall i, p | 0 <= i < |items| && 1 <= p < items[i].priority :: InLane(items, p))
  }

  /** The place of an item of the highest priority up to q, the length if there is none. */
  function TopUpTo(items: seq<Item>, q: int): (k: nat)
    ensures k <= |items|
    ensures k < |items| ==> items[k].priority <= q
    ensures forall i | 0 <= i < |items| && items[i].priority <= q :: k < |items| && items[i].priority <= items[k].priority
  {
    if items == [] then 0
    else
      var k := TopUpTo(items[1..], q);
      if items[0].priority <= q && (k == |items| - 1 || items[1..][k].priority <= items[0].priority) then 0 else k + 1
  }

  lemma TopLane(items: seq<Item>, q: int)
    ensures var k := TopUpTo(items, q);
      && (k == |items| ==> LaneOf(items, q) == 0)
      && (k < |items| ==>
           items[k] in items && LaneOf(items, items[k].priority) == LaneOf(items, q)
           && LaneOf(items, items[k].priority - 1) == LaneOf(items, q) - 1)
  {
    hide TopUpTo;
    var k := TopUpTo(items, q);
    if k == |items| {
      assert Lower(items, q) == {};
    } else {
      var m := items[k].priority;
      assert items[k] in items;
      assert Lower(items, m) == Lower(items, q);
      assert Lower(items, q) == Lower(items, m - 1) + {m};
    }
  }

  /** Below a lane there is a lane of every smaller number. */
  lemma {:induction false} LaneBelow(items: seq<Item>, q: int, p: int)
    requires 1 <= p <= LaneOf(items, q)
    ensures exists c <- items :: LaneOf(items, c.priority) == p
    decreases LaneOf(items, q)
  {
    hide LaneOf, TopUpTo;
    TopLane(items, q);
    if p < LaneOf(items, q) {
      LaneBelow(items, items[TopUpTo(items, q)].priority - 1, p);
    }
  }

  lemma ClosedIsContiguous(items: seq<Item>)
    ensures Contiguous(Closed(items))
  {
    hide LaneOf;
    var r := Closed(items);
    forall i | 0 <= i < |r|
      ensures r[i].priority >= 1
      ensures forall p | 1 <= p < r[i].priority :: InLane(r, p)
    {
      assert items[i] in items;
      LaneIsPositive(items, items[i]);
      forall p | 1 <= p < r[i].priority
        ensures InLane(r, p)
      {
        LaneBelow(items, items[i].priority, p);
        var c :| c in items && LaneOf(items, c.priority) == p;
        var k :| 0 <= k < |items| && items[k] == c;
        assert r[k] in r;
      }
    }
  }

  lemma LaneIsPositive(items: seq<Item>, c: Item)
    requires c in items
    ensures LaneOf(items, c.priority) >= 1
  {
    assert c.priority in Lower(items, c.priority);
    assert Lower(items, c.priority) == {c.priority} + (Lower(items, c.priority) - {c.priority});
  }

  // ---- the result of a put ----

  predicate DistinctItems(items: seq<Item>) {
    forall i, j | 0 <= i < j < |items| :: items[i].v != items[j].v
  }

  lemma {:induction false} OthersDistinct(items: seq<Item>, v: string)
    requires DistinctItems(items)
    ensures DistinctItems(Others(items, v))
  {
    if items != [] {
      OthersDistinct(items[1..], v);
      FilterIn(items[1..], (c: Item) => c.v != v);
      var rest := Others(items[1..], v);
      forall j | 0 <= j < |rest|
        ensures rest[j].v != items[0].v
      {
        assert rest[j] in rest;
        var k :| 0 <= k < |items| - 1 && items[1..][k] == rest[j];
        assert items[k + 1] == rest[j];
      }
    }
  }

  lemma OthersAre(items: seq<Item>, v: string)
    ensures forall c :: c in Others(items, v) <==> c in items && c.v != v
    ensures forall i | 0 <= i < |Others(items, v)| :: Others(items, v)[i].v != v
  {
    var n := Others(items, v);
    FilterIn(items, (c: Item) => c.v != v);
    assert forall i | 0 <= i < |n| :: n[i] in n;
  }

  /** Where a put places the item. */
  function PutAt(items: seq<Item>, v: string, before: Option<string>): nat {
    var n := Others(items, v);
    if before.Some? then PlaceOf(n, before.value) else |n|
  }

  /** The priority each place of the result had before the lanes were closed. */
  function GivenPriority(items: seq<Item>, v: string, priority: int, before: Option<string>, i: nat): int
    requires i <= |Others(items, v)|
  {
    var n, at := Others(items, v), PutAt(items, v, before);
    if i < at then n[i].priority else if i == at then priority else n[i - 1].priority
  }

  lemma PlacedIs(items: seq<Item>, v: string, priority: int, before: Option<string>)
    ensures var n, at := Others(items, v), PutAt(items, v, before);
      var placed := Placed(n, Item(v, priority), before);
      && at <= |n| && |placed| == |n| + 1
      && (forall i | 0 <= i < |placed| :: placed[i].v == if i < at then n[i].v else if i == at then v else n[i - 1].v)
      && (forall i | 0 <= i < |placed| :: placed[i].priority == GivenPriority(items, v, priority, before, i))
  {
    hide Others;
  }

  lemma PutNameAt(items: seq<Item>, v: string, priority: int, before: Option<string>, i: nat)
    requires i <= |Others(items, v)|
    ensures var n, r, at := Others(items, v), PutIn(items, v, priority, before), PutAt(items, v, before);
      |r| == |n| + 1 && at <= |n| && r[i].v == if i < at then n[i].v else if i == at then v else n[i - 1].v
  {
    hide LaneOf, Others, PlaceOf;
    PlacedIs(items, v, priority, before);
  }

  /**
   * After a put, from any state: the other items keep their order in the list,
   * and the moved one is there once, directly before `before` when that item
   * is there and last otherwise.
   */
  lemma PutKeepsList(items: seq<Item>, v: string, priority: int, before: Option<string>)
    ensures var n, r, at := Others(items, v), PutIn(items, v, priority, before), PutAt(items, v, before);
      && at < |r| == |n| + 1
      && r[at].v == v
      && Map(r[..at] + r[at + 1..], NameOf) == Map(n, NameOf)
      && (if before.Some? && exists c <- n :: c.v == before.value
          then at + 1 < |r| && r[at + 1].v == before.value
          else at == |n|)
  {
    hide PutIn, Others, PlaceOf;
    var n, r, at := Others(items, v), PutIn(items, v, priority, before), PutAt(items, v, before);
    PlaceIs(n, before);
    PutNameAt(items, v, priority, before, 0);
    PutNameAt(items, v, priority, before, at);
    if at < |n| {
      PutNameAt(items, v, priority, before, at + 1);
    }
    var rest := r[..at] + r[at + 1..];
    forall k | 0 <= k < |n|
      ensures rest[k].v == n[k].v
    {
      PutNameAt(items, v, priority, before, if k < at then k else k + 1);
    }
    assert Map(rest, NameOf) == Map(n, NameOf);
  }

  lemma PutKeepsDistinct(items: seq<Item>, v: string, priority: int, before: Option<string>)
    requires DistinctItems(items)
    ensures DistinctItems(PutIn(items, v, priority, before))
  {
    hide PutIn, Others, PlaceOf;
    var n, r, at := Others(items, v), PutIn(items, v, priority, before), PutAt(items, v, before);
    OthersAre(items, v);
    OthersDistinct(items, v);
    PutNameAt(items, v, priority, before, 0);
    forall i, j | 0 <= i < j < |r|
      ensures r[i].v != r[j].v
    {
      PutNameAt(items, v, priority, before, i);
      PutNameAt(items, v, priority, before, j);
    }
  }

  lemma PlaceIs(n: seq<Item>, before: Option<string>)
    ensures before.Some? ==> (PlaceOf(n, before.value) < |n| <==> exists c <- n :: c.v == before.value)
  {
    if before.Some? {
      var at := PlaceOf(n, before.value);
      if at < |n| {
        assert n[at] in n;
      }
      if c :| c in n && c.v == before.value {
        var k :| 0 <= k < |n| && n[k] == c;
      }
    }
  }

  /**
   * After a put, from any state, lanes run from 1 without a gap, and their
   * order is that of the priorities, the moved item counting with the one it
   * was given: lower stays lower and equal stays equal.
   */
  lemma PutKeepsLanes(items: seq<Item>, v: string, priority: int, before: Option<string>)
    ensures var r := PutIn(items, v, priority, before);
      && |r| == |Others(items, v)| + 1
      && Contiguous(r)
      && (forall i, j | 0 <= i < |r| && 0 <= j < |r| ::
            var p, q := GivenPriority(items, v, priority, before, i), GivenPriority(items, v, priority, before, j);
            (r[i].priority < r[j].priority <==> p < q) && (r[i].priority == r[j].priority <==> p == q))
  {
    hide LaneOf, Contiguous, Others, GivenPriority, Placed;
    var n := Others(items, v);
    var placed := Placed(n, Item(v, priority), before);
    var r := PutIn(items, v, priority, before);
    PlacedIs(items, v, priority, before);
    ClosedIsContiguous(placed);
    forall i, j | 0 <= i < |r| && 0 <= j < |r|
      ensures (r[i].priority < r[j].priority <==> placed[i].priority < placed[j].priority)
      ensures (r[i].priority == r[j].priority <==> placed[i].priority == placed[j].priority)
    {
      LanesKeepOrder(placed, i, j);
    }
  }

  // ---- removal, and runs ----

  /** Removing an item leaves the lanes contiguous exactly when it was not alone below the top lane. */
  lemma RemovalLeavesGap(items: seq<Item>, v: string)
    requires Contiguous(items)
    ensures Contiguous(Others(items, v))
      <==> forall c <- items :: c.v == v ==>
             (exists d <- items :: d.v != v && d.priority == c.priority)
             || (forall d <- items :: d.v != v ==> d.priority < c.priority)
  {
    hide Filter;
    var n := Others(items, v);
    OthersAre(items, v);
    assert forall i | 0 <= i < |n| :: n[i] in n && n[i] in items;
    assert forall i | 0 <= i < |items| :: items[i] in items;
    forall p
      ensures InLane(items, p) <==> InLane(n, p) || exists c <- items :: c.v == v && c.priority == p
    {
    }
    if !Contiguous(n) {
      var i, p :| 0 <= i < |n| && 1 <= p < n[i].priority && !InLane(n, p);
      var k :| 0 <= k < |items| && items[k] == n[i];
      assert InLane(items, p);
      var c :| c in items && c.v == v && c.priority == p;
      assert n[i].v != v && n[i].priority > c.priority;
    }
    if Contiguous(n) {
      forall c | c in items && c.v == v && exists d <- items :: d.v != v && d.priority >= c.priority
        ensures exists d <- items :: d.v != v && d.priority == c.priority
      {
        var d :| d in items && d.v != v && d.priority >= c.priority;
        var k :| 0 <= k < |n| && n[k] == d;
        var m :| 0 <= m < |items| && items[m] == c;
        if c.priority < d.priority {
          assert InLane(n, c.priority);
        }
      }
    }
  }

  datatype Edit = PutItem(v: string, priority: int, before: Option<string>) | RemoveItem(v: string)

  function Apply(items: seq<Item>, edit: Edit): seq<Item> {
    match edit
    case PutItem(v, priority, before) => PutIn(items, v, priority, before)
    case RemoveItem(v) => Others(items, v)
  }

  function ApplyAll(items: seq<Item>, edits: seq<Edit>): seq<Item> {
    if edits == [] then items else Apply(ApplyAll(items, edits[..|edits| - 1]), edits[|edits| - 1])
  }

  /** Every run of edits keeps the items distinct, and ends without a gap when its last edit is a put. */
  lemma {:induction false} RunsKeepItems(items: seq<Item>, edits: seq<Edit>)
    requires DistinctItems(items)
    ensures DistinctItems(ApplyAll(items, edits))
    ensures edits != [] && edits[|edits| - 1].PutItem? ==> Contiguous(ApplyAll(items, edits))
  {
    hide DistinctItems, Contiguous, PutIn, Others;
    if edits != [] {
      var last, now := edits[|edits| - 1], ApplyAll(items, edits[..|edits| - 1]);
      RunsKeepItems(items, edits[..|edits| - 1]);
      match last
      case PutItem(v, priority, before) =>
        PutKeepsDistinct(now, v, priority, before);
        PutKeepsLanes(now, v, priority, before);
      case RemoveItem(v) => OthersDistinct(now, v);
    }
  }

  /** Removing the only item of lane 1 leaves lane 1 empty and the other item in lane 2. */
  lemma RemovalGapExample()
    ensures var items := [Item("a", 1), Item("b", 2)];
      Contiguous(items) && Others(items, "a") == [Item("b", 2)] && !Contiguous([Item("b", 2)])
  {
    var items := [Item("a", 1), Item("b", 2)];
    var keep := (c: Item) => c.v != "a";
    assert "b" != "a" by {
      assert "b"[0] != "a"[0];
    }
    assert items == [items[0]] + [items[1]] && [items[1]] == [items[1]] + [];
    FilterStep(items[0], [items[1]], keep);
    FilterStep(items[1], [], keep);
    assert items[0] in items;
    assert !InLane([Item("b", 2)], 1);
  }
}
