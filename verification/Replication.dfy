/** Replication pairs, policies and slots: three lists that name one another, joined into rollups. */
module Replication {
  import opened Text
  import opened Seqs

  /** References are None where the spec leaves them out. */
  datatype Pair = Pair(name: string, source: Option<string>)
  datatype Policy = Policy(name: string, pairRef: Option<string>, minutes: nat)
  datatype Slot = Slot(name: string, policyRef: Option<string>, state: string, lastAt: Option<int>)

  // ---- the joins ----

  function PoliciesOf(pols: seq<Policy>, pair: string): seq<Policy> {
    Filter(pols, (p: Policy) => p.pairRef == Some(pair))
  }

  function NamesOf(pols: seq<Policy>): seq<string> { Map(pols, (p: Policy) => p.name) }

  predicate Includes(names: seq<string>, ref: Option<string>) { ref.Some? && ref.value in names }

  function SlotsNamed(slots: seq<Slot>, names: seq<string>): seq<Slot> {
    Filter(slots, (x: Slot) => Includes(names, x.policyRef))
  }

  function PolicySlots(slots: seq<Slot>, policy: string): seq<Slot> {
    Filter(slots, (x: Slot) => x.policyRef == Some(policy))
  }

  function PairSlots(slots: seq<Slot>, pols: seq<Policy>, pair: string): seq<Slot> {
    SlotsNamed(slots, NamesOf(PoliciesOf(pols, pair)))
  }

  function InState(slots: seq<Slot>, state: string): seq<Slot> {
    Filter(slots, (x: Slot) => x.state == state)
  }

  predicate IsLate(x: Slot, now: int, minutes: nat) {
    x.state == "replicating" && x.lastAt.Some? && now - x.lastAt.value > 2 * minutes * 60000
  }

  function Late(slots: seq<Slot>, now: int, minutes: nat): seq<Slot> {
    Filter(slots, (x: Slot) => IsLate(x, now, minutes))
  }

  // ---- a pair's count against the counts of its policies ----

  /** How many of the policies a slot may belong to. */
  function Owners(names: seq<string>, ref: Option<string>): nat {
    if names == [] then 0 else (if ref == Some(names[0]) then 1 else 0) + Owners(names[1..], ref)
  }

  function CountSum(names: seq<string>, slots: seq<Slot>): nat {
    if names == [] then 0 else |PolicySlots(slots, names[0])| + CountSum(names[1..], slots)
  }

  function OwnerSum(names: seq<string>, slots: seq<Slot>): nat {
    if slots == [] then 0 else Owners(names, slots[0].policyRef) + OwnerSum(names, slots[1..])
  }

  lemma {:induction false} OneSlotMore(names: seq<string>, slots: seq<Slot>)
    requires slots != []
    ensures CountSum(names, slots) == Owners(names, slots[0].policyRef) + CountSum(names, slots[1..])
  {
    if names != [] {
      OneSlotMore(names[1..], slots);
    }
  }

  lemma {:induction false} NoSlots(names: seq<string>)
    ensures CountSum(names, []) == 0
  {
    if names != [] {
      NoSlots(names[1..]);
    }
  }

  lemma {:induction false} CountedByOwner(names: seq<string>, slots: seq<Slot>)
    ensures CountSum(names, slots) == OwnerSum(names, slots)
    decreases slots
  {
    if slots == [] {
      NoSlots(names);
    } else {
      OneSlotMore(names, slots);
      CountedByOwner(names, slots[1..]);
    }
  }

  lemma {:induction false} OwnersAre(names: seq<string>, ref: Option<string>)
    ensures Owners(names, ref) > 0 <==> Includes(names, ref)
  {
    if names != [] {
      OwnersAre(names[1..], ref);
      assert names == [names[0]] + names[1..];
    }
  }

  lemma {:induction false} OwnersAtMost(names: seq<string>, slots: seq<Slot>)
    ensures |SlotsNamed(slots, names)| <= OwnerSum(names, slots)
    ensures |SlotsNamed(slots, names)| == OwnerSum(names, slots)
      <==> forall i | 0 <= i < |slots| :: Owners(names, slots[i].policyRef) <= 1
    decreases slots
  {
    if slots != [] {
      OwnersAtMost(names, slots[1..]);
      OwnersAre(names, slots[0].policyRef);
      var rest := slots[1..];
      assert forall i | 0 <= i < |rest| :: rest[i] == slots[i + 1];
      assert forall i | 1 <= i < |slots| :: slots[i] == rest[i - 1];
    }
  }

  /** A pair counts as many slots as its policies together exactly when no slot names a policy of the pair that is there twice. */
  lemma PairCountIsSum(slots: seq<Slot>, pols: seq<Policy>, pair: string)
    ensures var names := NamesOf(PoliciesOf(pols, pair));
      && |PairSlots(slots, pols, pair)| <= CountSum(names, slots)
      && (|PairSlots(slots, pols, pair)| == CountSum(names, slots)
          <==> forall i | 0 <= i < |slots| :: Owners(names, slots[i].policyRef) <= 1)
  {
    hide *;
    CountedByOwner(NamesOf(PoliciesOf(pols, pair)), slots);
    OwnersAtMost(NamesOf(PoliciesOf(pols, pair)), slots);
    PairSlotsAre(slots, pols, pair);
  }

  lemma PairSlotsAre(slots: seq<Slot>, pols: seq<Policy>, pair: string)
    ensures PairSlots(slots, pols, pair) == SlotsNamed(slots, NamesOf(PoliciesOf(pols, pair)))
  {
  }

  /** Two policies of one name in a pair: their lists hold the slot twice, the pair's list once. */
  lemma DoubleCountExample()
    ensures var p := Policy("daily", Some("a-b"), 5);
      var slots := [Slot("s", Some("daily"), "replicating", None)];
      |PairSlots(slots, [p, p], "a-b")| < CountSum(NamesOf(PoliciesOf([p, p], "a-b")), slots)
  {
    var p := Policy("daily", Some("a-b"), 5);
    var slots := [Slot("s", Some("daily"), "replicating", None)];
    FilterAll([p, p], (x: Policy) => x.pairRef == Some("a-b"));
    var names := NamesOf(PoliciesOf([p, p], "a-b"));
    assert names == ["daily", "daily"] && names[1..] == ["daily"];
    assert Owners(["daily"], Some("daily")) == 1;
    assert Owners(names, slots[0].policyRef) == 2;
    PairCountIsSum(slots, [p, p], "a-b");
  }

  /** Counting the slots of one state before or after the join is the same, so the pair's state counters are sums too. */
  lemma StatesCommute(slots: seq<Slot>, pols: seq<Policy>, pair: string, state: string)
    ensures InState(PairSlots(slots, pols, pair), state) == PairSlots(InState(slots, state), pols, pair)
    ensures forall policy :: InState(PolicySlots(slots, policy), state) == PolicySlots(InState(slots, state), policy)
  {
    hide Filter, Includes, PoliciesOf, NamesOf;
    var names := NamesOf(PoliciesOf(pols, pair));
    var in_ := (x: Slot) => x.state == state;
    FilterCommutes(slots, (x: Slot) => Includes(names, x.policyRef), in_);
    forall policy
      ensures InState(PolicySlots(slots, policy), state) == PolicySlots(InState(slots, state), policy)
    {
      FilterCommutes(slots, (x: Slot) => x.policyRef == Some(policy), in_);
    }
  }

  /** Late slots are replicating ones, and as time goes on no slot stops being late. */
  lemma LateAreReplicating(slots: seq<Slot>, now: int, later: int, minutes: nat)
    requires now <= later
    ensures forall x <- Late(slots, now, minutes) :: x in InState(slots, "replicating")
    ensures |Late(slots, now, minutes)| <= |Late(slots, later, minutes)| <= |InState(slots, "replicating")|
    ensures forall x ::
      x in Late(slots, now, minutes)
      <==> x in slots && x.state == "replicating" && x.lastAt.Some? && x.lastAt.value + minutes * 60000 + minutes * 60000 < now
  {
    var replicating := (x: Slot) => x.state == "replicating";
    var before, after := (x: Slot) => IsLate(x, now, minutes), (x: Slot) => IsLate(x, later, minutes);
    FilterIn(slots, replicating);
    FilterIn(slots, before);
    FilterFilter(slots, after, before);
    FilterFilter(slots, replicating, after);
    FilterIn(Filter(slots, after), before);
    FilterIn(Filter(slots, replicating), after);
  }

  // ---- every resolved slot is in one pair ----

  /** The pair that a slot's policy names, by the first policy of that name. */
  function PairOf(pols: seq<Policy>, x: Slot): Option<string> {
    if pols == [] then None
    else if x.policyRef == Some(pols[0].name) then pols[0].pairRef
    else PairOf(pols[1..], x)
  }

  predicate DistinctNames(pols: seq<Policy>) {
    forall i, j | 0 <= i < j < |pols| :: pols[i].name != pols[j].name
  }

  /** A slot is on a pair's list exactly when some policy of the pair has the name the slot gives. */
  lemma ListedWhenNamed(slots: seq<Slot>, pols: seq<Policy>, pair: string, x: Slot)
    ensures x in PairSlots(slots, pols, pair)
      <==> x in slots && exists p <- pols :: p.pairRef == Some(pair) && x.policyRef == Some(p.name)
  {
    hide Filter;
    var mine := PoliciesOf(pols, pair);
    var names := NamesOf(mine);
    FilterIn(slots, (s: Slot) => Includes(names, s.policyRef));
    FilterIn(pols, (p: Policy) => p.pairRef == Some(pair));
    if Includes(names, x.policyRef) {
      var i :| 0 <= i < |names| && names[i] == x.policyRef.value;
      assert mine[i] in mine;
    }
    if p :| p in pols && p.pairRef == Some(pair) && x.policyRef == Some(p.name) {
      var i :| 0 <= i < |mine| && mine[i] == p;
      assert names[i] == p.name;
    }
  }

  lemma {:induction false} PairOfIs(pols: seq<Policy>, x: Slot, pair: string)
    requires DistinctNames(pols)
    ensures PairOf(pols, x) == Some(pair) <==> exists p <- pols :: p.pairRef == Some(pair) && x.policyRef == Some(p.name)
  {
    if pols != [] {
      PairOfIs(pols[1..], x, pair);
      assert pols == [pols[0]] + pols[1..] && pols[0] in pols;
      assert forall p <- pols[1..] :: p.name != pols[0].name;
    }
  }

  lemma PairSlotsByPair(slots: seq<Slot>, pols: seq<Policy>, pair: string)
    requires DistinctNames(pols)
    ensures PairSlots(slots, pols, pair) == Filter(slots, (x: Slot) => PairOf(pols, x) == Some(pair))
  {
    hide Filter, PairOf, DistinctNames;
    var names := NamesOf(PoliciesOf(pols, pair));
    forall x | x in slots
      ensures Includes(names, x.policyRef) <==> PairOf(pols, x) == Some(pair)
    {
      PairOfIs(pols, x, pair);
      ListedWhenNamed(slots, pols, pair, x);
      FilterIn(slots, (s: Slot) => Includes(names, s.policyRef));
    }
    FilterAgree(slots, (x: Slot) => Includes(names, x.policyRef), (x: Slot) => PairOf(pols, x) == Some(pair));
  }

  function Parts(slots: seq<Slot>, keys: seq<string>, key: Slot -> Option<string>): seq<seq<Slot>> {
    Map(keys, k => Filter(slots, (x: Slot) => key(x) == Some(k)))
  }

  /** The slots of distinct keys are the slots that have one of the keys. */
  lemma {:induction false} PartsShareOut(slots: seq<Slot>, keys: seq<string>, key: Slot -> Option<string>)
    requires Distinct(keys)
    ensures multiset(Flatten(Parts(slots, keys, key))) == multiset(Filter(slots, (x: Slot) => Includes(keys, key(x))))
  {
    hide Filter, Flatten;
    var any := (x: Slot) => Includes(keys, key(x));
    if keys == [] {
      FlattenStep<Slot>([], []);
      FilterNone(slots, any);
      assert Parts(slots, keys, key) == [];
    } else {
      var k, rest := keys[0], keys[1..];
      var first, others := (x: Slot) => key(x) == Some(k), (x: Slot) => Includes(rest, key(x));
      PartsShareOut(slots, rest, key);
      assert keys == [k] + rest && k !in rest;
      FlattenStep(Filter(slots, first), Parts(slots, rest, key));
      PartsStep(slots, keys, key);
      FilterIn(slots, any);
      FilterFilter(slots, any, first);
      FilterFilter(slots, any, others);
      FilterSplits(Filter(slots, any), first, others);
    }
  }

  lemma PartsStep(slots: seq<Slot>, keys: seq<string>, key: Slot -> Option<string>)
    requires keys != []
    ensures Parts(slots, keys, key) == [Filter(slots, (x: Slot) => key(x) == Some(keys[0]))] + Parts(slots, keys[1..], key)
  {
    hide Filter;
  }

  function PairLists(slots: seq<Slot>, pols: seq<Policy>, pairs: seq<string>): seq<seq<Slot>> {
    Map(pairs, pair => PairSlots(slots, pols, pair))
  }

  /** Over all pairs, every slot whose policy and pair both exist is on one list, once; the others are on none. */
  lemma PairsShareOutSlots(slots: seq<Slot>, pols: seq<Policy>, pairs: seq<string>)
    requires DistinctNames(pols) && Distinct(pairs)
    ensures multiset(Flatten(PairLists(slots, pols, pairs)))
      == multiset(Filter(slots, (x: Slot) => Includes(pairs, PairOf(pols, x))))
    ensures forall a, b, x | x in PairSlots(slots, pols, a) && x in PairSlots(slots, pols, b) :: a == b
  {
    hide Filter, PairOf, Flatten, DistinctNames, PairSlots;
    forall pair
      ensures PairSlots(slots, pols, pair) == Filter(slots, (x: Slot) => PairOf(pols, x) == Some(pair))
      ensures forall x <- PairSlots(slots, pols, pair) :: PairOf(pols, x) == Some(pair)
    {
      PairSlotsByPair(slots, pols, pair);
      FilterIn(slots, (x: Slot) => PairOf(pols, x) == Some(pair));
    }
    var key := (x: Slot) => PairOf(pols, x);
    PartsShareOut(slots, pairs, key);
    forall pair
      ensures Filter(slots, (x: Slot) => PairOf(pols, x) == Some(pair)) == Filter(slots, (x: Slot) => key(x) == Some(pair))
    {
      FilterAgree(slots, (x: Slot) => PairOf(pols, x) == Some(pair), (x: Slot) => key(x) == Some(pair));
    }
    assert PairLists(slots, pols, pairs) == Parts(slots, pairs, key);
    FilterAgree(slots, (x: Slot) => Includes(pairs, PairOf(pols, x)), (x: Slot) => Includes(pairs, key(x)));
  }

  // ---- the policies of a cluster ----

  function ClusterPolicies(pols: seq<Policy>, pairs: seq<Pair>, cluster: string): seq<Policy> {
    var mine := Map(Filter(pairs, (p: Pair) => p.source == Some(cluster)), (p: Pair) => p.name);
    Filter(pols, (p: Policy) => Includes(mine, p.pairRef))
  }

  /** The source cluster a policy shows: that of the first pair with the name it gives. */
  function ShownSource(pairs: seq<Pair>, p: Policy): Option<string> {
    if pairs == [] then None
    else if p.pairRef == Some(pairs[0].name) then pairs[0].source
    else ShownSource(pairs[1..], p)
  }

  lemma ClusterListIs(pols: seq<Policy>, pairs: seq<Pair>, cluster: string, p: Policy)
    ensures p in ClusterPolicies(pols, pairs, cluster)
      <==> p in pols && exists x <- pairs :: x.source == Some(cluster) && p.pairRef == Some(x.name)
  {
    hide Filter;
    var some := Filter(pairs, (x: Pair) => x.source == Some(cluster));
    var mine := Map(some, (x: Pair) => x.name);
    FilterIn(pairs, (x: Pair) => x.source == Some(cluster));
    FilterIn(pols, (q: Policy) => Includes(mine, q.pairRef));
    if Includes(mine, p.pairRef) {
      var i :| 0 <= i < |mine| && mine[i] == p.pairRef.value;
      assert some[i] in some;
    }
    if x :| x in pairs && x.source == Some(cluster) && p.pairRef == Some(x.name) {
      var i :| 0 <= i < |some| && some[i] == x;
      assert mine[i] == x.name;
    }
  }

  lemma {:induction false} ShownIsFirst(pairs: seq<Pair>, p: Policy)
    ensures (exists i | 0 <= i < |pairs| :: p.pairRef == Some(pairs[i].name)
               && ShownSource(pairs, p) == pairs[i].source && forall j | 0 <= j < i :: p.pairRef != Some(pairs[j].name))
      || (ShownSource(pairs, p) == None && forall i | 0 <= i < |pairs| :: p.pairRef != Some(pairs[i].name))
  {
    if pairs != [] && p.pairRef != Some(pairs[0].name) {
      ShownIsFirst(pairs[1..], p);
      var rest := pairs[1..];
      if i :| 0 <= i < |rest| && p.pairRef == Some(rest[i].name)
              && ShownSource(rest, p) == rest[i].source && forall j | 0 <= j < i :: p.pairRef != Some(rest[j].name) {
        assert pairs[i + 1] == rest[i];
        assert forall j | 1 <= j < i + 1 :: pairs[j] == rest[j - 1];
      } else {
        assert forall j | 1 <= j < |pairs| :: pairs[j] == rest[j - 1];
      }
    }
  }

  /**
   * A policy is on the list of the cluster it shows and on no other cluster's list exactly
   * when no later pair of the name it gives has another source cluster.
   */
  lemma ListedWhereShown(pols: seq<Policy>, pairs: seq<Pair>, p: Policy)
    requires p in pols
    ensures (forall cluster :: p in ClusterPolicies(pols, pairs, cluster) <==> ShownSource(pairs, p) == Some(cluster))
      <==> forall x <- pairs | p.pairRef == Some(x.name) :: x.source.None? || x.source == ShownSource(pairs, p)
  {
    hide ClusterPolicies, ShownSource;
    ShownIsFirst(pairs, p);
    forall cluster
      ensures p in ClusterPolicies(pols, pairs, cluster) <==> exists x <- pairs :: x.source == Some(cluster) && p.pairRef == Some(x.name)
    {
      ClusterListIs(pols, pairs, cluster, p);
    }
  }
}
