/** What a site's agent reports of its namespaces, and the label pairs counted from it. */
module Report {
  import opened Text
  import opened Seqs
  import S = Selectors

  datatype Kind = Deployment | StatefulSet | VirtualMachine | Pod | PersistentVolumeClaim | OtherKind(name: string)

  /** labels: those of the pod template; objectLabels: the workload's own. Either may be unreported. */
  datatype Workload = Workload(kind: Kind, name: string, labels: Option<S.Labels>, objectLabels: Option<S.Labels>)
  datatype Pvc = Pvc(name: string, labels: S.Labels)
  datatype Service = Service(name: string, ports: seq<string>)
  datatype NsReport = NsReport(namespace: string, workloads: seq<Workload>, pvcs: seq<Pvc>, services: seq<Service>)

  datatype Obj = Obj(kind: Kind, name: string, labels: S.Labels)

  function NsOf(reports: seq<NsReport>, ns: string): Option<NsReport> {
    if reports == [] then None
    else if reports[0].namespace == ns then Some(reports[0])
    else NsOf(reports[1..], ns)
  }

  predicate Reported(reports: seq<NsReport>, namespaces: seq<string>) {
    namespaces != [] && forall ns <- namespaces :: NsOf(reports, ns).Some?
  }

  function OrNone(labels: Option<S.Labels>): S.Labels {
    if labels.Some? then labels.value else []
  }

  /** One workload as the objects a tier (or, with forPods, a gate) can select. */
  function WorkloadObjs(w: Workload, forPods: bool): seq<Obj> {
    if forPods then [Obj(Pod, if w.kind.Pod? then w.name else w.name + " pods", OrNone(w.labels))]
    else if w.kind.Pod? then [Obj(Pod, w.name, OrNone(w.labels))]
    else
      [Obj(w.kind, w.name, OrNone(w.objectLabels))]
      + if w.labels.Some? then [Obj(Pod, w.name + " pods", w.labels.value)] else []
  }

  function WorkloadLists(ws: seq<Workload>, forPods: bool): seq<seq<Obj>> {
    Map(ws, (w: Workload) => WorkloadObjs(w, forPods))
  }

  function PvcObj(p: Pvc): Obj {
    Obj(PersistentVolumeClaim, p.name, p.labels)
  }

  function NsObjs(r: NsReport, forPods: bool): seq<Obj> {
    Flatten(WorkloadLists(r.workloads, forPods)) + if forPods then [] else Map(r.pvcs, PvcObj)
  }

  function ObjectsOf(reports: seq<NsReport>, namespaces: seq<string>, forPods: bool): seq<Obj> {
    if namespaces == [] then []
    else
      var rest := ObjectsOf(reports, namespaces[1..], forPods);
      match NsOf(reports, namespaces[0])
      case None => rest
      case Some(r) => NsObjs(r, forPods) + rest
  }

  method CollectObjects(reports: seq<NsReport>, namespaces: seq<string>, forPods: bool) returns (out: seq<Obj>)
    ensures out == ObjectsOf(reports, namespaces, forPods)
  {
    hide NsObjs, NsOf;
    out := [];
    for i := 0 to |namespaces|
      invariant out + ObjectsOf(reports, namespaces[i..], forPods) == ObjectsOf(reports, namespaces, forPods)
    {
      assert namespaces[i..][1..] == namespaces[i + 1..];
      var r := NsOf(reports, namespaces[i]);
      if r.Some? {
        var part := NsObjects(r.value, forPods);
        out := out + part;
      }
    }
  }

  method NsObjects(r: NsReport, forPods: bool) returns (out: seq<Obj>)
    ensures out == NsObjs(r, forPods)
  {
    hide Flatten;
    out := [];
    FlattenStep<Obj>([], []);
    ghost var lists := WorkloadLists(r.workloads, forPods);
    for i := 0 to |r.workloads|
      invariant out == Flatten(lists[..i])
    {
      var w := r.workloads[i];
      FlattenTake(lists, i);
      assert lists[i] == WorkloadObjs(w, forPods);
      if forPods {
        out := out + [Obj(Pod, if w.kind.Pod? then w.name else w.name + " pods", OrNone(w.labels))];
      } else {
        ghost var before := out;
        out := out + [Obj(w.kind, w.name, OrNone(if w.kind.Pod? then w.labels else w.objectLabels))];
        if !w.kind.Pod? && w.labels.Some? {
          out := out + [Obj(Pod, w.name + " pods", w.labels.value)];
        }
        assert out == before + WorkloadObjs(w, forPods);
      }
    }
    assert lists[..|r.workloads|] == lists;
    if !forPods {
      out := out + Map(r.pvcs, PvcObj);
    }
  }

  // ---- counting ----

  type Counts<K> = seq<(K, nat)>

  /** counts[key] = (counts[key] || 0) + 1 */
  function Bump<K(==)>(counts: Counts<K>, key: K): Counts<K> {
    if counts == [] then [(key, 1)]
    else if counts[0].0 == key then [(key, counts[0].1 + 1)] + counts[1..]
    else [counts[0]] + Bump(counts[1..], key)
  }

  function Tally<K(==)>(keys: seq<K>): Counts<K> {
    if keys == [] then [] else Bump(Tally(keys[..|keys| - 1]), keys[|keys| - 1])
  }

  /** The counts are those of the list: each key once, with how often it occurs. */
  ghost predicate CountsOf<K>(counts: Counts<K>, bag: multiset<K>) {
    && DistinctKeys(counts)
    && (forall c <- counts :: c.1 == bag[c.0] && c.1 > 0)
    && (forall key <- bag :: (key, bag[key]) in counts)
  }

  lemma {:induction false} BumpKeys<K>(counts: Counts<K>, key: K)
    requires DistinctKeys(counts)
    ensures var b := Bump(counts, key);
      && DistinctKeys(b)
      && (forall c <- b :: c.0 != key ==> c in counts)
      && (forall c <- counts :: c.0 != key ==> c in b)
      && (exists c <- b :: c.0 == key)
      && (forall c <- b :: c.0 == key ==>
           (exists d <- counts :: d.0 == key && c.1 == d.1 + 1) || ((forall d <- counts :: d.0 != key) && c.1 == 1))
  {
    var b := Bump(counts, key);
    if counts == [] {
      assert (key, 1) in [(key, 1)];
    } else {
      hide Bump;
      var c, rest := counts[0], counts[1..];
      assert counts == [c] + rest && c in counts;
      BumpHead(c, rest, key);
      assert forall d <- rest :: d.0 != c.0;
      assert b[0] in b;
      if c.0 == key {
        assert b == [(key, c.1 + 1)] + rest;
      } else {
        BumpKeys(rest, key);
        var after := Bump(rest, key);
        assert b == [c] + after;
        assert forall j | 0 <= j < |after| :: after[j] in after;
      }
    }
  }

  lemma BumpHead<K>(c: (K, nat), rest: Counts<K>, key: K)
    ensures Bump([c] + rest, key) == if c.0 == key then [(key, c.1 + 1)] + rest else [c] + Bump(rest, key)
  {
    assert ([c] + rest)[1..] == rest;
  }

  lemma {:induction false} TallyCounts<K>(keys: seq<K>)
    ensures CountsOf(Tally(keys), multiset(keys))
  {
    if keys != [] {
      var n := |keys| - 1;
      var front, key := keys[..n], keys[n];
      TallyCounts(front);
      assert keys == front + [key];
      assert multiset(keys) == multiset(front) + multiset{key};
      BumpStep(Tally(front), multiset(front), key);
    }
  }

  lemma BumpStep<K>(counts: Counts<K>, bag: multiset<K>, key: K)
    requires CountsOf(counts, bag)
    ensures CountsOf(Bump(counts, key), bag + multiset{key})
  {
    hide Bump;
    BumpKeys(counts, key);
    var b, more := Bump(counts, key), bag + multiset{key};
    forall c | c in b
      ensures c.1 == more[c.0] && c.1 > 0
    {
      assert key in bag ==> (key, bag[key]) in counts;
    }
    forall k | k in more
      ensures (k, more[k]) in b
    {
      if k == key {
        var c :| c in b && c.0 == key;
        assert c == (k, more[k]);
      } else {
        assert (k, bag[k]) in counts;
      }
    }
  }

  lemma TallyStep<K>(keys: seq<K>, key: K)
    ensures Tally<K>([]) == []
    ensures Tally(keys + [key]) == Bump(Tally(keys), key)
  {
    assert (keys + [key])[..|keys|] == keys;
  }

  function Keys<K>(counts: Counts<K>): seq<K> {
    Map(counts, (c: (K, nat)) => c.0)
  }

  /** ks are the elements of the list in the order of their first occurrence. */
  ghost predicate InOrder<K(!new)>(ks: seq<K>, keys: seq<K>) {
    && (forall k :: k in ks <==> k in keys)
    && forall i, j | 0 <= i < j < |ks| :: IndexOf(keys, ks[i]) < IndexOf(keys, ks[j])
  }

  /** The list with the key at its end, unless it is there already. */
  function Added<K(==)>(ks: seq<K>, key: K): seq<K> {
    if key in ks then ks else ks + [key]
  }

  lemma AddedStep<K>(k: K, ks: seq<K>, key: K)
    ensures Added([k] + ks, key) == if k == key then [k] + ks else [k] + Added(ks, key)
  {
    assert [k] + ks + [key] == [k] + (ks + [key]);
  }

  lemma KeysStep<K>(c: (K, nat), rest: Counts<K>)
    ensures Keys([c] + rest) == [c.0] + Keys(rest)
  {
  }

  lemma NoKeys<K>(key: K)
    ensures Keys(Bump([], key)) == Added(Keys([]), key)
  {
    assert Keys(Bump([], key)) == [key];
  }

  lemma {:induction false} BumpOrder<K>(counts: Counts<K>, key: K)
    ensures Keys(Bump(counts, key)) == Added(Keys(counts), key)
  {
    hide *;
    if counts == [] {
      NoKeys(key);
    } else {
      var c, rest := counts[0], counts[1..];
      assert counts == [c] + rest;
      BumpHead(c, rest, key);
      KeysStep(c, rest);
      AddedStep(c.0, Keys(rest), key);
      if c.0 == key {
        KeysStep((key, c.1 + 1), rest);
      } else {
        BumpOrder(rest, key);
        KeysStep(c, Bump(rest, key));
      }
    }
  }

  lemma IndexOfFront<K>(front: seq<K>, key: K, k: K)
    ensures k in front ==> IndexOf(front + [key], k) == IndexOf(front, k) < |front|
    ensures k !in front && k == key ==> IndexOf(front + [key], k) == |front|
  {
    hide IndexOf;
    var all := front + [key];
    assert forall j | 0 <= j < |front| :: all[j] == front[j];
    assert all[|front|] == key;
    if k in front {
      var j :| 0 <= j < |front| && front[j] == k;
      assert all[IndexOf(front, k)] == k;
    } else if k == key {
      assert IndexOf(all, k) <= |front|;
    }
  }

  lemma OrderStep<K(!new)>(ks: seq<K>, front: seq<K>, key: K)
    requires InOrder(ks, front)
    ensures InOrder(Added(ks, key), front + [key])
  {
    hide IndexOf;
    var more := Added(ks, key);
    forall i, j | 0 <= i < j < |more|
      ensures IndexOf(front + [key], more[i]) < IndexOf(front + [key], more[j])
    {
      IndexOfFront(front, key, more[i]);
      IndexOfFront(front, key, more[j]);
      assert ks[i] in ks;
    }
  }

  lemma {:induction false} TallyInOrder<K(!new)>(keys: seq<K>)
    ensures InOrder(Keys(Tally(keys)), keys)
  {
    hide Bump, IndexOf;
    if keys != [] {
      var n := |keys| - 1;
      var front, key := keys[..n], keys[n];
      TallyInOrder(front);
      assert keys == front + [key];
      BumpOrder(Tally(front), key);
      OrderStep(Keys(Tally(front)), front, key);
    }
  }

  // ---- label pairs ----

  function PairLists(labels: seq<S.Labels>): seq<seq<string>> {
    Map(labels, (m: S.Labels) => S.PairTexts(m))
  }

  /** Every label pair of every object, as text. */
  function AllPairs(labels: seq<S.Labels>): seq<string> {
    Flatten(PairLists(labels))
  }

  method CountPairs(labels: seq<S.Labels>) returns (counts: Counts<string>)
    ensures counts == Tally(AllPairs(labels))
  {
    hide Flatten, Bump, Tally;
    counts := [];
    FlattenStep<string>([], []);
    TallyStep([], "");
    ghost var lists := PairLists(labels);
    ghost var seen: seq<string> := [];
    for i := 0 to |labels|
      invariant seen == Flatten(lists[..i])
      invariant counts == Tally(seen)
    {
      var texts := S.PairTexts(labels[i]);
      ghost var before := seen;
      for j := 0 to |texts|
        invariant seen == before + texts[..j]
        invariant counts == Tally(seen)
      {
        TallyStep(seen, texts[j]);
        counts := Bump(counts, texts[j]);
        seen := seen + [texts[j]];
      }
      assert texts[..|texts|] == texts;
      FlattenTake(lists, i);
      assert lists[i] == texts;
    }
    assert lists[..|labels|] == lists;
  }

  /** before(a, b) stands for a.localeCompare(b) <= 0. */
  type Collation = (string, string) -> bool

  function PairOrder(before: Collation): ((string, nat), (string, nat)) -> bool {
    (a: (string, nat), b: (string, nat)) => a.1 > b.1 || (a.1 == b.1 && before(a.0, b.0))
  }

  function PairCounts(labels: seq<S.Labels>, before: Collation): Counts<string> {
    SortBy(Tally(AllPairs(labels)), PairOrder(before))
  }

  function First(c: (string, nat)): string { c.0 }

  function ObjectPairs(labels: seq<S.Labels>, before: Collation): seq<string> {
    Map(PairCounts(labels, before), First)
  }

  function LabelsOf(objs: seq<Obj>): seq<S.Labels> {
    Map(objs, (o: Obj) => o.labels)
  }

  predicate TidyAll(labels: seq<S.Labels>) {
    forall m <- labels :: S.TidyLabels(m)
  }

  predicate OnAll(p: (string, string), labels: seq<S.Labels>) {
    forall m <- labels :: p in m
  }

  /** The text of some label pair of some of the objects. */
  ghost predicate Carried(t: string, labels: seq<S.Labels>) {
    exists m, p :: m in labels && p in m && t == S.PairText(p)
  }

  lemma AllPairsIn(labels: seq<S.Labels>)
    ensures forall t :: t in AllPairs(labels) <==> Carried(t, labels)
  {
    hide Flatten, S.PairText;
    FlattenIn(PairLists(labels));
    forall t
      ensures t in AllPairs(labels) <==> Carried(t, labels)
    {
      if t in AllPairs(labels) {
        var i :| 0 <= i < |labels| && t in S.PairTexts(labels[i]);
        var j :| 0 <= j < |labels[i]| && t == S.PairText(labels[i][j]);
        assert labels[i] in labels && labels[i][j] in labels[i];
      }
      if m, p :| m in labels && p in m && t == S.PairText(p) {
        var i :| 0 <= i < |labels| && labels[i] == m;
        var j :| 0 <= j < |m| && m[j] == p;
        assert S.PairTexts(m)[j] == t;
        assert t in PairLists(labels)[i];
      }
    }
  }

  /** The counted pairs are those of the labels, with how many times each occurs. */
  lemma PairCountsAre(labels: seq<S.Labels>, before: Collation)
    ensures CountsOf(PairCounts(labels, before), multiset(AllPairs(labels)))
    ensures forall t :: t in ObjectPairs(labels, before) <==> t in AllPairs(labels)
  {
    hide SortBy, Tally, AllPairs, PairOrder;
    var counts := Tally(AllPairs(labels));
    var sorted := PairCounts(labels, before);
    TallyCounts(AllPairs(labels));
    SortIsPermutation(counts, PairOrder(before));
    SortKeepsCounts(counts, sorted, multiset(AllPairs(labels)));
    forall t
      ensures t in ObjectPairs(labels, before) <==> t in AllPairs(labels)
    {
      if t in ObjectPairs(labels, before) {
        var i :| 0 <= i < |sorted| && sorted[i].0 == t;
        assert sorted[i] in sorted;
        assert t in multiset(AllPairs(labels));
      }
      if t in AllPairs(labels) {
        assert t in multiset(AllPairs(labels));
        var c := (t, multiset(AllPairs(labels))[t]);
        var i :| 0 <= i < |sorted| && sorted[i] == c;
        assert ObjectPairs(labels, before)[i] == t;
      }
    }
  }

  lemma PairOrdering(before: Collation)
    requires Ordering(before)
    ensures Ordering(PairOrder(before))
  {
    var le := PairOrder(before);
    forall a, b
      ensures le(a, b) || le(b, a)
    {
      assert before(a.0, b.0) || before(b.0, a.0);
    }
    forall a, b, c | le(a, b) && le(b, c)
      ensures le(a, c)
    {
      assert before(a.0, b.0) && before(b.0, c.0) ==> before(a.0, c.0);
    }
  }

  /** Of two texts that collate alike the one that is reported first stands first. */
  predicate TextBefore(a: string, b: string, texts: seq<string>, before: Collation) {
    before(a, b) && (before(b, a) ==> IndexOf(texts, a) < IndexOf(texts, b))
  }

  function Place(texts: seq<string>): ((string, nat)) -> int {
    (c: (string, nat)) => IndexOf(texts, c.0)
  }

  lemma CountsStand(labels: seq<S.Labels>, before: Collation)
    requires Ordering(before)
    ensures Stable(PairCounts(labels, before), PairOrder(before), Place(AllPairs(labels)))
  {
    hide SortBy, Tally, AllPairs, Ordering, Stable, IndexOf;
    var texts := AllPairs(labels);
    var counts := Tally(texts);
    PairOrdering(before);
    TallyInOrder(texts);
    assert forall i | 0 <= i < |counts| :: counts[i].0 == Keys(counts)[i];
    SortStable(counts, PairOrder(before), Place(texts));
  }

  /** Pairs are offered most common first, equally common ones in the order of their texts. */
  lemma MostCommonFirst(labels: seq<S.Labels>, before: Collation, i: nat, j: nat)
    requires Ordering(before) && i < j < |ObjectPairs(labels, before)|
    ensures var pairs, texts := ObjectPairs(labels, before), AllPairs(labels);
      var bag := multiset(texts);
      bag[pairs[i]] > bag[pairs[j]] || (bag[pairs[i]] == bag[pairs[j]] && TextBefore(pairs[i], pairs[j], texts, before))
  {
    hide SortBy, Tally, AllPairs, Ordering, IndexOf;
    CountsStand(labels, before);
    PairCountsAre(labels, before);
    var counts, texts := PairCounts(labels, before), AllPairs(labels);
    assert counts[i] in counts && counts[j] in counts;
    assert counts[i].0 in multiset(texts) && counts[j].0 in multiset(texts);
    PlacesDiffer(texts, counts[i].0, counts[j].0);
  }

  lemma SortKeepsCounts<K>(a: Counts<K>, b: Counts<K>, bag: multiset<K>)
    requires CountsOf(a, bag) && multiset(a) == multiset(b)
    ensures CountsOf(b, bag)
  {
    forall c
      ensures c in a <==> c in b
    {
      assert c in a <==> c in multiset(a);
      assert c in b <==> c in multiset(b);
    }
    forall i, j | 0 <= i < j < |b|
      ensures b[i].0 != b[j].0
    {
      assert b[i] in b && b[j] in b;
      if b[i].0 == b[j].0 {
        var c := b[i];
        assert b[j] == c;
        TwiceInBag(b, i, j);
        OnceInBag(a, c);
      }
    }
  }

  lemma {:induction false} OnceInBag<K>(a: Counts<K>, c: (K, nat))
    requires DistinctKeys(a)
    ensures multiset(a)[c] <= 1
  {
    if a != [] {
      OnceInBag(a[1..], c);
      assert a == [a[0]] + a[1..];
      if c == a[0] {
        assert c !in a[1..];
      }
    }
  }

  // ---- how many objects carry a pair ----

  lemma BagOneMore<T>(x: T, xs: seq<T>)
    ensures multiset([x] + xs) == multiset{x} + multiset(xs)
  {
  }

  lemma PairTextsStep(m: S.Labels)
    requires m != []
    ensures S.PairTexts(m) == [S.PairText(m[0])] + S.PairTexts(m[1..])
  {
    hide S.PairText;
  }

  lemma {:induction false} PairOnce(m: S.Labels, p: (string, string))
    requires S.TidyLabels(m) && S.TidyPair(p)
    ensures multiset(S.PairTexts(m))[S.PairText(p)] == if p in m then 1 else 0
  {
    hide S.TidyPair, S.PairText, S.PairTexts;
    if m != [] {
      PairOnce(m[1..], p);
      assert m == [m[0]] + m[1..] && m[0] in m;
      PairTextsStep(m);
      BagOneMore(S.PairText(m[0]), S.PairTexts(m[1..]));
      if S.PairText(m[0]) == S.PairText(p) {
        S.TidyTextInjective(m[0], p);
      }
    } else {
      assert S.PairTexts(m) == [];
    }
  }

  function Carriers(p: (string, string), labels: seq<S.Labels>): nat {
    |Filter(labels, (m: S.Labels) => p in m)|
  }

  lemma NoPairs(p: (string, string))
    ensures AllPairs([]) == [] && Carriers(p, []) == 0
  {
  }

  lemma AllPairsStep(m: S.Labels, rest: seq<S.Labels>)
    ensures multiset(AllPairs([m] + rest)) == multiset(S.PairTexts(m)) + multiset(AllPairs(rest))
  {
    hide Flatten, S.PairTexts;
    assert PairLists([m] + rest) == [S.PairTexts(m)] + PairLists(rest);
    FlattenStep(S.PairTexts(m), PairLists(rest));
  }

  lemma CarriersStep(p: (string, string), m: S.Labels, rest: seq<S.Labels>)
    ensures Carriers(p, [m] + rest) == (if p in m then 1 else 0) + Carriers(p, rest)
  {
    hide Filter;
    FilterStep(m, rest, (m: S.Labels) => p in m);
  }

  lemma {:induction false} PairCount(labels: seq<S.Labels>, p: (string, string))
    requires TidyAll(labels) && S.TidyPair(p)
    ensures multiset(AllPairs(labels))[S.PairText(p)] == Carriers(p, labels)
  {
    hide AllPairs, Carriers, S.TidyPair, S.PairText, S.TidyLabels, S.PairTexts;
    if labels == [] {
      NoPairs(p);
    } else {
      var m, rest := labels[0], labels[1..];
      assert labels == [m] + rest && m in labels;
      PairCount(rest, p);
      PairOnce(m, p);
      AllPairsStep(m, rest);
      CarriersStep(p, m, rest);
    }
  }

  /** A pair occurs as often as there are objects that carry it: on all of them exactly when it is counted for all. */
  lemma PairOnAll(labels: seq<S.Labels>, p: (string, string))
    requires TidyAll(labels) && S.TidyPair(p)
    ensures multiset(AllPairs(labels))[S.PairText(p)] == Carriers(p, labels) <= |labels|
    ensures multiset(AllPairs(labels))[S.PairText(p)] == |labels| <==> OnAll(p, labels)
  {
    hide Filter, AllPairs, TidyAll, S.TidyPair, S.PairText;
    PairCount(labels, p);
    FilterFull(labels, (m: S.Labels) => p in m);
  }

  /** The label that most objects carry, of equally common ones the first by its text. */
  ghost predicate MostCommon(p: (string, string), labels: seq<S.Labels>, before: Collation) {
    && Carriers(p, labels) > 0
    && forall q | Carriers(q, labels) > 0 && q != p ::
         || Carriers(p, labels) > Carriers(q, labels)
         || (Carriers(p, labels) == Carriers(q, labels) && TextBefore(S.PairText(p), S.PairText(q), AllPairs(labels), before))
  }

  lemma CarriedPair(labels: seq<S.Labels>, p: (string, string))
    requires TidyAll(labels)
    ensures Carriers(p, labels) > 0 <==> exists m <- labels :: p in m
    ensures Carriers(p, labels) > 0 ==> S.TidyPair(p) && S.PairText(p) in AllPairs(labels)
  {
    hide Filter, AllPairs, S.TidyPair, S.PairText;
    var has := (m: S.Labels) => p in m;
    FilterIn(labels, has);
    AllPairsIn(labels);
    if Carriers(p, labels) > 0 {
      var found := Filter(labels, has);
      assert found[0] in found;
      var m :| m in found;
      assert Carried(S.PairText(p), labels);
    }
    if m :| m in labels && p in m {
      assert m in Filter(labels, has);
    }
  }

  lemma OfferedFirst(labels: seq<S.Labels>, before: Collation, p: (string, string))
    requires TidyAll(labels) && Ordering(before) && Carriers(p, labels) > 0
    requires ObjectPairs(labels, before) != [] && ObjectPairs(labels, before)[0] == S.PairText(p)
    ensures MostCommon(p, labels, before)
  {
    hide ObjectPairs, AllPairs, Carriers, S.PairText, S.TidyPair, IndexOf, Ordering;
    var pairs := ObjectPairs(labels, before);
    PairCountsAre(labels, before);
    CarriedPair(labels, p);
    PairOnAll(labels, p);
    forall q | Carriers(q, labels) > 0 && q != p
      ensures || Carriers(p, labels) > Carriers(q, labels)
              || (Carriers(p, labels) == Carriers(q, labels) && TextBefore(S.PairText(p), S.PairText(q), AllPairs(labels), before))
    {
      CarriedPair(labels, q);
      PairOnAll(labels, q);
      var j :| 0 <= j < |pairs| && pairs[j] == S.PairText(q);
      if S.PairText(p) == S.PairText(q) {
        S.TidyTextInjective(p, q);
      }
      MostCommonFirst(labels, before, 0, j);
    }
  }

  /** The first pair offered is the most common label, and some pair is offered exactly when some object has a label. */
  lemma FirstOffered(labels: seq<S.Labels>, before: Collation)
    requires TidyAll(labels) && Ordering(before)
    ensures ObjectPairs(labels, before) != [] <==> exists p :: MostCommon(p, labels, before)
    ensures forall p :: MostCommon(p, labels, before) ==> ObjectPairs(labels, before) != [] && ObjectPairs(labels, before)[0] == S.PairText(p)
  {
    hide ObjectPairs, AllPairs, Carriers, S.PairText, S.TidyPair, IndexOf, Ordering;
    var pairs := ObjectPairs(labels, before);
    PairCountsAre(labels, before);
    AllPairsIn(labels);
    if pairs != [] {
      assert pairs[0] in pairs;
      var m, p :| m in labels && p in m && pairs[0] == S.PairText(p);
      CarriedPair(labels, p);
      OfferedFirst(labels, before, p);
      forall q | MostCommon(q, labels, before)
        ensures q == p
      {
      }
    }
    forall p | MostCommon(p, labels, before)
      ensures pairs != []
    {
      CarriedPair(labels, p);
    }
  }

  // ---- the PVC selector ----

  const PREFERENCE := ["storage.simplyblock.io/consistency-group", "app", "app.kubernetes.io/name", "app.kubernetes.io/instance"]

  function Rank(pair: string): nat {
    var i := IndexOf(PREFERENCE, Split(pair, '=')[0]);
    if i == |PREFERENCE| then 99 else i
  }

  function RankOrder(): ((string, nat), (string, nat)) -> bool {
    (a: (string, nat), b: (string, nat)) => Rank(a.0) < Rank(b.0) || (Rank(a.0) == Rank(b.0) && a.1 >= b.1)
  }

  function FullPairs(pvcs: seq<S.Labels>, before: Collation): Counts<string> {
    Filter(PairCounts(pvcs, before), (c: (string, nat)) => c.1 == |pvcs|)
  }

  function ProposePVCSelector(pvcs: seq<S.Labels>, before: Collation): string {
    if pvcs == [] then ""
    else
      var full := FullPairs(pvcs, before);
      var ranked := SortBy(if full != [] then full else PairCounts(pvcs, before), RankOrder());
      if ranked == [] then "" else ranked[0].0
  }

  lemma CountedPair(pvcs: seq<S.Labels>, before: Collation, c: (string, nat)) returns (p: (string, string))
    requires TidyAll(pvcs) && c in PairCounts(pvcs, before)
    ensures S.TidyPair(p) && c.0 == S.PairText(p) && (c.1 == |pvcs| <==> OnAll(p, pvcs))
  {
    hide PairCounts, AllPairs, S.TidyPair, S.PairText;
    PairCountsAre(pvcs, before);
    AllPairsIn(pvcs);
    assert c.0 in multiset(AllPairs(pvcs)) && c.0 in AllPairs(pvcs) && Carried(c.0, pvcs);
    var m, q :| m in pvcs && q in m && c.0 == S.PairText(q);
    p := q;
    PairOnAll(pvcs, p);
  }

  lemma FullPairsAre(pvcs: seq<S.Labels>, before: Collation, p: (string, string))
    requires TidyAll(pvcs) && pvcs != [] && OnAll(p, pvcs)
    ensures (S.PairText(p), |pvcs|) in FullPairs(pvcs, before)
  {
    hide PairCounts, S.PairText, AllPairs;
    assert pvcs[0] in pvcs;
    PairOnAll(pvcs, p);
    PairCountsAre(pvcs, before);
    FilterIn(PairCounts(pvcs, before), (c: (string, nat)) => c.1 == |pvcs|);
    assert S.PairText(p) in multiset(AllPairs(pvcs));
  }

  /** What is proposed is the text of a pair on all PVCs where there is one, and is accepted unless its value is missing. */
  lemma TakenSelectsAll(pvcs: seq<S.Labels>, before: Collation)
    requires pvcs != [] && TidyAll(pvcs)
    ensures var text := ProposePVCSelector(pvcs, before);
      (exists p :: OnAll(p, pvcs)) && !S.ValueMissing(text)
      <==> (text != "" && S.Parse(text).Parsed? && forall m <- pvcs :: S.Matches(S.Parse(text).sel, m))
    ensures (exists p :: OnAll(p, pvcs)) ==> exists p :: OnAll(p, pvcs) && ProposePVCSelector(pvcs, before) == S.PairText(p)
    ensures forall p :: OnAll(p, pvcs) ==> Rank(ProposePVCSelector(pvcs, before)) <= Rank(S.PairText(p))
  {
    hide PairCounts, FullPairs, SortBy, Rank, S.Parse, S.Matches, S.PairText, S.TidyPair, S.TidyLabels, S.ValueMissing;
    var full := FullPairs(pvcs, before);
    var counts := PairCounts(pvcs, before);
    var source := if full != [] then full else counts;
    var ranked := SortBy(source, RankOrder());
    assert Ordering(RankOrder());
    SortSorts(source, RankOrder());
    FullAreCounts(pvcs, before);
    assert forall c <- source :: c in counts;
    if ranked != [] {
      SortIn(source, RankOrder(), ranked[0]);
      var p := CountedPair(pvcs, before, ranked[0]);
      ChosenSelects(pvcs, p);
      if OnAll(p, pvcs) {
        FullPairsAre(pvcs, before, p);
      }
    }
    forall q | OnAll(q, pvcs)
      ensures ranked != [] && ranked[0] in full && Rank(ranked[0].0) <= Rank(S.PairText(q))
    {
      FullPairsAre(pvcs, before, q);
      var c: (string, nat) := (S.PairText(q), |pvcs|);
      SortIn(source, RankOrder(), c);
      SortIn(source, RankOrder(), ranked[0]);
      var i :| 0 <= i < |ranked| && ranked[i] == c;
    }
  }

  /** The consistency group's key comes first, then those that name the application, then all others. */
  function KeyPlace(key: string): nat {
    IndexOf(["storage.simplyblock.io/consistency-group", "app", "app.kubernetes.io/name", "app.kubernetes.io/instance"], key)
  }

  /** The label on all PVCs that comes before every other label on all of them, by its key and then by its text. */
  ghost predicate FirstOnAll(p: (string, string), pvcs: seq<S.Labels>, before: Collation) {
    && OnAll(p, pvcs)
    && forall q | OnAll(q, pvcs) && q != p ::
         || KeyPlace(p.0) < KeyPlace(q.0)
         || (KeyPlace(p.0) == KeyPlace(q.0) && TextBefore(S.PairText(p), S.PairText(q), AllPairs(pvcs), before))
  }

  lemma RankIsPlace(p: (string, string), q: (string, string))
    requires S.TidyPair(p) && S.TidyPair(q)
    ensures Rank(S.PairText(p)) < Rank(S.PairText(q)) <==> KeyPlace(p.0) < KeyPlace(q.0)
    ensures Rank(S.PairText(p)) == Rank(S.PairText(q)) <==> KeyPlace(p.0) == KeyPlace(q.0)
  {
    hide IndexOf, S.TidyPair, S.PairText;
    S.TidyText(p);
    S.TidyText(q);
  }

  lemma FullStand(pvcs: seq<S.Labels>, before: Collation)
    requires Ordering(before)
    ensures Stable(FullPairs(pvcs, before), PairOrder(before), Place(AllPairs(pvcs)))
    ensures Distinct(FullPairs(pvcs, before))
  {
    hide PairCounts, AllPairs, Stable, PairOrder, Place, Ordering;
    var counts, full := PairCounts(pvcs, before), (c: (string, nat)) => c.1 == |pvcs|;
    CountsStand(pvcs, before);
    FilterStable(counts, full, PairOrder(before), Place(AllPairs(pvcs)));
    PairCountsAre(pvcs, before);
    FilterDistinct(counts, full);
  }

  /** Stable sorting by rank takes the pair that stands first among the most common ones of the best rank. */
  lemma RankedFirst(counts: Counts<string>, texts: seq<string>, before: Collation, c: (string, nat))
    requires Stable(counts, PairOrder(before), Place(texts)) && Distinct(counts) && forall d <- counts :: d.0 in texts
    requires var ranked := SortBy(counts, RankOrder()); ranked != [] && c in counts && c.0 != ranked[0].0
    ensures var f := SortBy(counts, RankOrder())[0];
      || Rank(f.0) < Rank(c.0)
      || (Rank(f.0) == Rank(c.0) && (f.1 > c.1 || (f.1 == c.1 && TextBefore(f.0, c.0, texts, before))))
  {
    hide SortBy, Rank, IndexOf, Distinct;
    assert Ordering(RankOrder());
    SortFirst(counts, RankOrder(), c);
    var first := SortBy(counts, RankOrder())[0];
    var i, k := IndexOf(counts, first), IndexOf(counts, c);
    assert counts[i] == first && counts[k] == c;
    PlacesDiffer(texts, first.0, c.0);
  }

  lemma FirstIsTaken(pvcs: seq<S.Labels>, before: Collation, p: (string, string))
    requires pvcs != [] && TidyAll(pvcs) && Ordering(before)
    requires OnAll(p, pvcs) && ProposePVCSelector(pvcs, before) == S.PairText(p)
    ensures FirstOnAll(p, pvcs, before)
  {
    hide FullPairs, PairCounts, AllPairs, SortBy, RankOrder, Rank, KeyPlace, TextBefore, Stable, PairOrder, Ordering, S.PairText,
      S.TidyPair;
    var full, texts := FullPairs(pvcs, before), AllPairs(pvcs);
    FullPairsAre(pvcs, before, p);
    FullStand(pvcs, before);
    FullAreCounts(pvcs, before);
    PairCountsAre(pvcs, before);
    var c: (string, nat) := (S.PairText(p), |pvcs|);
    SortIn(full, RankOrder(), c);
    SortIn(full, RankOrder(), SortBy(full, RankOrder())[0]);
    forall d | d in full
      ensures d.1 == |pvcs| && d.0 in texts
    {
      assert d.0 in multiset(texts);
    }
    assert pvcs[0] in pvcs;
    forall q | OnAll(q, pvcs) && q != p
      ensures || KeyPlace(p.0) < KeyPlace(q.0)
              || (KeyPlace(p.0) == KeyPlace(q.0) && TextBefore(S.PairText(p), S.PairText(q), texts, before))
    {
      FullPairsAre(pvcs, before, q);
      if S.PairText(p) == S.PairText(q) {
        S.TidyTextInjective(p, q);
      }
      RankedFirst(full, texts, before, (S.PairText(q), |pvcs|));
      RankIsPlace(p, q);
    }
  }

  /**
   * The proposed selector is the label on all PVCs that comes first by key and then by text, where
   * some label is on all; it is accepted and selects every PVC exactly when that label has a value.
   */
  lemma ProposedSelectsAll(pvcs: seq<S.Labels>, before: Collation)
    requires pvcs != [] && TidyAll(pvcs) && Ordering(before)
    ensures (exists p :: OnAll(p, pvcs)) <==> exists p :: FirstOnAll(p, pvcs, before)
    ensures forall p :: FirstOnAll(p, pvcs, before) ==> ProposePVCSelector(pvcs, before) == S.PairText(p)
    ensures var text := ProposePVCSelector(pvcs, before);
      (text != "" && S.Parse(text).Parsed? && forall m <- pvcs :: S.Matches(S.Parse(text).sel, m))
      <==> exists p :: FirstOnAll(p, pvcs, before) && p.1 != ""
  {
    hide ProposePVCSelector, S.Parse, S.Matches, S.PairText, S.TidyPair, S.ValueMissing, Rank, KeyPlace, IndexOf, AllPairs, Ordering;
    TakenSelectsAll(pvcs, before);
    if exists p :: OnAll(p, pvcs) {
      var p :| OnAll(p, pvcs) && ProposePVCSelector(pvcs, before) == S.PairText(p);
      FirstIsTaken(pvcs, before, p);
      assert pvcs[0] in pvcs;
      S.TidyText(p);
      forall q | FirstOnAll(q, pvcs, before)
        ensures q == p
      {
      }
    }
  }

  /** Of the labels that some PVC carries the one with the best key, then on most PVCs, then first by its text. */
  ghost predicate FirstOnSome(p: (string, string), pvcs: seq<S.Labels>, before: Collation) {
    && Carriers(p, pvcs) > 0
    && forall q | Carriers(q, pvcs) > 0 && q != p ::
         || KeyPlace(p.0) < KeyPlace(q.0)
         || (KeyPlace(p.0) == KeyPlace(q.0) && Carriers(p, pvcs) > Carriers(q, pvcs))
         || (KeyPlace(p.0) == KeyPlace(q.0) && Carriers(p, pvcs) == Carriers(q, pvcs)
             && TextBefore(S.PairText(p), S.PairText(q), AllPairs(pvcs), before))
  }

  lemma CarriedCount(pvcs: seq<S.Labels>, before: Collation, p: (string, string))
    requires TidyAll(pvcs) && Carriers(p, pvcs) > 0
    ensures (S.PairText(p), Carriers(p, pvcs)) in PairCounts(pvcs, before)
    ensures S.TidyPair(p)
  {
    hide PairCounts, S.PairText, S.TidyPair, AllPairs, Carriers;
    CarriedPair(pvcs, p);
    PairOnAll(pvcs, p);
    PairCountsAre(pvcs, before);
    assert S.PairText(p) in multiset(AllPairs(pvcs));
  }

  /** Where no label is on all PVCs, the proposal is such a label, and empty exactly when no PVC has a label. */
  lemma ProposedOtherwise(pvcs: seq<S.Labels>, before: Collation)
    requires TidyAll(pvcs) && Ordering(before) && (pvcs == [] || forall p :: !OnAll(p, pvcs))
    ensures ProposePVCSelector(pvcs, before) == "" <==> forall p :: Carriers(p, pvcs) == 0
    ensures forall p :: FirstOnSome(p, pvcs, before) ==> ProposePVCSelector(pvcs, before) == S.PairText(p)
    ensures (exists p :: Carriers(p, pvcs) > 0) ==> exists p :: FirstOnSome(p, pvcs, before)
  {
    hide PairCounts, AllPairs, SortBy, RankOrder, Rank, KeyPlace, TextBefore, Stable, PairOrder, Place, Ordering, Distinct, S.PairText,
      S.TidyPair, Carriers, OnAll;
    if pvcs == [] {
      forall p
        ensures Carriers(p, pvcs) == 0
      {
        NoPairs(p);
      }
    } else {
      NoFull(pvcs, before);
      OtherwiseIs(pvcs, before);
    }
  }

  lemma NoFull(pvcs: seq<S.Labels>, before: Collation)
    requires TidyAll(pvcs) && forall p :: !OnAll(p, pvcs)
    ensures FullPairs(pvcs, before) == []
  {
    hide PairCounts, OnAll, S.PairText, S.TidyPair;
    FullAreCounts(pvcs, before);
    if FullPairs(pvcs, before) != [] {
      var c := FullPairs(pvcs, before)[0];
      assert c in FullPairs(pvcs, before);
      var p := CountedPair(pvcs, before, c);
      assert false;
    }
  }

  lemma CountOf(pvcs: seq<S.Labels>, before: Collation, c: (string, nat)) returns (p: (string, string))
    requires TidyAll(pvcs) && c in PairCounts(pvcs, before)
    ensures S.TidyPair(p) && c == (S.PairText(p), Carriers(p, pvcs)) && Carriers(p, pvcs) > 0
  {
    hide PairCounts, AllPairs, S.TidyPair, S.PairText, Carriers;
    p := CountedPair(pvcs, before, c);
    PairOnAll(pvcs, p);
    PairCountsAre(pvcs, before);
  }

  lemma OtherwiseIs(pvcs: seq<S.Labels>, before: Collation)
    requires pvcs != [] && TidyAll(pvcs) && Ordering(before) && FullPairs(pvcs, before) == []
    ensures ProposePVCSelector(pvcs, before) == "" <==> forall p :: Carriers(p, pvcs) == 0
    ensures forall p :: FirstOnSome(p, pvcs, before) ==> ProposePVCSelector(pvcs, before) == S.PairText(p)
    ensures (exists p :: Carriers(p, pvcs) > 0) ==> exists p :: FirstOnSome(p, pvcs, before)
  {
    hide PairCounts, FullPairs, AllPairs, SortBy, RankOrder, Rank, KeyPlace, TextBefore, Stable, PairOrder, Place, Ordering, Distinct,
      S.PairText, S.TidyPair, Carriers, FirstOnSome;
    var counts := PairCounts(pvcs, before);
    var ranked := SortBy(counts, RankOrder());
    if ranked == [] {
      forall p
        ensures Carriers(p, pvcs) == 0
      {
        if Carriers(p, pvcs) > 0 {
          CarriedCount(pvcs, before, p);
          var c: (string, nat) := (S.PairText(p), Carriers(p, pvcs));
          SortIn(counts, RankOrder(), c);
        }
      }
      FirstIsCarried(pvcs, before);
    } else {
      SortIn(counts, RankOrder(), ranked[0]);
      var p := CountOf(pvcs, before, ranked[0]);
      S.TidyText(p);
      ChosenIsFirst(pvcs, before, p);
      forall q | FirstOnSome(q, pvcs, before)
        ensures q == p
      {
        FirstsAgree(pvcs, before, p, q);
      }
    }
  }

  lemma FirstIsCarried(pvcs: seq<S.Labels>, before: Collation)
    ensures forall p :: FirstOnSome(p, pvcs, before) ==> Carriers(p, pvcs) > 0
  {
  }

  lemma FirstsAgree(pvcs: seq<S.Labels>, before: Collation, p: (string, string), q: (string, string))
    requires FirstOnSome(p, pvcs, before) && FirstOnSome(q, pvcs, before)
    ensures p == q
  {
    hide KeyPlace, Carriers, AllPairs, S.PairText, IndexOf;
  }

  lemma ChosenIsFirst(pvcs: seq<S.Labels>, before: Collation, p: (string, string))
    requires TidyAll(pvcs) && Ordering(before) && S.TidyPair(p) && Carriers(p, pvcs) > 0
    requires var ranked := SortBy(PairCounts(pvcs, before), RankOrder()); ranked != [] && ranked[0] == (S.PairText(p), Carriers(p, pvcs))
    ensures FirstOnSome(p, pvcs, before)
  {
    hide PairCounts, AllPairs, SortBy, RankOrder, Rank, KeyPlace, TextBefore, Stable, PairOrder, Place, Ordering, S.PairText, S.TidyPair,
      Carriers;
    var counts, texts := PairCounts(pvcs, before), AllPairs(pvcs);
    CountsStand(pvcs, before);
    PairCountsAre(pvcs, before);
    CountsApart(counts);
    forall d | d in counts
      ensures d.0 in texts
    {
      assert d.0 in multiset(texts);
    }
    forall q | Carriers(q, pvcs) > 0 && q != p
      ensures || KeyPlace(p.0) < KeyPlace(q.0)
              || (KeyPlace(p.0) == KeyPlace(q.0) && Carriers(p, pvcs) > Carriers(q, pvcs))
              || (KeyPlace(p.0) == KeyPlace(q.0) && Carriers(p, pvcs) == Carriers(q, pvcs)
                  && TextBefore(S.PairText(p), S.PairText(q), texts, before))
    {
      CarriedCount(pvcs, before, q);
      if S.PairText(p) == S.PairText(q) {
        S.TidyTextInjective(p, q);
      }
      RankedFirst(counts, texts, before, (S.PairText(q), Carriers(q, pvcs)));
      RankIsPlace(p, q);
    }
  }

  lemma CountsApart(counts: Counts<string>)
    requires DistinctKeys(counts)
    ensures Distinct(counts)
  {
  }

  lemma FullAreCounts(pvcs: seq<S.Labels>, before: Collation)
    ensures forall c <- FullPairs(pvcs, before) :: c in PairCounts(pvcs, before) && c.1 == |pvcs|
  {
    hide PairCounts;
    FilterIn(PairCounts(pvcs, before), (c: (string, nat)) => c.1 == |pvcs|);
  }

  lemma ChosenSelects(pvcs: seq<S.Labels>, p: (string, string))
    requires pvcs != [] && TidyAll(pvcs) && S.TidyPair(p)
    ensures S.PairText(p) != "" && (S.Parse(S.PairText(p)).Parsed? <==> !S.ValueMissing(S.PairText(p)))
    ensures S.Parse(S.PairText(p)).Parsed? ==>
      ((forall m <- pvcs :: S.Matches(S.Parse(S.PairText(p)).sel, m)) <==> OnAll(p, pvcs))
  {
    hide S.Parse, S.Matches, S.PairText, S.TidyPair, S.ValueMissing;
    assert pvcs[0] in pvcs;
    S.TidyPairSelects(p, pvcs[0], true);
    forall m | m in pvcs
      ensures S.Parse(S.PairText(p)).Parsed? ==> (S.Matches(S.Parse(S.PairText(p)).sel, m) <==> p in m)
    {
      S.TidyPairSelects(p, m, true);
    }
  }

  lemma OnlyPair(m: S.Labels, p: (string, string), before: Collation)
    requires m == [p] && S.TidyLabels(m)
    ensures ProposePVCSelector([m], before) == S.PairText(p)
  {
    hide ProposePVCSelector, S.Parse, S.Matches, S.TidyLabels, S.ValueMissing, S.PairText, Rank;
    assert forall x <- [m] :: x == m;
    assert OnAll(p, [m]);
    TakenSelectsAll([m], before);
    var q :| OnAll(q, [m]) && ProposePVCSelector([m], before) == S.PairText(q);
    assert m in [m] && q in m;
  }

  /** A PVC whose only label has no value gets a selector that is refused. */
  lemma RefusedSelectorExample(before: Collation)
    ensures var text := ProposePVCSelector([[("app", "")]], before);
      text == "app=" && S.Parse(text) == S.Refused(S.EmptyValue("app"))
  {
    hide ProposePVCSelector, S.Parse, S.Matches, S.TidyLabels, S.PairText;
    AppIsTidy();
    OnlyPair([("app", "")], ("app", ""), before);
    S.EmptyText("app");
    assert "app" + "=" == "app=";
    S.EmptyValueRefused("app", true, []);
  }

  lemma AppIsTidy()
    ensures S.TidyLabels([("app", "")]) && S.CleanKey("app")
  {
    assert S.TidyPair(("app", ""));
  }
}
