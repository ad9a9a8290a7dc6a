/** A site's graph, stored as shards: reassembly in any arrival order. */
module Shards {
  import opened Text
  import opened Seqs

  type Byte = b: int | 0 <= b < 256

  /** index and count are None where the annotation is no array index. */
  datatype Shard = Shard(generation: string, index: Option<nat>, count: Option<nat>, data: seq<Byte>)

  /** An element of a sparse array. */
  datatype Slot = Hole | Chunk(data: seq<Byte>)

  datatype Error = Unreadable | WrongCount | MixedWrites | BadIndex | NotGzip | WrongDigest

  /** text is the decompressed JSON. */
  datatype Outcome = NoShards | Failed(error: Error) | Loaded(text: string)

  /** gunzip is None where decompression throws; digest is "" where the browser has none. */
  datatype Browser = Browser(gunzip: seq<Byte> -> Option<string>, digest: string -> string)

  // ---- parts[index] = bytes, on an array of `count` holes ----

  function Holes(n: nat): seq<Slot> {
    seq(n, _ => Hole)
  }

  function Store(parts: seq<Slot>, index: Option<nat>, data: seq<Byte>): seq<Slot> {
    match index
    case None => parts
    case Some(i) =>
      if i < |parts| then parts[i := Chunk(data)]
      else parts + Holes(i - |parts|) + [Chunk(data)]
  }

  function Scatter(parts: seq<Slot>, shards: seq<Shard>): seq<Slot>
    decreases shards
  {
    if shards == [] then parts
    else Scatter(Store(parts, shards[0].index, shards[0].data), shards[1..])
  }

  /** What forEach concatenates: it skips holes. */
  function Gather(parts: seq<Slot>): seq<Byte> {
    if parts == [] then []
    else (if parts[0].Chunk? then parts[0].data else []) + Gather(parts[1..])
  }

  /** !p: undefined is falsy, a Uint8Array of any length is not. */
  predicate Falsy(slot: Slot) { slot.Hole? }

  /** parts.some(p => !p): some does not visit holes. */
  predicate SomeFalsy(parts: seq<Slot>) {
    exists i | 0 <= i < |parts| :: !parts[i].Hole? && Falsy(parts[i])
  }

  predicate CountsAgree(shards: seq<Shard>) {
    shards != [] && shards[0].count == Some(|shards|)
  }

  predicate OneGeneration(shards: seq<Shard>) {
    forall i | 0 <= i < |shards| :: shards[i].generation == shards[0].generation
  }

  function Reassembled(shards: seq<Shard>): seq<Byte> {
    Gather(Scatter(Holes(|shards|), shards))
  }

  predicate DigestAgrees(text: string, generation: string, browser: Browser) {
    generation == "" || browser.digest(text) == "" || browser.digest(text) == generation
  }

  /** What becomes of the shards once they are read. */
  function Decoded(shards: seq<Shard>, browser: Browser): Outcome
    requires shards != []
  {
    if !CountsAgree(shards) then Failed(WrongCount)
    else if !OneGeneration(shards) then Failed(MixedWrites)
    else
      var text := browser.gunzip(Reassembled(shards));
      if text.None? then Failed(NotGzip)
      else if !DigestAgrees(text.value, shards[0].generation, browser) then Failed(WrongDigest)
      else Loaded(text.value)
  }

  method Decode(shards: seq<Shard>, browser: Browser) returns (r: Outcome)
    requires shards != []
    ensures r == Decoded(shards, browser)
  {
    hide Scatter, Gather;
    if shards[0].count != Some(|shards|) {
      return Failed(WrongCount);
    }
    if exists i | 0 <= i < |shards| :: shards[i].generation != shards[0].generation {
      return Failed(MixedWrites);
    }
    var parts := Fill(shards);
    if SomeFalsy(parts) {
      return Failed(BadIndex);
    }
    var all := Concatenate(parts);
    var text := browser.gunzip(all[..]);
    if text.None? {
      return Failed(NotGzip);
    }
    if shards[0].generation != "" {
      var h := browser.digest(text.value);
      if h != "" && h != shards[0].generation {
        return Failed(WrongDigest);
      }
    }
    r := Loaded(text.value);
  }

  // ---- the graphs that are kept ----

  /** One call: the key of the graph, whether it lists shards, and what reading them would give, None where that fails. */
  datatype Request = Request(key: string, listed: bool, read: Option<seq<Shard>>)

  type Cache = map<string, string>

  predicate ReadsSome(q: Request) { q.listed && q.read.Some? ==> q.read.value != [] }

  function Answer(cache: Cache, q: Request, browser: Browser): Outcome
    requires ReadsSome(q)
  {
    if !q.listed then NoShards
    else if q.key in cache then Loaded(cache[q.key])
    else if q.read.None? then Failed(Unreadable)
    else Decoded(q.read.value, browser)
  }

  function Kept(cache: Cache, q: Request, browser: Browser): Cache
    requires ReadsSome(q)
  {
    var r := Answer(cache, q, browser);
    if r.Loaded? then cache[q.key := r.text] else cache
  }

  class GraphCache {
    var graphs: Cache

    constructor ()
      ensures graphs == map[]
    {
      graphs := map[];
    }

    method LoadGraph(q: Request, browser: Browser) returns (r: Outcome)
      requires ReadsSome(q)
      modifies this
      ensures r == Answer(old(graphs), q, browser)
      ensures graphs == Kept(old(graphs), q, browser)
    {
      hide Decoded;
      if !q.listed {
        return NoShards;
      }
      if q.key in graphs {
        r := Loaded(graphs[q.key]);
        assert graphs == graphs[q.key := graphs[q.key]];
        return;
      }
      if q.read.None? {
        return Failed(Unreadable);
      }
      r := Decode(q.read.value, browser);
      if r.Loaded? {
        graphs := graphs[q.key := r.text];
      }
    }
  }

  function Run(cache: Cache, calls: seq<Request>, browser: Browser): Cache
    requires forall q <- calls :: ReadsSome(q)
  {
    if calls == [] then cache
    else
      assert calls[|calls| - 1] in calls;
      Kept(Run(cache, calls[..|calls| - 1], browser), calls[|calls| - 1], browser)
  }

  /** The call among the first n that a kept graph comes from: the first for its key that its shards decode for. */
  predicate FirstDecoded(calls: seq<Request>, browser: Browser, key: string, i: nat)
    requires forall q <- calls :: ReadsSome(q)
  {
    && i < |calls| && Decodes(calls, browser, key, i)
    && forall j | 0 <= j < i :: !Decodes(calls, browser, key, j)
  }

  predicate Decodes(calls: seq<Request>, browser: Browser, key: string, i: nat)
    requires i < |calls| && forall q <- calls :: ReadsSome(q)
  {
    var q := calls[i];
    assert q in calls && ReadsSome(q);
    q.key == key && q.listed && q.read.Some? && Decoded(q.read.value, browser).Loaded?
  }

  lemma FirstStays(calls: seq<Request>, q: Request, browser: Browser, key: string)
    requires forall x <- calls + [q] :: ReadsSome(x)
    requires forall x <- calls :: ReadsSome(x)
    ensures forall i | 0 <= i < |calls| :: Decodes(calls + [q], browser, key, i) == Decodes(calls, browser, key, i)
    ensures forall i: nat :: FirstDecoded(calls, browser, key, i) ==> FirstDecoded(calls + [q], browser, key, i)
    ensures (forall i | 0 <= i < |calls| :: !Decodes(calls, browser, key, i)) && Decodes(calls + [q], browser, key, |calls|)
      ==> FirstDecoded(calls + [q], browser, key, |calls|)
  {
    hide Decoded;
  }

  /** After every run a graph is kept for a key exactly when some call decoded it, and it is what the first such call gave. */
  lemma {:induction false} CacheHoldsFirst(calls: seq<Request>, browser: Browser, key: string)
    requires forall q <- calls :: ReadsSome(q)
    ensures key in Run(map[], calls, browser) <==> exists i | 0 <= i < |calls| :: Decodes(calls, browser, key, i)
    ensures key in Run(map[], calls, browser) ==>
      exists i | 0 <= i < |calls| :: FirstDecoded(calls, browser, key, i)
        && Decoded(calls[i].read.value, browser) == Loaded(Run(map[], calls, browser)[key])
  {
    hide Decoded, FirstDecoded;
    if calls != [] {
      var n := |calls| - 1;
      var front, q := calls[..n], calls[n];
      assert calls == front + [q] && q in calls;
      assert forall x <- front :: x in calls;
      CacheHoldsFirst(front, browser, key);
      FirstStays(front, q, browser, key);
      assert forall i | 0 <= i < n :: calls[i] == front[i];
    }
  }

  // ---- the loops ----

  method Fill(shards: seq<Shard>) returns (parts: seq<Slot>)
    ensures parts == Scatter(Holes(|shards|), shards)
  {
    hide Store;
    parts := Holes(|shards|);
    for i := 0 to |shards|
      invariant Scatter(parts, shards[i..]) == Scatter(Holes(|shards|), shards)
    {
      assert shards[i..][1..] == shards[i + 1..];
      parts := Store(parts, shards[i].index, shards[i].data);
    }
  }

  function Size(parts: seq<Slot>): nat {
    |Gather(parts)|
  }

  lemma GatherHead(x: Slot, xs: seq<Slot>)
    ensures Gather([x] + xs) == (if x.Chunk? then x.data else []) + Gather(xs)
  {
    assert ([x] + xs)[1..] == xs;
  }

  lemma {:induction false} GatherConcat(a: seq<Slot>, b: seq<Slot>)
    ensures Gather(a + b) == Gather(a) + Gather(b)
  {
    hide Gather;
    if a == [] {
      GatherNone();
      assert a + b == b;
    } else {
      GatherConcat(a[1..], b);
      assert a == [a[0]] + a[1..] && a + b == [a[0]] + (a[1..] + b);
      GatherHead(a[0], a[1..]);
      GatherHead(a[0], a[1..] + b);
    }
  }

  lemma GatherStep(parts: seq<Slot>, i: nat)
    requires i < |parts|
    ensures Gather(parts[..i + 1]) == Gather(parts[..i]) + if parts[i].Chunk? then parts[i].data else []
    ensures Size(parts[..i]) <= Size(parts[..i + 1]) <= Size(parts)
  {
    assert parts[..i + 1] == parts[..i] + [parts[i]];
    GatherConcat(parts[..i], [parts[i]]);
    assert parts == parts[..i + 1] + parts[i + 1..];
    GatherConcat(parts[..i + 1], parts[i + 1..]);
    assert [parts[i]][1..] == [];
  }

  /** The chunks copied one after the other into one buffer, at a moving offset. */
  method Concatenate(parts: seq<Slot>) returns (all: array<Byte>)
    ensures fresh(all) && all[..] == Gather(parts)
  {
    hide Gather;
    var total := 0;
    GatherNone();
    assert parts[..0] == [];
    for i := 0 to |parts|
      invariant total == Size(parts[..i])
    {
      GatherStep(parts, i);
      if parts[i].Chunk? {
        total := total + |parts[i].data|;
      }
    }
    assert parts[..|parts|] == parts;
    all := new Byte[total];
    var off := 0;
    for i := 0 to |parts|
      invariant off == Size(parts[..i]) <= all.Length
      invariant all[..off] == Gather(parts[..i])
    {
      GatherStep(parts, i);
      if parts[i].Chunk? {
        Copy(all, off, parts[i].data);
        off := off + |parts[i].data|;
      }
    }
    assert all[..off] == all[..];
  }

  lemma GatherNone()
    ensures Gather([]) == []
  {
  }

  /** all.set(data, off) */
  method Copy(all: array<Byte>, off: nat, data: seq<Byte>)
    requires off + |data| <= all.Length
    modifies all
    ensures all[..] == old(all[..off]) + data + old(all[off + |data|..])
    ensures all[..off + |data|] == old(all[..off]) + data
  {
    for i := 0 to |data|
      invariant all[..off] == old(all[..off])
      invariant all[off..off + i] == data[..i]
      invariant all[off + i..] == old(all[off + i..])
    {
      all[off + i] := data[i];
      assert all[off..off + i + 1] == all[off..off + i] + [data[i]];
    }
    assert all[..] == all[..off] + all[off..off + |data|] + all[off + |data|..];
    assert all[..off + |data|] == all[..off] + all[off..off + |data|];
  }

  // ---- what is reassembled ----

  predicate HasIndex(shards: seq<Shard>, i: nat) {
    exists s <- shards :: s.index == Some(i)
  }

  /** The data of the last shard under an index, nothing for none. */
  function LastAt(shards: seq<Shard>, i: nat): seq<Byte> {
    if shards == [] then []
    else
      var n := |shards| - 1;
      if shards[n].index == Some(i) then shards[n].data else LastAt(shards[..n], i)
  }

  /** How many elements the array has in the end: at least one for every shard and every index. */
  function Extent(shards: seq<Shard>, n: nat): (r: nat)
    ensures r >= n
  {
    if shards == [] then n
    else
      var r := Extent(shards[..|shards| - 1], n);
      var last := shards[|shards| - 1].index;
      if last.Some? && last.value >= r then last.value + 1 else r
  }

  /** What lies under the indices from lo up to hi, in ascending order. */
  function Between(shards: seq<Shard>, lo: nat, hi: nat): (r: seq<seq<Byte>>)
    requires lo <= hi
    ensures |r| == hi - lo && forall i | 0 <= i < |r| :: r[i] == LastAt(shards, lo + i)
  {
    seq(hi - lo, i requires 0 <= i < hi - lo => LastAt(shards, lo + i))
  }

  lemma HasIndexOneMore(shards: seq<Shard>, s: Shard, i: nat)
    ensures HasIndex(shards + [s], i) <==> HasIndex(shards, i) || s.index == Some(i)
  {
    assert s in shards + [s];
    forall x
      ensures x in shards + [s] <==> x in shards || x == s
    {
    }
  }

  lemma {:induction false} ScatterOneMore(parts: seq<Slot>, shards: seq<Shard>, s: Shard)
    ensures Scatter(parts, shards + [s]) == Store(Scatter(parts, shards), s.index, s.data)
    decreases shards
  {
    hide Store;
    if shards == [] {
      assert (shards + [s])[1..] == [];
      assert Scatter(Store(parts, s.index, s.data), []) == Store(parts, s.index, s.data);
    } else {
      assert (shards + [s])[1..] == shards[1..] + [s];
      ScatterOneMore(Store(parts, shards[0].index, shards[0].data), shards[1..], s);
    }
  }

  /** In every order and with any indices, an element ends as the last data stored under its index, or as a hole. */
  lemma {:induction false} Scattered(shards: seq<Shard>, n: nat)
    ensures var r := Scatter(Holes(n), shards);
      && |r| == Extent(shards, n)
      && (forall i | 0 <= i < |r| :: r[i] == if HasIndex(shards, i) then Chunk(LastAt(shards, i)) else Hole)
      && (forall i: nat | i >= |r| :: !HasIndex(shards, i))
      && (forall i: nat | !HasIndex(shards, i) :: LastAt(shards, i) == [])
  {
    hide HasIndex;
    if shards == [] {
      assert forall i: nat :: !HasIndex(shards, i) by {
        NoIndex();
      }
    } else {
      var front, s := shards[..|shards| - 1], shards[|shards| - 1];
      assert shards == front + [s];
      Scattered(front, n);
      ScatterOneMore(Holes(n), front, s);
      forall i: nat
        ensures HasIndex(shards, i) <==> HasIndex(front, i) || s.index == Some(i)
      {
        HasIndexOneMore(front, s, i);
      }
    }
  }

  lemma NoIndex()
    ensures forall i: nat :: !HasIndex([], i)
  {
  }

  /** The array has a hole exactly when an index is missing below its length. The bad-index test, which skips holes, sees none. */
  lemma HolesGoUnseen(shards: seq<Shard>)
    ensures var parts := Scatter(Holes(|shards|), shards);
      && (Hole in parts <==> exists i: nat | i < Extent(shards, |shards|) :: !HasIndex(shards, i))
      && !SomeFalsy(parts)
  {
    hide HasIndex, Scatter, Extent;
    Scattered(shards, |shards|);
    var parts := Scatter(Holes(|shards|), shards);
    if i: nat :| i < |parts| && !HasIndex(shards, i) {
      assert parts[i] == Hole;
    }
  }

  lemma {:induction false} GatherIsFlatten(parts: seq<Slot>, lists: seq<seq<Byte>>)
    requires |parts| == |lists| && forall i | 0 <= i < |parts| :: lists[i] == if parts[i].Chunk? then parts[i].data else []
    ensures Gather(parts) == Flatten(lists)
  {
    if parts != [] {
      GatherIsFlatten(parts[1..], lists[1..]);
    }
  }

  /** Whatever the indices, the bytes are the last data under each index, in ascending order; data under no index is dropped. */
  lemma ReassembledIs(shards: seq<Shard>)
    ensures Reassembled(shards) == Flatten(Between(shards, 0, Extent(shards, |shards|)))
  {
    hide Scatter, Gather, HasIndex, Flatten, LastAt, Extent;
    Scattered(shards, |shards|);
    GatherIsFlatten(Scatter(Holes(|shards|), shards), Between(shards, 0, Extent(shards, |shards|)));
  }

  /** Shards that carry chunks of a stream, each under its index where that is one of the stream's; other indices, or none, carry anything. */
  predicate CarryChunks(shards: seq<Shard>, chunks: seq<seq<Byte>>) {
    forall s <- shards :: s.index.Some? && s.index.value < |chunks| ==> s.data == chunks[s.index.value]
  }

  /** The chunks of the indices that are there, the others as nothing. */
  function Present(shards: seq<Shard>, chunks: seq<seq<Byte>>): (r: seq<seq<Byte>>)
    ensures |r| == |chunks| && forall i | 0 <= i < |r| :: r[i] == if HasIndex(shards, i) then chunks[i] else []
  {
    seq(|chunks|, i requires 0 <= i < |chunks| => if HasIndex(shards, i) then chunks[i] else [])
  }

  /** What is stored past the end of the stream. */
  function Past(shards: seq<Shard>): seq<seq<Byte>> {
    Between(shards, |shards|, Extent(shards, |shards|))
  }

  lemma {:induction false} LastIsChunk(shards: seq<Shard>, chunks: seq<seq<Byte>>, i: nat)
    requires CarryChunks(shards, chunks) && i < |chunks|
    ensures LastAt(shards, i) == if HasIndex(shards, i) then chunks[i] else []
  {
    if shards == [] {
      NoIndex();
    } else {
      var front, s := shards[..|shards| - 1], shards[|shards| - 1];
      assert shards == front + [s] && s in shards;
      assert forall x <- front :: x in shards;
      LastIsChunk(front, chunks, i);
      HasIndexOneMore(front, s, i);
    }
  }

  /** The chunks that are there, in order, and then what was stored past the end. */
  lemma PresentThenPast(shards: seq<Shard>, chunks: seq<seq<Byte>>)
    requires |shards| == |chunks| && CarryChunks(shards, chunks)
    ensures Reassembled(shards) == Flatten(Present(shards, chunks)) + Flatten(Past(shards))
  {
    hide Flatten, LastAt, Extent, HasIndex, Reassembled, CarryChunks;
    ReassembledIs(shards);
    forall i | 0 <= i < |chunks|
      ensures LastAt(shards, i) == Present(shards, chunks)[i]
    {
      LastIsChunk(shards, chunks, i);
    }
    assert Between(shards, 0, Extent(shards, |shards|)) == Present(shards, chunks) + Past(shards);
    FlattenConcat(Present(shards, chunks), Past(shards));
  }

  lemma {:induction false} PartialIsWhole(some: seq<seq<Byte>>, all: seq<seq<Byte>>)
    requires |some| == |all| && forall i | 0 <= i < |all| :: some[i] == all[i] || some[i] == []
    ensures |Flatten(some)| <= |Flatten(all)|
    ensures |Flatten(some)| == |Flatten(all)| <==> some == all
  {
    if all != [] {
      PartialIsWhole(some[1..], all[1..]);
      assert all == [all[0]] + all[1..] && some == [some[0]] + some[1..];
    }
  }

  /**
   * With nothing stored past the end, shards give back the stream they were cut from exactly when
   * every chunk that no shard carries is empty. What is stored past the end can at most stand in
   * for missing chunks: the stream comes back only if just as many bytes are missing.
   */
  lemma ReassemblyIsExact(shards: seq<Shard>, chunks: seq<seq<Byte>>)
    requires |shards| == |chunks| && CarryChunks(shards, chunks)
    ensures Flatten(Past(shards)) == [] ==>
      (Reassembled(shards) == Flatten(chunks) <==> forall i | 0 <= i < |chunks| :: HasIndex(shards, i) || chunks[i] == [])
    ensures Reassembled(shards) == Flatten(chunks) ==>
      |Flatten(Past(shards))| == |Flatten(chunks)| - |Flatten(Present(shards, chunks))|
    ensures Flatten(Past(shards)) != [] && (forall i | 0 <= i < |chunks| :: HasIndex(shards, i) || chunks[i] == [])
      ==> Reassembled(shards) != Flatten(chunks)
  {
    hide Scatter, Gather, HasIndex, Flatten, Reassembled, Past, CarryChunks;
    var present := Present(shards, chunks);
    PresentThenPast(shards, chunks);
    PartialIsWhole(present, chunks);
    assert Flatten(Past(shards)) == [] ==> Flatten(present) + Flatten(Past(shards)) == Flatten(present);
    if present == chunks {
      forall i | 0 <= i < |chunks|
        ensures HasIndex(shards, i) || chunks[i] == []
      {
        assert present[i] == chunks[i];
      }
    }
  }

  predicate DistinctIndices(shards: seq<Shard>) {
    forall i, j | 0 <= i < j < |shards| :: shards[i].index != shards[j].index
  }

  /** n distinct indices below n are all of them. */
  lemma {:induction false} NoneMissing(shards: seq<Shard>, n: nat, i: nat)
    requires DistinctIndices(shards) && |shards| == n && i < n
    requires forall s <- shards :: s.index.Some? && s.index.value < n
    ensures HasIndex(shards, i)
  {
    var found := set s | s in shards :: s.index.value;
    IndexCount(shards);
    BelowCount(n);
    assert found <= Below(n);
    FullSubset(found, Below(n));
    assert i in found;
  }

  lemma {:induction false} IndexCount(shards: seq<Shard>)
    requires DistinctIndices(shards) && forall s <- shards :: s.index.Some?
    ensures |set s | s in shards :: s.index.value| == |shards|
  {
    var found := set s | s in shards :: s.index.value;
    if shards == [] {
      assert found == {};
    } else {
      var rest := shards[1..];
      IndexCount(rest);
      assert shards == [shards[0]] + rest && shards[0] in shards;
      var more := set s | s in rest :: s.index.value;
      assert forall s <- rest :: s.index != shards[0].index;
      assert shards[0].index.value !in more;
      assert found == {shards[0].index.value} + more;
    }
  }

  function Below(n: nat): (r: set<int>)
    ensures forall k :: k in r <==> 0 <= k < n
  {
    if n == 0 then {} else Below(n - 1) + {n - 1}
  }

  lemma {:induction false} BelowCount(n: nat)
    ensures |Below(n)| == n
  {
    if n > 0 {
      BelowCount(n - 1);
      AddOne(Below(n - 1), n - 1);
    }
  }

  lemma AddOne(a: set<int>, x: int)
    requires x !in a
    ensures |a + {x}| == |a| + 1
  {
  }

  lemma FullSubset(a: set<int>, b: set<int>)
    requires a <= b && |a| == |b|
    ensures a == b
  {
    assert b == a + (b - a);
    assert |b - a| == 0;
  }

  lemma NothingPast(shards: seq<Shard>)
    requires forall s <- shards :: s.index.Some? ==> s.index.value < |shards|
    ensures Past(shards) == []
  {
    ExtentInRange(shards, |shards|);
  }

  lemma {:induction false} ExtentInRange(shards: seq<Shard>, n: nat)
    requires forall s <- shards :: s.index.Some? ==> s.index.value < n
    ensures Extent(shards, n) == n
  {
    if shards != [] {
      var front, s := shards[..|shards| - 1], shards[|shards| - 1];
      assert s in shards && forall x <- front :: x in shards;
      ExtentInRange(front, n);
    }
  }

  /** Shards whose indices are a permutation give back the stream in any order of arrival. */
  lemma AnyOrderReassembles(shards: seq<Shard>, chunks: seq<seq<Byte>>)
    requires |shards| == |chunks| && CarryChunks(shards, chunks) && DistinctIndices(shards)
    requires forall s <- shards :: s.index.Some? && s.index.value < |chunks|
    ensures Reassembled(shards) == Flatten(chunks)
  {
    hide HasIndex, Reassembled, Past;
    forall i | 0 <= i < |chunks|
      ensures HasIndex(shards, i)
    {
      NoneMissing(shards, |chunks|, i);
    }
    NothingPast(shards);
    assert Flatten<Byte>([]) == [];
    ReassemblyIsExact(shards, chunks);
  }

  /**
   * Where the digest tells the written text from all others, shards of one write decode to that
   * text or not at all, whatever their indices; and they decode when no index is stored past
   * the end and every chunk that no shard carries is empty.
   */
  lemma DigestStopsLoss(shards: seq<Shard>, chunks: seq<seq<Byte>>, browser: Browser, written: string)
    requires CountsAgree(shards) && OneGeneration(shards) && |shards| == |chunks| && CarryChunks(shards, chunks)
    requires browser.gunzip(Flatten(chunks)) == Some(written)
    requires forall text :: browser.digest(text) != ""
    requires forall text :: browser.digest(text) == browser.digest(written) ==> text == written
    requires shards[0].generation == browser.digest(written)
    ensures Decoded(shards, browser) in {Failed(NotGzip), Failed(WrongDigest), Loaded(written)}
    ensures Decoded(shards, browser) == Loaded(written)
      <==> browser.gunzip(Flatten(Present(shards, chunks)) + Flatten(Past(shards))) == Some(written)
    ensures Flatten(Past(shards)) == [] && (forall i | 0 <= i < |chunks| :: HasIndex(shards, i) || chunks[i] == [])
      ==> Decoded(shards, browser) == Loaded(written)
  {
    hide HasIndex, Reassembled, Flatten, CarryChunks, Past, Present;
    PresentThenPast(shards, chunks);
    ReassemblyIsExact(shards, chunks);
  }

  /** A missing index drops its shard's data: of the stream only the first chunk is left. */
  lemma MissingIndexCutsStream(a: seq<Byte>, b: seq<Byte>)
    ensures var shards := [Shard("", Some(0), Some(2), a), Shard("", None, Some(2), b)];
      Reassembled(shards) == a && CountsAgree(shards) && OneGeneration(shards)
  {
    var s, t := Shard("", Some(0), Some(2), a), Shard("", None, Some(2), b);
    ScatterOneMore(Holes(2), [s], t);
    ScatterOneMore(Holes(2), [], s);
    assert [s] + [t] == [s, t] && [] + [s] == [s];
    GatherFirst(Scatter(Holes(2), [s, t]), a);
  }

  lemma GatherFirst(parts: seq<Slot>, a: seq<Byte>)
    requires parts == [Chunk(a), Hole]
    ensures Gather(parts) == a
  {
    assert parts[1..] == [Hole] && [Hole][1..] == [];
    assert Gather([]) == [];
    assert Gather([Hole]) == [];
    assert a + [] == a;
  }

  /** Two writes of one index lose a chunk: the stream is cut short and no index is found bad. */
  lemma DuplicateIndexCutsStream(a: seq<Byte>)
    ensures var s := Shard("", Some(0), Some(2), a);
      && Reassembled([s, s]) == a
      && !SomeFalsy(Scatter(Holes(2), [s, s]))
  {
    var s := Shard("", Some(0), Some(2), a);
    ScatterOneMore(Holes(2), [s], s);
    ScatterOneMore(Holes(2), [], s);
    assert [s] + [s] == [s, s] && [] + [s] == [s];
    GatherFirst(Scatter(Holes(2), [s, s]), a);
  }
}
