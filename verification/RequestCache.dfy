/** The read cache of the control plane: one request per path, shared for three seconds. */
module RequestCache {
  import opened Text

  const TTL_MS := 3000

  datatype Status = Pending | Succeeded | Rejected | Handled
  datatype Request = Request(path: string, started: int, status: Status)
  datatype Entry = Entry(t: int, id: nat)

  /** What happened on a path: a request was started, or a failure's handler deleted the path. */
  datatype Event = Started(path: string, t: int, id: nat) | Dropped(path: string, id: nat)

  /** The cache, the requests it made, by number, and the history. */
  datatype State = State(cache: map<string, Entry>, requests: seq<Request>, log: seq<Event>)

  const INIT := State(map[], [], [])

  /** The clock is read at each call; requests settle, and the handlers of failed ones run, in any order. */
  datatype Step = Call(path: string, now: int) | Succeed(id: nat) | Reject(id: nat) | RunHandler(id: nat)

  predicate Fresh(s: State, path: string, now: int) {
    path in s.cache && now - s.cache[path].t < TTL_MS
  }

  /** The request a call is answered with. */
  function Served(s: State, path: string, now: int): nat {
    if Fresh(s, path, now) then s.cache[path].id else |s.requests|
  }

  function AfterCall(s: State, path: string, now: int): State {
    if Fresh(s, path, now) then s
    else
      var id := |s.requests|;
      State(s.cache[path := Entry(now, id)], s.requests + [Request(path, now, Pending)], s.log + [Started(path, now, id)])
  }

  function Settle(s: State, id: nat, status: Status): State {
    if id < |s.requests| && s.requests[id].status.Pending?
    then s.(requests := s.requests[id := s.requests[id].(status := status)])
    else s
  }

  function AfterHandler(s: State, id: nat): State {
    if id < |s.requests| && s.requests[id].status.Rejected? then
      var path := s.requests[id].path;
      State(s.cache - {path}, s.requests[id := s.requests[id].(status := Handled)], s.log + [Dropped(path, id)])
    else s
  }

  function Next(s: State, step: Step): State {
    match step
    case Call(path, now) => AfterCall(s, path, now)
    case Succeed(id) => Settle(s, id, Succeeded)
    case Reject(id) => Settle(s, id, Rejected)
    case RunHandler(id) => AfterHandler(s, id)
  }

  function Run(s: State, steps: seq<Step>): State {
    if steps == [] then s else Next(Run(s, steps[..|steps| - 1]), steps[|steps| - 1])
  }

  class ControlPlane {
    var cache: map<string, Entry>
    var requests: seq<Request>
    ghost var log: seq<Event>

    ghost function Abstract(): State
      reads this
    {
      State(cache, requests, log)
    }

    constructor ()
      ensures Abstract() == INIT
    {
      cache, requests, log := map[], [], [];
    }

    method Get(path: string, now: int) returns (id: nat)
      modifies this
      ensures id == Served(old(Abstract()), path, now)
      ensures Abstract() == Next(old(Abstract()), Call(path, now))
    {
      if path in cache && now - cache[path].t < TTL_MS {
        return cache[path].id;
      }
      id := |requests|;
      requests := requests + [Request(path, now, Pending)];
      cache := cache[path := Entry(now, id)];
      log := log + [Started(path, now, id)];
    }

    method Finish(id: nat, ok: bool)
      modifies this
      ensures Abstract() == Next(old(Abstract()), if ok then Succeed(id) else Reject(id))
    {
      if id < |requests| && requests[id].status.Pending? {
        requests := requests[id := requests[id].(status := if ok then Succeeded else Rejected)];
      }
    }

    /** p.catch(() => cpCache.delete(path)) */
    method HandleFailure(id: nat)
      modifies this
      ensures Abstract() == Next(old(Abstract()), RunHandler(id))
    {
      if id < |requests| && requests[id].status.Rejected? {
        var path := requests[id].path;
        requests := requests[id := requests[id].(status := Handled)];
        cache := cache - {path};
        log := log + [Dropped(path, id)];
      }
    }
  }

  // ---- the cache is what the history says ----

  /** The entry the history leaves for a path: that of the newest event on it, if that is a start. */
  function Remembered(log: seq<Event>, path: string): Option<Entry> {
    if log == [] then None
    else
      var e := log[|log| - 1];
      if e.path != path then Remembered(log[..|log| - 1], path)
      else if e.Started? then Some(Entry(e.t, e.id)) else None
  }

  function Cached(s: State, path: string): Option<Entry> {
    if path in s.cache then Some(s.cache[path]) else None
  }

  ghost predicate Mirrors(s: State) {
    forall path :: Cached(s, path) == Remembered(s.log, path)
  }

  predicate EventOk(s: State, e: Event) {
    && e.id < |s.requests| && s.requests[e.id].path == e.path
    && (e.Started? ==> s.requests[e.id].started == e.t)
    && (e.Dropped? ==> s.requests[e.id].status.Handled?)
  }

  predicate EntryOk(s: State, path: string, e: Entry) {
    && e.id < |s.requests| && s.requests[e.id].path == path && s.requests[e.id].started == e.t
    && !s.requests[e.id].status.Handled?
  }

  predicate NoDropBetween(log: seq<Event>, path: string, i: nat, j: nat)
    requires i <= j <= |log|
  {
    forall k | i <= k < j :: !(log[k].Dropped? && log[k].path == path)
  }

  /** Two starts on one path, with no failure handled on it between them, are at least the lifetime apart. */
  predicate Spaced(log: seq<Event>) {
    forall i, j | 0 <= i < j < |log| && log[i].Started? && log[j].Started? && log[i].path == log[j].path
                  && NoDropBetween(log, log[i].path, i, j) ::
      log[j].t - log[i].t >= TTL_MS
  }

  ghost predicate Inv(s: State) {
    && Mirrors(s)
    && (forall i | 0 <= i < |s.log| :: EventOk(s, s.log[i]))
    && (forall path <- s.cache :: EntryOk(s, path, s.cache[path]))
    && Spaced(s.log)
  }

  // ---- every step keeps it ----

  lemma RememberedAfter(log: seq<Event>, e: Event, path: string)
    ensures Remembered(log + [e], path)
      == if e.path != path then Remembered(log, path) else if e.Started? then Some(Entry(e.t, e.id)) else None
  {
    assert (log + [e])[..|log|] == log;
  }

  /** Where no failure was handled since a start, the newest start on the path is what is remembered. */
  lemma {:induction false} RemembersStart(log: seq<Event>, i: nat) returns (m: nat)
    requires i < |log| && log[i].Started? && NoDropBetween(log, log[i].path, i, |log|)
    ensures i <= m < |log| && log[m].Started? && log[m].path == log[i].path
    ensures Remembered(log, log[i].path) == Some(Entry(log[m].t, log[m].id))
  {
    var n := |log| - 1;
    if log[n].path == log[i].path {
      m := n;
    } else {
      m := RemembersStart(log[..n], i);
    }
  }

  lemma StartSpaced(s: State, e: Event)
    requires Inv(s) && e.Started? && !Fresh(s, e.path, e.t)
    ensures Spaced(s.log + [e])
  {
    var log := s.log + [e];
    forall i, j | 0 <= i < j < |log| && log[i].Started? && log[j].Started? && log[i].path == log[j].path
                  && NoDropBetween(log, log[i].path, i, j)
      ensures log[j].t - log[i].t >= TTL_MS
    {
      assert forall k | 0 <= k < |s.log| :: log[k] == s.log[k];
      assert NoDropBetween(s.log, log[i].path, i, if j < |s.log| then j else |s.log|);
      if j == |s.log| {
        var m := RemembersStart(s.log, i);
        assert Cached(s, e.path) == Remembered(s.log, e.path);
        if i < m {
          assert NoDropBetween(s.log, log[i].path, i, m);
        }
      }
    }
  }

  lemma CallKeeps(s: State, path: string, now: int)
    requires Inv(s)
    ensures Inv(AfterCall(s, path, now))
  {
    var s' := AfterCall(s, path, now);
    if !Fresh(s, path, now) {
      var e := Started(path, now, |s.requests|);
      StartSpaced(s, e);
      forall p
        ensures Cached(s', p) == Remembered(s'.log, p)
      {
        RememberedAfter(s.log, e, p);
        assert Cached(s, p) == Remembered(s.log, p);
      }
    }
  }

  lemma SettleKeeps(s: State, id: nat, status: Status)
    requires Inv(s) && !status.Handled?
    ensures Inv(Settle(s, id, status))
  {
    var s' := Settle(s, id, status);
    forall p
      ensures Cached(s', p) == Remembered(s'.log, p)
    {
      assert Cached(s, p) == Remembered(s.log, p);
    }
  }

  lemma DropSpaced(log: seq<Event>, e: Event)
    requires Spaced(log) && e.Dropped?
    ensures Spaced(log + [e])
  {
    forall i, j | 0 <= i < j < |log + [e]| && (log + [e])[i].Started? && (log + [e])[j].Started?
                  && (log + [e])[i].path == (log + [e])[j].path && NoDropBetween(log + [e], (log + [e])[i].path, i, j)
      ensures (log + [e])[j].t - (log + [e])[i].t >= TTL_MS
    {
      assert forall k | 0 <= k < |log| :: (log + [e])[k] == log[k];
      assert NoDropBetween(log, log[i].path, i, j);
    }
  }

  lemma HandlerKeeps(s: State, id: nat)
    requires Inv(s)
    ensures Inv(AfterHandler(s, id))
  {
    var s' := AfterHandler(s, id);
    if s' != s {
      var e := Dropped(s.requests[id].path, id);
      DropSpaced(s.log, e);
      forall p
        ensures Cached(s', p) == Remembered(s'.log, p)
      {
        RememberedAfter(s.log, e, p);
        assert Cached(s, p) == Remembered(s.log, p);
      }
    }
  }

  /** Every run keeps the invariant, whatever the clock shows and however requests settle. */
  lemma {:induction false} RunKeeps(steps: seq<Step>)
    ensures Inv(Run(INIT, steps))
  {
    hide Inv, AfterCall, Settle, AfterHandler;
    if steps == [] {
      InitOk();
    } else {
      var s, step := Run(INIT, steps[..|steps| - 1]), steps[|steps| - 1];
      RunKeeps(steps[..|steps| - 1]);
      match step
      case Call(path, now) => CallKeeps(s, path, now);
      case Succeed(id) => SettleKeeps(s, id, Succeeded);
      case Reject(id) => SettleKeeps(s, id, Rejected);
      case RunHandler(id) => HandlerKeeps(s, id);
    }
  }

  lemma InitOk()
    ensures Inv(INIT)
  {
  }

  // ---- what it means ----

  /**
   * In every run, a call is answered with a request for its path that was
   * started less than 3000 ms ago by the clock of that call and whose failure,
   * if it failed, was not handled yet; and it starts a new one exactly when
   * the history leaves no such entry.
   */
  lemma {:induction false} ServesOnlyFresh(steps: seq<Step>, path: string, now: int)
    ensures var s := Run(INIT, steps);
      var s', id := Next(s, Call(path, now)), Served(s, path, now);
      && id < |s'.requests| && s'.requests[id].path == path
      && now - s'.requests[id].started < 3000
      && !s'.requests[id].status.Handled?
      && (s' == s <==> Remembered(s.log, path).Some? && now - Remembered(s.log, path).value.t < 3000)
  {
    RunKeeps(steps);
    var s := Run(INIT, steps);
    assert Cached(s, path) == Remembered(s.log, path);
    if Fresh(s, path, now) {
      assert EntryOk(s, path, s.cache[path]);
    }
  }

  /** In every run, no cached request is one whose failure was handled; and handling a failure leaves its path uncached. */
  lemma HandledIsGone(steps: seq<Step>, id: nat)
    ensures var s := Run(INIT, steps);
      && (forall path <- s.cache :: s.cache[path].id < |s.requests| && !s.requests[s.cache[path].id].status.Handled?)
      && (id < |s.requests| && s.requests[id].status.Rejected? ==>
            s.requests[id].path !in Next(s, RunHandler(id)).cache)
  {
    RunKeeps(steps);
    var s := Run(INIT, steps);
    forall path | path in s.cache
      ensures s.cache[path].id < |s.requests| && !s.requests[s.cache[path].id].status.Handled?
    {
      assert EntryOk(s, path, s.cache[path]);
    }
  }

  /**
   * In every run, two starts on one path less than 3000 ms apart have the
   * handled failure of a request for that path between them.
   */
  lemma CloseStartsHaveFailure(steps: seq<Step>, i: nat, j: nat)
    requires var log := Run(INIT, steps).log;
      i < j < |log| && log[i].Started? && log[j].Started? && log[i].path == log[j].path && log[j].t - log[i].t < 3000
    ensures var s := Run(INIT, steps);
      exists k | i < k < j :: s.log[k].Dropped? && s.log[k].path == s.log[i].path
        && s.log[k].id < |s.requests| && s.requests[s.log[k].id] == Request(s.log[i].path, s.requests[s.log[k].id].started, Handled)
  {
    RunKeeps(steps);
    var s := Run(INIT, steps);
    assert !NoDropBetween(s.log, s.log[i].path, i, j);
    var k :| i <= k < j && s.log[k].Dropped? && s.log[k].path == s.log[i].path;
    assert EventOk(s, s.log[k]);
  }

  function StartTimes(log: seq<Event>, path: string): seq<int> {
    if log == [] then []
    else
      var e, front := log[|log| - 1], StartTimes(log[..|log| - 1], path);
      if e.Started? && e.path == path then front + [e.t] else front
  }

  lemma SpacedFront(log: seq<Event>)
    requires Spaced(log) && log != []
    ensures Spaced(log[..|log| - 1])
  {
    var n := |log| - 1;
    var front := log[..n];
    forall i, j | 0 <= i < j < n && front[i].Started? && front[j].Started? && front[i].path == front[j].path
                  && NoDropBetween(front, front[i].path, i, j)
      ensures front[j].t - front[i].t >= TTL_MS
    {
      assert NoDropBetween(log, log[i].path, i, j);
    }
  }

  /** The last start on a path is an event of the log. */
  predicate IsStart(log: seq<Event>, path: string, t: int) {
    exists m | 0 <= m < |log| :: log[m].Started? && log[m].path == path && log[m].t == t
  }

  lemma StartStays(log: seq<Event>, path: string, t: int)
    requires log != []
    ensures IsStart(log[..|log| - 1], path, t) ==> IsStart(log, path, t)
    ensures log[|log| - 1].Started? && log[|log| - 1].path == path ==> IsStart(log, path, log[|log| - 1].t)
  {
    var n := |log| - 1;
    var front := log[..n];
    if IsStart(front, path, t) {
      var m :| 0 <= m < n && front[m].Started? && front[m].path == path && front[m].t == t;
      assert log[m] == front[m];
    }
  }

  lemma LaterStart(log: seq<Event>, path: string, t: int)
    requires Spaced(log) && NoDropBetween(log, path, 0, |log|) && log != []
    requires log[|log| - 1].Started? && log[|log| - 1].path == path && IsStart(log[..|log| - 1], path, t)
    ensures log[|log| - 1].t - t >= TTL_MS
  {
    var n := |log| - 1;
    var front := log[..n];
    var m :| 0 <= m < n && front[m].Started? && front[m].path == path && front[m].t == t;
    assert log[m] == front[m];
    assert NoDropBetween(log, path, m, n);
  }

  lemma {:induction false} TimesSpread(log: seq<Event>, path: string)
    requires Spaced(log) && NoDropBetween(log, path, 0, |log|)
    ensures var ts := StartTimes(log, path);
      && (ts != [] ==> IsStart(log, path, ts[|ts| - 1]))
      && (ts != [] ==> ts[|ts| - 1] - ts[0] >= TTL_MS * (|ts| - 1))
  {
    hide Spaced, IsStart;
    if log != [] {
      var n := |log| - 1;
      var front, ts := log[..n], StartTimes(log[..n], path);
      SpacedFront(log);
      TimesSpread(front, path);
      if ts != [] {
        StartStays(log, path, ts[|ts| - 1]);
        if log[n].Started? && log[n].path == path {
          LaterStart(log, path, ts[|ts| - 1]);
        }
      } else {
        StartStays(log, path, 0);
      }
    }
  }

  lemma SpacedPart(log: seq<Event>, from: nat, to: nat)
    requires from <= to <= |log| && Spaced(log)
    ensures Spaced(log[from..to])
  {
    var part := log[from..to];
    forall i, j | 0 <= i < j < |part| && part[i].Started? && part[j].Started? && part[i].path == part[j].path
                  && NoDropBetween(part, part[i].path, i, j)
      ensures part[j].t - part[i].t >= TTL_MS
    {
      forall k | from + i <= k < from + j
        ensures !(log[k].Dropped? && log[k].path == part[i].path)
      {
        assert log[k] == part[k - from];
      }
      assert log[from + i] == part[i] && log[from + j] == part[j];
    }
  }

  /**
   * In every run, a stretch of history without a handled failure on a path,
   * whose starts on it lie within w ms, holds at most w/3000 + 1 of them.
   */
  lemma LoadIsBounded(steps: seq<Step>, path: string, from: nat, to: nat, w: nat)
    requires var log := Run(INIT, steps).log;
      from <= to <= |log| && NoDropBetween(log, path, from, to)
      && var ts := StartTimes(log[from..to], path); ts != [] ==> ts[|ts| - 1] - ts[0] <= w
    ensures |StartTimes(Run(INIT, steps).log[from..to], path)| <= w / 3000 + 1
  {
    hide Spaced, StartTimes, Run;
    RunKeeps(steps);
    var log := Run(INIT, steps).log;
    var part := log[from..to];
    SpacedPart(log, from, to);
    assert forall k | 0 <= k < |part| :: part[k] == log[from + k];
    TimesSpread(part, path);
  }

  /** Every request has its start in the history, and starts come in the order of their numbers. */
  ghost predicate Recorded(s: State) {
    && (forall id: nat | id < |s.requests| :: StartOf(s, id))
    && (forall i | 0 <= i < |s.log| && s.log[i].Started? :: s.log[i].id < |s.requests|)
    && (forall i, j | 0 <= i < j < |s.log| && s.log[i].Started? && s.log[j].Started? :: s.log[i].id < s.log[j].id)
  }

  ghost predicate StartOf(s: State, id: nat)
    requires id < |s.requests|
  {
    Started(s.requests[id].path, s.requests[id].started, id) in s.log
  }

  lemma StepRecords(s: State, step: Step)
    requires Recorded(s)
    ensures Recorded(Next(s, step))
  {
    var next := Next(s, step);
    assert |s.log| <= |next.log| <= |s.log| + 1 && next.log[..|s.log|] == s.log;
    forall e | e in s.log
      ensures e in next.log
    {
      var i :| 0 <= i < |s.log| && s.log[i] == e;
      assert next.log[i] == e;
    }
    forall id: nat | id < |next.requests|
      ensures StartOf(next, id)
    {
      if id < |s.requests| {
        assert StartOf(s, id);
      } else {
        assert next.log[|s.log|] in next.log;
      }
    }
  }

  lemma {:induction false} RunRecords(steps: seq<Step>)
    ensures Recorded(Run(INIT, steps))
  {
    hide Next;
    if steps != [] {
      RunRecords(steps[..|steps| - 1]);
      StepRecords(Run(INIT, steps[..|steps| - 1]), steps[|steps| - 1]);
    }
  }

  /** A request for the path of another was started after it, and no failure was handled on the path since. */
  ghost predicate LaterRemembered(s: State, id: nat)
    requires id < |s.requests|
  {
    exists i, j | 0 <= i < j < |s.log| ::
      s.log[i].Started? && s.log[i].id == id && IsRememberedStart(s.log, s.requests[id].path, j)
  }

  predicate IsRememberedStart(log: seq<Event>, path: string, j: nat)
    requires j < |log|
  {
    log[j].Started? && log[j].path == path && NoDropBetween(log, path, j, |log|)
  }

  lemma {:induction false} RememberedIs(log: seq<Event>, path: string)
    ensures Remembered(log, path).Some? ==>
      exists j | 0 <= j < |log| :: IsRememberedStart(log, path, j) && log[j].id == Remembered(log, path).value.id
        && forall i | 0 <= i < |log| && log[i].path == path :: i <= j
  {
    if log != [] {
      var n := |log| - 1;
      var front := log[..n];
      RememberedIs(front, path);
      if log[n].path != path && Remembered(front, path).Some? {
        var j :| 0 <= j < n && IsRememberedStart(front, path, j) && front[j].id == Remembered(front, path).value.id
          && forall i | 0 <= i < n && front[i].path == path :: i <= j;
        assert IsRememberedStart(log, path, j);
      } else if log[n].path == path && log[n].Started? {
        assert IsRememberedStart(log, path, n);
      }
    }
  }

  /**
   * The deletion is by path. The handler of a failed request removes another request's entry exactly
   * when a later start on its path is still remembered; the next call on the path then starts
   * another request however young that entry was.
   */
  lemma LateFailureDropsNewer(steps: seq<Step>, id: nat)
    requires var s := Run(INIT, steps); id < |s.requests| && s.requests[id].status.Rejected?
    ensures var s := Run(INIT, steps);
      var path := s.requests[id].path;
      && (path in s.cache && s.cache[path].id != id <==> LaterRemembered(s, id))
      && (path in s.cache ==> s.cache[path].id < |s.requests| && s.requests[s.cache[path].id].path == path)
      && path !in Next(s, RunHandler(id)).cache
      && forall now :: Served(Next(s, RunHandler(id)), path, now) == |s.requests|
  {
    hide Run, Remembered, NoDropBetween;
    RunKeeps(steps);
    RunRecords(steps);
    var s := Run(INIT, steps);
    var path := s.requests[id].path;
    assert Cached(s, path) == Remembered(s.log, path);
    assert StartOf(s, id);
    var i :| 0 <= i < |s.log| && s.log[i] == Started(path, s.requests[id].started, id);
    if path in s.cache && s.cache[path].id != id {
      RememberedIs(s.log, path);
      var j :| 0 <= j < |s.log| && IsRememberedStart(s.log, path, j) && s.log[j].id == s.cache[path].id
        && forall i | 0 <= i < |s.log| && s.log[i].path == path :: i <= j;
      assert i < j;
    }
    if LaterRemembered(s, id) {
      var k, j :| 0 <= k < j < |s.log| && s.log[k].Started? && s.log[k].id == id && IsRememberedStart(s.log, path, j);
      var m := RemembersStart(s.log, j);
      assert s.log[m].id > id;
    }
  }

  /** Such a run: a second request is still pending when the failure of the first makes the next call start a third. */
  lemma LateFailureExample()
    ensures var s := Run(INIT, [Call("/p", 0), Call("/p", 3000), Reject(0), RunHandler(0), Call("/p", 3100)]);
      && |s.requests| == 3 && s.requests[1] == Request("/p", 3000, Pending) && s.requests[2] == Request("/p", 3100, Pending)
      && s.cache["/p"].id == 2
  {
    var a := [Call("/p", 0), Call("/p", 3000), Reject(0), RunHandler(0), Call("/p", 3100)];
    assert a[..4][..3] == a[..3] && a[..3][..2] == a[..2] && a[..2][..1] == a[..1] && a[..1][..0] == [];
    assert Run(INIT, a[..1]) == AfterCall(INIT, "/p", 0);
    assert Run(INIT, a[..2]) == AfterCall(Run(INIT, a[..1]), "/p", 3000);
    assert Run(INIT, a[..3]) == Settle(Run(INIT, a[..2]), 0, Rejected);
    assert Run(INIT, a[..4]) == AfterHandler(Run(INIT, a[..3]), 0);
    assert Run(INIT, a) == AfterCall(Run(INIT, a[..4]), "/p", 3100);
  }
}
