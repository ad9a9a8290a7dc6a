/** The wizard's per-host overrides: what the chips are set to after any run of clicks. */
module Overrides {
  import opened Text
  import opened Seqs

  datatype Device = Device(id: string, kind: string, socket: int, taken: bool, size: nat)
  datatype Host = Host(id: string, devices: seq<Device>)

  /** numa is None for both sockets; rest stands for the other filter fields. */
  datatype Form = Form(deviceClass: string, numa: Option<nat>, rest: string)
  datatype Override = Override(sockets: Option<seq<int>>, q: string, drop: map<string, bool>, add: map<string, bool>)
  datatype State = State(form: Form, ov: map<string, Override>)

  /** The sockets of a host, the remaining device filter, the text search and the order of sort(). */
  datatype Site = Site(sockets: string -> nat, fits: (Form, Device) -> bool, contains: (Device, string) -> bool,
                       order: (int, int) -> bool)

  const NONE := Override(None, "", map[], map[])

  predicate Has(m: map<string, bool>, id: string) { id in m && m[id] }

  predicate Matches(site: Site, form: Form, d: Device) {
    && !d.taken
    && (form.deviceClass == "" || d.kind == form.deviceClass)
    && site.fits(form, d)
  }

  predicate Quick(site: Site, d: Device, q: string) { q == "" || site.contains(d, q) }

  function NumaDefault(form: Form): seq<int> {
    match form.numa
    case None => [0, 1]
    case Some(n) => [n]
  }

  function OvOf(st: State, h: string): Override {
    if h in st.ov then st.ov[h] else NONE
  }

  predicate DevSel(site: Site, st: State, h: string, d: Device) {
    var o := OvOf(st, h);
    if Has(o.drop, d.id) then false
    else if Has(o.add, d.id) then true
    else Matches(site, st.form, d) && Quick(site, d, o.q)
  }

  /** h.sockets || 1 */
  predicate SocketExists(site: Site, h: string, s: int) {
    s < if site.sockets(h) == 0 then 1 else site.sockets(h)
  }

  function SocketsOf(site: Site, st: State, h: string): seq<int> {
    var sockets := OvOf(st, h).sockets;
    Filter(if sockets.Some? then sockets.value else NumaDefault(st.form), s => SocketExists(site, h, s))
  }

  datatype Event =
    | EditForm(form: Form)
    | Search(host: string, q: string)
    | ClickSocket(host: string, socket: nat)
    | ClickDevice(host: string, device: Device)

  function Patched(site: Site, st: State, e: Event): Override
    requires !e.EditForm?
  {
    var o := OvOf(st, e.host);
    match e
    case Search(_, q) => o.(q := q, drop := map[], add := map[])
    case ClickSocket(h, s) =>
      var used := SocketsOf(site, st, h);
      o.(sockets := Some(Flipped(used, s, site.order)))
    case ClickDevice(h, d) =>
      var on := DevSel(site, st, h, d);
      o.(drop := o.drop[d.id := on], add := o.add[d.id := !on])
  }

  function Step(site: Site, st: State, e: Event): State {
    if e.EditForm? then st.(form := e.form)
    else st.(ov := st.ov[e.host := Patched(site, st, e)])
  }

  function Run(site: Site, st: State, log: seq<Event>): State {
    if log == [] then st else Step(site, Run(site, st, log[..|log| - 1]), log[|log| - 1])
  }

  function Start(form: Form): State { State(form, map[]) }

  class DeployWizard {
    const site: Site
    var form: Form
    var ov: map<string, Override>

    function Now(): State
      reads this
    {
      State(form, ov)
    }

    constructor (site: Site, form: Form)
      ensures Now() == Start(form) && this.site == site
    {
      this.site, this.form, this.ov := site, form, map[];
    }

    method SetForm(f: Form)
      modifies this
      ensures Now() == Step(site, old(Now()), EditForm(f))
    {
      form := f;
    }

    method SetOvOf(h: string, o: Override)
      modifies this
      ensures Now() == old(Now()).(ov := old(ov)[h := o])
    {
      ov := ov[h := o];
    }

    method SetQuickFilter(h: string, q: string)
      modifies this
      ensures Now() == Step(site, old(Now()), Search(h, q))
    {
      SetOvOf(h, OvOf(Now(), h).(q := q, drop := map[], add := map[]));
    }

    method ToggleSocket(h: string, s: nat)
      modifies this
      ensures Now() == Step(site, old(Now()), ClickSocket(h, s))
    {
      var used := SocketsOf(site, Now(), h);
      if s in used {
        SetOvOf(h, OvOf(Now(), h).(sockets := Some(Filter(used, y => y != s))));
      } else {
        SetOvOf(h, OvOf(Now(), h).(sockets := Some(SortBy(used + [s], site.order))));
      }
    }

    method ToggleDevice(h: string, d: Device)
      modifies this
      ensures Now() == Step(site, old(Now()), ClickDevice(h, d))
    {
      var o := OvOf(Now(), h);
      if DevSel(site, Now(), h, d) {
        SetOvOf(h, o.(drop := o.drop[d.id := true], add := o.add[d.id := false]));
      } else {
        SetOvOf(h, o.(add := o.add[d.id := true], drop := o.drop[d.id := false]));
      }
    }
  }

  // ---- the log of clicks, read without the override maps ----

  function LastForm(form: Form, log: seq<Event>): Form {
    if log == [] then form
    else
      var e := log[|log| - 1];
      if e.EditForm? then e.form else LastForm(form, log[..|log| - 1])
  }

  function LastSearch(log: seq<Event>, h: string): string {
    if log == [] then ""
    else
      var e := log[|log| - 1];
      if e.Search? && e.host == h then e.q else LastSearch(log[..|log| - 1], h)
  }

  /** What the last click on a device gave it since the last search on its host. */
  function Clicked(site: Site, form: Form, log: seq<Event>, h: string, id: string): Option<bool>
    decreases |log|, 0
  {
    if log == [] then None
    else
      var before := log[..|log| - 1];
      match log[|log| - 1]
      case ClickDevice(host, d) =>
        if host == h && d.id == id then Some(!Selected(site, form, before, h, d)) else Clicked(site, form, before, h, id)
      case Search(host, _) => if host == h then None else Clicked(site, form, before, h, id)
      case _ => Clicked(site, form, before, h, id)
  }

  /** The last click's value, else the answer of the filters as they stand now. */
  predicate Selected(site: Site, form: Form, log: seq<Event>, h: string, d: Device)
    decreases |log|, 1
  {
    match Clicked(site, form, log, h, d.id)
    case Some(on) => on
    case None => Matches(site, LastForm(form, log), d) && Quick(site, d, LastSearch(log, h))
  }

  predicate SocketsClicked(log: seq<Event>, h: string) {
    exists e <- log :: e.ClickSocket? && e.host == h
  }

  /** Every click on a socket flips it; until the first on its host, the form decides. */
  predicate Used(site: Site, form: Form, log: seq<Event>, h: string, s: int) {
    if !SocketsClicked(log, h) then s in NumaDefault(LastForm(form, log)) && SocketExists(site, h, s)
    else
      var before := log[..|log| - 1];
      var e := log[|log| - 1];
      if e.ClickSocket? && e.host == h && e.socket == s then !Used(site, form, before, h, s)
      else Used(site, form, before, h, s)
  }

  function Pin(o: Override, id: string): Option<bool> {
    if Has(o.drop, id) then Some(false) else if Has(o.add, id) then Some(true) else None
  }

  ghost predicate NotBoth(o: Override) {
    forall id :: !(Has(o.drop, id) && Has(o.add, id))
  }

  /** A click flips its device and no other. */
  lemma ClickFlips(site: Site, st: State, h: string, d: Device, h': string, d': Device)
    ensures var next := Step(site, st, ClickDevice(h, d));
      && DevSel(site, next, h, d) == !DevSel(site, st, h, d)
      && (h' != h || d'.id != d.id ==> DevSel(site, next, h', d') == DevSel(site, st, h', d'))
      && SocketsOf(site, next, h') == SocketsOf(site, st, h')
  {
  }

  lemma OverrideStep(site: Site, st: State, e: Event, h: string)
    requires NotBoth(OvOf(st, h))
    ensures var o, next := OvOf(st, h), OvOf(Step(site, st, e), h);
      && NotBoth(next)
      && next.q == (if e.Search? && e.host == h then e.q else o.q)
      && (forall id :: Pin(next, id) ==
           if e.ClickDevice? && e.host == h && e.device.id == id then Some(!DevSel(site, st, h, e.device))
           else if e.Search? && e.host == h then None
           else Pin(o, id))
  {
    hide DevSel, SocketsOf;
    var o, next := OvOf(st, h), OvOf(Step(site, st, e), h);
    forall id
      ensures !(Has(next.drop, id) && Has(next.add, id))
    {
      assert !(Has(o.drop, id) && Has(o.add, id));
    }
  }

  lemma PinDecides(site: Site, st: State, h: string, d: Device)
    ensures DevSel(site, st, h, d) ==
      match Pin(OvOf(st, h), d.id)
      case Some(on) => on
      case None => Matches(site, st.form, d) && Quick(site, d, OvOf(st, h).q)
  {
  }

  lemma ClickedStep(site: Site, form: Form, before: seq<Event>, e: Event, h: string, id: string)
    ensures Clicked(site, form, before + [e], h, id) ==
      if e.ClickDevice? && e.host == h && e.device.id == id then Some(!Selected(site, form, before, h, e.device))
      else if e.Search? && e.host == h then None
      else Clicked(site, form, before, h, id)
  {
    assert (before + [e])[..|before|] == before;
  }

  /** The overrides of a host answer as the log of clicks does, and never both add and drop a device. */
  lemma {:induction false} LogDecides(site: Site, form: Form, log: seq<Event>, h: string)
    ensures var st := Run(site, Start(form), log);
      && st.form == LastForm(form, log)
      && OvOf(st, h).q == LastSearch(log, h)
      && NotBoth(OvOf(st, h))
      && (forall id :: Pin(OvOf(st, h), id) == Clicked(site, form, log, h, id))
      && (forall d :: DevSel(site, st, h, d) == Selected(site, form, log, h, d))
  {
    hide Pin, Clicked, DevSel, NotBoth, Matches, Quick, Patched;
    var st := Run(site, Start(form), log);
    if log == [] {
      NothingClicked(site, form, h);
    } else {
      var before := log[..|log| - 1];
      var e := log[|log| - 1];
      LogDecides(site, form, before, h);
      OverrideStep(site, Run(site, Start(form), before), e, h);
      forall id
        ensures Pin(OvOf(st, h), id) == Clicked(site, form, log, h, id)
      {
        assert log == before + [e];
        ClickedStep(site, form, before, e, h, id);
      }
    }
    forall d
      ensures DevSel(site, st, h, d) == Selected(site, form, log, h, d)
    {
      PinDecides(site, st, h, d);
    }
  }

  /** Where no device is added or dropped on a host, its free devices of the chosen class that fit and match the search are selected. */
  lemma FiltersSay(site: Site, st: State, h: string, d: Device)
    requires OvOf(st, h).add == map[] && OvOf(st, h).drop == map[]
    ensures DevSel(site, st, h, d)
      <==> && !d.taken && (d.kind == st.form.deviceClass || st.form.deviceClass == "") && site.fits(st.form, d)
           && (OvOf(st, h).q != "" ==> site.contains(d, OvOf(st, h).q))
  {
  }

  /** Where no socket was clicked, the sockets of the form that the host has are in use: both or the one chosen. */
  lemma SocketsSay(site: Site, st: State, h: string, s: int)
    requires OvOf(st, h).sockets.None?
    ensures s in SocketsOf(site, st, h)
      <==> && (match st.form.numa case None => s == 0 || s == 1 case Some(n) => s == n)
           && (s < site.sockets(h) || (site.sockets(h) == 0 && s < 1))
  {
    hide SocketExists;
    SocketExistsSays(site, h, s);
    FilterIn(NumaDefault(st.form), s => SocketExists(site, h, s));
  }

  lemma SocketExistsSays(site: Site, h: string, s: int)
    ensures SocketExists(site, h, s) <==> s < site.sockets(h) || (site.sockets(h) == 0 && s < 1)
  {
  }

  lemma NothingClicked(site: Site, form: Form, h: string)
    ensures NotBoth(OvOf(Start(form), h))
    ensures forall id :: Pin(OvOf(Start(form), h), id) == Clicked(site, form, [], h, id)
  {
  }

  // ---- sockets ----

  predicate Toggled(was: seq<int>, s: int, now: seq<int>) {
    && Distinct(now)
    && (s in now <==> s !in was)
    && (forall x <- was :: x == s || x in now)
    && (forall x <- now :: x == s || x in was)
  }

  /** What a click makes of a host's list of sockets. */
  function Flipped(was: seq<int>, s: int, order: (int, int) -> bool): seq<int> {
    if s in was then Filter(was, y => y != s) else SortBy(was + [s], order)
  }

  lemma FlippedIs(was: seq<int>, s: int, order: (int, int) -> bool)
    requires Distinct(was)
    ensures Toggled(was, s, Flipped(was, s, order))
  {
    hide Filter, SortBy;
    if s in was {
      FilterIn(was, y => y != s);
      FilterDistinct(was, y => y != s);
    } else {
      SortIsPermutation(was + [s], order);
      SortDistinct(was + [s], order);
    }
  }

  lemma SocketsExist(site: Site, st: State, h: string)
    ensures forall s <- SocketsOf(site, st, h) :: SocketExists(site, h, s)
  {
    hide SocketExists;
    var sockets := OvOf(st, h).sockets;
    FilterIn(if sockets.Some? then sockets.value else NumaDefault(st.form), s => SocketExists(site, h, s));
  }

  lemma ClickedSockets(site: Site, st: State, h: string, s: nat)
    ensures OvOf(Step(site, st, ClickSocket(h, s)), h).sockets == Some(Flipped(SocketsOf(site, st, h), s, site.order))
  {
    hide SocketsOf, Filter, SortBy;
  }

  lemma SocketsOfSome(site: Site, st: State, h: string, sockets: seq<int>)
    requires OvOf(st, h).sockets == Some(sockets)
    requires forall i | 0 <= i < |sockets| :: SocketExists(site, h, sockets[i])
    ensures SocketsOf(site, st, h) == sockets
  {
    hide SocketExists;
    FilterAll(sockets, s => SocketExists(site, h, s));
  }

  /** A click on a socket of the host flips it and leaves the other sockets of the host as they were. */
  lemma SocketFlips(site: Site, st: State, h: string, s: nat)
    requires Distinct(SocketsOf(site, st, h)) && SocketExists(site, h, s)
    ensures Toggled(SocketsOf(site, st, h), s, SocketsOf(site, Step(site, st, ClickSocket(h, s)), h))
  {
    hide SocketsOf, SocketExists, Distinct, Step, OvOf, Flipped;
    var was := SocketsOf(site, st, h);
    var now := Flipped(was, s, site.order);
    FlippedIs(was, s, site.order);
    SocketsExist(site, st, h);
    ClickedSockets(site, st, h, s);
    forall i | 0 <= i < |now|
      ensures SocketExists(site, h, now[i])
    {
      assert now[i] in now;
    }
    SocketsOfSome(site, Step(site, st, ClickSocket(h, s)), h, now);
  }

  /** Chips are there for the sockets of the host only. */
  predicate Offered(site: Site, log: seq<Event>) {
    forall e <- log | e.ClickSocket? :: SocketExists(site, e.host, e.socket)
  }

  lemma SocketsKeep(site: Site, st: State, e: Event, h: string)
    requires !(e.ClickSocket? && e.host == h)
    ensures OvOf(Step(site, st, e), h).sockets == OvOf(st, h).sockets
  {
    hide DevSel, SocketsOf;
  }

  lemma SocketsFromForm(site: Site, st: State, h: string)
    requires OvOf(st, h).sockets.None?
    ensures Distinct(SocketsOf(site, st, h))
    ensures forall s :: s in SocketsOf(site, st, h) <==> s in NumaDefault(st.form) && SocketExists(site, h, s)
  {
    FilterIn(NumaDefault(st.form), s => SocketExists(site, h, s));
    FilterDistinct(NumaDefault(st.form), s => SocketExists(site, h, s));
  }

  lemma SocketsSame(site: Site, st: State, next: State, h: string)
    requires OvOf(st, h).sockets.Some? && OvOf(next, h).sockets == OvOf(st, h).sockets
    ensures SocketsOf(site, next, h) == SocketsOf(site, st, h)
  {
  }

  lemma UsedStep(site: Site, form: Form, before: seq<Event>, e: Event, h: string, s: int)
    ensures var log := before + [e];
      if !SocketsClicked(log, h) then
        Used(site, form, log, h, s) == (s in NumaDefault(LastForm(form, log)) && SocketExists(site, h, s))
      else if e.ClickSocket? && e.host == h && e.socket == s then Used(site, form, log, h, s) == !Used(site, form, before, h, s)
      else Used(site, form, log, h, s) == Used(site, form, before, h, s)
  {
    var log := before + [e];
    assert log[..|log| - 1] == before && log[|log| - 1] == e;
  }

  lemma ClickedSocketsStep(before: seq<Event>, e: Event, h: string)
    ensures SocketsClicked(before + [e], h) <==> SocketsClicked(before, h) || (e.ClickSocket? && e.host == h)
  {
    var log := before + [e];
    assert e in log;
    forall x | x in before
      ensures x in log
    {
    }
  }

  /** What the sockets of a host and the log have in common. */
  ghost predicate SocketsAgree(site: Site, form: Form, log: seq<Event>, st: State, h: string) {
    && (OvOf(st, h).sockets.Some? <==> SocketsClicked(log, h))
    && Distinct(SocketsOf(site, st, h))
    && (forall s :: s in SocketsOf(site, st, h) <==> Used(site, form, log, h, s))
  }

  lemma AgreeStep(site: Site, form: Form, before: seq<Event>, st: State, e: Event, h: string)
    requires SocketsAgree(site, form, before, st, h)
    requires e.ClickSocket? ==> SocketExists(site, e.host, e.socket)
    requires Step(site, st, e).form == LastForm(form, before + [e])
    ensures SocketsAgree(site, form, before + [e], Step(site, st, e), h)
  {
    hide Used, SocketsOf, Distinct, SocketExists, Patched, SocketsClicked, NumaDefault, Step, LastForm, OvOf;
    var next := Step(site, st, e);
    ClickedSocketsStep(before, e, h);
    if e.ClickSocket? && e.host == h {
      SocketFlips(site, st, h, e.socket);
      ClickFixes(site, st, e);
      forall s
        ensures s in SocketsOf(site, next, h) <==> Used(site, form, before + [e], h, s)
      {
        UsedStep(site, form, before, e, h, s);
        assert Toggled(SocketsOf(site, st, h), e.socket, SocketsOf(site, next, h));
      }
    } else {
      SocketsKeep(site, st, e, h);
      if OvOf(st, h).sockets.Some? {
        SocketsSame(site, st, next, h);
      } else {
        SocketsFromForm(site, next, h);
      }
      forall s
        ensures s in SocketsOf(site, next, h) <==> Used(site, form, before + [e], h, s)
      {
        UsedStep(site, form, before, e, h, s);
      }
    }
  }

  lemma ClickFixes(site: Site, st: State, e: Event)
    requires e.ClickSocket?
    ensures OvOf(Step(site, st, e), e.host).sockets.Some?
  {
    hide SocketsOf;
  }

  lemma NoSocketsYet(site: Site, form: Form, h: string)
    ensures SocketsAgree(site, form, [], Start(form), h)
  {
    SocketsFromForm(site, Start(form), h);
  }

  /** The sockets of a host are the ones its clicks and the form leave in use, each once. */
  lemma {:induction false} LogDecidesSockets(site: Site, form: Form, log: seq<Event>, h: string)
    requires Offered(site, log)
    ensures SocketsAgree(site, form, log, Run(site, Start(form), log), h)
  {
    hide SocketsAgree, SocketExists, Step, LastForm;
    if log == [] {
      NoSocketsYet(site, form, h);
    } else {
      var before := log[..|log| - 1];
      var e := log[|log| - 1];
      assert log == before + [e] && e in log;
      LogDecidesSockets(site, form, before, h);
      LogDecides(site, form, log, h);
      AgreeStep(site, form, before, Run(site, Start(form), before), e, h);
    }
  }
}
