/** The breakpoint controller as a transition system: what each locked callback or timer tick does to
    the parked entries and the suspended threads, interleaved with what the process does on its own. */
module Scheduler {

  type Tid = int
  type Address = int

  datatype Access = Write | Read

  /** One OBJ_ARR record: watched addresses, access kind, thread id. */
  datatype Entry = Entry(addrs: seq<Address>, kind: Access, tid: Tid)

  /** Stalled: a release keeps retrying to resume a thread that has exited. */
  datatype Status = Live | Halted | Terminated | Stalled

  datatype State = State(threads: set<Tid>, suspended: set<Tid>, parked: seq<Entry>, processValid: bool, status: Status)

  /** Whether two entries race: different threads, a write against a read (or one shared source line),
      and a common address. */
  ghost predicate Races(sameLine: bool, e: Entry, n: Entry) {
    e.tid != n.tid && (sameLine || e.kind != n.kind) && exists a :: a in e.addrs && a in n.addrs
  }

  ghost function Tids(parked: seq<Entry>): set<Tid> {
    set e | e in parked :: e.tid
  }

  ghost function Rivals(sameLine: bool, parked: seq<Entry>, n: Entry): set<Tid> {
    set e | e in parked && Races(sameLine, e, n) :: e.tid
  }

  function Without(parked: seq<Entry>, i: nat): seq<Entry>
    requires i < |parked|
  {
    parked[..i] + parked[i + 1..]
  }

  // ----- events

  datatype Event =
    | Hit(entry: Entry)        // the controller suspends a thread and checks its entry
    | Abort(tid: Tid)          // suspended, but at neither line or without an address
    | Forget(tid: Tid)         // write_callback drops the triggering thread's stale entry
    | Release                  // release_bp, from a timer tick
    | Quit                     // the timer gives up
    | Spurious(tid: Tid)       // a suspended thread resumes on its own
    | Spawn(tid: Tid)
    | Exit(tid: Tid)
    | Validity(ok: bool)

  /** Events of the controller, as opposed to those of the debugged process. */
  predicate OwnEvent(ev: Event) {
    ev.Hit? || ev.Abort? || ev.Forget? || ev.Release? || ev.Quit?
  }

  /** Some entry is picked: its thread resumes and the entry goes, or the release stalls on a dead thread. */
  ghost predicate Released(s: State, s': State) {
    exists i :: 0 <= i < |s.parked| && s' == AfterRelease(s, i)
  }

  ghost function AfterRelease(s: State, i: nat): State
    requires i < |s.parked|
  {
    if s.parked[i].tid in s.threads then
      s.(suspended := s.suspended - {s.parked[i].tid}, parked := Without(s.parked, i))
    else s.(status := Stalled)
  }

  ghost predicate HitStep(sameLine: bool, s: State, n: Entry, s': State) {
    && n.tid in s.threads && n.tid !in Tids(s.parked) && n.addrs != []
    && var stopped := s.suspended + {n.tid};
       if Rivals(sameLine, s.parked, n) != {} then
         s' == s.(suspended := stopped * (Rivals(sameLine, s.parked, n) + {n.tid}), status := Halted)
       else
         var p := s.(suspended := stopped, parked := s.parked + [n]);
         if p.threads <= p.suspended && p.processValid then Released(p, s') else s' == p
  }

  ghost predicate Next(sameLine: bool, s: State, ev: Event, s': State) {
    s.status.Live? &&
    match ev
    case Hit(n) => HitStep(sameLine, s, n, s')
    case Abort(t) => t in s.threads && s' == s.(suspended := s.suspended + {t}, status := Terminated)
    case Forget(t) => t !in s.suspended && exists i ::
      0 <= i < |s.parked| && s.parked[i].tid == t && s' == s.(parked := Without(s.parked, i))
    case Release => Released(s, s')
    case Quit => s' == s.(status := Terminated)
    case Spurious(t) => s' == s.(suspended := s.suspended - {t})
    case Spawn(t) => t !in s.threads && t !in s.suspended && s' == s.(threads := s.threads + {t})
    case Exit(t) => t !in s.suspended && s' == s.(threads := s.threads - {t})
    case Validity(ok) => s' == s.(processValid := ok)
  }

  /** A run: a state after every event. */
  ghost predicate Run(sameLine: bool, states: seq<State>, evs: seq<Event>) {
    |states| == |evs| + 1 && forall i :: 0 <= i < |evs| ==> Next(sameLine, states[i], evs[i], states[i + 1])
  }

  // ----- safety over every interleaving

  ghost predicate Distinct(parked: seq<Entry>) {
    forall i, j :: 0 <= i < j < |parked| ==> parked[i].tid != parked[j].tid
  }

  ghost predicate RaceFree(sameLine: bool, parked: seq<Entry>) {
    forall d, e :: d in parked && e in parked ==> !Races(sameLine, d, e)
  }

  ghost predicate Safe(sameLine: bool, s: State) {
    Distinct(s.parked) && RaceFree(sameLine, s.parked) && s.suspended <= s.threads
  }

  lemma TidsCover(parked: seq<Entry>)
    ensures forall i :: 0 <= i < |parked| ==> parked[i].tid in Tids(parked)
  {
  }

  lemma WithoutMembers(parked: seq<Entry>, i: nat)
    requires i < |parked| && Distinct(parked)
    ensures Distinct(Without(parked, i))
    ensures forall e :: e in Without(parked, i) <==> e in parked && e != parked[i]
    ensures Tids(Without(parked, i)) == Tids(parked) - {parked[i].tid}
  {
  }

  lemma ParkMembers(sameLine: bool, parked: seq<Entry>, n: Entry)
    requires Distinct(parked) && RaceFree(sameLine, parked)
    requires n.tid !in Tids(parked) && Rivals(sameLine, parked, n) == {}
    ensures Distinct(parked + [n]) && RaceFree(sameLine, parked + [n])
    ensures Tids(parked + [n]) == Tids(parked) + {n.tid}
  {
    var p := parked + [n];
    forall e | e in parked ensures !Races(sameLine, e, n) && e.tid in Tids(parked) {
      assert Races(sameLine, e, n) ==> e.tid in Rivals(sameLine, parked, n);
    }
    forall d, e | d in p && e in p ensures !Races(sameLine, d, e) {
      if d == n && e in parked { assert !Races(sameLine, e, n); }
    }
    assert forall i :: 0 <= i < |parked| ==> parked[i] in parked;
    forall t | t in Tids(parked) + {n.tid} ensures t in Tids(p) {
      if t != n.tid { var e :| e in parked && e.tid == t; assert e in p; } else { assert n in p; }
    }
  }

  /** Every event, the process's own included, keeps ids distinct and the parked entries race-free. */
  lemma StepKeepsSafe(sameLine: bool, s: State, ev: Event, s': State)
    requires Safe(sameLine, s) && Next(sameLine, s, ev, s')
    ensures Safe(sameLine, s')
  {
    match ev
    case Hit(n) =>
      if Rivals(sameLine, s.parked, n) == {} {
        ParkMembers(sameLine, s.parked, n);
        var p := s.parked + [n];
        forall i | 0 <= i < |p| ensures Safe(sameLine, s.(parked := Without(p, i))) { WithoutMembers(p, i); }
      }
    case Forget(_) =>
      forall i | 0 <= i < |s.parked| ensures Safe(sameLine, s.(parked := Without(s.parked, i))) {
        WithoutMembers(s.parked, i);
      }
    case Release =>
      forall i | 0 <= i < |s.parked| ensures Safe(sameLine, s.(parked := Without(s.parked, i))) {
        WithoutMembers(s.parked, i);
      }
    case _ =>
  }

  lemma {:induction false} RunKeepsSafe(sameLine: bool, states: seq<State>, evs: seq<Event>, k: nat)
    requires Run(sameLine, states, evs) && Safe(sameLine, states[0]) && k < |states|
    ensures Safe(sameLine, states[k])
  {
    if k > 0 {
      RunKeepsSafe(sameLine, states, evs, k - 1);
      StepKeepsSafe(sameLine, states[k - 1], evs[k - 1], states[k]);
    }
  }

  /** A hit whose entry races with a parked one. */
  ghost predicate RacingHit(sameLine: bool, s: State, ev: Event) {
    ev.Hit? && exists e :: e in s.parked && Races(sameLine, e, ev.entry)
  }

  lemma HaltsExactlyOnRace(sameLine: bool, s: State, ev: Event, s': State)
    requires Next(sameLine, s, ev, s')
    ensures s'.status.Halted? <==> RacingHit(sameLine, s, ev)
  {
    if ev.Hit? {
      var n := ev.entry;
      if e :| e in s.parked && Races(sameLine, e, n) { assert e.tid in Rivals(sameLine, s.parked, n); }
      if Rivals(sameLine, s.parked, n) != {} { var t :| t in Rivals(sameLine, s.parked, n); }
    }
  }

  /** The first race of a run halts it: a run holds a hit that races with a parked entry exactly when it
      ends halted, and then that hit is its last event and its only racing one. */
  lemma RunHaltsAtFirstRace(sameLine: bool, states: seq<State>, evs: seq<Event>)
    requires Run(sameLine, states, evs) && |evs| > 0
    ensures (exists i :: 0 <= i < |evs| && RacingHit(sameLine, states[i], evs[i])) <==> states[|evs|].status.Halted?
    ensures forall i :: 0 <= i < |evs| && RacingHit(sameLine, states[i], evs[i]) ==> i == |evs| - 1
  {
    var last := |evs| - 1;
    forall i | 0 <= i < |evs| ensures RacingHit(sameLine, states[i], evs[i]) <==>
      i == last && states[|evs|].status.Halted? {
      HaltsExactlyOnRace(sameLine, states[i], evs[i], states[i + 1]);
      if i < last { assert Next(sameLine, states[i + 1], evs[i + 1], states[i + 2]); }
    }
    assert RacingHit(sameLine, states[last], evs[last]) <==> states[|evs|].status.Halted?;
  }

  // ----- suspension, while no thread resumes on its own

  /** The suspended threads are exactly the tracked ones. */
  ghost predicate Tracked(s: State) {
    s.status.Live? ==> s.suspended == Tids(s.parked)
  }

  lemma ReleaseKeepsTracked(s: State, s': State)
    requires Distinct(s.parked) && s.suspended == Tids(s.parked) && Released(s, s')
    ensures Tracked(s')
  {
    var i :| 0 <= i < |s.parked| && s' == AfterRelease(s, i);
    WithoutMembers(s.parked, i);
  }

  lemma HitKeepsTracked(sameLine: bool, s: State, n: Entry, s': State)
    requires Safe(sameLine, s) && s.suspended == Tids(s.parked) && HitStep(sameLine, s, n, s')
    ensures Tracked(s')
  {
    if Rivals(sameLine, s.parked, n) == {} {
      ParkMembers(sameLine, s.parked, n);
      var p := s.(suspended := s.suspended + {n.tid}, parked := s.parked + [n]);
      if p.threads <= p.suspended && p.processValid { ReleaseKeepsTracked(p, s'); }
    }
  }

  lemma StepKeepsTracked(sameLine: bool, s: State, ev: Event, s': State)
    requires Safe(sameLine, s) && Tracked(s) && Next(sameLine, s, ev, s') && !ev.Spurious?
    ensures Tracked(s')
  {
    match ev
    case Hit(n) => HitKeepsTracked(sameLine, s, n, s');
    case Release => ReleaseKeepsTracked(s, s');
    case Forget(_) => TidsCover(s.parked);
    case _ =>
  }

  lemma {:induction false} RunKeepsTracked(sameLine: bool, states: seq<State>, evs: seq<Event>, k: nat)
    requires Run(sameLine, states, evs) && Safe(sameLine, states[0]) && Tracked(states[0]) && k < |states|
    requires forall i :: 0 <= i < |evs| ==> !evs[i].Spurious?
    ensures Tracked(states[k])
  {
    if k > 0 {
      RunKeepsSafe(sameLine, states, evs, k - 1);
      RunKeepsTracked(sameLine, states, evs, k - 1);
      StepKeepsTracked(sameLine, states[k - 1], evs[k - 1], states[k]);
    }
  }

  lemma StepNeverStalls(sameLine: bool, s: State, ev: Event, s': State)
    requires Safe(sameLine, s) && Tracked(s) && Next(sameLine, s, ev, s')
    ensures !s'.status.Stalled?
  {
    TidsCover(s.parked);
    if ev.Hit? && Rivals(sameLine, s.parked, ev.entry) == {} {
      ParkMembers(sameLine, s.parked, ev.entry);
      TidsCover(s.parked + [ev.entry]);
    }
  }

  /** As long as no suspended thread resumes on its own, no release ever picks a dead one. */
  lemma RunNeverStalls(sameLine: bool, states: seq<State>, evs: seq<Event>, k: nat)
    requires Run(sameLine, states, evs) && Safe(sameLine, states[0]) && Tracked(states[0]) && 0 < k < |states|
    requires forall i :: 0 <= i < |evs| ==> !evs[i].Spurious?
    ensures !states[k].status.Stalled?
  {
    RunKeepsSafe(sameLine, states, evs, k - 1);
    RunKeepsTracked(sameLine, states, evs, k - 1);
    assert Next(sameLine, states[k - 1], evs[k - 1], states[k - 1 + 1]);
    StepNeverStalls(sameLine, states[k - 1], evs[k - 1], states[k]);
  }

  /** A halt leaves exactly the racing threads and the one that completed the pair suspended. */
  lemma HaltSuspends(sameLine: bool, s: State, n: Entry, s': State)
    requires Tracked(s) && Next(sameLine, s, Hit(n), s') && s'.status.Halted?
    ensures s'.suspended == Rivals(sameLine, s.parked, n) + {n.tid}
  {
  }

  /** Checking a hit never leaves every thread of a valid process suspended, unless it halts. */
  lemma HitLeavesOneRunning(sameLine: bool, s: State, n: Entry, s': State)
    requires Safe(sameLine, s) && s.processValid && Next(sameLine, s, Hit(n), s') && s'.status.Live?
    ensures !(s'.threads <= s'.suspended)
  {
  }

  // ----- the controller

  lemma AtMostOneStale(parked: seq<Entry>, stale: seq<nat>, id: Tid)
    requires Distinct(parked)
    requires forall i: nat :: i in stale <==> i < |parked| && parked[i].tid == id
    requires forall j, k :: 0 <= j < k < |stale| ==> stale[j] < stale[k]
    ensures |stale| <= 1
  {
    assert |stale| > 1 ==> stale[0] < stale[1];
    forall j, k | 0 <= j < |stale| && 0 <= k < |stale| ensures stale[j] == stale[k] {
      var x, y := stale[j], stale[k];
      assert x in stale && y in stale;
      assert parked[x].tid == parked[y].tid;
    }
  }

  /** s' is reached from s by the controller's own events. */
  ghost predicate Acts(sameLine: bool, s: State, s': State) {
    exists states, evs ::
      Run(sameLine, states, evs) && states[0] == s && states[|evs|] == s'
        && (forall i :: 0 <= i < |evs| ==> OwnEvent(evs[i]))
  }

  lemma ActsNothing(sameLine: bool, s: State)
    ensures Acts(sameLine, s, s)
  {
    var states: seq<State>, evs: seq<Event> := [s], [];
    assert Run(sameLine, states, evs) && states[0] == s && states[|evs|] == s;
  }

  lemma ActsThen(sameLine: bool, s: State, m: State, ev: Event, s': State)
    requires Acts(sameLine, s, m) && OwnEvent(ev) && Next(sameLine, m, ev, s')
    ensures Acts(sameLine, s, s')
  {
    var states, evs :| Run(sameLine, states, evs) && states[0] == s && states[|evs|] == m
      && (forall i :: 0 <= i < |evs| ==> OwnEvent(evs[i]));
    var states', evs' := states + [s'], evs + [ev];
    forall i | 0 <= i < |evs'| ensures Next(sameLine, states'[i], evs'[i], states'[i + 1]) {
      if i < |evs| { assert states'[i] == states[i] && states'[i + 1] == states[i + 1]; }
    }
    assert Run(sameLine, states', evs') && states'[0] == s && states'[|evs'|] == s';
  }

  lemma PrependRun(sameLine: bool, s: State, ev: Event, states: seq<State>, evs: seq<Event>)
    requires Run(sameLine, states, evs) && Next(sameLine, s, ev, states[0])
    ensures Run(sameLine, [s] + states, [ev] + evs)
  {
  }

  lemma ActsAfterForget(sameLine: bool, s: State, id: Tid, m: State, s': State)
    requires m == s || Next(sameLine, s, Forget(id), m)
    requires Acts(sameLine, m, s')
    ensures Acts(sameLine, s, s')
  {
    if m != s {
      var states, evs :| Run(sameLine, states, evs) && states[0] == m && states[|evs|] == s'
        && (forall i :: 0 <= i < |evs| ==> OwnEvent(evs[i]));
      PrependRun(sameLine, s, Forget(id), states, evs);
      var states', evs' := [s] + states, [Forget(id)] + evs;
      assert Run(sameLine, states', evs') && states'[0] == s && states'[|evs'|] == s';
    }
  }

  const WAIT_TIME := 0.5
  const KILL_TIME := 5.0
  const TERM_TIME := 20.0

  /** Where a stopped thread stands: its source line and the addresses found there. */
  datatype Site = Site(line: int, addrs: seq<Address>)

  /** What the callbacks' loop does with a stopped thread: the write line is tried first. */
  function EventOf(writeLine: int, readLine: int, t: Tid, site: Site): Event {
    if (site.line == writeLine || site.line == readLine) && site.addrs != [] then
      Hit(Entry(site.addrs, if site.line == writeLine then Write else Read, t))
    else
      Abort(t)
  }

  /** s' is the outcome of handling the listed threads in order, up to the first halt or abort. */
  ghost predicate Handled(sameLine: bool, writeLine: int, readLine: int, s: State, list: seq<Tid>, hits: map<Tid, Site>,
                          s': State)
    requires forall t :: t in list ==> t in hits
    decreases |list|
  {
    if list == [] then s' == s
    else
      var init, last := list[..|list| - 1], list[|list| - 1];
      assert last in list;
      exists m :: Handled(sameLine, writeLine, readLine, s, init, hits, m)
        && if m.status.Live? then Next(sameLine, m, EventOf(writeLine, readLine, last, hits[last]), s') else s' == m
  }

  lemma {:induction false} HandledActs(sameLine: bool, writeLine: int, readLine: int, s: State, list: seq<Tid>,
                                       hits: map<Tid, Site>, s': State)
    requires forall t :: t in list ==> t in hits
    requires Handled(sameLine, writeLine, readLine, s, list, hits, s')
    ensures Acts(sameLine, s, s')
    decreases |list|
  {
    if list == [] {
      ActsNothing(sameLine, s);
    } else {
      var init, last := list[..|list| - 1], list[|list| - 1];
      assert last in list;
      var m :| Handled(sameLine, writeLine, readLine, s, init, hits, m)
        && if m.status.Live? then Next(sameLine, m, EventOf(writeLine, readLine, last, hits[last]), s') else s' == m;
      HandledActs(sameLine, writeLine, readLine, s, init, hits, m);
      if m.status.Live? { ActsThen(sameLine, s, m, EventOf(writeLine, readLine, last, hits[last]), s'); }
    }
  }

  lemma {:induction false} HandledStays(sameLine: bool, writeLine: int, readLine: int, s: State, list: seq<Tid>, n: nat,
                                        hits: map<Tid, Site>, s': State)
    requires (forall t :: t in list ==> t in hits) && n <= |list|
    requires Handled(sameLine, writeLine, readLine, s, list[..n], hits, s') && !s'.status.Live?
    ensures Handled(sameLine, writeLine, readLine, s, list, hits, s')
    decreases |list| - n
  {
    if n < |list| {
      assert list[..n + 1][..n] == list[..n];
      HandledStays(sameLine, writeLine, readLine, s, list, n + 1, hits, s');
    } else {
      assert list[..n] == list;
    }
  }

  // ----- what sites say about entries

  /** The entry of a thread that stopped at this site: a write at the write line, else a read. */
  ghost predicate Fits(writeLine: int, readLine: int, e: Entry, site: Site) {
    && e.addrs == site.addrs && (site.line == writeLine || site.line == readLine)
    && (e.kind == Write <==> site.line == writeLine)
  }

  /** `stops` tells for every parked thread where it stopped. */
  ghost predicate StandAt(writeLine: int, readLine: int, parked: seq<Entry>, stops: map<Tid, Site>) {
    forall e :: e in parked ==> e.tid in stops && Fits(writeLine, readLine, e, stops[e.tid])
  }

  /** The sites of two threads race: different lines, or one shared source line, and a common address. */
  ghost predicate SitesRace(sameLine: bool, x: Site, y: Site) {
    (sameLine || x.line != y.line) && exists a :: a in x.addrs && a in y.addrs
  }

  /** Parked threads whose sites race are never both there. */
  lemma SitesApart(sameLine: bool, writeLine: int, readLine: int, parked: seq<Entry>, stops: map<Tid, Site>,
                   d: Entry, e: Entry)
    requires RaceFree(sameLine, parked) && StandAt(writeLine, readLine, parked, stops)
    requires d in parked && e in parked && d.tid != e.tid
    ensures !SitesRace(sameLine, stops[d.tid], stops[e.tid])
  {
  }

  /** Handling a thread whose site races with that of a parked thread halts the controller. */
  lemma SiteHalts(sameLine: bool, writeLine: int, readLine: int, s: State, stops: map<Tid, Site>, t: Tid, site: Site,
                  e: Entry, s': State)
    requires StandAt(writeLine, readLine, s.parked, stops) && e in s.parked && e.tid != t
    requires (site.line == writeLine || site.line == readLine) && SitesRace(sameLine, stops[e.tid], site)
    requires Next(sameLine, s, EventOf(writeLine, readLine, t, site), s')
    ensures s'.status.Halted?
  {
    var n := EventOf(writeLine, readLine, t, site).entry;
    assert Races(sameLine, e, n);
    HaltsExactlyOnRace(sameLine, s, Hit(n), s');
  }

  /** The first thread of the list is handled in the state the callback begins with. */
  lemma {:induction false} HandledFirst(sameLine: bool, writeLine: int, readLine: int, s: State, list: seq<Tid>,
                                        hits: map<Tid, Site>, s': State)
    returns (m: State)
    requires (forall t :: t in list ==> t in hits) && list != [] && s.status.Live?
    requires Handled(sameLine, writeLine, readLine, s, list, hits, s')
    ensures list[0] in hits && Next(sameLine, s, EventOf(writeLine, readLine, list[0], hits[list[0]]), m)
    ensures !m.status.Live? ==> s' == m
    decreases |list|
  {
    var init, last := list[..|list| - 1], list[|list| - 1];
    assert last in list;
    m :| Handled(sameLine, writeLine, readLine, s, init, hits, m)
      && if m.status.Live? then Next(sameLine, m, EventOf(writeLine, readLine, last, hits[last]), s') else s' == m;
    if init == [] {
      m := s';
    } else {
      m := HandledFirst(sameLine, writeLine, readLine, s, init, hits, m);
    }
  }

  /** Only a hit parks anything, and only its own entry. */
  lemma NextParks(sameLine: bool, s: State, ev: Event, s': State)
    requires Next(sameLine, s, ev, s')
    ensures forall e :: e in s'.parked ==> e in s.parked || (ev.Hit? && e == ev.entry)
  {
  }

  /** What is parked after a callback's loop was parked before or fits the site of a listed thread. */
  lemma {:induction false} HandledFits(sameLine: bool, writeLine: int, readLine: int, s: State, list: seq<Tid>,
                                       hits: map<Tid, Site>, s': State)
    requires forall t :: t in list ==> t in hits
    requires Handled(sameLine, writeLine, readLine, s, list, hits, s')
    ensures forall e :: e in s'.parked ==>
      e in s.parked || (e.tid in list && Fits(writeLine, readLine, e, hits[e.tid]))
    decreases |list|
  {
    if list != [] {
      var init, last := list[..|list| - 1], list[|list| - 1];
      assert last in list;
      var m :| Handled(sameLine, writeLine, readLine, s, init, hits, m)
        && if m.status.Live? then Next(sameLine, m, EventOf(writeLine, readLine, last, hits[last]), s') else s' == m;
      HandledFits(sameLine, writeLine, readLine, s, init, hits, m);
      if m.status.Live? { NextParks(sameLine, m, EventOf(writeLine, readLine, last, hits[last]), s'); }
    }
  }

  /** The sites after a callback: the listed threads stand where they were found. */
  ghost function StopsAfter(stops: map<Tid, Site>, list: seq<Tid>, hits: map<Tid, Site>): map<Tid, Site>
    requires forall t :: t in list ==> t in hits
  {
    stops + map t | t in list :: hits[t]
  }

  lemma StandAfter(sameLine: bool, writeLine: int, readLine: int, s: State, stops: map<Tid, Site>, list: seq<Tid>,
                   hits: map<Tid, Site>, s': State)
    requires forall t :: t in list ==> t in hits && t !in Tids(s.parked)
    requires Handled(sameLine, writeLine, readLine, s, list, hits, s')
    requires StandAt(writeLine, readLine, s.parked, stops)
    ensures StandAt(writeLine, readLine, s'.parked, StopsAfter(stops, list, hits))
  {
    HandledFits(sameLine, writeLine, readLine, s, list, hits, s');
    forall e | e in s.parked ensures e.tid !in list { assert e.tid in Tids(s.parked); }
  }

  /** The threads at a breakpoint that have no entry, in the process's order. */
  function Untracked(threads: seq<Tid>, hits: map<Tid, Site>, tracked: set<Tid>): (list: seq<Tid>)
    ensures forall t :: t in list <==> t in threads && t in hits && t !in tracked
  {
    if threads == [] then []
    else
      var n := |threads| - 1;
      assert threads == threads[..n] + [threads[n]];
      Untracked(threads[..n], hits, tracked)
        + (if threads[n] in hits && threads[n] !in tracked then [threads[n]] else [])
  }

  ghost predicate InOrder(threads: seq<Tid>, x: Tid, y: Tid) {
    exists p, q :: 0 <= p < q < |threads| && threads[p] == x && threads[q] == y
  }

  ghost predicate KeepsOrder(threads: seq<Tid>, list: seq<Tid>) {
    forall i, j :: 0 <= i < j < |list| ==> InOrder(threads, list[i], list[j])
  }

  /** They are handled in the order in which the process lists them. */
  lemma {:induction false} UntrackedInOrder(threads: seq<Tid>, hits: map<Tid, Site>, tracked: set<Tid>)
    ensures KeepsOrder(threads, Untracked(threads, hits, tracked))
  {
    if threads != [] {
      var front, last := threads[..|threads| - 1], threads[|threads| - 1];
      var init := Untracked(front, hits, tracked);
      UntrackedInOrder(front, hits, tracked);
      forall i, j | 0 <= i < j < |init| ensures InOrder(threads, init[i], init[j]) {
        assert InOrder(front, init[i], init[j]);
        var p, q :| 0 <= p < q < |front| && front[p] == init[i] && front[q] == init[j];
        assert threads[p] == init[i] && threads[q] == init[j];
      }
      forall i | 0 <= i < |init| ensures InOrder(threads, init[i], last) {
        var x := init[i];
        assert x in front;
        var p :| 0 <= p < |front| && front[p] == x;
        assert threads[p] == x && threads[|threads| - 1] == last;
      }
    }
  }

  /** The first thread to be handled stands at one of the lines, and its site races with that of a parked
      thread. */
  ghost predicate FirstRaces(sameLine: bool, writeLine: int, readLine: int, parked: seq<Entry>, stops: map<Tid, Site>,
                             list: seq<Tid>, hits: map<Tid, Site>)
    requires StandAt(writeLine, readLine, parked, stops) && forall t :: t in list ==> t in hits
  {
    list != [] &&
    var first := list[0];
    assert first in list;
    && (hits[first].line == writeLine || hits[first].line == readLine)
    && exists e :: e in parked && SitesRace(sameLine, stops[e.tid], hits[first])
  }

  lemma FirstHalts(sameLine: bool, writeLine: int, readLine: int, s: State, stops: map<Tid, Site>, list: seq<Tid>,
                   hits: map<Tid, Site>, s': State)
    requires s.status.Live? && StandAt(writeLine, readLine, s.parked, stops)
    requires forall t :: t in list ==> t in hits && t !in Tids(s.parked)
    requires Handled(sameLine, writeLine, readLine, s, list, hits, s')
    requires FirstRaces(sameLine, writeLine, readLine, s.parked, stops, list, hits)
    ensures s'.status.Halted?
  {
    var first := list[0];
    assert first in list;
    var e :| e in s.parked && SitesRace(sameLine, stops[e.tid], hits[first]);
    assert e.tid in Tids(s.parked);
    var m := HandledFirst(sameLine, writeLine, readLine, s, list, hits, s');
    SiteHalts(sameLine, writeLine, readLine, s, stops, first, hits[first], e, m);
  }

  /** What a callback's loop over the listed threads does from s: their events in order, with the sites
      noted; and it halts when the first of them completes a race, judged by the sites alone. */
  ghost predicate Outcome(sameLine: bool, writeLine: int, readLine: int, s: State, stops: map<Tid, Site>,
                          list: seq<Tid>,
                          hits: map<Tid, Site>, s': State, stops': map<Tid, Site>)
  {
    && (forall t :: t in list ==> t in hits) && StandAt(writeLine, readLine, s.parked, stops)
    && Handled(sameLine, writeLine, readLine, s, list, hits, s')
    && stops' == StopsAfter(stops, list, hits) && StandAt(writeLine, readLine, s'.parked, stops')
    && (FirstRaces(sameLine, writeLine, readLine, s.parked, stops, list, hits) ==> s'.status.Halted?)
  }

  lemma OutcomeOf(sameLine: bool, writeLine: int, readLine: int, s: State, stops: map<Tid, Site>, list: seq<Tid>,
                  hits: map<Tid, Site>, s': State)
    requires s.status.Live? && StandAt(writeLine, readLine, s.parked, stops)
    requires forall t :: t in list ==> t in hits && t !in Tids(s.parked)
    requires Handled(sameLine, writeLine, readLine, s, list, hits, s')
    ensures Outcome(sameLine, writeLine, readLine, s, stops, list, hits, s', StopsAfter(stops, list, hits))
    ensures StandAt(writeLine, readLine, s'.parked, StopsAfter(stops, list, hits)) && Acts(sameLine, s, s')
  {
    StandAfter(sameLine, writeLine, readLine, s, stops, list, hits, s');
    HandledActs(sameLine, writeLine, readLine, s, list, hits, s');
    if FirstRaces(sameLine, writeLine, readLine, s.parked, stops, list, hits) {
      FirstHalts(sameLine, writeLine, readLine, s, stops, list, hits, s');
    }
  }

  class Controller {
    const sameLine: bool
    const writeLine: int
    const readLine: int
    var threads: seq<Tid>
    var suspended: set<Tid>
    var parked: seq<Entry>
    var processValid: bool
    var status: Status
    var running: bool
    var lastBreak: real
    /** Where the parked threads stopped. */
    ghost var stops: map<Tid, Site>

    constructor (sameLine: bool, writeLine: int, readLine: int, now: real)
      ensures threads == [] && suspended == {} && parked == [] && status == Live && !running && lastBreak == now
      ensures this.sameLine == sameLine && this.writeLine == writeLine && this.readLine == readLine
      ensures Safe(sameLine, Now()) && Tracked(Now()) && Placed()
    {
      this.sameLine, this.writeLine, this.readLine := sameLine, writeLine, readLine;
      threads, suspended, parked, processValid, status, running, lastBreak := [], {}, [], true, Live, false, now;
      stops := map[];
    }

    ghost function Now(): State
      reads this
    {
      State((set t | t in threads), suspended, parked, processValid, status)
    }

    ghost predicate Ready()
      reads this
    {
      && Safe(sameLine, Now()) && status.Live?
      && forall i, j :: 0 <= i < j < |threads| ==> threads[i] != threads[j]
    }

    ghost predicate Placed()
      reads this
    {
      StandAt(writeLine, readLine, parked, stops)
    }

    /** All (address, thread) pairs on which n races with a parked entry. */
    method Match(n: Entry) returns (matches: seq<(Address, Tid)>)
      ensures forall a, t :: (a, t) in matches <==>
        exists e ::
          e in parked && e.tid == t && t != n.tid && (sameLine || e.kind != n.kind) && a in e.addrs && a in n.addrs
    {
      matches := [];
      for i := 0 to |parked|
        invariant forall a, t :: (a, t) in matches <==>
          exists e ::
            e in parked[..i] && e.tid == t && t != n.tid && (sameLine || e.kind != n.kind) && a in e.addrs
              && a in n.addrs
      {
        var e := parked[i];
        assert parked[..i + 1] == parked[..i] + [e];
        ghost var before := matches;
        if e.tid != n.tid && (sameLine || e.kind != n.kind) {
          for k := 0 to |e.addrs|
            invariant forall a, t :: (a, t) in matches <==>
              (a, t) in before || (t == e.tid && a in e.addrs[..k] && a in n.addrs)
          {
            assert e.addrs[..k + 1] == e.addrs[..k] + [e.addrs[k]];
            if e.addrs[k] in n.addrs { matches := matches + [(e.addrs[k], e.tid)]; }
          }
          assert e.addrs[..|e.addrs|] == e.addrs;
        }
      }
      assert parked[..|parked|] == parked;
    }

    method ResumeThreads(except: set<Tid>)
      requires suspended <= set t | t in threads
      modifies this`suspended
      ensures suspended == old(suspended) * except
    {
      for i := 0 to |threads|
        invariant forall t :: t in suspended <==> t in old(suspended) && (t in except || t !in threads[..i])
      {
        assert threads[..i + 1] == threads[..i] + [threads[i]];
        if threads[i] !in except && threads[i] in suspended { suspended := suspended - {threads[i]}; }
      }
      assert threads[..|threads|] == threads;
      forall t ensures t in suspended <==> t in old(suspended) * except {
        assert t in old(suspended) ==> t in (set t | t in threads);
      }
    }

    method AllBpHit() returns (all: bool)
      ensures all <==> (set t | t in threads) <= suspended
    {
      for i := 0 to |threads|
        invariant forall k :: 0 <= k < i ==> threads[k] in suspended
      {
        if threads[i] !in suspended {
          assert threads[i] in threads;
          return false;
        }
      }
      return true;
    }

    /** Resumes a randomly chosen parked thread and drops its entry; never comes back from a dead one. */
    method ReleaseBp() returns (released: bool)
      requires status.Live?
      modifies this`suspended, this`parked, this`status
      ensures released <==> processValid && |old(parked)| > 0 && status.Live?
      ensures if processValid && |old(parked)| > 0 then Released(old(Now()), Now()) else Now() == old(Now())
    {
      if !processValid || |parked| == 0 { return false; }
      var rand :| 0 <= rand < |parked|;
      if parked[rand].tid !in threads {
        status := Stalled;
        assert Now() == AfterRelease(old(Now()), rand);
        return false;
      }
      suspended := suspended - {parked[rand].tid};
      parked := Without(parked, rand);
      assert Now() == AfterRelease(old(Now()), rand);
      return true;
    }

    lemma RivalsMatched(n: Entry, matches: seq<(Address, Tid)>)
      requires forall a, t :: (a, t) in matches <==>
        exists e ::
          e in parked && e.tid == t && t != n.tid && (sameLine || e.kind != n.kind) && a in e.addrs && a in n.addrs
      ensures Rivals(sameLine, parked, n) == set m | m in matches :: m.1
      ensures |matches| > 0 <==> Rivals(sameLine, parked, n) != {}
    {
      var tids := set m | m in matches :: m.1;
      forall t | t in Rivals(sameLine, parked, n) ensures t in tids {
        var e :| e in parked && Races(sameLine, e, n) && e.tid == t;
        var a :| a in e.addrs && a in n.addrs;
        assert (a, t) in matches && (a, t).1 in tids;
      }
      forall t | t in tids ensures t in Rivals(sameLine, parked, n) {
        var m :| m in matches && m.1 == t;
        var a := m.0;
        assert m == (a, t) && (a, t) in matches;
        var e :| e in parked && e.tid == t && t != n.tid && (sameLine || e.kind != n.kind) && a in e.addrs
          && a in n.addrs;
        assert Races(sameLine, e, n);
      }
      if |matches| > 0 {
        var m := matches[0];
        assert m in matches && m.1 in tids;
      }
    }

    /** Checks one entry whose thread was just suspended. */
    method BreakpointMatchCheck(n: Entry, now: real)
      requires Ready() && n.tid in threads && n.tid !in Tids(parked) && n.addrs != []
      modifies this`suspended, this`parked, this`status, this`lastBreak
      ensures Next(sameLine, old(Now()), Hit(n), Now())
      ensures lastBreak == if status.Halted? then old(lastBreak) else now
    {
      suspended := suspended + {n.tid};
      var matches := Match(n);
      RivalsMatched(n, matches);
      if |matches| > 0 {
        var except := {n.tid} + set m | m in matches :: m.1;
        assert except == Rivals(sameLine, parked, n) + {n.tid};
        ResumeThreads(except);
        status := Halted;
      } else {
        lastBreak := now;
        parked := parked + [n];
        var all := AllBpHit();
        if all { var _ := ReleaseBp(); }
      }
    }

    /** The body of the callbacks' loop: suspend the thread, then check or give up. */
    method HandleThread(t: Tid, site: Site, now: real)
      requires Ready() && t in threads && t !in Tids(parked)
      modifies this`suspended, this`parked, this`status, this`lastBreak
      ensures Now().threads == old(Now()).threads && Tids(parked) <= Tids(old(parked)) + {t}
      ensures status.Live? ==> Ready()
      ensures status.Live? && processValid ==> !((set t | t in threads) <= suspended)
      ensures Next(sameLine, old(Now()), EventOf(writeLine, readLine, t, site), Now())
    {
      ghost var before := Now();
      if (site.line == writeLine || site.line == readLine) && site.addrs != [] {
        var n := Entry(site.addrs, if site.line == writeLine then Write else Read, t);
        BreakpointMatchCheck(n, now);
        StepKeepsSafe(sameLine, before, Hit(n), Now());
        if status.Live? && processValid { HitLeavesOneRunning(sameLine, before, n, Now()); }
      } else {
        suspended := suspended + {t};
        status := Terminated;
      }
    }

    method HandleNext(list: seq<Tid>, i: nat, hits: map<Tid, Site>, now: real, ghost start: State)
      requires Ready() && i < |list| && (forall t :: t in list ==> t in hits)
      requires list[i] in threads && list[i] !in Tids(parked)
      requires Handled(sameLine, writeLine, readLine, start, list[..i], hits, Now())
      modifies this`suspended, this`parked, this`status, this`lastBreak
      ensures Handled(sameLine, writeLine, readLine, start, list[..i + 1], hits, Now())
      ensures Tids(parked) <= Tids(old(parked)) + {list[i]}
      ensures status.Live? ==> Ready()
      ensures status.Live? && processValid ==> !((set t | t in threads) <= suspended)
    {
      var t := list[i];
      assert t in list;
      HandleThread(t, hits[t], now);
      assert list[..i + 1][..i] == list[..i];
    }

    /** Handles every untracked thread in turn; a halt or an abort ends the callback for good. */
    method HandleThreads(list: seq<Tid>, hits: map<Tid, Site>, now: real)
      requires Ready()
      requires forall t :: t in list ==> t in threads && t in hits && t !in Tids(parked)
      requires forall i, j :: 0 <= i < j < |list| ==> list[i] != list[j]
      modifies this`suspended, this`parked, this`status, this`lastBreak
      ensures Handled(sameLine, writeLine, readLine, old(Now()), list, hits, Now())
      ensures status.Live? ==> Ready()
      ensures status.Live? && processValid && |list| > 0 ==> !((set t | t in threads) <= suspended)
    {
      ghost var start := Now();
      for i := 0 to |list|
        invariant Ready() && (forall t :: t in list[..i] ==> t in hits)
        invariant Handled(sameLine, writeLine, readLine, start, list[..i], hits, Now())
        invariant forall k :: i <= k < |list| ==> list[k] !in Tids(parked)
        invariant processValid && i > 0 ==> !((set t | t in threads) <= suspended)
      {
        var t := list[i];
        assert t in list;
        HandleNext(list, i, hits, now, start);
        if !status.Live? {
          HandledStays(sameLine, writeLine, readLine, start, list, i + 1, hits, Now());
          return;
        }
      }
      assert list[..|list|] == list;
    }

    method UntrackedThreads(hits: map<Tid, Site>) returns (list: seq<Tid>)
      requires Ready()
      ensures list == Untracked(threads, hits, Tids(parked))
      ensures forall i, j :: 0 <= i < j < |list| ==> list[i] != list[j]
    {
      list := [];
      var tracked := set e | e in parked :: e.tid;
      for i := 0 to |threads|
        invariant list == Untracked(threads[..i], hits, tracked)
        invariant forall i, j :: 0 <= i < j < |list| ==> list[i] != list[j]
      {
        assert threads[..i + 1][..i] == threads[..i];
        assert threads[i] !in threads[..i];
        if threads[i] in hits && threads[i] !in tracked { list := list + [threads[i]]; }
      }
      assert threads[..|threads|] == threads;
    }

    /** The common part of both callbacks. */
    method HandleUntracked(ghost id: Tid, hits: map<Tid, Site>, now: real)
      requires Ready()
      modifies this`suspended, this`parked, this`status, this`lastBreak
      ensures Handled(sameLine, writeLine, readLine, old(Now()), Untracked(threads, hits, Tids(old(parked))), hits,
        Now())
      ensures status.Live? ==> Ready()
      ensures
        var stopped := id in old(suspended) && (id !in hits || id in Tids(old(parked)));
        status.Live? && processValid && id in threads && !stopped ==> !((set t | t in threads) <= suspended)
    {
      var list := UntrackedThreads(hits);
      HandleThreads(list, hits, now);
    }

    method FindStale(id: Tid) returns (stale: seq<nat>)
      ensures forall i: nat :: i in stale <==> i < |parked| && parked[i].tid == id
      ensures forall j, k :: 0 <= j < k < |stale| ==> stale[j] < stale[k]
    {
      stale := [];
      for i := 0 to |parked|
        invariant forall k: nat :: k in stale <==> k < i && parked[k].tid == id
        invariant forall j :: 0 <= j < |stale| ==> stale[j] < i
        invariant forall j, k :: 0 <= j < k < |stale| ==> stale[j] < stale[k]
      {
        if parked[i].tid == id { stale := stale + [i]; }
      }
    }

    /** thread_liveness_check and the deletion loop over its result. With distinct ids the ascending
        deletion never runs twice, which is what keeps its indices valid. */
    method ForgetStale(id: Tid)
      requires Ready()
      modifies this`parked
      ensures Ready() && id !in Tids(parked)
      ensures Now() == old(Now()) ||
        (exists i :: 0 <= i < |old(parked)| && old(parked)[i].tid == id && parked == Without(old(parked), i))
    {
      var stale := FindStale(id);
      AtMostOneStale(parked, stale, id);
      ghost var parked0 := parked;
      forall k | 0 <= k < |stale| ensures stale[k] < |parked| && parked[stale[k]].tid == id {
        var x := stale[k];
        assert x in stale;
      }
      for k := 0 to |stale|
        invariant k == 0 ==> parked == parked0
        invariant k == 1 ==> parked == Without(parked0, stale[0])
      {
        parked := Without(parked, stale[k]);
      }
      if |stale| == 1 {
        WithoutMembers(parked0, stale[0]);
      } else {
        forall i: nat | i < |parked| ensures parked[i].tid != id { assert i !in stale; }
      }
    }

    /** read_callback: `hits` holds every thread stopped at a breakpoint. */
    method ReadCallback(id: Tid, hits: map<Tid, Site>, now: real)
      requires Ready() && Placed()
      modifies this`suspended, this`parked, this`status, this`lastBreak, this`running, this`stops
      ensures
        var list := Untracked(threads, hits, Tids(old(parked)));
        Placed() && Outcome(sameLine, writeLine, readLine, old(Now()), old(stops), list, hits, Now(), stops)
      ensures Acts(sameLine, old(Now()), Now())
      ensures status.Live? ==> Ready() && running
      ensures
        var stopped := id in old(suspended) && (id !in hits || id in Tids(old(parked)));
        status.Live? && processValid && id in threads && !stopped ==> !((set t | t in threads) <= suspended)
    {
      hide Outcome, Handled, Acts, StopsAfter, Safe, StandAt;
      running := false;
      ghost var before := Now();
      HandleUntracked(id, hits, now);
      ghost var list := Untracked(threads, hits, Tids(before.parked));
      OutcomeOf(sameLine, writeLine, readLine, before, stops, list, hits, Now());
      stops := StopsAfter(stops, list, hits);
      if status.Live? { running := true; }
    }

    /** write_callback first drops a stale entry of the triggering thread, which must have resumed on its own. */
    method WriteCallback(id: Tid, hits: map<Tid, Site>, now: real)
      requires Ready() && Placed() && id !in suspended
      modifies this`suspended, this`parked, this`status, this`lastBreak, this`running, this`stops
      ensures exists m ::
        && (m == old(Now()) || Next(sameLine, old(Now()), Forget(id), m)) && id !in Tids(m.parked)
        && Outcome(sameLine, writeLine, readLine, m, old(stops), Untracked(threads, hits, Tids(m.parked)), hits, Now(),
                   stops)
      ensures Placed()
      ensures Acts(sameLine, old(Now()), Now())
      ensures status.Live? ==> Ready() && running
      ensures status.Live? && processValid && id in threads && id in hits ==> !((set t | t in threads) <= suspended)
    {
      hide Outcome, Handled, Acts, StopsAfter, Safe, Fits;
      running := false;
      ghost var before := Now();
      ForgetStale(id);
      ghost var middle := Now();
      assert middle != before ==> Next(sameLine, before, Forget(id), middle);
      HandleUntracked(id, hits, now);
      ghost var list := Untracked(threads, hits, Tids(middle.parked));
      OutcomeOf(sameLine, writeLine, readLine, middle, stops, list, hits, Now());
      stops := StopsAfter(stops, list, hits);
      ActsAfterForget(sameLine, before, id, middle, Now());
      if status.Live? { running := true; }
    }

    method Terminate(ghost before: State)
      requires status.Live? && Acts(sameLine, before, Now())
      modifies this`status
      ensures status.Terminated? && Acts(sameLine, before, Now())
    {
      ghost var middle := Now();
      status := Terminated;
      ActsThen(sameLine, before, middle, Quit, Now());
    }

    /** A timer tick. It releases a thread when nothing happened for a while and gives up only with
        nothing parked or before the first breakpoint. */
    method Tick(now: real)
      requires Ready() && Placed()
      modifies this`suspended, this`parked, this`status, this`lastBreak, this`running
      ensures Acts(sameLine, old(Now()), Now()) && Placed()
      ensures status.Live? ==> running == old(running) && Ready()
      ensures status.Terminated? <==>
        if old(running) then old(parked) == [] && now - old(lastBreak) > KILL_TIME else now - old(lastBreak) > TERM_TIME
      ensures
        var release := running && |old(parked)| > 0 && now - old(lastBreak) > WAIT_TIME && processValid;
        if release then Released(old(Now()), Now()) && lastBreak == if status.Live? then now else old(lastBreak)
        else parked == old(parked) && suspended == old(suspended) && lastBreak == old(lastBreak)
    {
      ghost var before := Now();
      ActsNothing(sameLine, before);
      if running {
        if now - lastBreak > WAIT_TIME {
          running := false;
          var released := ReleaseBp();
          if before != Now() {
            ActsThen(sameLine, before, before, Release, Now());
            StepKeepsSafe(sameLine, before, Release, Now());
          }
          if !status.Live? { return; }
          if released { lastBreak := now; }
          running := true;
        }
        if |parked| == 0 && now - lastBreak > KILL_TIME { Terminate(before); }
      } else if now - lastBreak > TERM_TIME {
        Terminate(before);
      }
    }
  }
}
