/** The probe scheduler: workers that share one counter across awaits, and the dashboard that starts
    and abandons sweeps as the tab is shown, hidden or refreshed. */
module ProbeSweep {

  // ----- One sweep

  /** A worker is about to test its loop condition, awaits a probe, left the loop, or was ended by a rejection. */
  datatype Worker = Checking | Probing(target: nat) | Stopped | Rejected(target: nat)

  /** `stale` records that some worker saw the sweep out of date; `done` holds the settled targets. */
  datatype Sweep = Sweep(size: nat, next: nat, workers: seq<Worker>, starts: seq<nat>, done: set<nat>, stale: bool)

  function WorkerCount(size: nat, concurrency: int): nat {
    var wanted := if concurrency < size then concurrency else size;
    if wanted < 0 then 0 else wanted
  }

  function Begin(size: nat, concurrency: int): Sweep {
    Sweep(size, 0, seq(WorkerCount(size, concurrency), i => Checking), [], {}, false)
  }

  /** A worker evaluates `isCurrent() && next < targets.length` and takes the next target or leaves. */
  function Resume(s: Sweep, w: nat, current: bool): Sweep {
    if w >= |s.workers| || !s.workers[w].Checking? then s
    else if current && s.next < s.size then
      s.(next := s.next + 1, workers := s.workers[w := Probing(s.next)], starts := s.starts + [s.next])
    else s.(workers := s.workers[w := Stopped], stale := s.stale || !current)
  }

  function Settle(s: Sweep, w: nat): Sweep {
    if w >= |s.workers| || !s.workers[w].Probing? then s
    else s.(workers := s.workers[w := Checking], done := s.done + {s.workers[w].target})
  }

  function Reject(s: Sweep, w: nat): Sweep {
    if w >= |s.workers| || !s.workers[w].Probing? then s
    else s.(workers := s.workers[w := Rejected(s.workers[w].target)])
  }

  /** A worker that took a target it has not settled. */
  predicate Busy(worker: Worker) {
    worker.Probing? || worker.Rejected?
  }

  predicate Holds(worker: Worker, target: nat) {
    Busy(worker) && worker.target == target
  }

  /** Every target that was taken is settled or held by a worker. */
  ghost predicate Covered(s: Sweep) {
    forall t: nat :: t < s.next ==> t in s.done || exists w :: 0 <= w < |s.workers| && Holds(s.workers[w], t)
  }

  ghost predicate Inv(s: Sweep) {
    && s.next <= s.size && |s.starts| == s.next
    && (forall i :: 0 <= i < s.next ==> s.starts[i] == i)
    && (forall w :: 0 <= w < |s.workers| && Busy(s.workers[w]) ==>
          s.workers[w].target < s.next && s.workers[w].target !in s.done)
    && (forall v, w :: 0 <= v < w < |s.workers| && Busy(s.workers[v]) && Busy(s.workers[w]) ==>
          s.workers[v].target != s.workers[w].target)
    && (forall t :: t in s.done ==> t < s.next)
    && Covered(s)
    && (forall w :: 0 <= w < |s.workers| && s.workers[w].Stopped? ==> s.stale || s.next == s.size)
  }

  lemma BeginInv(size: nat, concurrency: int)
    ensures Inv(Begin(size, concurrency))
  {
  }

  lemma ResumeInv(s: Sweep, w: nat, current: bool)
    requires Inv(s)
    ensures Inv(Resume(s, w, current))
  {
    if w < |s.workers| && s.workers[w].Checking? {
      if current && s.next < s.size {
        StartInv(s, w);
      } else {
        LeaveInv(s, w, !current);
      }
    }
  }

  lemma StartInv(s: Sweep, w: nat)
    requires Inv(s) && w < |s.workers| && s.workers[w].Checking? && s.next < s.size
    ensures Inv(Resume(s, w, true))
  {
    StartCovers(s, w);
  }

  lemma StartCovers(s: Sweep, w: nat)
    requires Covered(s) && w < |s.workers| && s.workers[w].Checking? && s.next < s.size
    ensures Covered(Resume(s, w, true))
  {
    var r := Resume(s, w, true);
    assert Holds(r.workers[w], s.next);
    forall t: nat | t < s.next && t !in s.done ensures exists v :: 0 <= v < |r.workers| && Holds(r.workers[v], t) {
      var v :| 0 <= v < |s.workers| && Holds(s.workers[v], t);
      assert Holds(r.workers[v], t);
    }
  }

  lemma LeaveInv(s: Sweep, w: nat, stale: bool)
    requires Inv(s) && w < |s.workers| && s.workers[w].Checking? && (stale || s.next == s.size)
    ensures Inv(s.(workers := s.workers[w := Stopped], stale := s.stale || stale))
  {
    LeaveCovers(s, w, stale);
  }

  lemma LeaveCovers(s: Sweep, w: nat, stale: bool)
    requires Covered(s) && w < |s.workers| && s.workers[w].Checking?
    ensures Covered(s.(workers := s.workers[w := Stopped], stale := s.stale || stale))
  {
    var workers := s.workers[w := Stopped];
    forall t: nat | t < s.next && t !in s.done ensures exists v :: 0 <= v < |workers| && Holds(workers[v], t) {
      var v :| 0 <= v < |s.workers| && Holds(s.workers[v], t);
      assert Holds(workers[v], t);
    }
  }

  lemma SettleInv(s: Sweep, w: nat)
    requires Inv(s)
    ensures Inv(Settle(s, w))
  {
    if w < |s.workers| && s.workers[w].Probing? {
      SettleCovers(s, w);
      assert Holds(s.workers[w], s.workers[w].target);
    }
  }

  lemma SettleCovers(s: Sweep, w: nat)
    requires Covered(s)
    ensures Covered(Settle(s, w))
  {
    var r := Settle(s, w);
    if w < |s.workers| && s.workers[w].Probing? {
      assert Holds(s.workers[w], s.workers[w].target);
      forall t: nat | t < r.next ensures t in r.done || exists v :: 0 <= v < |r.workers| && Holds(r.workers[v], t) {
        if t !in r.done {
          var v :| 0 <= v < |s.workers| && Holds(s.workers[v], t);
          assert Holds(r.workers[v], t);
        }
      }
    }
  }

  lemma RejectInv(s: Sweep, w: nat)
    requires Inv(s)
    ensures Inv(Reject(s, w))
  {
    var r := Reject(s, w);
    if w < |s.workers| && s.workers[w].Probing? {
      assert forall v, t: nat :: 0 <= v < |s.workers| ==> (Holds(r.workers[v], t) <==> Holds(s.workers[v], t));
    }
  }

  /** Steps of a sweep under an arbitrary `isCurrent`. */
  datatype Step = Resumes(w: nat, current: bool) | Settles(w: nat) | Rejects(w: nat)

  function Take(s: Sweep, step: Step): Sweep {
    match step
    case Resumes(w, current) => Resume(s, w, current)
    case Settles(w) => Settle(s, w)
    case Rejects(w) => Reject(s, w)
  }

  function Run(s: Sweep, steps: seq<Step>): Sweep
    decreases |steps|
  {
    if steps == [] then s else Run(Take(s, steps[0]), steps[1..])
  }

  function InFlight(workers: seq<Worker>): (r: nat)
    ensures r <= |workers|
  {
    if workers == [] then 0 else (if workers[0].Probing? then 1 else 0) + InFlight(workers[1..])
  }

  lemma TakeInv(s: Sweep, step: Step)
    requires Inv(s)
    ensures Inv(Take(s, step))
  {
    match step
    case Resumes(w, current) => ResumeInv(s, w, current);
    case Settles(w) => SettleInv(s, w);
    case Rejects(w) => RejectInv(s, w);
  }

  /** The invariant holds over every interleaving, and starts are only ever added. */
  lemma {:induction false} RunInv(s: Sweep, steps: seq<Step>)
    requires Inv(s)
    ensures Inv(Run(s, steps)) && |Run(s, steps).workers| == |s.workers| && Run(s, steps).size == s.size
    ensures s.starts <= Run(s, steps).starts
    decreases |steps|
  {
    if steps == [] {
    } else {
      TakeInv(s, steps[0]);
      RunInv(Take(s, steps[0]), steps[1..]);
    }
  }

  // ----- Conservation

  /** Workers that hold a target they have not settled. */
  function BusyCount(workers: seq<Worker>): nat {
    if workers == [] then 0 else (if Busy(workers[0]) then 1 else 0) + BusyCount(workers[1..])
  }

  /** Every started target is settled or still held, by a worker that probes it or was ended by it. */
  ghost predicate Balanced(s: Sweep) {
    |s.starts| == |s.done| + BusyCount(s.workers)
  }

  lemma {:induction false} BusyUpdate(workers: seq<Worker>, w: nat, worker: Worker)
    requires w < |workers|
    ensures BusyCount(workers[w := worker]) + (if Busy(workers[w]) then 1 else 0)
      == BusyCount(workers) + (if Busy(worker) then 1 else 0)
  {
    if w == 0 {
      assert workers[0 := worker][1..] == workers[1..];
    } else {
      BusyUpdate(workers[1..], w - 1, worker);
      assert workers[w := worker][1..] == workers[1..][w - 1 := worker];
    }
  }

  lemma {:induction false} NoneBusy(workers: seq<Worker>)
    requires forall w :: 0 <= w < |workers| ==> workers[w].Checking?
    ensures BusyCount(workers) == 0
  {
    if workers == [] {
    } else {
      NoneBusy(workers[1..]);
    }
  }

  lemma TakeBalanced(s: Sweep, step: Step)
    requires Inv(s) && Balanced(s)
    ensures Balanced(Take(s, step))
  {
    var w := step.w;
    if w < |s.workers| {
      var worker := Take(s, step).workers[w];
      assert Take(s, step).workers == s.workers[w := worker];
      BusyUpdate(s.workers, w, worker);
    }
  }

  lemma {:induction false} RunBalanced(s: Sweep, steps: seq<Step>)
    requires Inv(s) && Balanced(s)
    ensures Balanced(Run(s, steps))
    decreases |steps|
  {
    if steps == [] {
    } else {
      TakeInv(s, steps[0]);
      TakeBalanced(s, steps[0]);
      RunBalanced(Take(s, steps[0]), steps[1..]);
    }
  }

  /** Over every interleaving the targets start in order, each at most once; a start is settled or held
      by one worker, and no more are in flight than the concurrency allows. */
  lemma SweepSafe(size: nat, concurrency: int, steps: seq<Step>)
    ensures var s := Run(Begin(size, concurrency), steps);
      && Inv(s)
      && Balanced(s)
      && InFlight(s.workers) <= size
      && |s.workers| == (if concurrency < 0 then 0 else if concurrency < size then concurrency else size)
      && (concurrency >= 0 ==> InFlight(s.workers) <= concurrency)
  {
    BeginInv(size, concurrency);
    NoneBusy(Begin(size, concurrency).workers);
    RunInv(Begin(size, concurrency), steps);
    RunBalanced(Begin(size, concurrency), steps);
  }

  ghost predicate AllSeenCurrent(steps: seq<Step>) {
    forall i :: 0 <= i < |steps| && steps[i].Resumes? ==> steps[i].current
  }

  ghost predicate NeverCurrent(steps: seq<Step>) {
    forall i :: 0 <= i < |steps| && steps[i].Resumes? ==> !steps[i].current
  }

  /** Nothing starts once the sweep has stopped being current for good. */
  lemma {:induction false} NoStartAfterStop(s: Sweep, steps: seq<Step>)
    requires NeverCurrent(steps)
    ensures Run(s, steps).starts == s.starts && Run(s, steps).next == s.next
    decreases |steps|
  {
    if steps == [] {
    } else {
      assert steps[0].Resumes? ==> !steps[0].current;
      assert forall i :: 0 <= i < |steps[1..]| ==> steps[1..][i] == steps[i + 1];
      NoStartAfterStop(Take(s, steps[0]), steps[1..]);
    }
  }

  lemma {:induction false} CurrentIsNotStale(s: Sweep, steps: seq<Step>)
    requires AllSeenCurrent(steps) && !s.stale
    ensures !Run(s, steps).stale
    decreases |steps|
  {
    if steps == [] {
    } else {
      assert steps[0].Resumes? ==> steps[0].current;
      assert forall i :: 0 <= i < |steps[1..]| ==> steps[1..][i] == steps[i + 1];
      CurrentIsNotStale(Take(s, steps[0]), steps[1..]);
    }
  }

  /** A sweep that stayed current and whose workers all left their loops has probed every target,
      each exactly once, provided there was a worker at all: a concurrency of at least one. */
  lemma SweepComplete(size: nat, concurrency: int, steps: seq<Step>)
    requires AllSeenCurrent(steps)
    requires forall w :: 0 <= w < |Run(Begin(size, concurrency), steps).workers| ==>
      Run(Begin(size, concurrency), steps).workers[w].Stopped?
    ensures var s := Run(Begin(size, concurrency), steps);
      && (s.next == size <==> size == 0 || concurrency >= 1)
      && (s.next == size ==> |s.starts| == size && forall t: nat :: t < size ==> s.starts[t] == t && t in s.done)
  {
    var b := Begin(size, concurrency);
    var s := Run(b, steps);
    BeginInv(size, concurrency);
    RunInv(b, steps);
    CurrentIsNotStale(b, steps);
    if |s.workers| > 0 {
      assert s.workers[0].Stopped?;
    } else {
      NoWorkersNoStart(b, steps);
    }
  }

  lemma {:induction false} NoWorkersNoStart(s: Sweep, steps: seq<Step>)
    requires s.workers == []
    ensures Run(s, steps) == s
    decreases |steps|
  {
    if steps == [] {
    } else {
      NoWorkersNoStart(s, steps[1..]);
    }
  }

  /** With rejections, the sweep still reaches every target as long as one worker leaves its loop on
      its own; the targets not settled are exactly the rejected ones. */
  lemma SurvivorReachesAll(s: Sweep)
    requires Inv(s) && !s.stale
    requires forall w :: 0 <= w < |s.workers| ==> s.workers[w].Stopped? || s.workers[w].Rejected?
    requires exists w :: 0 <= w < |s.workers| && s.workers[w].Stopped?
    ensures s.next == s.size
    ensures forall t: nat :: t < s.size ==>
      (t !in s.done <==> exists w :: 0 <= w < |s.workers| && s.workers[w] == Rejected(t))
  {
    forall t: nat | t < s.size
      ensures t !in s.done <==> exists w :: 0 <= w < |s.workers| && s.workers[w] == Rejected(t)
    {
      if t !in s.done {
        var w :| 0 <= w < |s.workers| && Holds(s.workers[w], t);
        assert s.workers[w] == Rejected(t);
      }
    }
  }

  // ----- The dashboard

  const CONCURRENCY: int := 3

  /** A probe result and the sweep that obtained it. */
  datatype ProbeResult = ProbeResult(sweep: nat, payload: string)

  /** A running sweep and the hubs it goes through. */
  datatype Started = Started(hubs: seq<string>, sweep: Sweep, ended: bool)

  datatype Dashboard = Dashboard(
    visible: bool,
    homes: seq<string>,
    generation: nat,
    newest: nat,
    probes: map<string, ProbeResult>,
    probing: bool,
    sweeps: map<nat, Started>)

  datatype Event =
    | Visibility(visible: bool)
    | Homes(hubs: seq<string>)
    | WorkerResumes(generation: nat, w: nat)
    | ProbeSettles(generation: nat, w: nat, payload: string)
    | SweepEnds(generation: nat)

  predicate IsCurrent(d: Dashboard, generation: nat) {
    d.generation == generation && d.visible
  }

  function RunProbeSweep(d: Dashboard): Dashboard {
    if d.homes == [] || !d.visible then d
    else
      var g := d.generation + 1;
      d.(generation := g, newest := g, probes := map[], probing := true,
         sweeps := d.sweeps[g := Started(d.homes, Begin(|d.homes|, CONCURRENCY), false)])
  }

  function StopSweep(d: Dashboard): Dashboard {
    d.(generation := d.generation + 1, probing := false)
  }

  /** The watcher's update on a visibility event or on registration. */
  function Update(d: Dashboard): Dashboard {
    if d.visible then RunProbeSweep(d) else StopSweep(d)
  }

  predicate AllLeft(s: Sweep) {
    forall w :: 0 <= w < |s.workers| ==> s.workers[w].Stopped?
  }

  function Next(d: Dashboard, e: Event): Dashboard {
    match e
    case Visibility(visible) => Update(d.(visible := visible))
    case Homes(hubs) => Update(StopSweep(d).(homes := hubs))
    case WorkerResumes(g, w) =>
      if g !in d.sweeps then d
      else d.(sweeps := d.sweeps[g := d.sweeps[g].(sweep := Resume(d.sweeps[g].sweep, w, IsCurrent(d, g)))])
    case ProbeSettles(g, w, payload) =>
      if g in d.sweeps && w < |d.sweeps[g].sweep.workers| && d.sweeps[g].sweep.workers[w].Probing?
        && d.sweeps[g].sweep.workers[w].target < |d.sweeps[g].hubs|
      then Settled(d, g, w, payload) else d
    case SweepEnds(g) =>
      if g in d.sweeps && AllLeft(d.sweeps[g].sweep) && !d.sweeps[g].ended then
        d.(sweeps := d.sweeps[g := d.sweeps[g].(ended := true)],
           probing := if d.generation == g then false else d.probing)
      else d
  }

  /** A probe returned: its result is stored only while its sweep is current. */
  function Settled(d: Dashboard, g: nat, w: nat, payload: string): Dashboard
    requires g in d.sweeps && w < |d.sweeps[g].sweep.workers| && d.sweeps[g].sweep.workers[w].Probing?
    requires d.sweeps[g].sweep.workers[w].target < |d.sweeps[g].hubs|
  {
    var hub := d.sweeps[g].hubs[d.sweeps[g].sweep.workers[w].target];
    d.(sweeps := d.sweeps[g := d.sweeps[g].(sweep := Settle(d.sweeps[g].sweep, w))],
       probes := if IsCurrent(d, g) then d.probes[hub := ProbeResult(g, payload)] else d.probes)
  }

  function Open(visible: bool, homes: seq<string>): Dashboard {
    Update(Dashboard(visible, homes, 0, 0, map[], false, map[]))
  }

  function RunEvents(d: Dashboard, events: seq<Event>): Dashboard
    decreases |events|
  {
    if events == [] then d else RunEvents(Next(d, events[0]), events[1..])
  }

  /** Hubs whose probe a sweep has settled. */
  ghost function SettledHubs(s: Started): set<string>
    requires forall t :: t in s.sweep.done ==> t < |s.hubs|
  {
    set t | t in s.sweep.done :: s.hubs[t]
  }

  ghost predicate Sound(s: Started) {
    && Inv(s.sweep) && |s.hubs| == s.sweep.size && (s.ended ==> AllLeft(s.sweep))
    && s.hubs != [] && |s.sweep.workers| == if |s.hubs| < 3 then |s.hubs| else 3
  }

  ghost predicate SweepsSound(d: Dashboard) {
    && (forall g :: g in d.sweeps ==> g <= d.newest && Sound(d.sweeps[g]))
    && (d.generation in d.sweeps ==> d.visible && !d.sweeps[d.generation].sweep.stale)
  }

  /** One started sweep goes on, the others stay as they are. */
  ghost predicate Steps(d: Dashboard, r: Dashboard, g: nat, s: Started) {
    && g in d.sweeps && r.sweeps == d.sweeps[g := s]
    && r.newest == d.newest && r.generation == d.generation && r.visible == d.visible
  }

  lemma StepSound(d: Dashboard, r: Dashboard, g: nat, s: Started)
    requires SweepsSound(d) && Steps(d, r, g, s)
    requires Sound(s) && (g == d.generation && s.sweep.stale ==> d.sweeps[g].sweep.stale)
    ensures SweepsSound(r)
  {
  }

  /** Stored results belong to the newest sweep; while it is current they are exactly its settled hubs,
      and the probing flag says whether it is current and unfinished. */
  ghost predicate DashboardInv(d: Dashboard) {
    && d.newest <= d.generation
    && SweepsSound(d)
    && (forall hub :: hub in d.probes ==> d.probes[hub].sweep == d.newest)
    && (d.generation in d.sweeps ==> d.probes.Keys == SettledHubs(d.sweeps[d.generation]))
    && (d.probing <==> d.generation in d.sweeps && !d.sweeps[d.generation].ended)
  }

  lemma RunProbeSweepInv(d: Dashboard)
    requires DashboardInv(d) && d.visible
    ensures DashboardInv(RunProbeSweep(d))
  {
    BeginInv(|d.homes|, CONCURRENCY);
    var r := RunProbeSweep(d);
    if d.homes != [] {
      assert SettledHubs(r.sweeps[r.generation]) == {};
    }
  }

  lemma StopSweepInv(d: Dashboard, visible: bool, homes: seq<string>)
    requires DashboardInv(d)
    ensures DashboardInv(StopSweep(d).(visible := visible, homes := homes))
  {
  }

  lemma WorkerResumesInv(d: Dashboard, g: nat, w: nat)
    requires DashboardInv(d) && g in d.sweeps
    ensures DashboardInv(Next(d, WorkerResumes(g, w)))
  {
    var s, current := d.sweeps[g], IsCurrent(d, g);
    ResumeSound(s, w, current);
    SameResults(d, g, s.(sweep := Resume(s.sweep, w, current)), d.probing);
  }

  lemma ResumeSound(s: Started, w: nat, current: bool)
    requires Sound(s)
    ensures var r := s.(sweep := Resume(s.sweep, w, current));
      Sound(r) && r.sweep.done == s.sweep.done && (current && r.sweep.stale ==> s.sweep.stale)
  {
    ResumeInv(s.sweep, w, current);
  }

  /** A step of one sweep that settles nothing. */
  lemma SameResults(d: Dashboard, g: nat, s: Started, probing: bool)
    requires DashboardInv(d) && g in d.sweeps
    requires Sound(s) && (g == d.generation && s.sweep.stale ==> d.sweeps[g].sweep.stale)
    requires s.sweep.done == d.sweeps[g].sweep.done && s.hubs == d.sweeps[g].hubs
    requires probing == if g == d.generation then !s.ended else d.probing
    ensures DashboardInv(d.(sweeps := d.sweeps[g := s], probing := probing))
  {
    var r := d.(sweeps := d.sweeps[g := s], probing := probing);
    StepSound(d, r, g, s);
    assert SettledHubs(s) == SettledHubs(d.sweeps[g]);
  }

  lemma ProbeSettlesInv(d: Dashboard, g: nat, w: nat, payload: string)
    requires DashboardInv(d) && g in d.sweeps && w < |d.sweeps[g].sweep.workers|
    requires d.sweeps[g].sweep.workers[w].Probing? && d.sweeps[g].sweep.workers[w].target < |d.sweeps[g].hubs|
    ensures DashboardInv(Settled(d, g, w, payload))
  {
    var s := d.sweeps[g];
    SettleSound(s, w);
    var hub, settled := s.hubs[s.sweep.workers[w].target], s.(sweep := Settle(s.sweep, w));
    if IsCurrent(d, g) {
      NewResult(d, g, settled, hub, payload);
    } else {
      LateResult(d, g, settled);
    }
  }

  /** A step of an abandoned sweep, whose result is dropped. */
  lemma LateResult(d: Dashboard, g: nat, s: Started)
    requires DashboardInv(d) && g in d.sweeps && !IsCurrent(d, g) && Sound(s)
    ensures DashboardInv(d.(sweeps := d.sweeps[g := s]))
  {
    assert g != d.generation;
    StepSound(d, d.(sweeps := d.sweeps[g := s]), g, s);
  }

  /** A step of the current sweep that settles a hub and stores its result. */
  lemma NewResult(d: Dashboard, g: nat, s: Started, hub: string, payload: string)
    requires DashboardInv(d) && g in d.sweeps && IsCurrent(d, g)
    requires Sound(s) && s.sweep.stale == d.sweeps[g].sweep.stale && s.ended == d.sweeps[g].ended
    requires SettledHubs(s) == SettledHubs(d.sweeps[g]) + {hub}
    ensures DashboardInv(d.(sweeps := d.sweeps[g := s], probes := d.probes[hub := ProbeResult(g, payload)]))
  {
    StepSound(d, d.(sweeps := d.sweeps[g := s]), g, s);
    assert d.probes[hub := ProbeResult(g, payload)].Keys == SettledHubs(s);
  }

  lemma SettleSound(s: Started, w: nat)
    requires Sound(s) && w < |s.sweep.workers| && s.sweep.workers[w].Probing?
    ensures var r := s.(sweep := Settle(s.sweep, w));
      && Sound(r) && r.sweep.stale == s.sweep.stale
      && SettledHubs(r) == SettledHubs(s) + {s.hubs[s.sweep.workers[w].target]}
  {
    SettleInv(s.sweep, w);
    assert Settle(s.sweep, w).done == s.sweep.done + {s.sweep.workers[w].target};
  }

  lemma NextInv(d: Dashboard, e: Event)
    requires DashboardInv(d)
    ensures DashboardInv(Next(d, e))
  {
    match e
    case Visibility(visible) =>
      if visible {
        if d.visible {
          RunProbeSweepInv(d);
        } else {
          ShowInv(d);
          RunProbeSweepInv(d.(visible := true));
        }
      } else {
        StopSweepInv(d, false, d.homes);
      }
    case Homes(hubs) =>
      StopSweepInv(d, d.visible, hubs);
      if d.visible {
        RunProbeSweepInv(StopSweep(d).(homes := hubs));
      } else {
        StopSweepInv(StopSweep(d).(homes := hubs), false, hubs);
      }
    case WorkerResumes(g, w) =>
      if g in d.sweeps {
        WorkerResumesInv(d, g, w);
      }
    case ProbeSettles(g, w, payload) =>
      if g in d.sweeps && w < |d.sweeps[g].sweep.workers| && d.sweeps[g].sweep.workers[w].Probing?
        && d.sweeps[g].sweep.workers[w].target < |d.sweeps[g].hubs|
      {
        ProbeSettlesInv(d, g, w, payload);
      }
    case SweepEnds(g) =>
      SweepEndsInv(d, g);
  }

  lemma ShowInv(d: Dashboard)
    requires DashboardInv(d) && !d.visible
    ensures DashboardInv(d.(visible := true))
  {
  }

  lemma SweepEndsInv(d: Dashboard, g: nat)
    requires DashboardInv(d)
    ensures DashboardInv(Next(d, SweepEnds(g)))
  {
    if g in d.sweeps && AllLeft(d.sweeps[g].sweep) && !d.sweeps[g].ended {
      SameResults(d, g, d.sweeps[g].(ended := true), if d.generation == g then false else d.probing);
    }
  }

  lemma {:induction false} RunEventsInv(d: Dashboard, events: seq<Event>)
    requires DashboardInv(d)
    ensures DashboardInv(RunEvents(d, events))
    decreases |events|
  {
    if events == [] {
    } else {
      NextInv(d, events[0]);
      RunEventsInv(Next(d, events[0]), events[1..]);
    }
  }

  /** Over every interleaving of visibility changes, directory refreshes, worker steps and replies the
      result map only ever holds results of the most recently started sweep. */
  lemma DashboardIsSafe(visible: bool, homes: seq<string>, events: seq<Event>)
    ensures DashboardInv(RunEvents(Open(visible, homes), events))
  {
    var d := Dashboard(visible, homes, 0, 0, map[], false, map[]);
    if visible {
      RunProbeSweepInv(d);
    } else {
      StopSweepInv(d, false, homes);
    }
    RunEventsInv(Open(visible, homes), events);
  }

  /** When the newest sweep finishes while current, every hub of the directory has its result. */
  lemma FinishedSweepShowsAll(d: Dashboard)
    requires DashboardInv(d) && d.generation in d.sweeps && d.sweeps[d.generation].ended
    ensures d.probes.Keys == set i | 0 <= i < |d.sweeps[d.generation].hubs| :: d.sweeps[d.generation].hubs[i]
    ensures !d.probing
  {
    var started := d.sweeps[d.generation];
    var s := started.sweep;
    assert s.workers[0].Stopped?;
    forall t: nat | t < s.size ensures t in s.done {
      assert forall w :: 0 <= w < |s.workers| ==> !Holds(s.workers[w], t);
    }
    assert forall t :: t in s.done <==> 0 <= t < s.size;
  }

  /** An abandoned sweep never starts another probe. */
  lemma {:induction false} AbandonedNeverStarts(d: Dashboard, g: nat, events: seq<Event>)
    requires DashboardInv(d) && g in d.sweeps && g < d.generation
    ensures g in RunEvents(d, events).sweeps
    ensures RunEvents(d, events).sweeps[g].sweep.starts == d.sweeps[g].sweep.starts
    decreases |events|
  {
    if events == [] {
    } else {
      NextInv(d, events[0]);
      AbandonedStep(d, g, events[0]);
      AbandonedNeverStarts(Next(d, events[0]), g, events[1..]);
    }
  }

  lemma AbandonedStep(d: Dashboard, g: nat, e: Event)
    requires g in d.sweeps && g < d.generation
    ensures var r := Next(d, e);
      g in r.sweeps && g < r.generation && r.sweeps[g].sweep.starts == d.sweeps[g].sweep.starts
  {
  }

  // ----- What is shown, and that a sweep can finish

  /** The newest sweep is current exactly while the tab is shown with hubs, and it goes through these hubs;
      none of its workers has been lost. */
  ghost predicate Shown(d: Dashboard) {
    && (d.generation in d.sweeps <==> d.visible && d.homes != [])
    && (d.generation in d.sweeps ==>
          && d.sweeps[d.generation].hubs == d.homes
          && forall w :: 0 <= w < |d.sweeps[d.generation].sweep.workers| ==>
               !d.sweeps[d.generation].sweep.workers[w].Rejected?)
  }

  lemma UpdateShown(d: Dashboard)
    requires d.generation !in d.sweeps || (d.visible && d.homes != [])
    requires forall g :: g in d.sweeps ==> g <= d.generation
    ensures Shown(Update(d))
  {
  }

  lemma NextShown(d: Dashboard, e: Event)
    requires DashboardInv(d) && Shown(d)
    ensures Shown(Next(d, e))
  {
    match e
    case Visibility(visible) =>
      if visible {
        UpdateShown(d.(visible := true));
      }
    case Homes(hubs) => UpdateShown(StopSweep(d).(homes := hubs));
    case WorkerResumes(g, w) =>
    case ProbeSettles(g, w, payload) =>
    case SweepEnds(g) =>
  }

  lemma {:induction false} RunShown(d: Dashboard, events: seq<Event>)
    requires DashboardInv(d) && Shown(d)
    ensures DashboardInv(RunEvents(d, events)) && Shown(RunEvents(d, events))
    decreases |events|
  {
    if events == [] {
    } else {
      NextInv(d, events[0]);
      NextShown(d, events[0]);
      RunShown(Next(d, events[0]), events[1..]);
    }
  }

  /** Over every run, a sweep of the directory's hubs is current exactly while the tab is visible and the
      directory is not empty. */
  lemma ShownIsCurrent(visible: bool, homes: seq<string>, events: seq<Event>)
    ensures Shown(RunEvents(Open(visible, homes), events))
  {
    DashboardIsSafe(visible, homes, []);
    assert RunEvents(Open(visible, homes), []) == Open(visible, homes);
    UpdateShown(Dashboard(visible, homes, 0, 0, map[], false, map[]));
    RunShown(Open(visible, homes), events);
  }

  /** A reply is stored under its hub while its sweep is current, and otherwise dropped. */
  lemma ReplyStored(d: Dashboard, g: nat, w: nat, payload: string)
    requires DashboardInv(d) && g in d.sweeps && w < |d.sweeps[g].sweep.workers|
    requires d.sweeps[g].sweep.workers[w].Probing?
    ensures var target := d.sweeps[g].sweep.workers[w].target;
      && target < |d.sweeps[g].hubs|
      && Next(d, ProbeSettles(g, w, payload)).probes
           == if g == d.generation then d.probes[d.sweeps[g].hubs[target] := ProbeResult(g, payload)] else d.probes
  {
    assert Busy(d.sweeps[g].sweep.workers[w]);
  }

  function Work(worker: Worker): nat {
    match worker
    case Checking => 1
    case Probing(_) => 2
    case Stopped => 0
    case Rejected(_) => 0
  }

  function TotalWork(workers: seq<Worker>): nat {
    if workers == [] then 0 else Work(workers[0]) + TotalWork(workers[1..])
  }

  /** What is left to do: targets to start and settle, and loops to leave. */
  function Remaining(s: Sweep): nat
    requires s.next <= s.size
  {
    2 * (s.size - s.next) + TotalWork(s.workers)
  }

  lemma {:induction false} WorkUpdate(workers: seq<Worker>, w: nat, worker: Worker)
    requires w < |workers|
    ensures TotalWork(workers[w := worker]) + Work(workers[w]) == TotalWork(workers) + Work(worker)
  {
    if w == 0 {
      assert workers[0 := worker][1..] == workers[1..];
    } else {
      WorkUpdate(workers[1..], w - 1, worker);
      assert workers[w := worker][1..] == workers[1..][w - 1 := worker];
    }
  }

  /** Every worker that has not left its loop can take a step, and each step leaves less to do. */
  lemma StepsRemain(s: Sweep, w: nat)
    requires Inv(s) && w < |s.workers| && (s.workers[w].Checking? || s.workers[w].Probing?)
    ensures var t := if s.workers[w].Checking? then Resume(s, w, true) else Settle(s, w);
      t.next <= t.size && Remaining(t) < Remaining(s)
  {
    var t := if s.workers[w].Checking? then Resume(s, w, true) else Settle(s, w);
    WorkUpdate(s.workers, w, t.workers[w]);
    assert t.workers == s.workers[w := t.workers[w]];
  }

  /** Liveness: from every state with a current sweep, its workers and replies alone bring it to its end,
      with a result for every hub. */
  lemma {:induction false} SweepCanFinish(d: Dashboard) returns (events: seq<Event>)
    requires DashboardInv(d) && Shown(d) && d.visible && d.homes != []
    ensures forall e :: e in events ==> e.WorkerResumes? || e.ProbeSettles? || e.SweepEnds?
    ensures var t := RunEvents(d, events);
      && t.generation == d.generation && t.homes == d.homes && !t.probing
      && t.probes.Keys == set hub | hub in d.homes
    decreases Remaining(d.sweeps[d.generation].sweep)
  {
    var g := d.generation;
    var started := d.sweeps[g];
    if started.ended {
      events := [];
      FinishedShowsHomes(d);
    } else if AllLeft(started.sweep) {
      events := [SweepEnds(g)];
      NextInv(d, SweepEnds(g));
      NextShown(d, SweepEnds(g));
      FinishedShowsHomes(Next(d, SweepEnds(g)));
      assert RunEvents(d, [SweepEnds(g)]) == Next(d, SweepEnds(g));
    } else {
      var w :| 0 <= w < |started.sweep.workers| && !started.sweep.workers[w].Stopped?;
      var e := if started.sweep.workers[w].Checking? then WorkerResumes(g, w) else ProbeSettles(g, w, "");
      StepsRemain(started.sweep, w);
      NextInv(d, e);
      NextShown(d, e);
      SweepStepped(d, w, e);
      var rest := SweepCanFinish(Next(d, e));
      events := [e] + rest;
      assert events[1..] == rest;
    }
  }

  lemma SweepStepped(d: Dashboard, w: nat, e: Event)
    requires DashboardInv(d) && Shown(d) && d.visible && d.homes != []
    requires w < |d.sweeps[d.generation].sweep.workers| && !d.sweeps[d.generation].sweep.workers[w].Stopped?
    requires e == if d.sweeps[d.generation].sweep.workers[w].Checking? then WorkerResumes(d.generation, w)
                  else ProbeSettles(d.generation, w, "")
    ensures var s, t := d.sweeps[d.generation].sweep, Next(d, e);
      && t.generation == d.generation && t.generation in t.sweeps && t.visible && t.homes == d.homes
      && t.sweeps[t.generation].sweep
           == if s.workers[w].Checking? then Resume(s, w, true) else Settle(s, w)
  {
    if d.sweeps[d.generation].sweep.workers[w].Probing? {
      ReplyStored(d, d.generation, w, "");
    }
  }

  lemma FinishedShowsHomes(d: Dashboard)
    requires DashboardInv(d) && Shown(d) && d.generation in d.sweeps && d.sweeps[d.generation].ended
    ensures !d.probing && d.probes.Keys == set hub | hub in d.homes
  {
    FinishedSweepShowsAll(d);
    assert (set i | 0 <= i < |d.homes| :: d.homes[i]) == set hub | hub in d.homes;
  }
}
