/** One request of the editor from review to confirmation: when the editor is busy, what each reply does,
    when baselines turn stale, and that an undisturbed request is carried out and confirmed. */
module Requests {
  import opened CanonicalJson
  import opened Common
  import opened Confirmation
  import opened Editor
  import opened Overrides

  // ----- Busy

  /** Some request is under way, beyond its confirmation dialog. */
  ghost predicate UnderWay(s: State) {
    exists id :: id in s.flights && s.flights[id].phase != Confirming
  }

  lemma UnderWayOne(s: State, id: nat, f: Flight)
    requires s.flights == map[id := f]
    ensures UnderWay(s) <==> f.phase != Confirming
  {
    assert id in s.flights;
  }

  lemma NoneUnderWay(s: State)
    requires s.flights == map[]
    ensures !UnderWay(s)
  {
  }

  /** A step that leaves the requests and the busy flag alone. */
  lemma SameRequests(s: State, t: State)
    requires t.flights == s.flights && t.busy == s.busy && (s.busy <==> UnderWay(s))
    ensures t.busy <==> UnderWay(t)
  {
  }

  lemma NextBusy(s: State, e: Event)
    requires DraftHeld(s) && (s.busy <==> UnderWay(s)) && Usable(s, e)
    ensures Next(s, e).busy <==> UnderWay(Next(s, e))
  {
    match e
    case Review(id, operation) =>
      if id !in s.flights && MayReview(s, operation) {
        var t := Next(s, e);
        assert s.flights == map[];
        UnderWayOne(t, id, Flight(Propose(s, operation), Confirming));
      }
    case Decide(id, confirmed) =>
      if InPhase(s, id, Confirming) {
        DecideLaw(s, id, confirmed);
      }
    case StateReply(id, read) =>
      if InPhase(s, id, ReadingState) {
        StateReplyLaw(s, id, read);
      }
    case NodesReply(id, read) =>
      if id in s.flights && s.flights[id].phase.ReadingNodes? {
        NodesReplyLaw(s, id, read);
      }
    case WriteReply(id, accepted) =>
      if InPhase(s, id, Writing) {
        WriteReplyLaw(s, id, accepted);
      }
    case Refreshed(id) =>
      if InPhase(s, id, Refreshing) {
        RefreshedLaw(s, id);
      }
    case Effect =>
      ReconcileFrame(s);
      SameRequests(s, Reconcile(s));
    case _ => SameRequests(s, Next(s, e));
  }

  lemma {:induction false} RunsBusy(s: State, events: seq<Event>)
    requires DraftHeld(s) && (s.busy <==> UnderWay(s)) && UsableRun(s, events)
    ensures DraftHeld(Run(s, events)) && (Run(s, events).busy <==> UnderWay(Run(s, events)))
    decreases |events|
  {
    if events == [] {
    } else {
      NextBusy(s, events[0]);
      NextHolds(s, events[0]);
      RunsBusy(Next(s, events[0]), events[1..]);
    }
  }

  /** Over every run the screen allows, the editor is busy exactly while a request is under way, and there
      is at most one: controls are never disabled for a request that has ended. */
  lemma BusyIffUnderWay(profile: string, canonical: Canonical, events: seq<Event>)
    requires UsableRun(Start(profile, canonical), events)
    ensures var s := Run(Start(profile, canonical), events);
      (s.busy <==> UnderWay(s)) && forall i, j :: i in s.flights && j in s.flights ==> i == j
  {
    RunsBusy(Start(profile, canonical), events);
  }

  // ----- What each reply does

  /** The request goes on in its next phase, and nothing else changes. */
  predicate Advances(s: State, t: State, id: nat, phase: Phase)
    requires id in s.flights
  {
    t == s.(flights := map[id := Flight(s.flights[id].reviewed, phase)])
  }

  /** The request has ended: no request is left and the editor is not busy; draft, baselines, receipt and
      writes are as before. */
  predicate Ends(s: State, t: State, stale: bool) {
    t == s.(flights := map[], busy := false, stale := stale)
  }

  lemma DecideLaw(s: State, id: nat, confirmed: bool)
    requires DraftHeld(s) && InPhase(s, id, Confirming) && (s.busy <==> UnderWay(s))
    ensures var t := Next(s, Decide(id, confirmed));
      && (confirmed ==> Advances(s.(busy := true), t, id, ReadingState))
      && (!confirmed ==> Ends(s, t, s.stale))
      && (t.busy <==> UnderWay(t))
  {
    OnlyFlight(s, id);
    UnderWayOne(s, id, s.flights[id]);
    OneFlightLeft(s, id);
  }

  /** The first read shows an appliance that no longer guards writes, or another or no such profile. */
  predicate StateOutdated(read: StateRead, base: Record) {
    read.StateRead? &&
    if read.support == Guarded || read.support == TargetGuarded then
      read.serverId.Some? && read.config != Some(base)
    else true
  }

  predicate StateCurrent(read: StateRead, base: Record) {
    && read.StateRead? && (read.support == Guarded || read.support == TargetGuarded)
    && read.serverId.Some? && read.config == Some(base)
  }

  lemma StateReplyLaw(s: State, id: nat, read: StateRead)
    requires DraftHeld(s) && InPhase(s, id, ReadingState)
    ensures var t, base := Next(s, StateReply(id, read)), s.flights[id].reviewed.baseline.base;
      && (StateCurrent(read, base) ==> Advances(s, t, id, ReadingNodes(read)))
      && (!StateCurrent(read, base) ==> Ends(s, t, s.stale || StateOutdated(read, base)))
      && (t.busy <==> UnderWay(t))
  {
    OnlyFlight(s, id);
    OneFlightLeft(s, id);
  }

  /** The second read shows that the node is gone or has other overrides. */
  predicate NodesOutdated(read: NodesRead, overrides: Record) {
    read.NodesRead? && read.hash.Some? && read.overrides != Some(overrides)
  }

  predicate NodesCurrent(read: NodesRead, overrides: Record) {
    read.NodesRead? && read.hash.Some? && read.overrides == Some(overrides)
  }

  lemma NodesReplyLaw(s: State, id: nat, read: NodesRead)
    requires DraftHeld(s) && id in s.flights && s.flights[id].phase.ReadingNodes?
    ensures var t, r := Next(s, NodesReply(id, read)), s.flights[id].reviewed;
      && (NodesCurrent(read, r.baseline.overrides) ==>
            Advances(s.(writes := s.writes + [Write(r, s.flights[id].phase.read, read)]), t, id, Writing))
      && (!NodesCurrent(read, r.baseline.overrides) ==>
            Ends(s, t, s.stale || NodesOutdated(read, r.baseline.overrides)))
      && (t.busy <==> UnderWay(t))
  {
    OnlyFlight(s, id);
    OneFlightLeft(s, id);
  }

  lemma WriteReplyLaw(s: State, id: nat, accepted: bool)
    requires DraftHeld(s) && InPhase(s, id, Writing)
    ensures var t, r := Next(s, WriteReply(id, accepted)), s.flights[id].reviewed;
      && (accepted ==>
            var receipt := Receipt(Pending, r.operation, r.baseline.overrides, r.candidate, None);
            Advances(s.(receipt := Some(receipt)), t, id, Refreshing))
      && (!accepted ==> Ends(s, t, s.stale))
      && (t.busy <==> UnderWay(t))
  {
    OnlyFlight(s, id);
    OneFlightLeft(s, id);
  }

  lemma RefreshedLaw(s: State, id: nat)
    requires DraftHeld(s) && InPhase(s, id, Refreshing)
    ensures Ends(s, Next(s, Refreshed(id)), s.stale) && !UnderWay(Next(s, Refreshed(id)))
  {
    OnlyFlight(s, id);
    OneFlightLeft(s, id);
  }

  lemma OneFlightLeft(s: State, id: nat)
    requires id in s.flights && s.flights == map[id := s.flights[id]]
    ensures s.flights - {id} == map[]
    ensures forall phase ::
      s.flights[id := s.flights[id].(phase := phase)] == map[id := Flight(s.flights[id].reviewed, phase)]
    ensures forall t: State, phase :: t.flights == map[id := Flight(s.flights[id].reviewed, phase)] ==>
      (UnderWay(t) <==> phase != Confirming)
  {
    forall t: State, phase | t.flights == map[id := Flight(s.flights[id].reviewed, phase)]
      ensures UnderWay(t) <==> phase != Confirming
    {
      UnderWayOne(t, id, Flight(s.flights[id].reviewed, phase));
    }
  }

  /** A reply for no request in its phase changes nothing. */
  predicate Stray(s: State, e: Event) {
    match e
    case Decide(id, _) => !InPhase(s, id, Confirming)
    case StateReply(id, _) => !InPhase(s, id, ReadingState)
    case NodesReply(id, _) => id !in s.flights || !s.flights[id].phase.ReadingNodes?
    case WriteReply(id, _) => !InPhase(s, id, Writing)
    case Refreshed(id) => !InPhase(s, id, Refreshing)
    case _ => false
  }

  lemma StrayIsIgnored(s: State, e: Event)
    requires Stray(s, e)
    ensures Next(s, e) == s
  {
  }

  // ----- Staleness

  /** What turns the baselines stale: a poll of other values that may not be adopted, or a read that shows
      other values. */
  predicate TurnsStale(s: State, e: Event) {
    match e
    case Effect => s.polled != s.baseline && !ConfirmsWrite(s) && (Dirty(s) || IsPending(s))
    case StateReply(id, read) =>
      InPhase(s, id, ReadingState) && StateOutdated(read, s.flights[id].reviewed.baseline.base)
    case NodesReply(id, read) =>
      id in s.flights && s.flights[id].phase.ReadingNodes?
      && NodesOutdated(read, s.flights[id].reviewed.baseline.overrides)
    case _ => false
  }

  /** What makes the polled values the baselines: the user's choice, the poll that confirms a write, or any
      poll of other values while the draft is clean and nothing is pending. */
  predicate Adopts(s: State, e: Event) {
    || e.Adopt?
    || (e.Effect? && s.polled != s.baseline && (ConfirmsWrite(s) || (!Dirty(s) && !IsPending(s))))
  }

  /** Exactly those events change staleness, and only an adoption changes the baselines; it leaves a clean
      draft over the polled values, with which the effect has nothing more to do. */
  lemma StaleIff(s: State, e: Event)
    ensures var t := Next(s, e);
      && (t.stale <==> !Adopts(s, e) && (s.stale || TurnsStale(s, e)))
      && (Adopts(s, e) ==> t.baseline == t.polled == s.polled && !Dirty(t) && Settled(t))
      && (!Adopts(s, e) ==> t.baseline == s.baseline)
      && (!Adopts(s, e) && !e.Patch? ==> t.draft == s.draft)
  {
    match e
    case StateReply(id, read) =>
      if InPhase(s, id, ReadingState) {
        StateReplyStale(s, id, read);
      }
    case NodesReply(id, read) =>
      if id in s.flights && s.flights[id].phase.ReadingNodes? {
        NodesReplyStale(s, id, read);
      }
    case _ =>
  }

  lemma StateReplyStale(s: State, id: nat, read: StateRead)
    requires id in s.flights
    ensures var t := AfterState(s, id, read);
      && (t.stale <==> s.stale || StateOutdated(read, s.flights[id].reviewed.baseline.base))
      && t.baseline == s.baseline && t.draft == s.draft
  {
  }

  lemma NodesReplyStale(s: State, id: nat, read: NodesRead)
    requires id in s.flights && s.flights[id].phase.ReadingNodes?
    ensures var t := AfterNodes(s, id, read);
      && (t.stale <==> s.stale || NodesOutdated(read, s.flights[id].reviewed.baseline.overrides))
      && t.baseline == s.baseline && t.draft == s.draft
  {
  }

  /** The user's two ways to end an outcome: an edit changes exactly the patched fields, an adoption takes
      over the polled values; both discard the receipt and leave requests and writes alone. */
  lemma UserActions(s: State, patch: Record, k: string)
    ensures var t := Next(s, Patch(patch));
      && At(t.draft, k) == (if k in patch then patch[k] else At(s.draft, k))
      && t == s.(draft := t.draft, receipt := None)
    ensures var t := Next(s, Adopt);
      && At(t.draft, k) == (if k in RecordOf(At(s.polled.overrides, s.profile))
                            then RecordOf(At(s.polled.overrides, s.profile))[k] else At(s.polled.base, k))
      && t == s.(baseline := s.polled, draft := t.draft, stale := false, receipt := None)
  {
  }

  // ----- An undisturbed request

  /** The operation has something to do: unsaved edits, an override of the profile, or any override. */
  predicate HasWork(s: State, operation: Operation) {
    match operation
    case SaveProfile => Dirty(s)
    case ResetProfile => LocalProfileOverride(s) != map[]
    case ResetAll => InferredLocalOverrides(s) != map[]
  }

  /** Nothing is under way or pending, and the baselines are what the appliance reports. */
  ghost predicate AtRest(s: State, a: Appliance) {
    && s.flights == map[] && !s.busy && !s.stale && !IsPending(s)
    && s.polled == s.baseline == Reported(a)
  }

  function Begun(a: Appliance, operation: Operation): seq<Event> {
    [Review(0, operation), Decide(0, true), StateReply(0, FreshReply(a.base))]
  }

  lemma RequestIsBegun(s: State, a: Appliance, operation: Operation)
    requires AtRest(s, a) && HasWork(s, operation)
    ensures Run(s, Begun(a, operation))
      == s.(busy := true, flights := map[0 := Flight(Propose(s, operation), ReadingNodes(FreshReply(a.base)))])
  {
    var r := Propose(s, operation);
    RunThree(s, Review(0, operation), Decide(0, true), StateReply(0, FreshReply(a.base)));
    ReviewStep(s, operation);
    StateStep(s.(busy := true, flights := map[0 := Flight(r, ReadingState)]), r);
  }

  /** The request is reviewed and confirmed, and both reads find the reviewed values. */
  function Sent(a: Appliance, operation: Operation): seq<Event> {
    Begun(a, operation) + [NodesReply(0, FreshNodes(a))]
  }

  /** The write is accepted, the reported values are read again, and a poll shows the result. */
  function Answered(result: Canonical): seq<Event> {
    [WriteReply(0, true), Refreshed(0), Poll(result)]
  }

  /** An undisturbed request with something to do is carried out: its proposal is written once, on fresh
      reads. */
  lemma RequestIsSent(s: State, a: Appliance, operation: Operation)
    requires AtRest(s, a) && HasWork(s, operation)
    ensures var r := Propose(s, operation);
      && UsableRun(s, Sent(a, operation))
      && Run(s, Sent(a, operation))
           == s.(busy := true, flights := map[0 := Flight(r, Writing)],
                 writes := s.writes + [Write(r, FreshReply(a.base), FreshNodes(a))])
  {
    var r := Propose(s, operation);
    var begun := Begun(a, operation);
    RunConcat(s, begun, [NodesReply(0, FreshNodes(a))]);
    RequestIsBegun(s, a, operation);
    NodesStep(Run(s, begun), r, FreshReply(a.base), a);
    assert Run(Run(s, begun), [NodesReply(0, FreshNodes(a))]) == Next(Run(s, begun), NodesReply(0, FreshNodes(a)));
    assert Sent(a, operation) == [Review(0, operation)] + Sent(a, operation)[1..];
    UsableFirst(s, Review(0, operation), Sent(a, operation)[1..]);
  }

  /** The reply leaves the write pending with no request under way, and the poll brings the result. */
  lemma RequestIsAnswered(s: State, r: Reviewed, result: Canonical)
    requires s.flights == map[0 := Flight(r, Writing)] && s.busy
    ensures UsableRun(s, Answered(result))
    ensures Run(s, Answered(result))
      == s.(busy := false, flights := map[], receipt := Some(PendingReceipt(r)), polled := result)
  {
    RunThree(s, WriteReply(0, true), Refreshed(0), Poll(result));
    WriteStep(s, r);
    RefreshStep(Next(s, WriteReply(0, true)), r);
    NoActionsUsable(s, Answered(result));
  }

  /** And it is confirmed exactly when what it inherits is what was shown, provided it proposed a change:
      always for a reset, and for a save of edited fields that loses none. The editor then shows the
      appliance's new settings, clean and at rest. */
  lemma RequestIsConfirmed(s: State, a: Appliance, operation: Operation)
    requires AtRest(s, a) && HasWork(s, operation)
    requires operation == SaveProfile ==> Edited(s) && !Loses(s)
    ensures var r := Propose(s, operation);
      var b := Patched(a, r.patch);
      var t := Run(s, Sent(a, operation) + Answered(Reported(b)) + [Effect]);
      && UsableRun(s, Sent(a, operation) + Answered(Reported(b)) + [Effect])
      && t.writes == s.writes + [Write(r, FreshReply(a.base), FreshNodes(a))]
      && t.receipt.Some? && (t.receipt.value.status == Confirmed <==> StillInherits(r, s.profile, a.parent))
      && (StillInherits(r, s.profile, a.parent) ==> AtRest(t, b) && !Dirty(t))
  {
    var r := Propose(s, operation);
    var result := Reported(Patched(a, r.patch));
    RequestIsSent(s, a, operation);
    var u := Run(s, Sent(a, operation));
    RequestIsAnswered(u, r, result);
    RunConcat(s, Sent(a, operation) + Answered(result), [Effect]);
    RunConcat(s, Sent(a, operation), Answered(result));
    UsableRuns(s, Sent(a, operation), Answered(result));
    UsableRuns(s, Sent(a, operation) + Answered(result), [Effect]);
    var v := Run(u, Answered(result));
    assert Run(v, [Effect]) == Next(v, Effect) == Reconcile(v);
    ProposalIsReported(s, operation, a);
    ReviewIsChange(s, operation);
    PendingEnds(v, r, result);
  }

  lemma PendingEnds(s: State, r: Reviewed, result: Canonical)
    requires s.receipt == Some(PendingReceipt(r)) && s.polled == result && s.flights == map[] && !s.busy
    requires r.candidate != s.baseline.overrides
    ensures var t := Reconcile(s);
      && t.writes == s.writes && t.receipt.Some?
      && (t.receipt.value.status == Confirmed <==> result.overrides == r.candidate)
      && (result.overrides == r.candidate ==>
            && t.flights == map[] && !t.busy && !t.stale && !IsPending(t) && !Dirty(t)
            && t.polled == t.baseline == result)
  {
  }

  lemma {:induction false} UsableRuns(s: State, a: seq<Event>, b: seq<Event>)
    requires UsableRun(s, a) && UsableRun(Run(s, a), b)
    ensures UsableRun(s, a + b)
    decreases |a|
  {
    if a == [] {
      assert a + b == b;
    } else {
      assert (a + b)[0] == a[0] && (a + b)[1..] == a[1..] + b;
      UsableRuns(Next(s, a[0]), a[1..], b);
    }
  }
}
