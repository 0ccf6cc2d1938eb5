/** The light-settings editor of one profile of one node: baselines, draft, staleness and receipts,
    racing against polls of canonical state and the replies of its own requests. */
module Editor {
  import opened CanonicalJson
  import opened Common
  import opened Overrides

  datatype Status = Pending | Confirmed | Conflict

  datatype Operation = SaveProfile | ResetProfile | ResetAll

  datatype Receipt = Receipt(
    status: Status, operation: Operation, before: Record, candidate: Record, after: Option<Record>)

  /** Settings, overrides of the node, overrides of its parent. */
  datatype Canonical = Canonical(base: Record, overrides: Record, parent: Record)

  /** What one request closes over when it is reviewed: the baselines of that render and the proposal. */
  datatype Reviewed = Reviewed(operation: Operation, baseline: Canonical, candidate: Record, patch: Option<Record>)

  datatype Support = Unsupported | Unguarded | Guarded | TargetGuarded

  datatype Phase = Confirming | ReadingState | ReadingNodes(read: StateRead) | Writing | Refreshing

  /** What the first read reported: support, durable server identity, the profile's settings. */
  datatype StateRead = StateFailed | StateRead(support: Support, serverId: Option<string>, config: Option<Record>)

  /** What the second read reported: freshness hash and the node's overrides. */
  datatype NodesRead = NodesFailed | NodesRead(hash: Option<string>, overrides: Option<Record>)

  datatype Flight = Flight(reviewed: Reviewed, phase: Phase)

  datatype Write = Write(reviewed: Reviewed, state: StateRead, nodes: NodesRead)

  datatype State = State(
    profile: string,
    polled: Canonical,
    baseline: Canonical,
    draft: Record,
    stale: bool,
    busy: bool,
    receipt: Option<Receipt>,
    flights: map<nat, Flight>,
    writes: seq<Write>)

  datatype Event =
    | Poll(canonical: Canonical)
    | Effect
    | Patch(patch: Record)
    | Adopt
    | Review(id: nat, operation: Operation)
    | Decide(id: nat, confirmed: bool)
    | StateReply(id: nat, stateRead: StateRead)
    | NodesReply(id: nat, nodesRead: NodesRead)
    | WriteReply(id: nat, accepted: bool)
    | Refreshed(id: nat)

  // ----- Values derived on every render

  function DraftOf(canonical: Canonical, profile: string): Record {
    EffectiveProfileConfig(canonical.base, RecordOf(At(canonical.overrides, profile)))
  }

  predicate Dirty(s: State) {
    s.draft != DraftOf(s.baseline, s.profile)
  }

  predicate IsPending(s: State) {
    s.receipt.Some? && s.receipt.value.status == Pending
  }

  function ParentOverride(s: State): Record {
    RecordOf(At(s.baseline.parent, s.profile))
  }

  function InferredLocalOverrides(s: State): Record {
    InferredLocal(s.baseline.overrides, s.baseline.parent)
  }

  function LocalProfileOverride(s: State): Record {
    RecordOf(At(InferredLocalOverrides(s), s.profile))
  }

  function CandidateLocal(s: State): Option<Record> {
    BuildInheritedProfileOverride(s.baseline.base, s.draft, LocalProfileOverride(s), ParentOverride(s))
  }

  /** The overrides with the profile's entry replaced, or given back to the parent. */
  function CandidateOverrides(baseline: Canonical, profile: string, candidate: Option<Record>): Record {
    WithSelectedProfileOverride(baseline.overrides, profile,
      CandidateEffectiveOverride(candidate, RecordOf(At(baseline.parent, profile))))
  }

  /** The entry a patch carries: null gives it back to the parent. */
  function PatchEntry(candidate: Option<Record>): Meaning {
    if candidate.Some? then MObj(candidate.value) else MNull
  }

  function Propose(s: State, operation: Operation): Reviewed {
    match operation
    case SaveProfile =>
      Reviewed(operation, s.baseline, CandidateOverrides(s.baseline, s.profile, CandidateLocal(s)),
        Some(map[s.profile := PatchEntry(CandidateLocal(s))]))
    case ResetProfile =>
      Reviewed(operation, s.baseline, CandidateOverrides(s.baseline, s.profile, None),
        Some(map[s.profile := PatchEntry(None)]))
    case ResetAll =>
      Reviewed(operation, s.baseline, s.baseline.parent, None)
  }

  predicate MayReview(s: State, operation: Operation) {
    && !s.busy && !s.stale && !IsPending(s)
    && match operation
       case SaveProfile => Dirty(s)
       case ResetProfile => LocalProfileOverride(s) != map[]
       case ResetAll => InferredLocalOverrides(s) != map[]
  }

  // ----- The reconciliation effect

  function AdoptPolled(s: State): State {
    s.(baseline := s.polled, draft := DraftOf(s.polled, s.profile), stale := false)
  }

  /** One run of the effect. */
  function Reconcile(s: State): State {
    if s.polled == s.baseline then s
    else if IsPending(s) && s.polled.overrides == s.receipt.value.candidate then
      AdoptPolled(s).(receipt := Some(s.receipt.value.(status := Confirmed, after := Some(s.polled.overrides))))
    else if !Dirty(s) && !IsPending(s) then AdoptPolled(s)
    else if IsPending(s) && s.polled.overrides != s.baseline.overrides then
      s.(stale := true,
         receipt := Some(s.receipt.value.(status := Conflict, after := Some(s.polled.overrides))))
    else s.(stale := true)
  }

  ghost predicate Settled(s: State) {
    Reconcile(s) == s
  }

  /** The effect settles after at most two runs. */
  lemma EffectSettles(s: State)
    ensures Settled(Reconcile(Reconcile(s)))
  {
    EffectSettlesOnce(s);
    EffectSettlesOnce(Reconcile(s));
  }

  /** One run settles unless it reports a conflict while the draft is clean: the conflict ends the
      pending receipt, so the next run adopts the polled state after all. */
  lemma EffectSettlesOnce(s: State)
    ensures Settled(Reconcile(s)) <==>
      !(s.polled != s.baseline && IsPending(s) && !Dirty(s)
        && s.polled.overrides != s.receipt.value.candidate && s.polled.overrides != s.baseline.overrides)
    ensures IsPending(s) && s.polled != s.baseline && !Settled(Reconcile(s)) ==> !IsPending(Reconcile(s))
  {
  }

  /** Once the effect has settled, a state that is not stale has all three baselines equal to the
      newest polled values. */
  lemma SettledIsCurrent(s: State)
    requires Settled(s) && !s.stale
    ensures s.baseline == s.polled
  {
  }

  // ----- The apply function

  function SupportsGuards(support: Support): bool {
    support == Guarded || support == TargetGuarded
  }

  function Close(s: State, id: nat): State {
    s.(busy := false, flights := s.flights - {id})
  }

  function AfterState(s: State, id: nat, read: StateRead): State
    requires id in s.flights
  {
    if read.StateFailed? then Close(s, id)
    else if !SupportsGuards(read.support) then Close(s, id).(stale := true)
    else if read.serverId.None? then Close(s, id)
    else if read.config.None? || read.config.value != s.flights[id].reviewed.baseline.base then
      Close(s, id).(stale := true)
    else s.(flights := s.flights[id := s.flights[id].(phase := ReadingNodes(read))])
  }

  function AfterNodes(s: State, id: nat, read: NodesRead): State
    requires id in s.flights && s.flights[id].phase.ReadingNodes?
  {
    var flight := s.flights[id];
    if read.NodesFailed? || read.hash.None? then Close(s, id)
    else if read.overrides.None? || read.overrides.value != flight.reviewed.baseline.overrides then
      Close(s, id).(stale := true)
    else s.(flights := s.flights[id := flight.(phase := Writing)],
            writes := s.writes + [Write(flight.reviewed, flight.phase.read, read)])
  }

  function PendingReceipt(reviewed: Reviewed): Receipt {
    Receipt(Pending, reviewed.operation, reviewed.baseline.overrides, reviewed.candidate, None)
  }

  function AfterWrite(s: State, id: nat, accepted: bool): State
    requires id in s.flights
  {
    var reviewed := s.flights[id].reviewed;
    if !accepted then Close(s, id)
    else s.(receipt := Some(PendingReceipt(reviewed)),
            flights := s.flights[id := s.flights[id].(phase := Refreshing)])
  }

  predicate InPhase(s: State, id: nat, phase: Phase) {
    id in s.flights && s.flights[id].phase == phase
  }

  function Next(s: State, e: Event): State {
    match e
    case Poll(canonical) => s.(polled := canonical)
    case Effect => Reconcile(s)
    case Patch(patch) => s.(draft := s.draft + patch, receipt := None)
    case Adopt => AdoptPolled(s).(receipt := None)
    case Review(id, operation) =>
      if id !in s.flights && MayReview(s, operation) then
        s.(flights := s.flights[id := Flight(Propose(s, operation), Confirming)])
      else s
    case Decide(id, confirmed) =>
      if !InPhase(s, id, Confirming) then s
      else if confirmed then s.(busy := true, flights := s.flights[id := s.flights[id].(phase := ReadingState)])
      else s.(flights := s.flights - {id})
    case StateReply(id, read) => if InPhase(s, id, ReadingState) then AfterState(s, id, read) else s
    case NodesReply(id, read) =>
      if id in s.flights && s.flights[id].phase.ReadingNodes? then AfterNodes(s, id, read) else s
    case WriteReply(id, accepted) => if InPhase(s, id, Writing) then AfterWrite(s, id, accepted) else s
    case Refreshed(id) => if InPhase(s, id, Refreshing) then Close(s, id) else s
  }

  function Run(s: State, events: seq<Event>): State
    decreases |events|
  {
    if events == [] then s else Run(Next(s, events[0]), events[1..])
  }

  function Start(profile: string, canonical: Canonical): State {
    State(profile, canonical, canonical, DraftOf(canonical, profile), false, false, None, map[], [])
  }

  lemma {:induction false} RunConcat(s: State, a: seq<Event>, b: seq<Event>)
    ensures Run(s, a + b) == Run(Run(s, a), b)
    decreases |a|
  {
    if a == [] {
      assert a + b == b;
    } else {
      assert (a + b)[1..] == a[1..] + b;
      RunConcat(Next(s, a[0]), a[1..], b);
    }
  }

  /** Some run leads to the state. */
  ghost predicate Reachable(s: State) {
    exists canonical, events :: s == Run(Start(s.profile, canonical), events)
  }

  lemma NextReachable(s: State, e: Event)
    requires Reachable(s)
    ensures Reachable(Next(s, e))
  {
    var canonical, events :| s == Run(Start(s.profile, canonical), events);
    RunConcat(Start(s.profile, canonical), events, [e]);
    assert Run(s, [e]) == Next(s, e);
    NextKeepsProfile(s, e);
    assert Next(s, e) == Run(Start(Next(s, e).profile, canonical), events + [e]);
  }

  lemma NextKeepsProfile(s: State, e: Event)
    ensures Next(s, e).profile == s.profile
  {
  }

  lemma StartReachable(profile: string, canonical: Canonical)
    ensures Reachable(Start(profile, canonical))
  {
    assert Run(Start(profile, canonical), []) == Start(profile, canonical);
  }

  // ----- Safety over all runs

  /** A request made by a review of the profile: what it shows is what its patch asks for. */
  ghost predicate IsProposal(r: Reviewed, profile: string) {
    if r.operation == ResetAll then r.patch.None? && r.candidate == r.baseline.parent
    else
      && r.patch.Some? && r.patch.value.Keys == {profile}
      && (r.patch.value[profile] == MNull
          || (r.patch.value[profile].MObj? && r.patch.value[profile].fields != map[]))
      && r.candidate == CandidateOverrides(r.baseline, profile, EntryOf(r.patch.value[profile]))
  }

  function EntryOf(entry: Meaning): Option<Record> {
    if entry.MObj? then Some(entry.fields) else None
  }

  lemma ProposeIsProposal(s: State, operation: Operation)
    ensures IsProposal(Propose(s, operation), s.profile)
  {
    if operation == SaveProfile {
      StoredIff(s.baseline.base, s.draft, LocalProfileOverride(s), ParentOverride(s));
      EntryPatched(s.profile, CandidateLocal(s));
    } else {
      EntryPatched(s.profile, None);
    }
  }

  lemma EntryPatched(profile: string, candidate: Option<Record>)
    requires candidate != Some(map[])
    ensures var patch: Record := map[profile := PatchEntry(candidate)];
      && patch.Keys == {profile} && EntryOf(patch[profile]) == candidate
      && (patch[profile] == MNull || (patch[profile].MObj? && patch[profile].fields != map[]))
  {
  }

  /** A reviewed request whose fresh reads both succeeded, under guards and a durable identity, and
      equalled the reviewed baselines. */
  ghost predicate Fresh(w: Write, profile: string) {
    && IsProposal(w.reviewed, profile)
    && w.state.StateRead? && SupportsGuards(w.state.support) && w.state.serverId.Some?
    && w.state.config == Some(w.reviewed.baseline.base)
    && w.nodes.NodesRead? && w.nodes.hash.Some?
    && w.nodes.overrides == Some(w.reviewed.baseline.overrides)
  }

  ghost predicate FlightSound(f: Flight, profile: string) {
    && IsProposal(f.reviewed, profile)
    && (f.phase.ReadingNodes? ==>
          && f.phase.read.StateRead? && SupportsGuards(f.phase.read.support) && f.phase.read.serverId.Some?
          && f.phase.read.config == Some(f.reviewed.baseline.base))
  }

  ghost predicate WriteFor(s: State, reviewed: Reviewed) {
    exists i :: 0 <= i < |s.writes| && s.writes[i].reviewed == reviewed
  }

  /** The receipt is that of the write, whatever has become of it. */
  predicate StandsFor(r: Receipt, w: Write) {
    r == PendingReceipt(w.reviewed).(status := r.status, after := r.after)
  }

  /** A receipt stands for a dispatched write, and its outcome agrees with the value it recorded. */
  ghost predicate ReceiptSound(s: State) {
    s.receipt.Some? ==>
      var r := s.receipt.value;
      && (exists i :: 0 <= i < |s.writes| && StandsFor(r, s.writes[i]))
      && (r.status == Pending <==> r.after.None?)
      && (r.status == Confirmed ==> r.after == Some(r.candidate))
      && (r.status == Conflict ==> r.after.Some? && r.after.value != r.candidate)
  }

  ghost predicate Inv(s: State) {
    && (forall i :: 0 <= i < |s.writes| ==> Fresh(s.writes[i], s.profile))
    && (forall id :: id in s.flights ==> FlightSound(s.flights[id], s.profile))
    && (forall id :: id in s.flights && (s.flights[id].phase.Writing? || s.flights[id].phase.Refreshing?) ==>
          WriteFor(s, s.flights[id].reviewed))
    && ReceiptSound(s)
  }

  /** Flights that changed nothing but their reading phase, or went away, stay sound. */
  lemma SameWritesKeepInv(s: State, t: State)
    requires Inv(s) && t.writes == s.writes && t.profile == s.profile
    requires t.receipt == s.receipt || t.receipt.None?
    requires forall id :: id in t.flights ==> FlightSound(t.flights[id], s.profile)
    requires forall id :: id in t.flights && (t.flights[id].phase.Writing? || t.flights[id].phase.Refreshing?) ==>
      WriteFor(s, t.flights[id].reviewed)
    ensures Inv(t)
  {
    forall reviewed | WriteFor(s, reviewed) ensures WriteFor(t, reviewed) {
    }
  }

  /** The pending receipt is confirmed by an equal polled value, and conflicts with any other. */
  ghost predicate SettlesReceipt(s: State, t: State) {
    && IsPending(s)
    && var confirmed := s.polled.overrides == s.receipt.value.candidate;
       t.receipt == Some(s.receipt.value.(
         status := if confirmed then Confirmed else Conflict, after := Some(s.polled.overrides)))
  }

  /** The effect touches neither flights nor writes, and only settles a pending receipt. */
  lemma ReconcileFrame(s: State)
    ensures var t := Reconcile(s);
      && t.profile == s.profile && t.flights == s.flights && t.writes == s.writes
      && (t.receipt == s.receipt || SettlesReceipt(s, t))
  {
  }

  lemma ReconcileKeepsInv(s: State)
    requires Inv(s)
    ensures Inv(Reconcile(s))
  {
    var t := Reconcile(s);
    ReconcileFrame(s);
    SettledReceiptKeepsInv(s, t);
  }

  lemma SettledReceiptKeepsInv(s: State, t: State)
    requires Inv(s) && t.profile == s.profile && t.flights == s.flights && t.writes == s.writes
    requires t.receipt == s.receipt || SettlesReceipt(s, t)
    ensures Inv(t)
  {
    forall reviewed | WriteFor(s, reviewed) ensures WriteFor(t, reviewed) {
    }
    if s.receipt.Some? && t.receipt.Some? {
      var i :| 0 <= i < |s.writes| && StandsFor(s.receipt.value, s.writes[i]);
      assert StandsFor(t.receipt.value, t.writes[i]);
    }
  }

  lemma WriteReplyKeepsInv(s: State, id: nat, accepted: bool)
    requires Inv(s) && InPhase(s, id, Writing)
    ensures Inv(AfterWrite(s, id, accepted))
  {
    if accepted {
      AppliedKeepsInv(s, AfterWrite(s, id, true), id);
    } else {
      SameWritesKeepInv(s, AfterWrite(s, id, false));
    }
  }

  lemma AppliedKeepsInv(s: State, t: State, id: nat)
    requires Inv(s) && InPhase(s, id, Writing)
    requires t.writes == s.writes && t.profile == s.profile
    requires t.flights == s.flights[id := s.flights[id].(phase := Refreshing)]
    requires t.receipt == Some(PendingReceipt(s.flights[id].reviewed))
    ensures Inv(t)
  {
    SameWritesKeepInv(s, t.(receipt := s.receipt));
    var i :| 0 <= i < |s.writes| && s.writes[i].reviewed == s.flights[id].reviewed;
    assert StandsFor(t.receipt.value, t.writes[i]);
    forall reviewed | WriteFor(s, reviewed) ensures WriteFor(t, reviewed) {
    }
  }

  lemma NodesReplyKeepsInv(s: State, id: nat, read: NodesRead)
    requires Inv(s) && id in s.flights && s.flights[id].phase.ReadingNodes?
    ensures Inv(AfterNodes(s, id, read))
  {
    var t := AfterNodes(s, id, read);
    if t.writes == s.writes {
      SameWritesKeepInv(s, t);
    } else {
      var w := Write(s.flights[id].reviewed, s.flights[id].phase.read, read);
      assert FlightSound(s.flights[id], s.profile);
      DispatchKeepsInv(s, t, id, w);
    }
  }

  lemma DispatchKeepsInv(s: State, t: State, id: nat, w: Write)
    requires Inv(s) && id in s.flights && Fresh(w, s.profile) && w.reviewed == s.flights[id].reviewed
    requires t == s.(flights := s.flights[id := s.flights[id].(phase := Writing)], writes := s.writes + [w])
    ensures Inv(t)
  {
    assert t.writes[|s.writes|] == w;
    assert WriteFor(t, w.reviewed);
    forall reviewed | WriteFor(s, reviewed) ensures WriteFor(t, reviewed) {
      var i :| 0 <= i < |s.writes| && s.writes[i].reviewed == reviewed;
      assert t.writes[i] == s.writes[i];
    }
    if s.receipt.Some? {
      var i :| 0 <= i < |s.writes| && StandsFor(s.receipt.value, s.writes[i]);
      assert t.writes[i] == s.writes[i];
    }
  }

  /** The first read closes its flight or moves it on to the second read with a fresh state. */
  lemma StateReplyFrame(s: State, id: nat, read: StateRead)
    requires InPhase(s, id, ReadingState)
    ensures var t := AfterState(s, id, read);
      && t.profile == s.profile && t.writes == s.writes && t.receipt == s.receipt
      && (t.flights == s.flights - {id}
          || (&& t.flights == s.flights[id := Flight(s.flights[id].reviewed, ReadingNodes(read))]
              && read.StateRead? && SupportsGuards(read.support) && read.serverId.Some?
              && read.config == Some(s.flights[id].reviewed.baseline.base)))
  {
  }

  lemma StateReplyKeepsInv(s: State, id: nat, read: StateRead)
    requires Inv(s) && InPhase(s, id, ReadingState)
    ensures Inv(AfterState(s, id, read))
  {
    var t := AfterState(s, id, read);
    StateReplyFrame(s, id, read);
    forall k | k in t.flights ensures FlightSound(t.flights[k], s.profile) {
      assert FlightSound(s.flights[k], s.profile);
    }
    SameWritesKeepInv(s, t);
  }

  lemma ReviewKeepsInv(s: State, id: nat, operation: Operation)
    requires Inv(s)
    ensures Inv(Next(s, Review(id, operation)))
  {
    ProposeIsProposal(s, operation);
    var t := Next(s, Review(id, operation));
    if t != s {
      FlightKeepsInv(s, t, id, Flight(Propose(s, operation), Confirming));
    }
  }

  /** A sound flight that has not been written yet joins the others. */
  lemma FlightKeepsInv(s: State, t: State, id: nat, f: Flight)
    requires Inv(s) && FlightSound(f, s.profile) && !f.phase.Writing? && !f.phase.Refreshing?
    requires t == s.(flights := s.flights[id := f])
    ensures Inv(t)
  {
    SameWritesKeepInv(s, t);
  }

  lemma NextKeepsInv(s: State, e: Event)
    requires Inv(s)
    ensures Inv(Next(s, e))
  {
    match e
    case Effect => ReconcileKeepsInv(s);
    case Review(id, operation) => ReviewKeepsInv(s, id, operation);
    case StateReply(id, read) =>
      if InPhase(s, id, ReadingState) {
        StateReplyKeepsInv(s, id, read);
      }
    case NodesReply(id, read) =>
      if id in s.flights && s.flights[id].phase.ReadingNodes? {
        NodesReplyKeepsInv(s, id, read);
      }
    case WriteReply(id, accepted) =>
      if InPhase(s, id, Writing) {
        WriteReplyKeepsInv(s, id, accepted);
      }
    case _ => SameWritesKeepInv(s, Next(s, e));
  }

  /** Over every run: each dispatched write had both fresh reads equal to its reviewed baselines, and
      each receipt stands for such a write and is confirmed or conflicting as recorded. */
  lemma {:induction false} RunsAreSafe(s: State, events: seq<Event>)
    requires Inv(s)
    ensures Inv(Run(s, events))
    decreases |events|
  {
    if events == [] {
    } else {
      NextKeepsInv(s, events[0]);
      RunsAreSafe(Next(s, events[0]), events[1..]);
    }
  }

  lemma EditorIsSafe(profile: string, canonical: Canonical, events: seq<Event>)
    ensures Inv(Run(Start(profile, canonical), events))
  {
    RunsAreSafe(Start(profile, canonical), events);
  }

  /** A receipt becomes confirmed only against a polled value equal to its candidate, and conflicting
      only against one that differs from both its candidate and the baseline; nothing else ends it
      but an edit, an adoption or a newer write. */
  lemma ReceiptTransitions(s: State, e: Event)
    ensures var t := Next(s, e);
      s.receipt.Some? && t.receipt.Some? && t.receipt != s.receipt && !e.WriteReply? ==>
        && e.Effect? && s.receipt.value.status == Pending
        && t.receipt.value.candidate == s.receipt.value.candidate && t.receipt.value.before == s.receipt.value.before
        && (t.receipt.value.status == Confirmed <==> s.polled.overrides == s.receipt.value.candidate)
        && (t.receipt.value.status == Conflict <==>
              s.polled.overrides != s.receipt.value.candidate && s.polled.overrides != s.baseline.overrides)
    ensures var t := Next(s, e);
      s.receipt.Some? && t.receipt.None? ==> e.Patch? || e.Adopt?
    ensures var t := Next(s, e);
      s.receipt.None? && t.receipt.Some? ==> e.WriteReply? && t.receipt.value.status == Pending
  {
  }

  /** When exactly a reply dispatches the write. The parent's overrides are not read again. */
  lemma DispatchIff(s: State, e: Event)
    ensures Next(s, e).writes != s.writes <==>
      && e.NodesReply? && e.id in s.flights && s.flights[e.id].phase.ReadingNodes?
      && e.nodesRead.NodesRead? && e.nodesRead.hash.Some?
      && e.nodesRead.overrides == Some(s.flights[e.id].reviewed.baseline.overrides)
    ensures |Next(s, e).writes| <= |s.writes| + 1
  {
  }

  /** A review starts only from a state that is neither stale nor busy nor pending, so once settled
      its baselines are the polled ones; the proposal is built from them. */
  lemma ReviewIsCurrent(s: State, id: nat, operation: Operation)
    requires Settled(s) && id !in s.flights && Next(s, Review(id, operation)) != s
    ensures s.baseline == s.polled
    ensures Next(s, Review(id, operation)).flights[id].reviewed.baseline == s.polled
  {
  }

  // ----- Polls and unsaved edits

  /** The one poll that takes a draft's place while it is dirty: the one that confirms a write. */
  predicate ConfirmsWrite(s: State) {
    s.polled != s.baseline && IsPending(s) && s.polled.overrides == s.receipt.value.candidate
  }

  /** A poll replaces a dirty draft exactly when it confirms a pending write; any other poll leaves draft
      and baselines alone and, when it reports a change, marks them stale. A clean draft without a
      pending write follows the polled state. */
  lemma EffectKeepsEdits(s: State)
    ensures Dirty(s) ==>
      (Reconcile(s).draft == s.draft && Reconcile(s).baseline == s.baseline <==> !ConfirmsWrite(s))
    ensures ConfirmsWrite(s) ==> Reconcile(s).baseline == s.polled && !Dirty(Reconcile(s))
    ensures Dirty(s) && s.polled != s.baseline && !ConfirmsWrite(s) ==> Reconcile(s).stale
    ensures !Dirty(s) && !IsPending(s) ==> Reconcile(s).baseline == s.polled && !Dirty(Reconcile(s))
  {
  }

  predicate DialogOpen(s: State) {
    exists id :: id in s.flights && s.flights[id].phase == Confirming
  }

  /** Controls give known fields a value. */
  predicate IsEdit(patch: Record) {
    forall k :: k in patch ==> Known(k) && patch[k] != MUndefined
  }

  /** What the screen lets the user do: controls edit known fields, they are disabled while a request is
      in flight or a write is pending, and the confirmation dialog is modal. */
  predicate Usable(s: State, e: Event) {
    match e
    case Patch(patch) => !s.busy && !IsPending(s) && !DialogOpen(s) && IsEdit(patch)
    case Adopt => Dirty(s) && !s.busy && !IsPending(s) && !DialogOpen(s)
    case Review(_, _) => !DialogOpen(s)
    case _ => true
  }

  predicate UsableRun(s: State, events: seq<Event>)
    decreases |events|
  {
    events == [] || (Usable(s, events[0]) && UsableRun(Next(s, events[0]), events[1..]))
  }

  /** A save that is not yet confirmed, in flight or pending, is still what the editor would propose. */
  ghost predicate DraftHeld(s: State) {
    && (forall i, j :: i in s.flights && j in s.flights ==> i == j)
    && (forall id :: id in s.flights && s.flights[id].phase != Confirming ==> s.busy)
    && (forall id :: id in s.flights && s.flights[id].phase != Refreshing ==>
          !IsPending(s) && Held(s, s.flights[id].reviewed.operation, s.flights[id].reviewed.candidate))
    && (IsPending(s) ==> Held(s, s.receipt.value.operation, s.receipt.value.candidate))
  }

  ghost predicate Held(s: State, operation: Operation, candidate: Record) {
    operation == SaveProfile ==> Dirty(s) && candidate == Propose(s, SaveProfile).candidate
  }

  lemma ReconcileHolds(s: State)
    requires DraftHeld(s)
    ensures DraftHeld(Reconcile(s))
  {
    var t := Reconcile(s);
    ReconcileFrame(s);
    EffectKeepsEdits(s);
    if ConfirmsWrite(s) {
      assert !IsPending(t);
    } else if Dirty(s) {
      SameDraftHolds(s, t);
    }
  }

  lemma SameDraftHolds(s: State, t: State)
    requires t.profile == s.profile && t.baseline == s.baseline && t.draft == s.draft
    ensures Dirty(t) == Dirty(s) && Propose(t, SaveProfile) == Propose(s, SaveProfile)
    ensures forall operation, candidate :: Held(s, operation, candidate) ==> Held(t, operation, candidate)
  {
  }

  lemma OnlyFlight(s: State, id: nat)
    requires DraftHeld(s) && id in s.flights
    ensures s.flights == map[id := s.flights[id]]
  {
  }

  /** The one open flight goes away or moves on. */
  lemma FlightHolds(s: State, t: State, id: nat, phase: Phase)
    requires DraftHeld(s) && id in s.flights
    requires t.profile == s.profile && t.baseline == s.baseline && t.draft == s.draft && t.receipt == s.receipt
    requires t.flights == map[] || t.flights == map[id := s.flights[id].(phase := phase)]
    requires phase != Confirming && s.flights[id].phase != Refreshing
    requires t.busy || t.flights == map[]
    ensures DraftHeld(t)
  {
    SameDraftHolds(s, t);
  }

  lemma WriteReplyHolds(s: State, id: nat)
    requires DraftHeld(s) && InPhase(s, id, Writing)
    ensures DraftHeld(AfterWrite(s, id, true))
  {
    OnlyFlight(s, id);
    SameDraftHolds(s, AfterWrite(s, id, true));
  }

  lemma ClosedHolds(s: State, t: State)
    requires DraftHeld(s) && t.flights == map[]
    requires t.profile == s.profile && t.baseline == s.baseline && t.draft == s.draft && t.receipt == s.receipt
    ensures DraftHeld(t)
  {
    SameDraftHolds(s, t);
  }

  lemma DecideHolds(s: State, id: nat, confirmed: bool)
    requires DraftHeld(s) && InPhase(s, id, Confirming)
    ensures DraftHeld(Next(s, Decide(id, confirmed)))
  {
    OnlyFlight(s, id);
    FlightHolds(s, Next(s, Decide(id, confirmed)), id, ReadingState);
  }

  lemma StateReplyHolds(s: State, id: nat, read: StateRead)
    requires DraftHeld(s) && InPhase(s, id, ReadingState)
    ensures DraftHeld(AfterState(s, id, read))
  {
    OnlyFlight(s, id);
    FlightHolds(s, AfterState(s, id, read), id, ReadingNodes(read));
  }

  lemma NodesReplyHolds(s: State, id: nat, read: NodesRead)
    requires DraftHeld(s) && id in s.flights && s.flights[id].phase.ReadingNodes?
    ensures DraftHeld(AfterNodes(s, id, read))
  {
    OnlyFlight(s, id);
    FlightHolds(s, AfterNodes(s, id, read), id, Writing);
  }

  lemma CloseHolds(s: State, id: nat)
    requires DraftHeld(s) && id in s.flights
    ensures DraftHeld(Close(s, id))
  {
    OnlyFlight(s, id);
    ClosedHolds(s, Close(s, id));
  }

  /** Polls and the user's own actions, which the screen allows only while no dialog is open. */
  lemma ScreenHolds(s: State, e: Event)
    requires DraftHeld(s) && Usable(s, e) && (e.Poll? || e.Patch? || e.Adopt? || e.Review?)
    ensures DraftHeld(Next(s, e))
  {
    if e.Patch? || e.Adopt? {
      NoFlightHolds(Next(s, e));
    } else if e.Poll? {
      PollHolds(s, e.canonical);
    } else {
      ReviewHolds(s, e.id, e.operation);
    }
  }

  lemma NoFlightHolds(s: State)
    requires s.flights == map[] && !IsPending(s)
    ensures DraftHeld(s)
  {
  }

  lemma PollHolds(s: State, canonical: Canonical)
    requires DraftHeld(s)
    ensures DraftHeld(s.(polled := canonical))
  {
    SameDraftHolds(s, s.(polled := canonical));
  }

  lemma ReviewHolds(s: State, id: nat, operation: Operation)
    requires DraftHeld(s) && !DialogOpen(s)
    ensures DraftHeld(Next(s, Review(id, operation)))
  {
    if id !in s.flights && MayReview(s, operation) {
      assert s.flights == map[];
      OpenedHolds(s, id, operation);
    }
  }

  lemma OpenedHolds(s: State, id: nat, operation: Operation)
    requires s.flights == map[] && !IsPending(s) && (operation == SaveProfile ==> Dirty(s))
    ensures DraftHeld(s.(flights := map[id := Flight(Propose(s, operation), Confirming)]))
  {
    SameDraftHolds(s, s.(flights := map[id := Flight(Propose(s, operation), Confirming)]));
  }

  lemma NextHolds(s: State, e: Event)
    requires DraftHeld(s) && Usable(s, e)
    ensures DraftHeld(Next(s, e))
  {
    match e
    case Effect => ReconcileHolds(s);
    case Decide(id, confirmed) =>
      if InPhase(s, id, Confirming) {
        DecideHolds(s, id, confirmed);
      }
    case StateReply(id, read) =>
      if InPhase(s, id, ReadingState) {
        StateReplyHolds(s, id, read);
      }
    case NodesReply(id, read) =>
      if id in s.flights && s.flights[id].phase.ReadingNodes? {
        NodesReplyHolds(s, id, read);
      }
    case WriteReply(id, accepted) =>
      if InPhase(s, id, Writing) {
        if accepted {
          WriteReplyHolds(s, id);
        } else {
          CloseHolds(s, id);
        }
      }
    case Refreshed(id) =>
      if InPhase(s, id, Refreshing) {
        CloseHolds(s, id);
      }
    case _ => ScreenHolds(s, e);
  }

  lemma {:induction false} RunsHold(s: State, events: seq<Event>)
    requires DraftHeld(s) && UsableRun(s, events)
    ensures DraftHeld(Run(s, events))
    decreases |events|
  {
    if events == [] {
    } else {
      NextHolds(s, events[0]);
      RunsHold(Next(s, events[0]), events[1..]);
    }
  }

  /** The settings in force once the saved candidate of a state is reported, over a polled base. */
  function SavedSettings(s: State, base: Record): Record {
    EffectiveProfileConfig(base, RecordOf(At(Propose(s, SaveProfile).candidate, s.profile)))
  }

  /** No known field is lost, and the polled base agrees wherever the stored entry leaves it in charge. */
  ghost predicate SaveKeeps(s: State, base: Record) {
    && !LosesField(s.baseline.base, s.draft, LocalProfileOverride(s), ParentOverride(s))
    && forall f :: Known(f) && f !in RecordOf(At(Propose(s, SaveProfile).candidate, s.profile)) ==>
         At(base, f) == At(s.baseline.base, f)
  }

  /** A saved profile, once in force as proposed, is the reviewed draft on all nine known fields unless
      a field is lost as described for overrides. */
  lemma SavedDraftInForce(s: State)
    ensures (forall f :: Known(f) ==> At(SavedSettings(s, s.baseline.base), f) == At(s.draft, f))
      <==> !LosesField(s.baseline.base, s.draft, LocalProfileOverride(s), ParentOverride(s))
  {
    OverrideRoundTrip(s.baseline.base, s.draft, LocalProfileOverride(s), ParentOverride(s));
    SavedIsApplied(s);
  }

  lemma SavedIsApplied(s: State)
    ensures SavedSettings(s, s.baseline.base)
      == Applied(s.baseline.base, s.draft, LocalProfileOverride(s), ParentOverride(s))
  {
  }

  /** Over any base the drafted values are in force on all nine fields exactly when none is lost and the
      base agrees on those that are not stored. A lost field is lost over every base. */
  lemma SavedOverBase(s: State, base: Record)
    ensures (forall f :: Known(f) ==> At(SavedSettings(s, base), f) == At(s.draft, f)) <==> SaveKeeps(s, base)
  {
    if LosesField(s.baseline.base, s.draft, LocalProfileOverride(s), ParentOverride(s)) {
      var f := LostAnyway(s);
      assert At(SavedSettings(s, base), f) != At(s.draft, f);
    } else {
      SavedDraftInForce(s);
      var entry := RecordOf(At(Propose(s, SaveProfile).candidate, s.profile));
      forall f | Known(f) ensures At(SavedSettings(s, base), f) == At(s.draft, f)
        <==> f in entry || At(base, f) == At(s.baseline.base, f)
      {
        assert At(SavedSettings(s, s.baseline.base), f) == At(s.draft, f);
      }
    }
  }

  /** A lost field is one that the inherited entry defines and the draft does not. */
  lemma LostAnyway(s: State) returns (f: string)
    requires LosesField(s.baseline.base, s.draft, LocalProfileOverride(s), ParentOverride(s))
    ensures Known(f) && At(s.draft, f) == MUndefined
    ensures var entry := RecordOf(At(Propose(s, SaveProfile).candidate, s.profile));
      f in entry && entry[f] != MUndefined
  {
    var base, parent := s.baseline.base, ParentOverride(s);
    f :| Known(f) && At(s.draft, f) == MUndefined && At(base + parent, f) != MUndefined;
    StoredIff(base, s.draft, LocalProfileOverride(s), parent);
    assert s.draft != base + parent;
    assert f in parent;
  }

  /** Over every run the screen allows: when a pending save is confirmed, the draft that takes the place
      of the edited one agrees with it on all nine fields exactly when no field is lost and the base
      did not change in a field that is not stored. */
  lemma ConfirmedSaveKeepsDraft(profile: string, canonical: Canonical, events: seq<Event>)
    requires UsableRun(Start(profile, canonical), events)
    ensures var s := Run(Start(profile, canonical), events);
      ConfirmsWrite(s) && s.receipt.value.operation == SaveProfile ==>
        && !Dirty(Reconcile(s)) && Reconcile(s).receipt.value.status == Confirmed
        && ((forall f :: Known(f) ==> At(Reconcile(s).draft, f) == At(s.draft, f)) <==> SaveKeeps(s, s.polled.base))
  {
    RunsHold(Start(profile, canonical), events);
    var s := Run(Start(profile, canonical), events);
    if ConfirmsWrite(s) && s.receipt.value.operation == SaveProfile {
      ConfirmedSave(s);
    }
  }

  lemma ConfirmedSave(s: State)
    requires DraftHeld(s) && ConfirmsWrite(s) && s.receipt.value.operation == SaveProfile
    ensures Reconcile(s).draft == SavedSettings(s, s.polled.base) && !Dirty(Reconcile(s))
    ensures (forall f :: Known(f) ==> At(SavedSettings(s, s.polled.base), f) == At(s.draft, f))
      <==> SaveKeeps(s, s.polled.base)
  {
    assert Held(s, SaveProfile, s.receipt.value.candidate);
    AdoptedDraft(s);
    SavedOverBase(s, s.polled.base);
  }

  /** What the effect adopts when it confirms. */
  lemma AdoptedDraft(s: State)
    requires ConfirmsWrite(s)
    ensures Reconcile(s).draft
      == EffectiveProfileConfig(s.polled.base, RecordOf(At(s.receipt.value.candidate, s.profile)))
    ensures !Dirty(Reconcile(s))
  {
  }

  // ----- What the appliance reports after a write

  /** The appliance's own settings, the node's local overrides, and those of the node's parent. */
  datatype Appliance = Appliance(base: Record, local: Record, parent: Record)

  /** What every poll reports: the node's overrides come merged over its parent's. */
  function Reported(a: Appliance): Canonical {
    Canonical(a.base, Merge(a.local, a.parent), a.parent)
  }

  /** The local overrides after a patch that replaces whole entries: null clears all, a null or an empty
      entry clears one profile. */
  function ApplyPatch(local: Record, patch: Option<Record>): Record {
    if patch.None? then map[]
    else
      var cleared := set k | k in patch.value && (patch.value[k] == MNull || patch.value[k] == MObj(map[]));
      (local - patch.value.Keys) + (patch.value - cleared)
  }

  function Patched(a: Appliance, patch: Option<Record>): Appliance {
    a.(local := ApplyPatch(a.local, patch))
  }

  lemma PatchIsSelection(local: Record, profile: string, patch: Record)
    requires patch.Keys == {profile}
    requires patch[profile] == MNull || (patch[profile].MObj? && patch[profile].fields != map[])
    ensures ApplyPatch(local, Some(patch)) == WithSelectedProfileOverride(local, profile, EntryOf(patch[profile]))
  {
  }

  /** An own entry does not depend on the parent; one that is given back must be inherited as it was
      shown, and so must all entries of a full reset. */
  predicate StillInherits(r: Reviewed, profile: string, parent: Record) {
    if r.patch.None? then parent == r.baseline.parent
    else At(r.patch.value, profile) != MNull || InheritsAs(parent, r.baseline.parent, profile)
  }

  lemma PatchIsReported(r: Reviewed, profile: string, a: Appliance)
    requires IsProposal(r, profile) && Reported(a).overrides == r.baseline.overrides
    ensures Reported(Patched(a, r.patch)).overrides == r.candidate <==> StillInherits(r, profile, a.parent)
  {
    if r.operation == ResetAll {
      assert Merge(map[], a.parent) == a.parent;
    } else {
      PatchIsSelection(a.local, profile, r.patch.value);
      StoredIsReported(a.local, a.parent, r.baseline.parent, profile, EntryOf(r.patch.value[profile]));
    }
  }

  /** The candidate shown for review is what the appliance reports once it has applied the patch and
      merged its parent in again, exactly when what it inherits is still what was shown. The appliance
      may be any that reports the reviewed overrides. */
  lemma ProposalIsReported(s: State, operation: Operation, a: Appliance)
    requires Reported(a).overrides == s.baseline.overrides
    ensures var r := Propose(s, operation);
      Reported(Patched(a, r.patch)).overrides == r.candidate <==> StillInherits(r, s.profile, a.parent)
  {
    ProposeIsProposal(s, operation);
    PatchIsReported(Propose(s, operation), s.profile, a);
  }

  /** The second read misses a change of the parent, and the write is dispatched all the same, exactly
      when the node's own entries mask every changed entry. */
  lemma RereadDispatches(s: State, id: nat, hash: string, a: Appliance, parent: Record)
    requires id in s.flights && s.flights[id].phase.ReadingNodes?
    requires s.flights[id].reviewed.baseline.overrides == Reported(a).overrides
    ensures var read := NodesRead(Some(hash), Some(Reported(a.(parent := parent)).overrides));
      Next(s, NodesReply(id, read)).writes != s.writes <==> SameUnmasked(a.local, a.parent, parent)
  {
    RereadMisses(a.local, a.parent, parent);
  }

  /** Over every run: a dispatched write, applied by an appliance that still reports the reviewed
      overrides, is reported as reviewed exactly when what it inherits is still what was shown. A poll
      of the result confirms the pending write exactly then, unless the editor has adopted the result
      before: what the effect compares with is its own baseline. */
  lemma WritesAreReported(profile: string, canonical: Canonical, events: seq<Event>, i: nat, a: Appliance)
    requires i < |Run(Start(profile, canonical), events).writes|
    requires Reported(a).overrides
      == Run(Start(profile, canonical), events).writes[i].reviewed.baseline.overrides
    ensures var s := Run(Start(profile, canonical), events);
      var r := s.writes[i].reviewed;
      && (Reported(Patched(a, r.patch)).overrides == r.candidate <==> StillInherits(r, profile, a.parent))
      && (IsPending(s) && StandsFor(s.receipt.value, s.writes[i]) && s.polled == Reported(Patched(a, r.patch)) ==>
            (ConfirmsWrite(s) <==> s.polled != s.baseline && StillInherits(r, profile, a.parent)))
  {
    var s := Run(Start(profile, canonical), events);
    EditorIsSafe(profile, canonical, events);
    RunKeepsProfile(Start(profile, canonical), events);
    assert Fresh(s.writes[i], s.profile);
    PatchIsReported(s.writes[i].reviewed, profile, a);
  }

  lemma {:induction false} RunKeepsProfile(s: State, events: seq<Event>)
    ensures Run(s, events).profile == s.profile
    decreases |events|
  {
    if events == [] {
    } else {
      RunKeepsProfile(Next(s, events[0]), events[1..]);
    }
  }

  // ----- Two runs

  lemma RunTwo(s: State, e: Event, f: Event)
    ensures Run(s, [e, f]) == Next(Next(s, e), f)
  {
    assert [e, f][1..] == [f] && [f][1..] == [];
    assert Run(Next(s, e), [f]) == Next(Next(s, e), f);
  }

  lemma RunThree(s: State, e: Event, f: Event, g: Event)
    ensures Run(s, [e, f, g]) == Next(Next(Next(s, e), f), g)
  {
    assert [e, f, g][1..] == [f, g];
    RunTwo(Next(s, e), f, g);
  }

  const RESET: Option<Record> := Some(map["day" := MNull])

  function FreshReply(base: Record): StateRead {
    StateRead(TargetGuarded, Some("server"), Some(base))
  }

  function FreshNodes(a: Appliance): NodesRead {
    NodesRead(Some("hash"), Some(Reported(a).overrides))
  }

  function DayOf(entry: Record): Record {
    map["day" := MObj(entry)]
  }

  /** A reset of a node that overrides the day profile, up to the second read. */
  function ResetStarted(base: Record): seq<Event> {
    [Review(0, ResetProfile), Decide(0, true), StateReply(0, FreshReply(base))]
  }

  /** The parent has changed before that read. */
  function ParentChanges(a: Appliance): seq<Event> {
    [Poll(Reported(a)), Effect, NodesReply(0, FreshNodes(a))]
  }

  /** The appliance applies the reset, and a poll reports it. */
  function ResetApplied(a: Appliance): seq<Event> {
    [WriteReply(0, true), Poll(Reported(Patched(a, RESET))), Effect]
  }

  /** Events that are no action of the user. */
  predicate NoActions(events: seq<Event>) {
    forall i :: 0 <= i < |events| ==> !events[i].Patch? && !events[i].Adopt? && !events[i].Review?
  }

  lemma {:induction false} NoActionsUsable(s: State, events: seq<Event>)
    requires NoActions(events)
    ensures UsableRun(s, events)
    decreases |events|
  {
    if events == [] {
    } else {
      assert forall i :: 0 <= i < |events[1..]| ==> events[1..][i] == events[i + 1];
      NoActionsUsable(Next(s, events[0]), events[1..]);
    }
  }

  lemma UsableFirst(s: State, e: Event, events: seq<Event>)
    requires Usable(s, e) && NoActions(events)
    ensures UsableRun(s, [e] + events)
  {
    assert ([e] + events)[1..] == events;
    NoActionsUsable(Next(s, e), events);
  }

  lemma UsableUpTo(s: State, e: Event, f: Event, events: seq<Event>)
    requires Usable(s, e) && Usable(Next(s, e), f) && NoActions(events)
    ensures UsableRun(s, [e, f] + events)
  {
    UsableFirst(Next(s, e), f, events);
    assert ([e, f] + events)[1..] == [f] + events;
  }

  // The steps of one request, from review to acceptance.

  lemma ReviewStep(s: State, operation: Operation)
    requires s.flights == map[] && MayReview(s, operation)
    ensures Next(Next(s, Review(0, operation)), Decide(0, true))
      == s.(busy := true, flights := map[0 := Flight(Propose(s, operation), ReadingState)])
  {
    var r := Propose(s, operation);
    assert Next(s, Review(0, operation)) == s.(flights := s.flights[0 := Flight(r, Confirming)]);
    assert s.flights[0 := Flight(r, Confirming)] == map[0 := Flight(r, Confirming)];
    ConfirmStep(s.(flights := map[0 := Flight(r, Confirming)]), r);
  }

  lemma ConfirmStep(s: State, r: Reviewed)
    requires s.flights == map[0 := Flight(r, Confirming)]
    ensures Next(s, Decide(0, true)) == s.(busy := true, flights := map[0 := Flight(r, ReadingState)])
  {
    assert s.flights[0 := Flight(r, ReadingState)] == map[0 := Flight(r, ReadingState)];
  }

  lemma StateStep(s: State, r: Reviewed)
    requires s.flights == map[0 := Flight(r, ReadingState)]
    ensures var read := FreshReply(r.baseline.base);
      Next(s, StateReply(0, read)) == s.(flights := map[0 := Flight(r, ReadingNodes(read))])
  {
    var read := FreshReply(r.baseline.base);
    assert s.flights[0 := Flight(r, ReadingNodes(read))] == map[0 := Flight(r, ReadingNodes(read))];
  }

  lemma NodesStep(s: State, r: Reviewed, read: StateRead, a: Appliance)
    requires s.flights == map[0 := Flight(r, ReadingNodes(read))] && r.baseline.overrides == Reported(a).overrides
    ensures Next(s, NodesReply(0, FreshNodes(a)))
      == s.(flights := map[0 := Flight(r, Writing)], writes := s.writes + [Write(r, read, FreshNodes(a))])
  {
    assert s.flights[0 := Flight(r, Writing)] == map[0 := Flight(r, Writing)];
  }

  lemma WriteStep(s: State, r: Reviewed)
    requires s.flights == map[0 := Flight(r, Writing)]
    ensures Next(s, WriteReply(0, true))
      == s.(receipt := Some(PendingReceipt(r)), flights := map[0 := Flight(r, Refreshing)])
  {
    assert s.flights[0 := Flight(r, Refreshing)] == map[0 := Flight(r, Refreshing)];
  }

  /** What a reset of the day profile proposes when the node has an entry of its own. */
  lemma ResetProposal(s: State, own: Record, parent: Record, reported: Record)
    requires s.profile == "day" && own != map[] && own != RecordOf(At(parent, "day"))
    requires s.baseline.overrides == DayOf(own) && s.baseline.parent == parent
    requires reported == (if RecordOf(At(parent, "day")) == map[] then map[] else DayOf(RecordOf(At(parent, "day"))))
    ensures LocalProfileOverride(s) == own
    ensures Propose(s, ResetProfile) == Reviewed(ResetProfile, s.baseline, reported, RESET)
  {
    assert DayOf(own) - {"day"} == map[];
    assert forall entry: Record :: DayOf(own)["day" := MObj(entry)] == DayOf(entry);
  }

  lemma DayMerges(own: Record, parent: Record)
    ensures Merge(DayOf(own), DayOf(parent)) == DayOf(own) && Merge(DayOf(own), map[]) == DayOf(own)
    ensures ApplyPatch(DayOf(own), RESET) == map[]
    ensures Merge(map[], DayOf(parent)) == DayOf(parent) && Merge(map[], map[]) == map[]
  {
  }

  /** A reset runs against a parent that changed behind the node's own entry: the second read does not
      see it, the write is dispatched and applied, and the editor reports a conflict. */
  lemma MaskedParentChange(base: Record, own: Record, before: Record, after: Record)
    requires own != map[] && before != map[] && after != map[] && own != before && own != after && before != after
    ensures var a, b := Appliance(base, DayOf(own), DayOf(before)), Appliance(base, DayOf(own), DayOf(after));
      var s := Run(Start("day", Reported(a)), ResetStarted(base) + ParentChanges(b) + ResetApplied(b));
      && |s.writes| == 1 && s.writes[0].reviewed.candidate == DayOf(before)
      && s.polled == Reported(Patched(b, s.writes[0].reviewed.patch)) && s.polled.overrides == DayOf(after)
      && s.receipt.Some? && s.receipt.value.status == Conflict
      && UsableRun(Start("day", Reported(a)), ResetStarted(base) + ParentChanges(b) + ResetApplied(b))
  {
    var a, b := Appliance(base, DayOf(own), DayOf(before)), Appliance(base, DayOf(own), DayOf(after));
    DayMerges(own, before);
    DayMerges(own, after);
    var s0 := Start("day", Reported(a));
    RunConcat(s0, ResetStarted(base) + ParentChanges(b), ResetApplied(b));
    RunConcat(s0, ResetStarted(base), ParentChanges(b));
    var r := ResetStartedReads(s0, own, before);
    var s1 := Run(s0, ResetStarted(base));
    ParentChangeDispatches(s1, b, r);
    var s2 := Run(s1, ParentChanges(b));
    ResetConflicts(s2, b, r);
    ResetRunUsable(s0, b);
  }

  lemma ResetRunUsable(s: State, b: Appliance)
    requires s.flights == map[]
    ensures UsableRun(s, ResetStarted(b.base) + ParentChanges(b) + ResetApplied(b))
  {
    var rest := ResetStarted(b.base)[1..] + ParentChanges(b) + ResetApplied(b);
    assert ResetStarted(b.base) + ParentChanges(b) + ResetApplied(b) == [Review(0, ResetProfile)] + rest;
    UsableFirst(s, Review(0, ResetProfile), rest);
  }

  lemma ResetStartedReads(s: State, own: Record, parent: Record) returns (r: Reviewed)
    requires s == Start("day", Canonical(s.baseline.base, DayOf(own), DayOf(parent)))
    requires own != map[] && parent != map[] && own != parent
    ensures r == Reviewed(ResetProfile, s.baseline, DayOf(parent), RESET)
    ensures Run(s, ResetStarted(s.baseline.base))
      == s.(busy := true, flights := map[0 := Flight(r, ReadingNodes(FreshReply(s.baseline.base)))])
  {
    r := Propose(s, ResetProfile);
    ResetProposal(s, own, DayOf(parent), DayOf(parent));
    RunThree(s, Review(0, ResetProfile), Decide(0, true), StateReply(0, FreshReply(s.baseline.base)));
    ReviewStep(s, ResetProfile);
    StateStep(s.(busy := true, flights := map[0 := Flight(r, ReadingState)]), r);
  }

  lemma ParentChangeDispatches(s: State, b: Appliance, r: Reviewed)
    requires !Dirty(s) && s.receipt.None? && Reported(b) != s.baseline && s.writes == []
    requires s.flights == map[0 := Flight(r, ReadingNodes(FreshReply(b.base)))]
    requires r.baseline.overrides == Reported(b).overrides
    ensures var t := Run(s, ParentChanges(b));
      && t.baseline == t.polled == Reported(b) && t.receipt.None? && t.flights == map[0 := Flight(r, Writing)]
      && |t.writes| == 1 && t.writes[0].reviewed == r
  {
    RunThree(s, Poll(Reported(b)), Effect, NodesReply(0, FreshNodes(b)));
    var u := Next(Next(s, Poll(Reported(b))), Effect);
    assert u.flights == s.flights && u.writes == [];
    NodesStep(u, r, FreshReply(b.base), b);
  }

  lemma ResetConflicts(s: State, b: Appliance, r: Reviewed)
    requires s.flights == map[0 := Flight(r, Writing)] && s.baseline == Reported(b) && s.receipt.None?
    requires var after := Reported(Patched(b, RESET)).overrides;
      after != r.candidate && after != Reported(b).overrides
    ensures var t := Run(s, ResetApplied(b));
      && t.writes == s.writes && t.polled == Reported(Patched(b, RESET))
      && t.receipt.Some? && t.receipt.value.status == Conflict
  {
    var result := Poll(Reported(Patched(b, RESET)));
    RunThree(s, WriteReply(0, true), result, Effect);
    WriteStep(s, r);
    var t := Next(Next(s, WriteReply(0, true)), result);
    assert IsPending(t) && t.receipt.value.candidate == r.candidate && t.baseline == Reported(b);
    Conflicts(t);
  }

  /** A pending write meets a poll that reports neither its candidate nor the baseline. */
  lemma Conflicts(s: State)
    requires IsPending(s) && s.polled.overrides != s.receipt.value.candidate
    requires s.polled.overrides != s.baseline.overrides
    ensures var t := Reconcile(s);
      && t.writes == s.writes && t.polled == s.polled && t.receipt.Some? && t.receipt.value.status == Conflict
  {
  }

  function EditAndReset(edit: Record): seq<Event> {
    [Patch(edit), Review(0, ResetProfile), Decide(0, true)]
  }

  function ResetAccepted(a: Appliance): seq<Event> {
    [StateReply(0, FreshReply(a.base)), NodesReply(0, FreshNodes(a)), WriteReply(0, true)]
  }

  /** The screen lets a reset be reviewed with unsaved edits; its confirmation then replaces them. */
  lemma ResetDiscardsEdit(base: Record, own: Record, field: string, value: Meaning)
    requires Known(field) && value != MUndefined
    requires own != map[] && At(base, field) != value && At(base + own, field) != value
    ensures var a := Appliance(base, DayOf(own), map[]);
      var events := EditAndReset(map[field := value]) + ResetAccepted(a) + [Poll(Reported(Patched(a, RESET)))];
      var s := Run(Start("day", Reported(a)), events);
      && UsableRun(Start("day", Reported(a)), events)
      && Dirty(s) && At(s.draft, field) == value && ConfirmsWrite(s)
      && Reconcile(s).receipt.value.status == Confirmed && At(Reconcile(s).draft, field) != value
  {
    var a, edit := Appliance(base, DayOf(own), map[]), map[field := value];
    DayMerges(own, map[]);
    var s0 := Start("day", Reported(a));
    var result := Poll(Reported(Patched(a, RESET)));
    RunConcat(s0, EditAndReset(edit) + ResetAccepted(a), [result]);
    RunConcat(s0, EditAndReset(edit), ResetAccepted(a));
    var r := EditedResetStarts(s0, own, edit);
    var s1 := Run(s0, EditAndReset(edit));
    ResetIsAccepted(s1, a, r);
    var s2 := Run(s1, ResetAccepted(a));
    assert Run(s2, [result]) == Next(s2, result);
    EditDiscarded(Next(s2, result), base, field, value);
    EditedResetUsable(s0, a, edit);
  }

  lemma EditedResetUsable(s: State, a: Appliance, edit: Record)
    requires s.flights == map[] && !s.busy && s.receipt.None? && IsEdit(edit)
    ensures UsableRun(s, EditAndReset(edit) + ResetAccepted(a) + [Poll(Reported(Patched(a, RESET)))])
  {
    var result := Poll(Reported(Patched(a, RESET)));
    var rest := EditAndReset(edit)[2..] + ResetAccepted(a) + [result];
    assert EditAndReset(edit) + ResetAccepted(a) + [result] == [Patch(edit), Review(0, ResetProfile)] + rest;
    UsableUpTo(s, Patch(edit), Review(0, ResetProfile), rest);
  }

  lemma EditedResetStarts(s: State, own: Record, edit: Record) returns (r: Reviewed)
    requires s == Start("day", Canonical(s.baseline.base, DayOf(own), map[])) && own != map[]
    ensures r == Reviewed(ResetProfile, s.baseline, map[], RESET)
    ensures Run(s, EditAndReset(edit))
      == s.(draft := s.draft + edit, busy := true, flights := map[0 := Flight(r, ReadingState)])
  {
    var e := Next(s, Patch(edit));
    r := Propose(e, ResetProfile);
    ResetProposal(e, own, map[], map[]);
    RunThree(s, Patch(edit), Review(0, ResetProfile), Decide(0, true));
    ReviewStep(e, ResetProfile);
  }

  lemma ResetIsAccepted(s: State, a: Appliance, r: Reviewed)
    requires s.flights == map[0 := Flight(r, ReadingState)]
    requires r.baseline == Reported(a) && s.baseline == r.baseline
    ensures var t := Run(s, ResetAccepted(a));
      && t.receipt == Some(PendingReceipt(r)) && t.draft == s.draft && t.baseline == s.baseline
      && t.profile == s.profile
  {
    RunThree(s, StateReply(0, FreshReply(a.base)), NodesReply(0, FreshNodes(a)), WriteReply(0, true));
    StateStep(s, r);
    var t := Next(s, StateReply(0, FreshReply(a.base)));
    NodesStep(t, r, FreshReply(a.base), a);
    WriteStep(Next(t, NodesReply(0, FreshNodes(a))), r);
  }

  lemma EditDiscarded(s: State, base: Record, field: string, value: Meaning)
    requires s.profile == "day" && At(s.draft, field) == value && At(base, field) != value
    requires At(DraftOf(s.baseline, "day"), field) != value && s.baseline.overrides != map[]
    requires s.polled == Canonical(base, map[], map[]) && IsPending(s) && s.receipt.value.candidate == map[]
    ensures Dirty(s) && ConfirmsWrite(s)
    ensures Reconcile(s).receipt.value.status == Confirmed && At(Reconcile(s).draft, field) != value
  {
  }

  // ----- The component itself

  /** The editor component: its React state as fields, its effect and handlers as methods. Each is a step
      of the machine, so an object only ever holds states that a run of the machine reaches. */
  class ProfileEditor {
    const profile: string
    var polled: Canonical
    var baseline: Canonical
    var draft: Record
    var stale: bool
    var busy: bool
    var receipt: Option<Receipt>
    var flights: map<nat, Flight>
    var writes: seq<Write>

    function View(): State
      reads this
    {
      State(profile, polled, baseline, draft, stale, busy, receipt, flights, writes)
    }

    ghost predicate Valid()
      reads this
    {
      Reachable(View())
    }

    /** In every run of an object each write was fresh and each receipt stands for one. */
    lemma ObjectIsSafe()
      requires Valid()
      ensures Inv(View())
    {
      var canonical, events :| View() == Run(Start(profile, canonical), events);
      EditorIsSafe(profile, canonical, events);
    }

    constructor (profile: string, canonical: Canonical)
      ensures Valid() && View() == Start(profile, canonical)
    {
      this.profile := profile;
      polled, baseline := canonical, canonical;
      draft := DraftOf(canonical, profile);
      stale, busy, receipt := false, false, None;
      flights, writes := map[], [];
      StartReachable(profile, canonical);
    }

    method OnPoll(canonical: Canonical)
      requires Valid()
      modifies this
      ensures Valid() && View() == Next(old(View()), Poll(canonical))
    {
      NextReachable(View(), Poll(canonical));
      polled := canonical;
    }

    method AdoptBaselines()
      modifies this
      ensures View() == AdoptPolled(old(View()))
    {
      baseline := polled;
      draft := DraftOf(polled, profile);
      stale := false;
    }

    method RunEffect()
      requires Valid()
      modifies this
      ensures Valid() && View() == Next(old(View()), Effect)
    {
      NextReachable(View(), Effect);
      var dirty := draft != DraftOf(baseline, profile);
      if polled == baseline { return; }
      var pending := receipt.Some? && receipt.value.status == Pending;
      if pending && polled.overrides == receipt.value.candidate {
        var confirmed := receipt.value.(status := Confirmed, after := Some(polled.overrides));
        AdoptBaselines();
        receipt := Some(confirmed);
        return;
      }
      if !dirty && !pending {
        AdoptBaselines();
        return;
      }
      stale := true;
      if pending && polled.overrides != baseline.overrides {
        receipt := Some(receipt.value.(status := Conflict, after := Some(polled.overrides)));
      }
    }

    method PatchDraft(patch: Record)
      requires Valid()
      modifies this
      ensures Valid() && View() == Next(old(View()), Patch(patch))
    {
      NextReachable(View(), Patch(patch));
      draft := draft + patch;
      receipt := None;
    }

    method AdoptLatestCanonicalState()
      requires Valid()
      modifies this
      ensures Valid() && View() == Next(old(View()), Adopt)
    {
      NextReachable(View(), Adopt);
      AdoptBaselines();
      receipt := None;
    }

    method ReviewOperation(id: nat, operation: Operation)
      requires Valid()
      modifies this
      ensures Valid() && View() == Next(old(View()), Review(id, operation))
    {
      NextReachable(View(), Review(id, operation));
      if id !in flights && MayReview(View(), operation) {
        flights := flights[id := Flight(Propose(View(), operation), Confirming)];
      }
    }

    method OnDecision(id: nat, confirmed: bool)
      requires Valid() && InPhase(View(), id, Confirming)
      modifies this
      ensures Valid() && View() == Next(old(View()), Decide(id, confirmed))
    {
      NextReachable(View(), Decide(id, confirmed));
      if confirmed {
        busy, flights := true, flights[id := flights[id].(phase := ReadingState)];
      } else {
        flights := flights - {id};
      }
    }

    method OnStateReply(id: nat, read: StateRead)
      requires Valid() && InPhase(View(), id, ReadingState)
      modifies this
      ensures Valid() && View() == Next(old(View()), StateReply(id, read))
    {
      NextReachable(View(), StateReply(id, read));
      var reviewed := flights[id].reviewed;
      if read.StateRead? && SupportsGuards(read.support) && read.serverId.Some?
        && read.config == Some(reviewed.baseline.base)
      {
        flights := flights[id := flights[id].(phase := ReadingNodes(read))];
        return;
      }
      if read.StateRead? && (!SupportsGuards(read.support) || read.serverId.Some?) {
        stale := true;
      }
      busy, flights := false, flights - {id};
    }

    method OnNodesReply(id: nat, read: NodesRead)
      requires Valid() && id in flights && flights[id].phase.ReadingNodes?
      modifies this
      ensures Valid() && View() == Next(old(View()), NodesReply(id, read))
    {
      NextReachable(View(), NodesReply(id, read));
      var flight := flights[id];
      if read.NodesRead? && read.hash.Some? {
        if read.overrides == Some(flight.reviewed.baseline.overrides) {
          flights := flights[id := flight.(phase := Writing)];
          writes := writes + [Write(flight.reviewed, flight.phase.read, read)];
          return;
        }
        stale := true;
      }
      busy, flights := false, flights - {id};
    }

    method OnWriteReply(id: nat, accepted: bool)
      requires Valid() && InPhase(View(), id, Writing)
      modifies this
      ensures Valid() && View() == Next(old(View()), WriteReply(id, accepted))
    {
      NextReachable(View(), WriteReply(id, accepted));
      var reviewed := flights[id].reviewed;
      if accepted {
        receipt := Some(PendingReceipt(reviewed));
        flights := flights[id := flights[id].(phase := Refreshing)];
      } else {
        busy, flights := false, flights - {id};
      }
    }

    method OnRefreshed(id: nat)
      requires Valid() && InPhase(View(), id, Refreshing)
      modifies this
      ensures Valid() && View() == Next(old(View()), Refreshed(id))
    {
      NextReachable(View(), Refreshed(id));
      busy, flights := false, flights - {id};
    }
  }
}
