/** When an applied write of the editor is confirmed: the effect compares a poll with the editor's own
    baselines, so a result that was adopted before the reply to its write is never recognised. */
module Confirmation {
  import opened CanonicalJson
  import opened Common
  import opened Editor
  import opened Overrides

  // ----- A reviewed candidate is a change

  /** The draft comes from the settings in force by editing known fields. */
  ghost predicate Edited(s: State) {
    exists patch :: EditedBy(s, patch)
  }

  ghost predicate EditedBy(s: State, patch: Record) {
    IsEdit(patch) && s.draft == DraftOf(s.baseline, s.profile) + patch
  }

  ghost predicate Loses(s: State) {
    LosesField(s.baseline.base, s.draft, LocalProfileOverride(s), ParentOverride(s))
  }

  /** Every review that the screen offers proposes a change of the reported overrides; for a save, unless
      it loses a field. */
  lemma ReviewIsChange(s: State, operation: Operation)
    requires MayReview(s, operation)
    requires operation == SaveProfile ==> Edited(s) && !Loses(s)
    ensures Propose(s, operation).candidate != s.baseline.overrides
  {
    match operation
    case SaveProfile => SaveIsChange(s);
    case ResetProfile => ResetIsChange(s);
    case ResetAll => ResetAllIsChange(s);
  }

  lemma ResetAllIsChange(s: State)
    requires InferredLocalOverrides(s) != map[]
    ensures s.baseline.parent != s.baseline.overrides
  {
    var k :| k in InferredLocalOverrides(s);
    assert RecordOf(s.baseline.overrides[k]) != RecordOf(At(s.baseline.parent, k));
  }

  lemma ResetIsChange(s: State)
    requires LocalProfileOverride(s) != map[]
    ensures Propose(s, ResetProfile).candidate != s.baseline.overrides
  {
    assert s.profile in InferredLocalOverrides(s);
    assert RecordOf(s.baseline.overrides[s.profile]) != ParentOverride(s);
  }

  lemma SaveIsChange(s: State)
    requires Dirty(s) && Edited(s) && !Loses(s)
    ensures Propose(s, SaveProfile).candidate != s.baseline.overrides
  {
    var patch :| EditedBy(s, patch);
    if Propose(s, SaveProfile).candidate == s.baseline.overrides {
      SavedDraftInForce(s);
      NoEdit(DraftOf(s.baseline, s.profile), patch, s.draft);
    }
  }

  /** An edit that agrees with the record on all known fields changes nothing. */
  lemma NoEdit(record: Record, patch: Record, draft: Record)
    requires IsEdit(patch) && draft == record + patch
    requires forall f :: Known(f) ==> At(record, f) == At(draft, f)
    ensures draft == record
  {
    forall k | k in patch ensures k in record && record[k] == patch[k] {
      assert At(record, k) == At(draft, k) == patch[k];
    }
  }

  // ----- Drafts over runs

  lemma SameDraftEdited(s: State, t: State)
    requires Edited(s) && t.draft == s.draft && t.baseline == s.baseline && t.profile == s.profile
    ensures Edited(t)
  {
    var patch :| EditedBy(s, patch);
    assert EditedBy(t, patch);
  }

  lemma CleanEdited(s: State)
    requires !Dirty(s)
    ensures Edited(s)
  {
    assert DraftOf(s.baseline, s.profile) + map[] == DraftOf(s.baseline, s.profile);
    assert EditedBy(s, map[]);
  }

  lemma PatchEdited(s: State, more: Record)
    requires Edited(s) && IsEdit(more)
    ensures Edited(Next(s, Patch(more)))
  {
    var patch :| EditedBy(s, patch);
    PatchStep(s, more);
    PatchTwice(s, Next(s, Patch(more)), patch, more);
  }

  lemma PatchStep(s: State, more: Record)
    ensures Next(s, Patch(more)) == s.(draft := s.draft + more, receipt := None)
  {
  }

  lemma PatchTwice(s: State, t: State, patch: Record, more: Record)
    requires EditedBy(s, patch) && IsEdit(more)
    requires t.draft == s.draft + more && t.baseline == s.baseline && t.profile == s.profile
    ensures Edited(t)
  {
    EditTwice(DraftOf(s.baseline, s.profile), patch, more);
    assert EditedBy(t, patch + more);
  }

  lemma EditTwice(inForce: Record, patch: Record, more: Record)
    requires IsEdit(patch) && IsEdit(more)
    ensures IsEdit(patch + more) && (inForce + patch) + more == inForce + (patch + more)
  {
  }

  /** Only edits, adoptions and the effect touch the draft or its baselines. */
  lemma OthersKeepDraft(s: State, e: Event)
    requires !e.Patch? && !e.Adopt? && !e.Effect?
    ensures var t := Next(s, e);
      t.draft == s.draft && t.baseline == s.baseline && t.profile == s.profile
  {
    match e
    case StateReply(id, read) =>
      if InPhase(s, id, ReadingState) {
        StateReplyKeepsDraft(s, id, read);
      }
    case NodesReply(id, read) =>
      if id in s.flights && s.flights[id].phase.ReadingNodes? {
        NodesReplyKeepsDraft(s, id, read);
      }
    case _ =>
  }

  lemma StateReplyKeepsDraft(s: State, id: nat, read: StateRead)
    requires id in s.flights
    ensures var t := AfterState(s, id, read);
      t.draft == s.draft && t.baseline == s.baseline && t.profile == s.profile
  {
  }

  lemma NodesReplyKeepsDraft(s: State, id: nat, read: NodesRead)
    requires id in s.flights && s.flights[id].phase.ReadingNodes?
    ensures var t := AfterNodes(s, id, read);
      t.draft == s.draft && t.baseline == s.baseline && t.profile == s.profile
  {
  }

  lemma NextEdited(s: State, e: Event)
    requires Edited(s) && Usable(s, e)
    ensures Edited(Next(s, e))
  {
    match e
    case Patch(more) => PatchEdited(s, more);
    case Adopt => CleanEdited(Next(s, e));
    case Effect =>
      if Dirty(Reconcile(s)) {
        EffectKeepsEdits(s);
        SameDraftEdited(s, Reconcile(s));
      } else {
        CleanEdited(Reconcile(s));
      }
    case _ =>
      OthersKeepDraft(s, e);
      SameDraftEdited(s, Next(s, e));
  }

  lemma {:induction false} RunsEdited(s: State, events: seq<Event>)
    requires Edited(s) && UsableRun(s, events)
    ensures Edited(Run(s, events))
    decreases |events|
  {
    if events == [] {
    } else {
      NextEdited(s, events[0]);
      RunsEdited(Next(s, events[0]), events[1..]);
    }
  }

  lemma StartEdited(profile: string, canonical: Canonical)
    ensures Edited(Start(profile, canonical))
  {
    assert EditedBy(Start(profile, canonical), map[]);
  }

  // ----- While a write is pending

  /** The write stays pending at every point of the run. */
  predicate PendingThroughout(s: State, events: seq<Event>)
    decreases |events|
  {
    IsPending(s) && (events == [] || PendingThroughout(Next(s, events[0]), events[1..]))
  }

  lemma PendingKeeps(s: State, e: Event)
    requires DraftHeld(s) && Usable(s, e) && IsPending(s) && IsPending(Next(s, e))
    ensures var t := Next(s, e);
      t.baseline == s.baseline && t.draft == s.draft && t.profile == s.profile && t.receipt == s.receipt
  {
    match e
    case Effect => ReconcileFrame(s);
    case WriteReply(id, accepted) => assert !InPhase(s, id, Writing);
    case _ =>
  }

  lemma {:induction false} PendingRunKeeps(s: State, events: seq<Event>)
    requires DraftHeld(s) && UsableRun(s, events) && PendingThroughout(s, events)
    ensures var t := Run(s, events);
      DraftHeld(t) && t.baseline == s.baseline && t.profile == s.profile && t.receipt == s.receipt
    decreases |events|
  {
    if events == [] {
    } else {
      PendingKeeps(s, events[0]);
      NextHolds(s, events[0]);
      PendingRunKeeps(Next(s, events[0]), events[1..]);
    }
  }

  /** A poll, and the effect that takes note of it. */
  function AfterPoll(s: State, polled: Canonical): State {
    Next(Next(s, Poll(polled)), Effect)
  }

  /** What a poll makes of a pending write: one that reports the candidate confirms it unless the editor
      has the polled state as its baseline, and one that reports neither candidate nor baseline ends in
      a conflict. */
  lemma PendingPoll(s: State, polled: Canonical)
    requires IsPending(s)
    ensures var t := AfterPoll(s, polled);
      var candidate := s.receipt.value.candidate;
      && t.receipt.Some?
      && (t.receipt.value.status == Confirmed <==> polled.overrides == candidate && polled != s.baseline)
      && (t.receipt.value.status == Conflict <==>
            polled.overrides != candidate && polled.overrides != s.baseline.overrides)
  {
  }

  /** A pending write whose result is already the baseline: the effect has settled, nothing on the screen
      can be used, polls of the same state change nothing, and the next change by anyone else is
      reported as a conflict, unless it leaves the overrides alone. */
  lemma StuckPending(s: State)
    requires IsPending(s) && s.polled == s.baseline && s.polled.overrides == s.receipt.value.candidate
    ensures Settled(s) && AfterPoll(s, s.polled) == s
    ensures forall operation :: !MayReview(s, operation)
    ensures forall patch :: !Usable(s, Patch(patch))
    ensures !Usable(s, Adopt)
    ensures forall polled: Canonical :: polled.overrides != s.polled.overrides ==>
      AfterPoll(s, polled).receipt.Some? && AfterPoll(s, polled).receipt.value.status == Conflict
  {
    forall polled: Canonical | polled.overrides != s.polled.overrides
      ensures AfterPoll(s, polled).receipt.Some? && AfterPoll(s, polled).receipt.value.status == Conflict
    {
      PendingPoll(s, polled);
    }
  }

  // ----- Over runs

  /** A run in which the reply to a write arrives accepted, and the write then stays pending. */
  ghost predicate PendingRun(profile: string, canonical: Canonical, before: seq<Event>, id: nat, after: seq<Event>) {
    var u := Run(Start(profile, canonical), before);
    && UsableRun(Start(profile, canonical), before) && InPhase(u, id, Writing)
    && UsableRun(Next(u, WriteReply(id, true)), after) && PendingThroughout(Next(u, WriteReply(id, true)), after)
  }

  /** What the reply to the write and the run after it leave unchanged. */
  lemma PendingRunFrame(profile: string, canonical: Canonical, before: seq<Event>, id: nat, after: seq<Event>)
    requires PendingRun(profile, canonical, before, id, after)
    ensures var u := Run(Start(profile, canonical), before);
      var t := Run(Next(u, WriteReply(id, true)), after);
      && IsPending(t) && t.baseline == u.baseline && t.receipt == Some(PendingReceipt(u.flights[id].reviewed))
  {
    var u := Run(Start(profile, canonical), before);
    RunsHold(Start(profile, canonical), before);
    WriteReplyHolds(u, id);
    PendingRunKeeps(Next(u, WriteReply(id, true)), after);
  }

  /** Over every run the screen allows: a poll that reports the candidate of a pending write confirms it,
      unless exactly that state was the editor's baseline when the reply arrived. For a save of edited
      fields that cannot be, unless the save loses a field. */
  lemma ConfirmedUnlessAdopted(
      profile: string, canonical: Canonical, before: seq<Event>, id: nat, after: seq<Event>, polled: Canonical)
    requires PendingRun(profile, canonical, before, id, after)
    ensures var u := Run(Start(profile, canonical), before);
      var r := u.flights[id].reviewed;
      var t := AfterPoll(Run(Next(u, WriteReply(id, true)), after), polled);
      && t.receipt.Some?
      && (polled.overrides == r.candidate ==>
            && t.receipt.value.status == (if polled == u.baseline then Pending else Confirmed)
            && (r.operation == SaveProfile && !Loses(u) ==> t.receipt.value.status == Confirmed))
  {
    var u := Run(Start(profile, canonical), before);
    PendingRunFrame(profile, canonical, before, id, after);
    PendingPoll(Run(Next(u, WriteReply(id, true)), after), polled);
    if u.flights[id].reviewed.operation == SaveProfile && !Loses(u) {
      RunsHold(Start(profile, canonical), before);
      StartEdited(profile, canonical);
      RunsEdited(Start(profile, canonical), before);
      SaveIsChange(u);
    }
  }

  /** Over every run the screen allows: the poll of an applied write, by an appliance that still reported
      the reviewed overrides, confirms it exactly when what it inherits is still what was shown and the
      result was not adopted before the reply arrived. */
  lemma AppliedWriteIsConfirmed(
      profile: string, canonical: Canonical, before: seq<Event>, id: nat, after: seq<Event>, a: Appliance)
    requires PendingRun(profile, canonical, before, id, after)
    requires Reported(a).overrides
      == Run(Start(profile, canonical), before).flights[id].reviewed.baseline.overrides
    ensures var u := Run(Start(profile, canonical), before);
      var r := u.flights[id].reviewed;
      var result := Reported(Patched(a, r.patch));
      var t := AfterPoll(Run(Next(u, WriteReply(id, true)), after), result);
      && t.receipt.Some?
      && (t.receipt.value.status == Confirmed <==>
            StillInherits(r, profile, a.parent) && result != u.baseline)
  {
    var u := Run(Start(profile, canonical), before);
    var r := u.flights[id].reviewed;
    EditorIsSafe(profile, canonical, before);
    RunKeepsProfile(Start(profile, canonical), before);
    assert FlightSound(u.flights[id], u.profile);
    PatchIsReported(r, profile, a);
    PendingRunFrame(profile, canonical, before, id, after);
    PendingPoll(Run(Next(u, WriteReply(id, true)), after), Reported(Patched(a, r.patch)));
  }

  // ----- A result adopted before its reply

  /** The appliance applies a reset, and a poll reports it while the reply is on its way. */
  function ResultFirst(a: Appliance): seq<Event> {
    [NodesReply(0, FreshNodes(a)), Poll(Reported(Patched(a, RESET))), Effect]
  }

  function ReplyLate(): seq<Event> {
    [WriteReply(0, true), Refreshed(0), Effect]
  }

  /** A reset of a node with a clean draft: the editor adopts the result before the reply arrives. It ends
      settled, neither stale nor busy, with its candidate polled, and still pending. */
  lemma AdoptedBeforeReply(base: Record, own: Record)
    requires own != map[]
    ensures var a := Appliance(base, DayOf(own), map[]);
      var events := ResetStarted(base) + ResultFirst(a) + ReplyLate();
      var s := Run(Start("day", Reported(a)), events);
      && UsableRun(Start("day", Reported(a)), events)
      && Settled(s) && !s.stale && !s.busy && s.flights == map[]
      && IsPending(s) && s.polled == s.baseline == Reported(Patched(a, RESET))
      && s.polled.overrides == s.receipt.value.candidate
  {
    var a := Appliance(base, DayOf(own), map[]);
    DayMerges(own, map[]);
    var s0 := Start("day", Reported(a));
    RunConcat(s0, ResetStarted(base) + ResultFirst(a), ReplyLate());
    RunConcat(s0, ResetStarted(base), ResultFirst(a));
    LateReplyUsable(s0, a);
    var r := ResetReads(s0, own);
    var s1 := Run(s0, ResetStarted(base));
    ResultAdopted(s1, a, r);
    var s2 := Run(s1, ResultFirst(a));
    ReplyLeavesPending(s2, r);
  }

  lemma LateReplyUsable(s: State, a: Appliance)
    requires s.flights == map[]
    ensures UsableRun(s, ResetStarted(a.base) + ResultFirst(a) + ReplyLate())
  {
    var rest := ResetStarted(a.base)[1..] + ResultFirst(a) + ReplyLate();
    assert ResetStarted(a.base) + ResultFirst(a) + ReplyLate() == [Review(0, ResetProfile)] + rest;
    UsableFirst(s, Review(0, ResetProfile), rest);
  }

  lemma ResetReads(s: State, own: Record) returns (r: Reviewed)
    requires s == Start("day", Canonical(s.baseline.base, DayOf(own), map[])) && own != map[]
    ensures r == Reviewed(ResetProfile, s.baseline, map[], RESET)
    ensures Run(s, ResetStarted(s.baseline.base))
      == s.(busy := true, flights := map[0 := Flight(r, ReadingNodes(FreshReply(s.baseline.base)))])
  {
    r := Propose(s, ResetProfile);
    ResetProposal(s, own, map[], map[]);
    RunThree(s, Review(0, ResetProfile), Decide(0, true), StateReply(0, FreshReply(s.baseline.base)));
    ReviewStep(s, ResetProfile);
    StateStep(s.(busy := true, flights := map[0 := Flight(r, ReadingState)]), r);
  }

  lemma ResultAdopted(s: State, a: Appliance, r: Reviewed)
    requires !Dirty(s) && s.receipt.None? && !s.stale && s.baseline == Reported(a)
    requires s.flights == map[0 := Flight(r, ReadingNodes(FreshReply(a.base)))]
    requires r.baseline.overrides == Reported(a).overrides && Reported(Patched(a, RESET)) != s.baseline
    ensures var t := Run(s, ResultFirst(a));
      && t.baseline == t.polled == Reported(Patched(a, RESET)) && !t.stale && t.receipt.None?
      && t.flights == map[0 := Flight(r, Writing)]
  {
    RunThree(s, NodesReply(0, FreshNodes(a)), Poll(Reported(Patched(a, RESET))), Effect);
    NodesStep(s, r, FreshReply(a.base), a);
    CleanAdopts(Next(Next(s, NodesReply(0, FreshNodes(a))), Poll(Reported(Patched(a, RESET)))));
  }

  lemma CleanAdopts(s: State)
    requires !Dirty(s) && s.receipt.None? && s.polled != s.baseline
    ensures Next(s, Effect) == AdoptPolled(s)
  {
  }

  lemma ReplyLeavesPending(s: State, r: Reviewed)
    requires s.flights == map[0 := Flight(r, Writing)] && s.polled == s.baseline && !s.stale
    ensures var t := Run(s, ReplyLate());
      && t.baseline == t.polled == s.polled && !t.stale && !t.busy && t.flights == map[]
      && t.receipt == Some(PendingReceipt(r)) && Settled(t)
  {
    RunThree(s, WriteReply(0, true), Refreshed(0), Effect);
    WriteStep(s, r);
    RefreshStep(Next(s, WriteReply(0, true)), r);
    NothingNew(Close(Next(s, WriteReply(0, true)), 0));
  }

  lemma RefreshStep(s: State, r: Reviewed)
    requires s.flights == map[0 := Flight(r, Refreshing)]
    ensures Next(s, Refreshed(0)) == Close(s, 0) == s.(busy := false, flights := map[])
  {
    assert map[0 := Flight(r, Refreshing)] - {0} == map[];
  }

  lemma NothingNew(s: State)
    requires s.polled == s.baseline
    ensures Next(s, Effect) == s && Settled(s)
  {
  }
}
