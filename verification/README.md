# Verified model of the Rhythm tools

This project models five parts of the Rhythm repository in Dafny and proves what they promise:

- **Bulb calibration** (`Curves`, `Calibration`, `CorrectionTables`): raw optical samples become monotone
  envelopes, which are inverted and composed with a reference bulb into brightness and color-temperature
  correction tables. `f64` is modelled by `real`; the `f64::EPSILON` width test is kept.
- **Device database upsert** (`JsonText`, `JsonUnique`, `Scanner`, `Upsert`): a character scanner finds the top-level
  objects of a JSON array (sections 2, 4, 5 and 7 of RFC 8259) and an updater splices one entry into the text. The proofs
  quantify over every layout of every array, through a syntax tree that keeps all blanks.
- **Light-settings overrides and editor** (`CanonicalJson`, `Overrides`, `Editor`, `Confirmation`, `Requests`): canonical
  JSON text as an equality test, sparse overrides under whole-profile inheritance, the editor of one profile as a state
  machine that races against polls and its own replies, when it confirms a write, and what each reply does. The class
  `ProfileEditor` holds the component's state.
- **Guarded writes and probes** (`RoomMove`, `GuardedOperation`, `ProbeSweep`): the verified room move with other
  writers acting around every request, the wrapper that guards each mutation, and the probe workers with the
  dashboard that starts and abandons sweeps.
- **Credential profiles and rooms** (`EnvProfile`, `Topology`, `RoomBoard`): the KEY=value parser and serializer,
  the membership and grouped views of a topology, and the order of the room board.

Loops of the source are methods with invariants, each proved equal to a specification function; the lemmas are
about these functions. `Common` holds optional values, a stable sort, string trimming and facts about collections.

## Findings

Where the code does less than its purpose suggests, the model follows the code and the exact condition is proved.

- Inverting a curve misses a target exactly when it lies strictly inside an output step narrower than
  `f64::EPSILON` (`Curves.InverseLaw`; `CorrectionTables.TinyStepMissesTarget` gives samples that lead there).
  Measured Kelvin cannot form such steps in binary64 (`CorrectionTables.CtErrorBoundOnGrid`); brightness outputs
  below one percent can.
- A brightness target equal to the candidate's highest output is given the last tested command, even when a lower
  command already reaches it; every other reachable target is given the least command that does
  (`CorrectionTables.LookupCorrects`).
- Canonical JSON recognises every value of the same meaning exactly when no object inside the value holds two
  distinct keys that the comparator ties (`CanonicalJson.DecidesIffNoTies`); it never takes different meanings for
  equal. The source sorts with `localeCompare`, which ties canonically equivalent strings such as a composed and a
  decomposed accent, so a record with two such keys is taken for changed when only its key order differs.
- Storing an override loses a known field exactly when nothing is stored, the draft leaves the field undefined and
  the inherited settings define it (`Overrides.OverrideRoundTrip`); when nothing is stored is read off the inputs
  (`Overrides.StoredIff`). `Overrides.LostFieldExample` turns one brightness back to the base's value and loses another
  field to the parent.
- Saving a known field puts an unknown parent field back in force that the node's own override had masked
  (`Overrides.WholeDraftRoundTrip`, `Overrides.UnmaskingExample`).
- Inference loses a local override exactly when it is empty and the parent has no entry for it
  (`Overrides.InferenceInvertsMerge`). The appliance drops empty entries when it replaces overrides
  (os/rust/core/rhythm-os/src/commands.rs:1275-1280), so none arises from this editor.
- Before a write the editor reads the profile and the node again, but not the parent. The second read misses a change
  of the parent exactly when the node's own entries mask every changed entry (`Overrides.RereadMisses`,
  `Editor.RereadDispatches`). A saved override is then still reported as reviewed; an entry given back to the parent,
  or a full reset, exactly when what it inherits is still what was shown (`Editor.WritesAreReported`). Otherwise the
  poll of the result does not confirm the applied write; `Editor.MaskedParentChange` is a run that ends in a conflict.
- The effect compares a poll with the editor's own baselines first. When a clean editor adopts the result of its own
  reset before the reply arrives, the write then stays pending for good: every control is disabled, further polls of
  the same state change nothing, and the next foreign change of the overrides is reported as a conflict
  (`Confirmation.AdoptedBeforeReply`, `Confirmation.StuckPending`). A pending write whose candidate is polled is
  confirmed unless exactly the polled state was the baseline when the reply arrived, which never happens to a save of
  edited fields that loses no field (`Confirmation.ConfirmedUnlessAdopted`, `Confirmation.ReviewIsChange`); together
  with the inheritance above this is the exact condition for confirming the result
  (`Confirmation.AppliedWriteIsConfirmed`).
- A reset may be reviewed while edits are unsaved, and its confirmation replaces them (`Editor.ResetDiscardsEdit`). No
  other poll replaces a dirty draft (`Editor.EffectKeepsEdits`), and a confirmed save keeps its known fields unless
  one is lost as above or the base changed in one that is not stored (`Editor.ConfirmedSaveKeepsDraft`).
- The serializer refuses only line feeds, carriage returns and null bytes, while the parser splits at further
  line boundaries (`EnvProfile.SerializeRoundTrip`, `EnvProfile.VerticalTabIsLost`). Its only caller passes values
  collected from legacy files (tools/config/provision.py:217-233), and these are never affected
  (`EnvProfile.MigrationRoundTrip`).
- A sweep with a concurrency below one probes nothing (`ProbeSweep.SweepComplete`); its only caller passes three.

## Assumptions

- `Upsert` takes the JSON decoder as a parameter that accepts only texts of arrays and looks at their elements and not
  at their blanks, and the serializer as printing the candidate as an object, without carriage returns, that decodes
  to it. Such decoders exist for every decoder of elements, since a text has one reading (`Upsert.DecodersExist`).
- `RoomMove` takes the content hash as injective, and a guarded write as applying only while the hash matches,
  as admin-api/README.md describes. Requests and replies may be lost at any time and other writers act between all
  steps.
- `Overrides` and `Editor` read the appliance's merge and patch from os/rust/core/rhythm-core/src/room.rs:1811-1815 and
  os/rust/core/rhythm-os/src/commands.rs:1253-1292: local entries replace the parent's, a patch replaces whole entries.
- `Editor.ConfirmedSaveKeepsDraft` and the run lemmas of `Confirmation` range over the runs that the screen allows:
  controls are disabled while a request is in flight or a write is pending, the confirmation dialog is modal, and a
  control gives a known field a value.

## Model

| member | source | states |
|---|---|---|
| Curves.MonotonicEnvelope | lab/bulb-bench/src/profile.rs:531-542 | the in-place loop leaves the running maximum in every point and flags exactly a later drop beyond the tolerance |
| Curves.EnvelopeMajorizes | lab/bulb-bench/src/profile.rs:531-542 | the envelope never decreases, keeps the commands and lies on or above every sample |
| Curves.EnvelopeIsLeast | lab/bulb-bench/src/profile.rs:531-542 | it is the least non-decreasing curve above the samples |
| Curves.EnvelopeMovesLittle | lab/bulb-bench/src/profile.rs:531-542 | a curve is unflagged exactly when the envelope moves no sample by more than the tolerance |
| Curves.EnvelopeOfOrdered | lab/bulb-bench/src/profile.rs:531-542 | an already ordered curve is its own envelope |
| Curves.FirstVisibleSurvivesEnvelope | lab/bulb-bench/src/profile.rs:465-470 | choosing the first visible command before or after the envelope gives the same point |
| Curves.InterpolateLoop | lab/bulb-bench/src/profile.rs:645-680 | the search loop always finds its pair for an inner target and returns the specified value and clamping flag |
| Curves.InterpolateAtSample | lab/bulb-bench/src/profile.rs:645-680 | interpolation passes through every sample, whatever the outputs |
| Curves.InterpolateStraight | lab/bulb-bench/src/profile.rs:674-678 | and between two neighbours its value lies on the straight line through them |
| Curves.ClampedIffOutside | lab/bulb-bench/src/profile.rs:645-659 | the flag says exactly that the target lies outside the lookup column |
| Curves.InterpolateMonotone | lab/bulb-bench/src/profile.rs:645-680 | on ordered columns interpolation is monotone, flat and narrow segments included |
| Curves.InverseSegment | lab/bulb-bench/src/profile.rs:661-678 | an inner output is looked up on the first rising step that reaches it, so a zero width never occurs |
| Curves.InverseLaw | lab/bulb-bench/src/profile.rs:549-564 | forward of inverse reproduces an inner output if and only if it is not inside a step narrower than EPSILON |
| Curves.GaloisLaw | lab/bulb-bench/src/profile.rs:549-564 | under the same condition, and only then, a command reaches an output exactly from the looked-up command on |
| Curves.InverseAtEnds | lab/bulb-bench/src/profile.rs:645-659 | the lowest and highest outputs are reproduced too |
| Calibration.RejectDuplicateCommands | lab/bulb-bench/src/profile.rs:516-529 | the loop accepts exactly sequences whose neighbours are at least EPSILON apart |
| Calibration.AdjacentApartIffDistinct | lab/bulb-bench/src/profile.rs:516-529 | on sorted commands the neighbour test finds every near-duplicate pair |
| Calibration.SortKeepsDistinct | lab/bulb-bench/src/profile.rs:458-463 | sorting neither creates nor hides near-duplicates |
| Calibration.StableBrightnessMembers | lab/bulb-bench/src/profile.rs:435-439 | exactly the stable non-zero observations take part, each as often as it was made |
| Calibration.PrepareBrightness | lab/bulb-bench/src/profile.rs:431-477 | the preparation returns the specified curve or the first applicable error |
| Calibration.PrepareBrightnessSucceeds | lab/bulb-bench/src/profile.rs:440-469 | it succeeds exactly on at least three lit, pairwise distinct stable samples; the missing visible point never occurs |
| Calibration.PrepareBrightnessLaw | lab/bulb-bench/src/profile.rs:431-477 | the curve is separated and ordered, ends at exactly 100, and its minimum command is its first visible one |
| Calibration.PreparedFromSamples | lab/bulb-bench/src/profile.rs:431-477 | told from the observations, in any order: a point for every sample's command with the greatest percentage of the peak up to it, and a flag exactly for a later drop of more than half a percent |
| Calibration.RoundsToNearest | lab/bulb-bench/src/profile.rs:618 | rounding gives the nearest integer, of two equally near ones the one further from zero, and no other |
| Calibration.RoundToRounds | lab/bulb-bench/src/profile.rs:1062-1065 | display rounding does the same at the last place |
| Calibration.RoundToNear | lab/bulb-bench/src/profile.rs:1062-1065 | display rounding moves a value by at most half a unit of the last place |
| CorrectionTables.UnclampedTargetMet | lab/bulb-bench/src/profile.rs:562-566 | an unclamped brightness target is met exactly if and only if it avoids the narrow steps |
| CorrectionTables.LookupCorrects | lab/bulb-bench/src/profile.rs:562-566 | the looked-up command: the nearer end for a target out of range, the right end of a narrow step, the first or last tested command for the lowest or highest output, and else the least command with that output |
| CorrectionTables.BrightnessRowMeets | lab/bulb-bench/src/profile.rs:569-578 | an unclamped row outside the narrow steps publishes that command and the target, each to within 0.005 |
| CorrectionTables.ClampedBelow | lab/bulb-bench/src/profile.rs:562-566 | a target below the range falls back to the lowest command and overshoots |
| CorrectionTables.BrightnessTable | lab/bulb-bench/src/profile.rs:544-581 | every row publishes the reference sample, the uncorrected output, a command that corrects it and the output there; commands never decrease, clamped rows are a prefix, the last row is unclamped, unclamped rows promise the reference output |
| CorrectionTables.BrightnessTableFromSamples | lab/bulb-bench/src/profile.rs:431-581 | the whole table law for any two sample sets the preparation accepts |
| CorrectionTables.TinyStepMissesTarget | lab/bulb-bench/src/profile.rs:664-672 | two accepted sample sets for which the EPSILON test misses the target of the first row |
| CorrectionTables.PrepareCt | lab/bulb-bench/src/profile.rs:479-514 | the preparation returns raw samples, envelope and flag as specified, or the error |
| CorrectionTables.PrepareCtLaw | lab/bulb-bench/src/profile.rs:479-514 | it succeeds exactly on three or more distinct stable commands; commands are whole and separated |
| CorrectionTables.PreparedCtFromSamples | lab/bulb-bench/src/profile.rs:479-514 | told from the stable samples: they stand in the order of their commands, the envelope is the greatest temperature up to each, and a later drop of more than 25 K is flagged |
| CorrectionTables.CtTable | lab/bulb-bench/src/profile.rs:583-643 | every row publishes the reference sample, the whole command nearest to a correcting one, inside the tested range, what the candidate's own samples give at it and uncorrected, and the differences; for a rising candidate that command misses an unclamped target by at most half the slope |
| CorrectionTables.CtCommandInTestedRange | lab/bulb-bench/src/profile.rs:617-618 | whatever the target, the rounded command stays inside the tested commands |
| CorrectionTables.CtErrorBound | lab/bulb-bench/src/profile.rs:617-619 | for a rising candidate an unclamped target is missed by at most half the steepest slope, or by less than EPSILON in a narrow step |
| CorrectionTables.StableCtMembers | lab/bulb-bench/src/profile.rs:480-489 | exactly the stable observations take part, each as often as it was made |
| CorrectionTables.CtErrorBoundUnflagged | lab/bulb-bench/src/profile.rs:617-619 | for any unflagged candidate, rising or not, the envelope's slope gives the same bound with the tolerance on top |
| CorrectionTables.CtErrorBoundOnGrid | lab/bulb-bench/src/profile.rs:407-415 | for binary64 samples of the validated range the half-slope bound has no exception |
| CorrectionTables.CtPublishedError | lab/bulb-bench/src/profile.rs:626-638 | the published error column of every unclamped row keeps that bound up to display rounding |
| CorrectionTables.CtColumnsConsistent | lab/bulb-bench/src/profile.rs:626-640 | error and tint columns are the differences of the measured columns up to rounding |
| CorrectionTables.CtTableOrdered | lab/bulb-bench/src/profile.rs:613-643 | for a rising reference commands never decrease and the unclamped rows are contiguous |
| JsonText.ReindentLaw | lab/bulb-bench/src/profile.rs:1003-1012 | indenting a value's text gives the text of the same value in another layout |
| JsonUnique.OneReading | lab/bulb-bench/src/profile.rs:873-878 | a value's text, whatever its layout, determines the value up to blanks and where it ends |
| JsonUnique.TextDetermines | lab/bulb-bench/src/profile.rs:873-878 | two layouts with the same text are layouts of the same value |
| JsonUnique.DocumentDetermines | lab/bulb-bench/src/profile.rs:873-878 | so the text of an array determines its elements |
| Scanner.TopLevelObjectRanges | lab/bulb-bench/src/profile.rs:941-1001 | the loop with its early errors computes the specified scan |
| Scanner.RunString | lab/bulb-bench/src/profile.rs:950-964 | a string token, whatever it holds, leaves the scan state unchanged |
| Scanner.RunDeep | lab/bulb-bench/src/profile.rs:966-990 | a value nested below the root's elements is invisible to the scan |
| Scanner.ScanCorrect | lab/bulb-bench/src/profile.rs:941-1001 | for every layout of every array the scan returns exactly the object spans in order and the root's closing bracket |
| Scanner.SpansCut | lab/bulb-bench/src/profile.rs:984-988 | the spans cut out the texts of the object elements |
| Upsert.DecodersExist | lab/bulb-bench/src/profile.rs:873-878 | for every decoder of elements there is a decoder of texts as assumed |
| Upsert.SameDeviceLaws | lab/bulb-bench/src/profile.rs:1022-1036 | identity is reflexive and symmetric but not transitive |
| Upsert.SameDeviceIff | lab/bulb-bench/src/profile.rs:1022-1036 | two entries are the same device exactly with equal and fully present Matter ids, whatever the names, or with names that agree letter for letter up to A-Z against a-z |
| Upsert.IndentAfterFirstLine | lab/bulb-bench/src/profile.rs:1003-1012 | the loop glues the lines with a line feed and the indent |
| Upsert.LinesLaw | lab/bulb-bench/src/profile.rs:1003-1012 | lines end at a line feed, alone or after a carriage return |
| Upsert.LinesIndent | lab/bulb-bench/src/profile.rs:1003-1012 | on text without carriage returns this adds two blanks after every line feed |
| Upsert.IndentedGlue | lab/bulb-bench/src/profile.rs:1014-1020 | the inserted form is the indent followed by the replacement form |
| Upsert.UpdateOutcome | lab/bulb-bench/src/profile.rs:858-932 | every outcome of an update with its exact condition; the second parse never fails |
| Upsert.UpdateDecides | lab/bulb-bench/src/profile.rs:888-932 | told by what makes devices the same: refused with two such entries, replaced at its index with exactly one, appended with none |
| Upsert.OtherUpdatesRefused | lab/bulb-bench/src/profile.rs:864-878 | synthetic evidence and bodies that are no text of an array are refused |
| Upsert.UpsertFrame | lab/bulb-bench/src/profile.rs:888-922 | rescanning finds the old object texts with exactly one replaced at the matched index or one appended |
| Upsert.UpsertKeepsOtherText | lab/bulb-bench/src/profile.rs:903-922 | all other characters are kept in order |
| Upsert.UpsertIdempotent | lab/bulb-bench/src/profile.rs:888-922 | updating the result again finds that entry and returns the same text |
| CanonicalJson.QuotePrefix | admin-ui/src/pages/hub/nodeLightSettings.ts:367-371 | quoted strings are injective and self-delimiting |
| CanonicalJson.CanonicalPrefix | admin-ui/src/pages/hub/nodeLightSettings.ts:360-372 | canonical texts are self-delimiting and determine the meaning |
| CanonicalJson.CanonicalDecidesMeaning | admin-ui/src/pages/hub/nodeLightSettings.ts:356-372 | for a value without tied keys, texts are equal exactly when the values are equal with objects read as maps |
| CanonicalJson.DecidesIffNoTies | admin-ui/src/pages/hub/nodeLightSettings.ts:356-372 | the test decides equality with a value if and only if no object inside it holds two distinct keys that the comparator ties; it is always sound |
| Overrides.RecordsCompareAsMaps | admin-ui/src/pages/hub/nodeLightSettings.ts:236-248 | the source's record comparisons are equality of maps as soon as one of the records holds no tied keys |
| Overrides.BuildProfileOverrideLoop | admin-ui/src/pages/hub/nodeLightSettings.ts:133-148 | the two loops keep unknown fields and store known ones where they differ |
| Overrides.FindMasked | admin-ui/src/pages/hub/nodeLightSettings.ts:177-185 | the loop finds the first known field that must mask the parent |
| Overrides.StoredIff | admin-ui/src/pages/hub/nodeLightSettings.ts:157-186 | when nothing is stored, read off the inputs; an empty record is never stored |
| Overrides.StoredExactly | admin-ui/src/pages/hub/nodeLightSettings.ts:157-186 | what is stored, field by field: known fields that differ from the base and all unknown ones, or in place of nothing the first known field that must mask the parent |
| Overrides.OverrideRoundTrip | admin-ui/src/pages/hub/nodeLightSettings.ts:157-186 | storing the candidate puts the drafted values in force on all nine fields, if and only if no undefined field inherits a value while nothing is stored |
| Overrides.LostFieldExample | admin-ui/src/pages/hub/nodeLightSettings.ts:177-186 | an edit back to the base's brightness stores nothing, and a field the base leaves open is inherited |
| Overrides.OverrideRoundTripOfExtension | admin-ui/src/pages/hub/NodesPage.tsx:875-890 | with a complete base and a draft that extends it nothing is lost |
| Overrides.UnknownFieldsRetained | admin-ui/src/pages/hub/nodeLightSettings.ts:138-141 | a sparse override keeps every unknown parent and local field, local winning |
| Overrides.WholeDraftRoundTrip | admin-ui/src/pages/hub/nodeLightSettings.ts:157-186 | on all fields the round trip is exact unless an unknown parent field is unmasked |
| Overrides.UnmaskingExample | admin-ui/src/pages/hub/nodeLightSettings.ts:166-174 | a save that unmasks a parent field |
| Overrides.InferenceInvertsMerge | admin-ui/src/pages/hub/nodeLightSettings.ts:202-223 | re-merging the inferred map restores the effective map exactly when no local entry is empty and unshared |
| Overrides.CandidateIsReported | admin-ui/src/pages/hub/nodeLightSettings.ts:188-200 | the reviewed candidate is what merging the stored entry again gives, unless an empty parent entry shows |
| Overrides.StoredIsReported | admin-ui/src/pages/hub/nodeLightSettings.ts:188-200 | the same when the parent may have changed since it was shown: exactly when the entry is stored or still inherited as shown |
| Overrides.RereadMisses | admin-ui/src/pages/hub/NodesPage.tsx:1077-1091 | a node's overrides, read again, miss a change of the parent if and only if own entries mask every changed entry |
| Editor.EffectSettles | admin-ui/src/pages/hub/NodesPage.tsx:900-983 | the reconciliation effect settles after at most two runs |
| Editor.SettledIsCurrent | admin-ui/src/pages/hub/NodesPage.tsx:900-983 | once settled, not stale means all three baselines equal the newest polled values |
| Editor.EffectKeepsEdits | admin-ui/src/pages/hub/NodesPage.tsx:900-983 | a poll replaces a dirty draft exactly when it confirms a pending write, and a clean draft follows it |
| Editor.ConfirmedSaveKeepsDraft | admin-ui/src/pages/hub/NodesPage.tsx:913-943 | over all runs the screen allows, a confirmed save keeps the nine drafted fields exactly when no field is lost and the base did not change in a field that is not stored |
| Editor.ResetDiscardsEdit | admin-ui/src/pages/hub/NodesPage.tsx:1146-1174 | for every known field and edited value a run in which the confirmation of a reset replaces the unsaved edit |
| Editor.EditorIsSafe | admin-ui/src/pages/hub/NodesPage.tsx:1020-1124 | over all runs each write is a reviewed proposal whose fresh reads equal its baselines, and each receipt stands for a write and agrees with its outcome |
| Editor.ReceiptTransitions | admin-ui/src/pages/hub/NodesPage.tsx:913-970 | confirmed exactly on a poll equal to the candidate, conflict exactly on one that differs from candidate and baseline |
| Editor.DispatchIff | admin-ui/src/pages/hub/NodesPage.tsx:1060-1091 | when exactly a reply dispatches the write, at most one a reply |
| Editor.ReviewIsCurrent | admin-ui/src/pages/hub/NodesPage.tsx:1126-1145 | a review starts from baselines equal to the polled values |
| Editor.SavedDraftInForce | admin-ui/src/pages/hub/NodesPage.tsx:875-890 | a saved profile in force as proposed is the draft on all nine fields, if and only if no field is lost |
| Editor.ProposalIsReported | admin-ui/src/pages/hub/NodesPage.tsx:1126-1193 | each operation's candidate is what the appliance reports after applying its patch, if and only if what it inherits is what was shown |
| Editor.WritesAreReported | admin-ui/src/pages/hub/NodesPage.tsx:1093-1124 | over all runs a dispatched write is reported as reviewed if and only if what it inherits is still what was shown; then, and only then, the poll of the result confirms the pending write, unless that state is already the baseline |
| Editor.RereadDispatches | admin-ui/src/pages/hub/NodesPage.tsx:1064-1091 | a changed parent lets the write pass if and only if the node's own entries mask every change |
| Editor.MaskedParentChange | admin-ui/src/pages/hub/NodesPage.tsx:1033-1091 | a run in which a reset is applied over a masked change of the parent and reported as a conflict |
| Confirmation.ReviewIsChange | admin-ui/src/pages/hub/NodesPage.tsx:1126-1193 | every review the screen offers proposes overrides other than the reported ones; a save, unless it loses a field |
| Confirmation.ConfirmedUnlessAdopted | admin-ui/src/pages/hub/NodesPage.tsx:900-983 | over all runs the screen allows, a poll of a pending candidate confirms it unless that very state was the baseline when the reply arrived; always for a save that loses no field |
| Confirmation.AppliedWriteIsConfirmed | admin-ui/src/pages/hub/NodesPage.tsx:1093-1124 | over all runs the screen allows, the poll of an applied write confirms it if and only if what it inherits is still what was shown and its result was not the baseline already |
| Confirmation.StuckPending | admin-ui/src/pages/hub/NodesPage.tsx:900-911 | a pending write whose result is the baseline stays pending: nothing can be used, the same polls change nothing, the next change of the overrides is a conflict |
| Confirmation.AdoptedBeforeReply | admin-ui/src/pages/hub/NodesPage.tsx:940-983 | a run that ends there: the result of a reset is polled and adopted before the reply arrives |
| Requests.BusyIffUnderWay | admin-ui/src/pages/hub/NodesPage.tsx:1020-1124 | over all runs the screen allows, the editor is busy exactly while a request is under way, and there is at most one |
| Requests.StateReplyLaw | admin-ui/src/pages/hub/NodesPage.tsx:1034-1066 | the first read lets the request go on exactly with guards, a durable identity and the reviewed settings; otherwise it ends, not busy, and the baselines turn stale exactly when support is gone or the profile is another or missing |
| Requests.NodesReplyLaw | admin-ui/src/pages/hub/NodesPage.tsx:1068-1091 | the second read dispatches the write exactly with a hash and the reviewed overrides; otherwise the request ends, not busy, and the baselines turn stale exactly when the node is gone or has other overrides |
| Requests.WriteReplyLaw | admin-ui/src/pages/hub/NodesPage.tsx:1093-1123 | an accepted write leaves its pending receipt, a refused one ends the request |
| Requests.StaleIff | admin-ui/src/pages/hub/NodesPage.tsx:900-1017 | which events turn baselines stale and which adopt the polled values, exactly; an adoption leaves a clean settled draft |
| Requests.UserActions | admin-ui/src/pages/hub/NodesPage.tsx:993-1017 | an edit changes exactly the patched fields, an adoption takes over the polled values |
| Requests.RequestIsConfirmed | admin-ui/src/pages/hub/NodesPage.tsx:1020-1193 | an undisturbed request with something to do is reviewed, written once on fresh reads and confirmed exactly when what it inherits is what was shown; the editor ends clean and at rest |
| Editor.ProfileEditor.RunEffect | admin-ui/src/pages/hub/NodesPage.tsx:900-983 | the effect's assignments are one reconciliation step, from states that a run reaches |
| Editor.ProfileEditor.OnNodesReply | admin-ui/src/pages/hub/NodesPage.tsx:1060-1091 | the handling of the second read is that step of the machine, from states that a run reaches |
| Editor.ProfileEditor.ObjectIsSafe | admin-ui/src/pages/hub/NodesPage.tsx:832-1124 | whatever handlers have run on an object, each of its writes was fresh and each receipt stands for one |
| RoomMove.ProposalIsMovable | admin-ui/src/pages/hub/roomAssignment.ts:58-78 | a proposal moves a child between two existing rooms, and with unique ids is movable where it was made |
| RoomMove.ProposalOffered | admin-ui/src/pages/hub/roomAssignment.ts:58-78 | with unique ids a move is offered exactly for a device in an existing room and another existing room |
| RoomMove.MoveDeviceVerified | admin-ui/src/pages/hub/roomAssignment.ts:114-209 | over every interleaving and whatever is lost, the outcome is explained by the requests, replies and topologies of the run: each early reason by its cause, a failed write, a lost read-back, or a receipt that is confirmed exactly on a later read in the target room |
| RoomMove.ExplainedOnce | admin-ui/src/pages/hub/roomAssignment.ts:114-209 | the requests and replies of a run admit one outcome only |
| RoomMove.ExplainedIsSafe | admin-ui/src/pages/hub/roomAssignment.ts:142-184 | nothing is sent before an early failure, otherwise one move, as proposed, which takes effect at most once and only where device and rooms still fit |
| RoomMove.FitMoveIsSent | admin-ui/src/pages/hub/roomAssignment.ts:120-184 | a delivered read with its hash of a fitting topology leads to the move; accepted and read back, to a receipt |
| RoomMove.UnguardedMoveMisapplies | admin-ui/src/pages/hub/roomAssignment.ts:168-184 | an illustration: after another writer moved the device, the same move without the hash takes effect on a topology that no longer fits, and with the hash is refused |
| GuardedOperation.RunGuardedDeviceOperation | admin-ui/src/api.ts:175-231 | for all replies, exactly the exchanges and the outcome they make: identity read when none is supplied, configuration read when a write of it lacks a precondition, then the guarded request, or the failure |
| GuardedOperation.ExactRunIsGuarded | admin-ui/src/api.ts:175-231 | every mutation on the wire carries request id and justified identity, every configuration write a justified precondition, and only reads go before it |
| GuardedOperation.OutcomeIff | admin-ui/src/api.ts:186-227 | each outcome with its exact cause in the replies |
| GuardedOperation.DeviceMutationIff | admin-ui/src/api.ts:247-257 | guarded are all requests but GET and the POST of api/curve, whatever blanks and slashes surround its path |
| GuardedOperation.IdentityIff | admin-ui/src/api.ts:191-194 | the identity is the first property that is not nullish, if it is a text, without its blanks, if any is left |
| GuardedOperation.GuardedWriteIsFresh | admin-ui/src/api.ts:197-220 | an illustration: a configuration write of the wrapper is accepted exactly while the identity and the configuration it was guarded with, supplied or read, are live |
| ProbeSweep.SweepSafe | admin-ui/src/pages/dashboard/probeSweep.ts:19-32 | over every interleaving targets start in order, each at most once, within the concurrency; starts are the settled targets plus those held by a worker |
| ProbeSweep.NoStartAfterStop | admin-ui/src/pages/dashboard/probeSweep.ts:26-29 | nothing starts once the sweep stopped being current |
| ProbeSweep.SweepComplete | admin-ui/src/pages/dashboard/probeSweep.ts:19-32 | a sweep that stays current probes every target exactly once, if and only if it has a worker |
| ProbeSweep.SurvivorReachesAll | admin-ui/src/pages/dashboard/probeSweep.ts:26-31 | with rejections exactly the rejected targets are missed while one worker survives |
| ProbeSweep.DashboardIsSafe | admin-ui/src/pages/dashboard/DashboardPage.tsx:52-90 | the result map only holds results of the most recently started sweep, and the probing flag is exact |
| ProbeSweep.FinishedSweepShowsAll | admin-ui/src/pages/dashboard/DashboardPage.tsx:63-82 | a sweep that ends while current has a result for every hub |
| ProbeSweep.ShownIsCurrent | admin-ui/src/pages/dashboard/DashboardPage.tsx:52-90 | over all runs a sweep of the directory's hubs is current exactly while the tab is visible and the directory is not empty |
| ProbeSweep.ReplyStored | admin-ui/src/pages/dashboard/DashboardPage.tsx:66-80 | a reply is stored under its hub while its sweep is current, and else dropped |
| ProbeSweep.SweepCanFinish | admin-ui/src/pages/dashboard/DashboardPage.tsx:63-82 | from every state with a current sweep its workers and replies alone bring it to its end with a result for every hub |
| ProbeSweep.AbandonedNeverStarts | admin-ui/src/pages/dashboard/DashboardPage.tsx:86-90 | an abandoned sweep never starts another probe |
| EnvProfile.ParseEnvTextLoop | tools/config/rhythm_env.py:246-270 | the loop over the lines computes the specified values or first error |
| EnvProfile.TextIff | tools/config/rhythm_env.py:246-270 | a text is accepted exactly without null bytes, when every line is blank, a comment or an assignment in the stated grammar and no name is assigned twice; the values are those assigned |
| EnvProfile.LineReads | tools/config/rhythm_env.py:250-269 | every line of the grammar, with or without export, quotes of either kind and blanks around each part, assigns its value unless the name is taken |
| EnvProfile.SkippedIff | tools/config/rhythm_env.py:250-252 | exactly blank lines and comments are skipped |
| EnvProfile.SplitLinesLaw | tools/config/rhythm_env.py:250 | lines end at any boundary, a carriage return with its line feed counting as one |
| EnvProfile.ParseClean | tools/config/rhythm_env.py:246-270 | no parsed value holds a line boundary or a null byte |
| EnvProfile.AssignmentReads | tools/config/provision.py:144 | a written line reads back as its key and value, whatever the value holds |
| EnvProfile.SerializeLoop | tools/config/provision.py:131-145 | the loop over the ordered keys computes the specified text |
| EnvProfile.SerializedAt | tools/config/provision.py:131-145 | refused exactly with a line feed, a carriage return or a null byte; otherwise one line for each key with a value, in the registry's order |
| EnvProfile.SerializeRoundTrip | tools/config/provision.py:131-145 | an accepted profile reads back exactly when no value holds a line boundary |
| EnvProfile.VerticalTabIsLost | tools/config/provision.py:141-143 | an accepted value that does not read back |
| EnvProfile.LoadLegacyValuesLoop | tools/config/provision.py:104-128 | the loops over sources and keys compute the specified collection |
| EnvProfile.LastSourceWins | tools/config/provision.py:109-121 | each key comes from the last source that offers it |
| EnvProfile.OfferIff | tools/config/provision.py:109-121 | what a source offers for a key, told from its lines |
| EnvProfile.LegacyValuesIff | tools/config/provision.py:104-128 | the collection key by key: the last offer, no access token for a complete staff login, and the report of unreadable sources |
| EnvProfile.MigrationRoundTrip | tools/config/provision.py:104-145 | for all legacy texts the collected values are written and read back unchanged |
| EnvProfile.LoadProfileLoop | tools/config/rhythm_env.py:346-355 | parsing, overriding from the environment and validating compute the specified result |
| EnvProfile.LoadIff | tools/config/rhythm_env.py:335-356 | the exact outcome of loading, told from file and environment: unreadable, each fault, or the values as they are |
| EnvProfile.ProvisionedProfileLoads | tools/config/rhythm_env.py:335-356 | a collection valid for provisioning is valid again when the written profile is loaded, under every environment, and loads as itself with the environment on top |
| Topology.BuildMembershipLoop | admin-ui/src/pages/hub/topologyMembership.ts:130-164 | the loop builds the specified rooms, children and unassigned devices |
| Topology.ViewIsComplete | admin-ui/src/pages/hub/topologyMembership.ts:130-164 | every room is listed as often as it occurs, with exactly the devices that name it as parent, and every other device is unassigned |
| Topology.ViewIsSorted | admin-ui/src/pages/hub/topologyMembership.ts:130-199 | rooms and children stand in the order of the collation, tied ones in the order of the items |
| Topology.ViewCounts | admin-ui/src/pages/hub/topologyMembership.ts:130-164 | how often the view shows a device, duplicate ids included |
| Topology.PartitionIff | admin-ui/src/pages/hub/topologyMembership.ts:139-148 | children and unassigned partition the devices exactly when no parent id is carried by two rooms |
| Topology.UniqueIdsPartition | admin-ui/src/pages/hub/topologyMembership.ts:130-199 | with unique ids children and unassigned partition the devices and the grouped view agrees |
| Topology.GroupsAgree | admin-ui/src/pages/hub/topologyMembership.ts:166-199 | the grouped view agrees room by room, and its standalone group exactly when ids are not shared |
| RoomBoard.ReconcileLoop | admin-ui/src/pages/hub/roomBoardLayout.ts:88-104 | the loop computes the specified order |
| RoomBoard.ReconcilePermutes | admin-ui/src/pages/hub/roomBoardLayout.ts:88-104 | the result lists every current room exactly once |
| RoomBoard.ReconcileKeepsOrder | admin-ui/src/pages/hub/roomBoardLayout.ts:93-95 | surviving rooms keep their relative order |
| RoomBoard.ReconcileAppends | admin-ui/src/pages/hub/roomBoardLayout.ts:96-103 | rooms of the preferred order come first and the others follow in the appliance's order |
| RoomBoard.ReconcileFixpoint | admin-ui/src/pages/hub/roomBoardLayout.ts:88-104 | an order that is already reconciled is left alone |
| RoomBoard.MoveBeforeLaw | admin-ui/src/pages/hub/roomBoardLayout.ts:106-118 | the moved room is immediately ahead of its target and the others keep their order; a room that is its own target or missing moves nothing |
| RoomBoard.MoveByOffsetLaw | admin-ui/src/pages/hub/roomBoardLayout.ts:120-137 | a move by one place exchanges the room with its neighbour on that side and nothing else, changes nothing at the end, and moving back undoes it |
| RoomBoard.RunsKeepOrder | admin-ui/src/pages/hub/TopologyPage.tsx:500-510 | over every run the order is duplicate-free with exactly the rooms of the last reconciliation or reset |

## Left out

- Rounding error of `f64`, NaN and infinities: `real` stands for validated finite values.
- The wording of limitations, recommendations and error messages, and the capability hints of a proposal.
- The internals of `rhythm-devices` (decoding, printing and validity of entries): parameters of `Upsert`.
- Reading, permissions, atomic writing and renaming of files; only text and value functions are modelled.
- The scanner's 32-bit depth counters: they cannot overflow on texts shorter than four gigabytes.
- Byte offsets inside non-ASCII text: offsets count characters, which cut the same texts.
- JavaScript strings with lone surrogates, and numbers that are not finite.
- Kind spellings, payload shapes and stored room orders: `Topology` and `RoomBoard` start from decoded items and ids.
- The sections of a room's devices, a partition by a finite table of kinds.
- Error messages of the editor, and the correlation and transport details of its requests.
- The registry file of credential profiles: what loading it guarantees is the `Registered` precondition.
- CanonicalJson.DecidesIffNoTies: fields may stand in any order, while `Object.entries` lists integer-like keys first
  in ascending order; a tied pair that holds such a key cannot be reordered in JavaScript. None of the nine known
  field names is integer-like.
- React's scheduling: the effect is a step of its own that may run at any point.
- Scanner.TopLevelObjectRanges: which error it returns for a text that is no array is not characterised; the update
  parses first and never reaches these errors (`Upsert.UpdateOutcome`).
- RoomMove.MoveDeviceVerified: what a move changes on the appliance is left open, so a conflict after an applied move is possible.
