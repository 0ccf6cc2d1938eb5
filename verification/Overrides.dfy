/** Sparse light-profile overrides under whole-profile parent inheritance. Records are read as maps:
    by CanonicalJson.CanonicalDecidesMeaning the source's jsonEqual is equality of meanings. */
module Overrides {
  import opened CanonicalJson
  import opened Common

  type Record = map<string, Meaning>

  const PROFILE_OVERRIDE_FIELDS := [
    "curve", "min_color_temp", "max_color_temp", "min_brightness", "max_brightness",
    "max_dim_steps", "fade_ms", "motion_timeout_secs", "rhythm_interval_secs"]

  predicate Known(field: string) {
    field in PROFILE_OVERRIDE_FIELDS
  }

  /** Property access: a missing property reads as undefined. */
  function At(record: Record, key: string): Meaning {
    if key in record then record[key] else MUndefined
  }

  function RecordOf(v: Meaning): Record {
    if v.MObj? then v.fields else map[]
  }

  /** The source's comparison of two records is equality of the maps, whatever their insertion orders,
      as soon as the comparator ties no distinct keys of one of them. */
  lemma {:induction false} RecordsCompareAsMaps(left: Value, right: Value, leq: Order)
    requires Preorder(leq) && (NoTies(left, leq) || NoTies(right, leq))
    requires Wf(left) && Wf(right) && left.Obj? && right.Obj?
    ensures JsonEqual(left, right, leq) <==> RecordOf(Denote(left)) == RecordOf(Denote(right))
  {
    if NoTies(left, leq) {
      CanonicalDecidesMeaning(left, right, leq);
    } else {
      CanonicalDecidesMeaning(right, left, leq);
    }
  }

  function EffectiveProfileConfig(base: Record, override: Record): Record {
    base + override
  }

  // ----- Building a sparse override

  /** The unknown fields of the current override that are not in `todo`. */
  function Kept(current: Record, todo: set<string>): Record {
    current - (todo + set f | f in PROFILE_OVERRIDE_FIELDS)
  }

  /** The first `n` known fields where they differ from the base. */
  function Stored(base: Record, effective: Record, n: nat): Record
    requires n <= |PROFILE_OVERRIDE_FIELDS|
  {
    if n == 0 then map[]
    else
      var field, before := PROFILE_OVERRIDE_FIELDS[n - 1], Stored(base, effective, n - 1);
      if At(effective, field) != At(base, field) then before[field := At(effective, field)] else before
  }

  /** Unknown fields are kept; known fields are stored where they differ from the base. */
  function SparseFields(base: Record, effective: Record, current: Record): Record {
    Kept(current, {}) + Stored(base, effective, |PROFILE_OVERRIDE_FIELDS|)
  }

  function BuildProfileOverride(base: Record, effective: Record, current: Record): Option<Record> {
    var next := SparseFields(base, effective, current);
    if next == map[] then None else Some(next)
  }

  lemma SparseAt(base: Record, effective: Record, current: Record, k: string)
    ensures k in SparseFields(base, effective, current) <==>
      if Known(k) then At(effective, k) != At(base, k) else k in current
    ensures k in SparseFields(base, effective, current) ==>
      SparseFields(base, effective, current)[k] == if Known(k) then At(effective, k) else current[k]
  {
    StoredAt(base, effective, |PROFILE_OVERRIDE_FIELDS|, k);
    assert PROFILE_OVERRIDE_FIELDS[..|PROFILE_OVERRIDE_FIELDS|] == PROFILE_OVERRIDE_FIELDS;
  }

  lemma {:induction false} StoredAt(base: Record, effective: Record, n: nat, k: string)
    requires n <= |PROFILE_OVERRIDE_FIELDS|
    ensures k in Stored(base, effective, n)
      <==> k in PROFILE_OVERRIDE_FIELDS[..n] && At(effective, k) != At(base, k)
    ensures k in Stored(base, effective, n) ==> Stored(base, effective, n)[k] == At(effective, k)
  {
    if n > 0 {
      StoredAt(base, effective, n - 1, k);
      assert PROFILE_OVERRIDE_FIELDS[..n] == PROFILE_OVERRIDE_FIELDS[..n - 1] + [PROFILE_OVERRIDE_FIELDS[n - 1]];
    }
  }

  lemma KeptStep(current: Record, todo: set<string>, key: string)
    requires key in todo && todo <= current.Keys
    ensures Kept(current, todo - {key})
      == if Known(key) then Kept(current, todo) else Kept(current, todo)[key := current[key]]
  {
  }

  lemma StoredStep(kept: Record, base: Record, effective: Record, n: nat, field: string)
    requires n < |PROFILE_OVERRIDE_FIELDS| && field == PROFILE_OVERRIDE_FIELDS[n]
    ensures kept + Stored(base, effective, n + 1) ==
      if At(effective, field) != At(base, field) then (kept + Stored(base, effective, n))[field := At(effective, field)]
      else kept + Stored(base, effective, n)
  {
    AddThenPut(kept, Stored(base, effective, n), field, At(effective, field));
  }

  /** The source's two loops over the entries of the current override and over the known fields. */
  method BuildProfileOverrideLoop(base: Record, effective: Record, current: Record) returns (r: Option<Record>)
    ensures r == BuildProfileOverride(base, effective, current)
  {
    var next: Record := map[];
    var todo := current.Keys;
    while todo != {}
      invariant todo <= current.Keys && next == Kept(current, todo)
      decreases todo
    {
      var key :| key in todo;
      KeptStep(current, todo, key);
      todo := todo - {key};
      if !Known(key) {
        next := next[key := current[key]];
      }
    }
    ghost var kept := next;
    assert kept + Stored(base, effective, 0) == kept;
    var i := 0;
    while i < |PROFILE_OVERRIDE_FIELDS|
      invariant 0 <= i <= |PROFILE_OVERRIDE_FIELDS|
      invariant next == kept + Stored(base, effective, i)
    {
      var field := PROFILE_OVERRIDE_FIELDS[i];
      StoredStep(kept, base, effective, i, field);
      if At(effective, field) != At(base, field) {
        next := next[field := At(effective, field)];
      }
      i := i + 1;
    }
    r := if next == map[] then None else Some(next);
  }

  /** The first known field, from the `i`-th on, that must be stored to mask the parent. */
  function FirstMasked(effective: Record, parentEffective: Record, i: nat): (r: Option<string>)
    requires i <= |PROFILE_OVERRIDE_FIELDS|
    ensures r.Some? ==> Known(r.value) && At(effective, r.value) != MUndefined
    ensures r.Some? ==> At(effective, r.value) != At(parentEffective, r.value)
    ensures r.None? ==> forall j :: i <= j < |PROFILE_OVERRIDE_FIELDS| ==>
      var f := PROFILE_OVERRIDE_FIELDS[j];
      At(effective, f) == MUndefined || At(effective, f) == At(parentEffective, f)
    decreases |PROFILE_OVERRIDE_FIELDS| - i
  {
    if i == |PROFILE_OVERRIDE_FIELDS| then None
    else
      var f := PROFILE_OVERRIDE_FIELDS[i];
      if At(effective, f) != MUndefined && At(effective, f) != At(parentEffective, f) then Some(f)
      else FirstMasked(effective, parentEffective, i + 1)
  }

  function BuildInheritedProfileOverride(
      base: Record, effective: Record, local: Record, parent: Record): Option<Record>
  {
    var parentEffective := EffectiveProfileConfig(base, parent);
    if effective == parentEffective then None
    else
      var sparse := BuildProfileOverride(base, effective, parent + local);
      if sparse.Some? then sparse
      else
        var masked := FirstMasked(effective, parentEffective, 0);
        if masked.Some? then Some(map[masked.value := At(effective, masked.value)]) else None
  }

  /** The loop over the known fields that looks for a field to mask the parent with. */
  method FindMasked(effective: Record, parentEffective: Record) returns (r: Option<string>)
    ensures r == FirstMasked(effective, parentEffective, 0)
  {
    var i := 0;
    while i < |PROFILE_OVERRIDE_FIELDS|
      invariant 0 <= i <= |PROFILE_OVERRIDE_FIELDS|
      invariant FirstMasked(effective, parentEffective, 0) == FirstMasked(effective, parentEffective, i)
    {
      var f := PROFILE_OVERRIDE_FIELDS[i];
      if At(effective, f) != MUndefined && At(effective, f) != At(parentEffective, f) {
        return Some(f);
      }
      i := i + 1;
    }
    return None;
  }

  /** What the editor stores for the profile: the local override, or else the parent's when it has one. */
  function CandidateEffectiveOverride(candidate: Option<Record>, parent: Record): Option<Record> {
    if candidate.Some? then candidate else if parent != map[] then Some(parent) else None
  }

  /** The settings in force once the candidate is stored. */
  function Applied(base: Record, draft: Record, local: Record, parent: Record): Record {
    var stored := CandidateEffectiveOverride(BuildInheritedProfileOverride(base, draft, local, parent), parent);
    EffectiveProfileConfig(base, if stored.Some? then stored.value else map[])
  }

  /** When nothing is stored, read off the inputs: the draft is what the parent gives anyway, or there
      is no unknown field to keep and no known field that differs from the base or masks the parent. */
  ghost predicate StoresNothing(base: Record, draft: Record, local: Record, parent: Record) {
    || draft == base + parent
    || ((forall k :: k in parent + local ==> Known(k))
        && (forall f :: Known(f) ==> At(draft, f) == At(base, f))
        && (forall f :: Known(f) ==> At(draft, f) == MUndefined || At(draft, f) == At(base + parent, f)))
  }

  /** The one way to lose a field: nothing is stored, the draft leaves a known field undefined and
      the inherited settings define it. */
  ghost predicate LosesField(base: Record, draft: Record, local: Record, parent: Record) {
    && StoresNothing(base, draft, local, parent)
    && exists f :: Known(f) && At(draft, f) == MUndefined && At(base + parent, f) != MUndefined
  }

  lemma SparseNoneIff(base: Record, draft: Record, current: Record)
    ensures BuildProfileOverride(base, draft, current).None? <==>
      (forall k :: k in current ==> Known(k)) && forall f :: Known(f) ==> At(draft, f) == At(base, f)
  {
    if BuildProfileOverride(base, draft, current).None? {
      SparseNone(base, draft, current);
    } else {
      var k :| k in SparseFields(base, draft, current);
      SparseAt(base, draft, current, k);
    }
  }

  lemma MaskedIff(effective: Record, parentEffective: Record)
    ensures FirstMasked(effective, parentEffective, 0).None? <==>
      forall f :: Known(f) ==> At(effective, f) == MUndefined || At(effective, f) == At(parentEffective, f)
  {
    if FirstMasked(effective, parentEffective, 0).None? {
      NothingToMask(effective, parentEffective);
    }
  }

  /** What the editor stores is nothing exactly on those inputs, and never an empty record. */
  lemma StoredIff(base: Record, draft: Record, local: Record, parent: Record)
    ensures BuildInheritedProfileOverride(base, draft, local, parent).None?
      <==> StoresNothing(base, draft, local, parent)
    ensures BuildInheritedProfileOverride(base, draft, local, parent) != Some(map[])
  {
    SparseNoneIff(base, draft, parent + local);
    MaskedIff(draft, base + parent);
    StoredCases(base, draft, local, parent);
  }

  lemma StoredCases(base: Record, draft: Record, local: Record, parent: Record)
    ensures BuildInheritedProfileOverride(base, draft, local, parent).None? <==>
      || draft == base + parent
      || (BuildProfileOverride(base, draft, parent + local).None? && FirstMasked(draft, base + parent, 0).None?)
    ensures BuildInheritedProfileOverride(base, draft, local, parent) != Some(map[])
  {
  }

  lemma NothingToMask(effective: Record, parentEffective: Record)
    requires FirstMasked(effective, parentEffective, 0).None?
    ensures forall f :: Known(f) ==> At(effective, f) == MUndefined || At(effective, f) == At(parentEffective, f)
  {
    forall f | Known(f) ensures At(effective, f) == MUndefined || At(effective, f) == At(parentEffective, f) {
      var i :| 0 <= i < |PROFILE_OVERRIDE_FIELDS| && PROFILE_OVERRIDE_FIELDS[i] == f;
    }
  }

  /** The draft must store the field to mask the parent. */
  predicate Masks(draft: Record, inherited: Record, f: string) {
    At(draft, f) != MUndefined && At(draft, f) != At(inherited, f)
  }

  lemma {:induction false} FirstMaskedAt(draft: Record, inherited: Record, i: nat, k: nat)
    requires i <= k < |PROFILE_OVERRIDE_FIELDS| && Masks(draft, inherited, PROFILE_OVERRIDE_FIELDS[k])
    requires forall j :: i <= j < k ==> !Masks(draft, inherited, PROFILE_OVERRIDE_FIELDS[j])
    ensures FirstMasked(draft, inherited, i) == Some(PROFILE_OVERRIDE_FIELDS[k])
    decreases k - i
  {
    if i < k {
      FirstMaskedAt(draft, inherited, i + 1, k);
    }
  }

  /** What belongs into a sparse override: the known fields in which the draft differs from the base, and
      every unknown field of the node's own entry or the parent's, the own value winning. */
  ghost predicate IsSparse(base: Record, draft: Record, local: Record, parent: Record, stored: Record) {
    && (forall k :: k in stored <==> if Known(k) then At(draft, k) != At(base, k) else k in local || k in parent)
    && forall k :: k in stored ==>
         stored[k] == if Known(k) then At(draft, k) else if k in local then local[k] else parent[k]
  }

  /** What is stored, field by field: nothing for a draft that is inherited anyway; otherwise the sparse
      override, or in place of an empty one the first known field that must mask the parent, if any. */
  lemma StoredExactly(base: Record, draft: Record, local: Record, parent: Record, k: nat)
    requires draft != base + parent
    ensures var r := BuildInheritedProfileOverride(base, draft, local, parent);
      && (!IsSparse(base, draft, local, parent, map[]) ==>
            r.Some? && IsSparse(base, draft, local, parent, r.value))
      && (IsSparse(base, draft, local, parent, map[]) && k < |PROFILE_OVERRIDE_FIELDS|
          && Masks(draft, base + parent, PROFILE_OVERRIDE_FIELDS[k])
          && (forall j :: 0 <= j < k ==> !Masks(draft, base + parent, PROFILE_OVERRIDE_FIELDS[j])) ==>
            r == Some(map[PROFILE_OVERRIDE_FIELDS[k] := At(draft, PROFILE_OVERRIDE_FIELDS[k])]))
  {
    var sparse := SparseFields(base, draft, parent + local);
    SparseIsSparse(base, draft, local, parent);
    if sparse != map[] {
      SparseNonEmpty(base, draft, local, parent, sparse);
    } else if && k < |PROFILE_OVERRIDE_FIELDS| && Masks(draft, base + parent, PROFILE_OVERRIDE_FIELDS[k])
              && forall j :: 0 <= j < k ==> !Masks(draft, base + parent, PROFILE_OVERRIDE_FIELDS[j])
    {
      FirstMaskedAt(draft, base + parent, 0, k);
    }
  }

  lemma SparseIsSparse(base: Record, draft: Record, local: Record, parent: Record)
    ensures IsSparse(base, draft, local, parent, SparseFields(base, draft, parent + local))
  {
    var sparse := SparseFields(base, draft, parent + local);
    forall k ensures (k in sparse <==> if Known(k) then At(draft, k) != At(base, k) else k in local || k in parent) {
      SparseAt(base, draft, parent + local, k);
    }
    forall k | k in sparse
      ensures sparse[k] == if Known(k) then At(draft, k) else if k in local then local[k] else parent[k]
    {
      SparseAt(base, draft, parent + local, k);
    }
  }

  lemma SparseNonEmpty(base: Record, draft: Record, local: Record, parent: Record, sparse: Record)
    requires IsSparse(base, draft, local, parent, sparse) && sparse != map[]
    ensures !IsSparse(base, draft, local, parent, map[])
  {
    var k :| k in sparse;
  }

  /** Drafted values on the known fields; on the others the base under the given override. */
  ghost predicate PutsInForce(base: Record, draft: Record, override: Record, applied: Record) {
    forall k :: At(applied, k) == if Known(k) then At(draft, k) else At(base + override, k)
  }

  /** A stored sparse override: drafted known fields, and unknown fields of parent and local. */
  lemma AppliedSparse(base: Record, draft: Record, local: Record, parent: Record)
    requires draft != base + parent && BuildProfileOverride(base, draft, parent + local).Some?
    ensures PutsInForce(base, draft, parent + local, Applied(base, draft, local, parent))
  {
    forall k ensures At(Applied(base, draft, local, parent), k)
      == if Known(k) then At(draft, k) else At(base + (parent + local), k)
    {
      SparseAt(base, draft, parent + local, k);
    }
  }

  lemma SparseNone(base: Record, draft: Record, current: Record)
    requires BuildProfileOverride(base, draft, current).None?
    ensures forall k :: if Known(k) then At(draft, k) == At(base, k) else k !in current
  {
    forall k ensures if Known(k) then At(draft, k) == At(base, k) else k !in current {
      SparseAt(base, draft, current, k);
      assert k !in SparseFields(base, draft, current);
    }
  }

  /** Without a sparse override, a stored masking field leaves the drafted values in force. */
  lemma AppliedMask(base: Record, draft: Record, local: Record, parent: Record)
    requires draft != base + parent && BuildProfileOverride(base, draft, parent + local).None?
    requires BuildInheritedProfileOverride(base, draft, local, parent).Some?
    ensures PutsInForce(base, draft, parent + local, Applied(base, draft, local, parent))
  {
    SparseNone(base, draft, parent + local);
    var f := FirstMasked(draft, base + parent, 0).value;
    assert Applied(base, draft, local, parent) == base[f := At(draft, f)];
  }

  /** Or nothing is stored: the inherited settings stay in force and agree wherever the draft is defined. */
  lemma AppliedNothing(base: Record, draft: Record, local: Record, parent: Record)
    requires draft != base + parent && BuildProfileOverride(base, draft, parent + local).None?
    requires BuildInheritedProfileOverride(base, draft, local, parent).None?
    ensures Applied(base, draft, local, parent) == base + parent
    ensures forall k :: Known(k) ==> At(draft, k) == MUndefined || At(draft, k) == At(base + parent, k)
    ensures forall k :: k in parent + local ==> Known(k)
  {
    assert FirstMasked(draft, base + parent, 0).None?;
    NothingToMask(draft, base + parent);
    forall k | k in parent + local ensures Known(k) {
      SparseAt(base, draft, parent + local, k);
    }
    ApplyParent(base, parent);
  }

  lemma ApplyParent(base: Record, parent: Record)
    ensures var stored := CandidateEffectiveOverride(None, parent);
      EffectiveProfileConfig(base, if stored.Some? then stored.value else map[]) == base + parent
  {
  }

  lemma AppliedInherited(base: Record, draft: Record, local: Record, parent: Record)
    requires draft == base + parent
    ensures Applied(base, draft, local, parent) == draft
    ensures BuildInheritedProfileOverride(base, draft, local, parent).None?
  {
  }

  /** Round trip under inheritance: storing the candidate puts exactly the drafted values in force on
      all nine known fields, unless a field is lost as described. */
  lemma OverrideRoundTrip(base: Record, draft: Record, local: Record, parent: Record)
    ensures (forall f :: Known(f) ==> At(Applied(base, draft, local, parent), f) == At(draft, f))
      <==> !LosesField(base, draft, local, parent)
  {
    StoredIff(base, draft, local, parent);
    if draft == base + parent {
      AppliedInherited(base, draft, local, parent);
    } else if BuildProfileOverride(base, draft, parent + local).Some? {
      AppliedSparse(base, draft, local, parent);
    } else if BuildInheritedProfileOverride(base, draft, local, parent).Some? {
      AppliedMask(base, draft, local, parent);
    } else {
      AppliedNothing(base, draft, local, parent);
    }
  }

  /** The override reported in force for the profile, as the node's own: none when it equals the parent's. */
  function LocalOverride(inForce: Record, parent: Record): Record {
    if inForce == parent then map[] else inForce
  }

  /** A field is lost: the base leaves "fade_ms" open, the parent sets it, and the node has an entry of its
      own with another brightness. Turning the brightness back to the base's leaves nothing to store. */
  lemma LostFieldExample(level: Meaning, own: Meaning, fade: Meaning)
    requires level != own && fade != MUndefined
    ensures var base, inForce, parent: Record :=
        map["min_brightness" := level], map["min_brightness" := own], map["fade_ms" := fade];
      var draft, local := base + inForce + map["min_brightness" := level], LocalOverride(inForce, parent);
      && draft != base + inForce && LosesField(base, draft, local, parent)
      && At(draft, "fade_ms") == MUndefined && At(Applied(base, draft, local, parent), "fade_ms") == fade
  {
    var base, inForce, parent: Record :=
      map["min_brightness" := level], map["min_brightness" := own], map["fade_ms" := fade];
    var draft, local := base + inForce + map["min_brightness" := level], LocalOverride(inForce, parent);
    assert Known("fade_ms") && Known("min_brightness");
    assert "fade_ms" in parent && "fade_ms" !in inForce;
    assert draft == base && local == inForce;
    assert At(base + parent, "fade_ms") == fade;
    StoredIff(base, draft, local, parent);
    AppliedNothing(base, draft, local, parent);
  }

  /** With a base that defines the nine fields and a draft that extends it, nothing is ever lost. */
  lemma OverrideRoundTripOfExtension(base: Record, draft: Record, local: Record, parent: Record)
    requires forall f :: Known(f) ==> f in base && f in draft && draft[f] != MUndefined
    ensures forall f :: Known(f) ==> At(Applied(base, draft, local, parent), f) == At(draft, f)
  {
    OverrideRoundTrip(base, draft, local, parent);
  }

  /** A sparse override retains every unknown field of the parent and of the local override, the
      local value winning. */
  lemma UnknownFieldsRetained(base: Record, draft: Record, local: Record, parent: Record, k: string)
    requires draft != base + parent && BuildProfileOverride(base, draft, parent + local).Some?
    requires !Known(k) && (k in parent || k in local)
    ensures var candidate := BuildInheritedProfileOverride(base, draft, local, parent);
      && candidate.Some? && k in candidate.value
      && candidate.value[k] == if k in local then local[k] else parent[k]
  {
    SparseAt(base, draft, parent + local, k);
  }

  // ----- The whole draft, unknown fields included

  /** No property holds undefined: what a decoded JSON payload guarantees. */
  ghost predicate Defined(record: Record) {
    forall k :: k in record ==> record[k] != MUndefined
  }

  /** The parent has an unknown field that the override in force does not, with a value of its own. */
  ghost predicate Unmasks(base: Record, inForce: Record, parent: Record) {
    exists u :: u in parent && !Known(u) && u !in inForce && !(u in base && base[u] == parent[u])
  }

  /** The editor's situation: a draft made from the settings in force by editing known fields. */
  ghost predicate EditorDraft(base: Record, inForce: Record, parent: Record, patch: Record, draft: Record) {
    && Defined(base) && Defined(inForce) && Defined(parent) && Defined(patch)
    && (forall f :: Known(f) ==> f in base)
    && (forall k :: k in patch ==> Known(k))
    && draft == base + inForce + patch
  }

  /** On all fields the round trip is exact unless the node's own override masked an unknown parent
      field: storing any sparse override then puts that field back in force. */
  lemma WholeDraftRoundTrip(base: Record, inForce: Record, parent: Record, patch: Record, draft: Record)
    requires EditorDraft(base, inForce, parent, patch, draft)
    ensures Applied(base, draft, LocalOverride(inForce, parent), parent) == draft
      <==> draft == base + parent || inForce == parent || !Unmasks(base, inForce, parent)
  {
    var local := LocalOverride(inForce, parent);
    if draft == base + parent {
      AppliedInherited(base, draft, local, parent);
    } else {
      StoredInForce(base, draft, local, parent);
      if inForce == parent || !Unmasks(base, inForce, parent) {
        AppliedDefined(base, draft, local, parent);
        UnknownDrafted(base, inForce, parent, patch, draft);
        SameRecord(Applied(base, draft, local, parent), draft);
      } else {
        UnmaskedDiffers(base, inForce, parent, patch, draft, Applied(base, draft, local, parent));
      }
    }
  }

  lemma UnmaskedDiffers(
      base: Record, inForce: Record, parent: Record, patch: Record, draft: Record, applied: Record)
    requires EditorDraft(base, inForce, parent, patch, draft)
    requires inForce != parent && Unmasks(base, inForce, parent)
    requires PutsInForce(base, draft, parent + inForce, applied)
    ensures applied != draft
  {
    var u :| u in parent && !Known(u) && u !in inForce && !(u in base && base[u] == parent[u]);
    assert At(applied, u) == At(base + (parent + inForce), u) == parent[u];
    assert u !in patch;
    assert At(draft, u) == At(base, u);
  }

  /** The drafted unknown fields are those in force, and agree with the stored ones unless unmasked. */
  lemma UnknownDrafted(base: Record, inForce: Record, parent: Record, patch: Record, draft: Record)
    requires EditorDraft(base, inForce, parent, patch, draft)
    ensures forall u :: !Known(u) ==> At(draft, u) == At(base + inForce, u)
    ensures inForce == parent || !Unmasks(base, inForce, parent) ==>
      forall u :: !Known(u) ==> At(draft, u) == At(base + (parent + LocalOverride(inForce, parent)), u)
  {
    forall u | !Known(u) && (inForce == parent || !Unmasks(base, inForce, parent))
      ensures At(draft, u) == At(base + (parent + LocalOverride(inForce, parent)), u)
    {
      assert u !in patch;
    }
  }

  lemma SameRecord(a: Record, b: Record)
    requires Defined(a) && Defined(b) && forall k :: At(a, k) == At(b, k)
    ensures a == b
  {
    forall k ensures k in a <==> k in b {
      assert At(a, k) == At(b, k);
    }
    forall k | k in a ensures a[k] == b[k] {
      assert At(a, k) == At(b, k);
    }
  }

  /** What is in force after storing, when the draft differs from the inherited settings. */
  lemma StoredInForce(base: Record, draft: Record, local: Record, parent: Record)
    requires draft != base + parent && Defined(draft) && forall f :: Known(f) ==> f in base && f in draft
    ensures PutsInForce(base, draft, parent + local, Applied(base, draft, local, parent))
  {
    if BuildProfileOverride(base, draft, parent + local).Some? {
      AppliedSparse(base, draft, local, parent);
    } else if BuildInheritedProfileOverride(base, draft, local, parent).Some? {
      AppliedMask(base, draft, local, parent);
    } else {
      AppliedNothing(base, draft, local, parent);
      forall k ensures At(base + parent, k) == if Known(k) then At(draft, k) else At(base + (parent + local), k) {
        assert Known(k) ==> k in draft && draft[k] != MUndefined;
        assert !Known(k) ==> k !in parent + local;
      }
    }
  }

  lemma AppliedDefined(base: Record, draft: Record, local: Record, parent: Record)
    requires draft != base + parent && Defined(base) && Defined(draft) && Defined(local) && Defined(parent)
    requires forall f :: Known(f) ==> f in base && f in draft
    ensures Defined(Applied(base, draft, local, parent))
  {
    var applied := Applied(base, draft, local, parent);
    StoredInForce(base, draft, local, parent);
    AppliedKeys(base, draft, local, parent);
    forall k | k in applied ensures applied[k] != MUndefined {
      assert At(applied, k) == if Known(k) then At(draft, k) else At(base + (parent + local), k);
    }
  }

  /** Every field in force comes from the base, the parent, the local override or the known fields. */
  lemma AppliedKeys(base: Record, draft: Record, local: Record, parent: Record)
    ensures forall k :: k in Applied(base, draft, local, parent) ==> Known(k) || k in base + (parent + local)
  {
    forall k | k in Applied(base, draft, local, parent) ensures Known(k) || k in base + (parent + local) {
      SparseAt(base, draft, parent + local, k);
    }
  }

  /** A save that unmasks: the node's own override dropped the parent's field "hue", and editing one
      brightness brings it back. */
  lemma UnmaskingExample(base: Record, level: Meaning)
    requires Defined(base) && "hue" !in base && forall f :: Known(f) ==> f in base
    requires level != MUndefined && At(base, "min_brightness") != level
    ensures var parent, inForce, patch :=
        map["hue" := MNull], map["max_dim_steps" := At(base, "max_dim_steps")], map["min_brightness" := level];
      var draft := base + inForce + patch;
      && EditorDraft(base, inForce, parent, patch, draft)
      && Applied(base, draft, LocalOverride(inForce, parent), parent) != draft
  {
    var parent, inForce, patch :=
      map["hue" := MNull], map["max_dim_steps" := At(base, "max_dim_steps")], map["min_brightness" := level];
    assert Known("min_brightness") && Known("max_dim_steps") && !Known("hue");
    var draft: Record := base + inForce + patch;
    assert "hue" in parent && "hue" !in inForce && "hue" !in draft;
    WholeDraftRoundTrip(base, inForce, parent, patch, draft);
  }

  // ----- Override maps, one entry a profile

  /** The appliance's merge of a node's overrides over its parent's: whole entries, local winning. */
  function Merge(local: Record, parent: Record): Record {
    parent + local
  }

  /** Entries of the effective map that differ from the parent's entry. */
  function InferredLocal(effective: Record, parent: Record): Record {
    effective - set k | k in effective && RecordOf(effective[k]) == RecordOf(At(parent, k))
  }

  ghost predicate Records(overrides: Record) {
    forall k :: k in overrides ==> overrides[k].MObj?
  }

  /** A local entry that is empty and overrides nothing: invisible to the inference. */
  ghost predicate HasEmptyEntry(local: Record, parent: Record) {
    exists k :: k in local && k !in parent && local[k] == MObj(map[])
  }

  /** Inference inverts merging exactly when no local entry is empty and unshared; it then returns
      the local entries that differ from the parent's. */
  lemma InferenceInvertsMerge(local: Record, parent: Record)
    requires Records(local) && Records(parent)
    ensures Merge(InferredLocal(Merge(local, parent), parent), parent) == Merge(local, parent)
      <==> !HasEmptyEntry(local, parent)
    ensures !HasEmptyEntry(local, parent) ==>
      InferredLocal(Merge(local, parent), parent)
        == local - set k | k in local && k in parent && local[k] == parent[k]
  {
    var effective := Merge(local, parent);
    var inferred := InferredLocal(effective, parent);
    if HasEmptyEntry(local, parent) {
      var k :| k in local && k !in parent && local[k] == MObj(map[]);
      assert k in effective && k !in inferred;
      assert k !in Merge(inferred, parent);
    } else {
      forall k | k in effective ensures k in inferred <==> k in local && (k !in parent || local[k] != parent[k]) {
      }
      assert Merge(inferred, parent) == effective;
    }
  }

  function WithSelectedProfileOverride(current: Record, profile: string, override: Option<Record>): Record {
    if override.None? then current - {profile} else current[profile := MObj(override.value)]
  }

  /** An entry given back to the parent is reported as shown: the parent still has the shown entry, or
      has none and none was shown. */
  predicate InheritsAs(parent: Record, shown: Record, profile: string) {
    var entry := RecordOf(At(shown, profile));
    if entry == map[] then profile !in parent else profile in parent && parent[profile] == MObj(entry)
  }

  /** What the appliance reports once the node's own entry is replaced, or given back for None, while
      its parent may no longer be the one that was shown: an own entry is reported as reviewed, an
      inherited one exactly when the parent still has it. */
  lemma StoredIsReported(
      local: Record, parent: Record, shown: Record, profile: string, candidate: Option<Record>)
    ensures Merge(WithSelectedProfileOverride(local, profile, candidate), parent)
      == WithSelectedProfileOverride(
           Merge(local, parent), profile, CandidateEffectiveOverride(candidate, RecordOf(At(shown, profile))))
      <==> candidate.Some? || InheritsAs(parent, shown, profile)
  {
    var stored := CandidateEffectiveOverride(candidate, RecordOf(At(shown, profile)));
    var reported := Merge(WithSelectedProfileOverride(local, profile, candidate), parent);
    var expected := WithSelectedProfileOverride(Merge(local, parent), profile, stored);
    OthersMerged(local, parent, profile, candidate);
    assert expected - {profile} == Merge(local, parent) - {profile};
    SameButOne(reported, expected, profile);
  }

  lemma OthersMerged(local: Record, parent: Record, profile: string, candidate: Option<Record>)
    ensures Merge(WithSelectedProfileOverride(local, profile, candidate), parent) - {profile}
      == Merge(local, parent) - {profile}
  {
  }

  lemma SameButOne(a: Record, b: Record, key: string)
    requires a - {key} == b - {key}
    ensures a == b <==> (key in a <==> key in b) && (key in a && key in b ==> a[key] == b[key])
  {
    if (key in a <==> key in b) && (key in a && key in b ==> a[key] == b[key]) {
      forall k ensures (k in a <==> k in b) && (k in a && k in b ==> a[k] == b[k]) {
        if k != key {
          assert (k in a <==> k in a - {key}) && (k in b <==> k in b - {key});
        }
      }
    }
  }

  /** The reviewed candidate is what the appliance will report: replacing (or, for None, removing) the
      node's own entry and merging again gives the editor's candidate overrides, unless a removal
      uncovers an empty parent entry. */
  lemma CandidateIsReported(local: Record, parent: Record, profile: string, candidate: Option<Record>)
    requires Records(local) && Records(parent)
    ensures var stored := CandidateEffectiveOverride(candidate, RecordOf(At(parent, profile)));
      Merge(WithSelectedProfileOverride(local, profile, candidate), parent)
        == WithSelectedProfileOverride(Merge(local, parent), profile, stored)
      <==> !(candidate.None? && profile in parent && parent[profile] == MObj(map[]))
  {
    StoredIsReported(local, parent, parent, profile, candidate);
  }

  /** The parents agree on every profile that has no local entry. */
  ghost predicate SameUnmasked(local: Record, p: Record, q: Record) {
    forall k :: k !in local ==> (k in p <==> k in q) && (k in p && k in q ==> p[k] == q[k])
  }

  /** A node's overrides, read again, miss a change of its parent exactly when every changed entry is
      masked by a local one. */
  lemma RereadMisses(local: Record, p: Record, q: Record)
    ensures Merge(local, p) == Merge(local, q) <==> SameUnmasked(local, p, q)
  {
    if Merge(local, p) == Merge(local, q) {
      forall k | k !in local ensures (k in p <==> k in q) && (k in p && k in q ==> p[k] == q[k]) {
        assert k in Merge(local, p) <==> k in p;
        assert k in Merge(local, q) <==> k in q;
      }
    }
  }
}
