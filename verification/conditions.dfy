/** Status conditions on a snapshot and the verdict written to them. */
module Conditions {

  import opened Wrappers
  import opened Objects

  const PassedMessage := "All Integration Pipeline tests passed"
  const FailedMessage := "Some Integration pipeline tests failed"

  /** The position of the first condition of the given type. */
  function FirstIndex(conds: seq<Condition>, kind: string): (r: Option<nat>)
    ensures r.None? <==> forall i :: 0 <= i < |conds| ==> conds[i].kind != kind
    ensures r.Some? ==> r.value < |conds| && conds[r.value].kind == kind &&
                        forall j :: 0 <= j < r.value ==> conds[j].kind != kind
  {
    if conds == [] then None
    else if conds[0].kind == kind then Some(0)
    else
      match FirstIndex(conds[1..], kind)
      case None =>
        assert forall i :: 1 <= i < |conds| ==> conds[i] == conds[1..][i - 1];
        None
      case Some(k) =>
        assert forall j :: 1 <= j < k + 1 ==> conds[j] == conds[1..][j - 1];
        Some(k + 1)
  }

  /** The first index is the unique position of a matching condition with no
      matching condition before it. */
  lemma FirstIndexIs(conds: seq<Condition>, kind: string, k: nat)
    requires k < |conds| && conds[k].kind == kind
    requires forall j :: 0 <= j < k ==> conds[j].kind != kind
    ensures FirstIndex(conds, kind) == Some(k)
  {
  }

  /** The first condition of the given type, as meta.FindStatusCondition returns it. */
  function FindCondition(conds: seq<Condition>, kind: string): (r: Option<Condition>)
    ensures r.None? <==> forall i :: 0 <= i < |conds| ==> conds[i].kind != kind
    ensures r.Some? ==> exists i :: 0 <= i < |conds| && conds[i] == r.value && conds[i].kind == kind &&
                                    forall j :: 0 <= j < i ==> conds[j].kind != kind
  {
    match FirstIndex(conds, kind)
    case None => None
    case Some(k) => Some(conds[k])
  }

  /** Some condition of type `kind` comes before position `i`, so position `i`
      is not the first of that type. */
  ghost predicate AfterFirstOfKind(conds: seq<Condition>, kind: string, i: int)
  {
    exists j :: 0 <= j < i && j < |conds| && conds[j].kind == kind
  }

  /** `r` is `conds` with `c` upserted by type: the first condition of `c`'s
      type is replaced by `c`, or `c` is appended when there is none, and every
      other position keeps its condition. */
  ghost predicate IsUpsert(conds: seq<Condition>, c: Condition, r: seq<Condition>)
  {
    && |r| == |conds| + (if FindCondition(conds, c.kind).None? then 1 else 0)
    && FindCondition(r, c.kind) == Some(c)
    && (forall i :: 0 <= i < |conds| ==> i < |r| && (r[i] == conds[i] || (conds[i].kind == c.kind && r[i] == c)))
    && (forall i :: 0 <= i < |conds| && (conds[i].kind != c.kind || AfterFirstOfKind(conds, c.kind, i)) ==>
          i < |r| && r[i] == conds[i])
  }

  /** The upsert description determines the resulting list. */
  lemma UpsertUnique(conds: seq<Condition>, c: Condition, r1: seq<Condition>, r2: seq<Condition>)
    requires IsUpsert(conds, c, r1) && IsUpsert(conds, c, r2)
    ensures r1 == r2
  {
    assert |r1| == |r2|;
    forall i | 0 <= i < |r1| ensures r1[i] == r2[i] {}
  }

  /** meta.SetStatusCondition reduced to its effect on type, status, reason and
      message: an upsert keyed by condition type. */
  function SetStatusCondition(conds: seq<Condition>, c: Condition): (r: seq<Condition>)
    ensures IsUpsert(conds, c, r)
  {
    match FirstIndex(conds, c.kind)
    case None =>
      var r := conds + [c];
      FirstIndexIs(r, c.kind, |conds|);
      r
    case Some(k) =>
      var r := conds[k := c];
      FirstIndexIs(r, c.kind, k);
      r
  }

  /** Setting a condition of the same type twice leaves only the second write's
      effect: a re-run that overwrites a verdict replaces it in place. */
  lemma SetStatusConditionOverwrites(conds: seq<Condition>, c1: Condition, c2: Condition)
    requires c1.kind == c2.kind
    ensures SetStatusCondition(SetStatusCondition(conds, c1), c2) == SetStatusCondition(conds, c2)
  {
    match FirstIndex(conds, c1.kind)
    case None =>
      var r1 := conds + [c1];
      assert forall j :: 0 <= j < |conds| ==> r1[j] == conds[j];
      FirstIndexIs(r1, c2.kind, |conds|);
      assert r1[|conds| := c2] == conds + [c2];
    case Some(k) =>
      var r1 := conds[k := c1];
      FirstIndexIs(r1, c2.kind, k);
  }

  /** Setting the same condition again changes nothing. */
  lemma SetStatusConditionIdempotent(conds: seq<Condition>, c: Condition)
    ensures SetStatusCondition(SetStatusCondition(conds, c), c) == SetStatusCondition(conds, c)
  {
    SetStatusConditionOverwrites(conds, c, c);
  }

  /** The HACBSTestSucceeded condition for a verdict. */
  function VerdictCondition(passed: bool, message: string): (c: Condition)
    ensures c.kind == TestSucceededCondition
    ensures passed <==> c.status == ConditionTrue
    ensures !passed <==> c.status == ConditionFalse
    ensures c.reason == (if passed then "Passed" else "Failed")
    ensures c.message == message
  {
    if passed then Condition(TestSucceededCondition, ConditionTrue, "Passed", message)
    else Condition(TestSucceededCondition, ConditionFalse, "Failed", message)
  }

  /** The snapshot with its verdict condition upserted; nothing else changes. */
  function WithVerdict(snapshot: Snapshot, passed: bool, message: string): (r: Snapshot)
    ensures IsUpsert(snapshot.conditions, VerdictCondition(passed, message), r.conditions)
    ensures r == snapshot.(conditions := r.conditions)
  {
    snapshot.(conditions := SetStatusCondition(snapshot.conditions, VerdictCondition(passed, message)))
  }

  /** Writing the same verdict twice is a no-op on the second write. */
  lemma WithVerdictIdempotent(snapshot: Snapshot, passed: bool, message: string)
    ensures WithVerdict(WithVerdict(snapshot, passed, message), passed, message)
         == WithVerdict(snapshot, passed, message)
  {
  }

  /** markSnapshotAsPassed: condition True/"Passed", then the status patch whose
      outcome is `patchError`. */
  function MarkSnapshotAsPassed(snapshot: Snapshot, message: string, patchError: Option<Error>)
    : (r: Result<Snapshot>)
    ensures r.Failure? <==> patchError.Some?
    ensures r.Failure? ==> r.error == patchError.value
    ensures r.Success? ==>
      && IsUpsert(snapshot.conditions, Condition(TestSucceededCondition, ConditionTrue, "Passed", message), r.value.conditions)
      && r.value == snapshot.(conditions := r.value.conditions)
  {
    if patchError.Some? then Failure(patchError.value) else Success(WithVerdict(snapshot, true, message))
  }

  /** markSnapshotAsFailed: condition False/"Failed", then the status patch whose
      outcome is `patchError`. */
  function MarkSnapshotAsFailed(snapshot: Snapshot, message: string, patchError: Option<Error>)
    : (r: Result<Snapshot>)
    ensures r.Failure? <==> patchError.Some?
    ensures r.Failure? ==> r.error == patchError.value
    ensures r.Success? ==>
      && IsUpsert(snapshot.conditions, Condition(TestSucceededCondition, ConditionFalse, "Failed", message), r.value.conditions)
      && r.value == snapshot.(conditions := r.value.conditions)
  {
    if patchError.Some? then Failure(patchError.value) else Success(WithVerdict(snapshot, false, message))
  }
}
