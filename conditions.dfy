/**
 * The status condition record (metav1.Condition) and the "set condition"
 * capability the mirror operations write through. The setter replaces the
 * entry of the same Type, or appends one when there is none.
 */
module Conditions {
  import opened Wrappers

  /** metav1.ConditionStatus is a string; these are its three defined values. */
  type ConditionStatus = string

  const ConditionTrue: ConditionStatus := "True"
  const ConditionFalse: ConditionStatus := "False"
  const ConditionUnknown: ConditionStatus := "Unknown"

  /** An opaque point in time; it is only ever copied. */
  datatype Timestamp = Timestamp(unixNanos: int)

  /**
   * One status condition. A LastTransitionTime of None is Go's zero metav1.Time,
   * an ObservedGeneration of 0 is Go's zero int64: both mean "unset".
   */
  datatype Condition = Condition(
    conditionType: string,
    status: ConditionStatus,
    reason: string,
    message: string,
    lastTransitionTime: Option<Timestamp>,
    observedGeneration: int)

  /** The first condition of the given Type in cs, if any. */
  function Lookup(cs: seq<Condition>, conditionType: string): (r: Option<Condition>)
    ensures r.Some? ==> r.value.conditionType == conditionType
    ensures r.Some? ==> exists i :: 0 <= i < |cs| && cs[i] == r.value &&
                                    forall j :: 0 <= j < i ==> cs[j].conditionType != conditionType
    ensures r.None? ==> forall i :: 0 <= i < |cs| ==> cs[i].conditionType != conditionType
  {
    if cs == [] then None
    else if cs[0].conditionType == conditionType then Some(cs[0])
    else
      var r := Lookup(cs[1..], conditionType);
      if r.Some? then
        var i :| 0 <= i < |cs[1..]| && cs[1..][i] == r.value &&
                 forall j :: 0 <= j < i ==> cs[1..][j].conditionType != conditionType;
        assert cs[i + 1] == r.value;
        assert forall j :: 0 <= j < i + 1 ==> cs[j].conditionType != conditionType by {
          forall j | 0 <= j < i + 1 ensures cs[j].conditionType != conditionType {
            if j > 0 { assert cs[j] == cs[1..][j - 1]; }
          }
        }
        r
      else r
  }

  /** No two conditions in cs share a Type. */
  predicate UniqueTypes(cs: seq<Condition>) {
    forall i, j :: 0 <= i < j < |cs| ==> cs[i].conditionType != cs[j].conditionType
  }

  /** Replaces the first condition of c's Type by c, or appends c when there is none. */
  function Upsert(cs: seq<Condition>, c: Condition): (r: seq<Condition>)
    ensures c in r
    ensures forall k :: 0 <= k < |r| ==> r[k] == c || r[k] in cs
  {
    if cs == [] then [c]
    else if cs[0].conditionType == c.conditionType then [c] + cs[1..]
    else [cs[0]] + Upsert(cs[1..], c)
  }

  /**
   * After an upsert, looking up c's Type yields c, every other Type reads
   * back as before, and the list grows by at most the one new entry.
   */
  lemma {:induction false} UpsertLookup(cs: seq<Condition>, c: Condition, t: string)
    ensures Lookup(Upsert(cs, c), t) == if t == c.conditionType then Some(c) else Lookup(cs, t)
    ensures |Upsert(cs, c)| == if Lookup(cs, c.conditionType).Some? then |cs| else |cs| + 1
  {
    if cs != [] && cs[0].conditionType != c.conditionType {
      UpsertLookup(cs[1..], c, t);
      assert Upsert(cs, c)[1..] == Upsert(cs[1..], c);
    }
  }

  /** An upsert keeps the Types of a condition list unique. */
  lemma {:induction false} UpsertKeepsUniqueTypes(cs: seq<Condition>, c: Condition)
    requires UniqueTypes(cs)
    ensures UniqueTypes(Upsert(cs, c))
  {
    if cs != [] && cs[0].conditionType != c.conditionType {
      UpsertKeepsUniqueTypes(cs[1..], c);
    }
  }

  /** An object that carries a list of conditions, updated in place by Set. */
  class TargetObject {
    var conditions: seq<Condition>

    constructor (conditions: seq<Condition>)
      ensures this.conditions == conditions
    {
      this.conditions := conditions;
    }
  }

  /** The setter: stores c on the target, replacing the entry of the same Type. */
  method Set(target: TargetObject, c: Condition)
    modifies target
    ensures target.conditions == Upsert(old(target.conditions), c)
    ensures forall t :: Lookup(target.conditions, t) ==
                        if t == c.conditionType then Some(c) else Lookup(old(target.conditions), t)
  {
    forall t ensures Lookup(Upsert(target.conditions, c), t) ==
                     if t == c.conditionType then Some(c) else Lookup(target.conditions, t) {
      UpsertLookup(target.conditions, c, t);
    }
    target.conditions := Upsert(target.conditions, c);
  }
}
