/**
 * Mirror conditions: a copy of a status condition of a source object,
 * projected onto a target object, with a fallback or a "not yet reported"
 * placeholder when the source condition is missing.
 *
 * The collaborators that are not part of this model are parameters:
 * the getter (Get), the decoder of an unstructured object (UnstructuredGet)
 * and the owner-label deriver (getConditionOwnerInfo) are total functions
 * supplied by the caller.
 */
module Mirror {
  import opened Wrappers
  import opened Strings
  import opened Conditions

  /** The reason of a placeholder condition generated for a missing source condition. */
  const NotYetReportedReason := "NotYetReported"

  /** The configuration directives a mirror call accepts. */
  datatype MirrorOption =
    | TargetConditionType(conditionType: string)
      // sets the three fallback fields together
    | FallbackCondition(status: ConditionStatus, reason: string, message: string)

  /** The contents of a MirrorOptions record, as a value. */
  datatype OptionValues = OptionValues(
    targetConditionType: string,
    fallbackStatus: ConditionStatus,
    fallbackReason: string,
    fallbackMessage: string)

  /** A fresh record: the target Type is the source Type, no fallback is set. */
  function Defaults(sourceConditionType: string): OptionValues {
    OptionValues(sourceConditionType, "", "", "")
  }

  /** What one directive does to the record. */
  function ApplyOne(v: OptionValues, opt: MirrorOption): OptionValues {
    match opt
    case TargetConditionType(t) => v.(targetConditionType := t)
    case FallbackCondition(s, r, m) => v.(fallbackStatus := s, fallbackReason := r, fallbackMessage := m)
  }

  /** The directives applied to the record one after the other, front to back. */
  function ApplyAll(v: OptionValues, opts: seq<MirrorOption>): OptionValues
    decreases |opts|
  {
    if opts == [] then v else ApplyAll(ApplyOne(v, opts[0]), opts[1..])
  }

  /** Applying a list and then one more directive is applying the longer list. */
  lemma {:induction false} ApplyAllSnoc(v: OptionValues, opts: seq<MirrorOption>, opt: MirrorOption)
    ensures ApplyAll(v, opts + [opt]) == ApplyOne(ApplyAll(v, opts), opt)
    decreases |opts|
  {
    if opts != [] {
      assert (opts + [opt])[1..] == opts[1..] + [opt];
      ApplyAllSnoc(ApplyOne(v, opts[0]), opts[1..], opt);
    }
  }

  /** Applying two lists in turn is applying their concatenation. */
  lemma {:induction false} ApplyAllAppend(v: OptionValues, a: seq<MirrorOption>, b: seq<MirrorOption>)
    ensures ApplyAll(v, a + b) == ApplyAll(ApplyAll(v, a), b)
    decreases |a|
  {
    if a == [] {
      assert a + b == b;
    } else {
      assert (a + b)[1..] == a[1..] + b;
      ApplyAllAppend(ApplyOne(v, a[0]), a[1..], b);
    }
  }

  /** The Type set by the last TargetConditionType directive, else the initial one. */
  function ResolvedTarget(opts: seq<MirrorOption>, initial: string): string
  {
    if opts == [] then initial
    else match opts[|opts| - 1]
      case TargetConditionType(t) => t
      case FallbackCondition(_, _, _) => ResolvedTarget(opts[..|opts| - 1], initial)
  }

  /** The triple set by the last FallbackCondition directive, if there is one. */
  function ResolvedFallback(opts: seq<MirrorOption>): Option<(ConditionStatus, string, string)>
  {
    if opts == [] then None
    else match opts[|opts| - 1]
      case FallbackCondition(s, r, m) => Some((s, r, m))
      case TargetConditionType(_) => ResolvedFallback(opts[..|opts| - 1])
  }

  /**
   * Last write wins: after the directives are applied in order, the target
   * Type is the one the last TargetConditionType directive wrote (the
   * initial one if none did), and the three fallback fields all come from
   * the last FallbackCondition directive (unchanged if none did).
   */
  lemma {:induction false} ApplyAllLastWriteWins(v: OptionValues, opts: seq<MirrorOption>)
    ensures ApplyAll(v, opts).targetConditionType == ResolvedTarget(opts, v.targetConditionType)
    ensures var r := ApplyAll(v, opts);
      (r.fallbackStatus, r.fallbackReason, r.fallbackMessage) ==
        match ResolvedFallback(opts)
        case Some(f) => f
        case None => (v.fallbackStatus, v.fallbackReason, v.fallbackMessage)
    decreases |opts|
  {
    if opts != [] {
      var init, last := opts[..|opts| - 1], opts[|opts| - 1];
      assert opts == init + [last];
      ApplyAllSnoc(v, init, last);
      ApplyAllLastWriteWins(v, init);
    }
  }

  /** Options accumulated before a mirror call; ApplyToMirror changes its fields in place. */
  class MirrorOptions {
    var targetConditionType: string
    var fallbackStatus: ConditionStatus
    var fallbackReason: string
    var fallbackMessage: string

    /** The record's fields as a value. */
    function Values(): OptionValues
      reads this
    {
      OptionValues(targetConditionType, fallbackStatus, fallbackReason, fallbackMessage)
    }

    /** A record whose target Type is the source Type and whose fallback fields are empty. */
    constructor (sourceConditionType: string)
      ensures Values() == Defaults(sourceConditionType)
    {
      targetConditionType := sourceConditionType;
      fallbackStatus, fallbackReason, fallbackMessage := "", "", "";
    }

    /** Applies the directives in list order and returns this record, for chaining. */
    method ApplyOptions(opts: seq<MirrorOption>) returns (self: MirrorOptions)
      modifies this
      ensures self == this
      ensures Values() == ApplyAll(old(Values()), opts)
    {
      var i := 0;
      while i < |opts|
        invariant 0 <= i <= |opts|
        invariant Values() == ApplyAll(old(Values()), opts[..i])
      {
        assert opts[..i + 1] == opts[..i] + [opts[i]];
        ApplyAllSnoc(old(Values()), opts[..i], opts[i]);
        ApplyToMirror(opts[i], this);
        i := i + 1;
      }
      assert opts[..i] == opts;
      self := this;
    }
  }

  /** A directive applies itself to a MirrorOptions record. */
  method ApplyToMirror(opt: MirrorOption, o: MirrorOptions)
    modifies o
    ensures o.Values() == ApplyOne(old(o.Values()), opt)
  {
    match opt
    case TargetConditionType(t) =>
      o.targetConditionType := t;
    case FallbackCondition(s, r, m) =>
      o.fallbackStatus := s;
      o.fallbackReason := r;
      o.fallbackMessage := m;
  }

  /** The message of a mirrored condition: the source message, decorated with the owner. */
  function MirroredMessage(message: string, owner: string): string {
    TrimSpace(message + " (from " + owner + ")")
  }

  /** The message of a placeholder for a condition that was never reported. */
  function NotYetReportedMessage(sourceConditionType: string, owner: string): string {
    "Condition " + sourceConditionType + " not yet reported from " + owner
  }

  /**
   * The condition a mirror call produces, given the owner label of the
   * source object, the source condition (None when it does not exist),
   * the source condition Type and the directives.
   */
  function MirrorOf(owner: string, condition: Option<Condition>, sourceConditionType: string,
                    opts: seq<MirrorOption>): (r: Condition)
    // a present source condition wins over any fallback: its status, reason and transition time are kept
    ensures condition.Some? ==>
      && r.status == condition.value.status && r.reason == condition.value.reason
      && r.lastTransitionTime == condition.value.lastTransitionTime
    // an absent condition never yields an empty status, and leaves the transition time unset
    ensures condition.None? ==> r.status != "" && r.lastTransitionTime == None
    // the generation is left for the setter to stamp
    ensures r.observedGeneration == 0
  {
    var o := ApplyAll(Defaults(sourceConditionType), opts);
    match condition
    case Some(c) =>
      Condition(o.targetConditionType, c.status, c.reason, MirroredMessage(c.message, owner),
                c.lastTransitionTime, 0)
    case None =>
      if o.fallbackStatus != "" then
        Condition(o.targetConditionType, o.fallbackStatus, o.fallbackReason, o.fallbackMessage, None, 0)
      else
        Condition(o.targetConditionType, ConditionUnknown, NotYetReportedReason,
                  NotYetReportedMessage(sourceConditionType, owner), None, 0)
  }

  /** The owner decoration a mirrored message ends with. */
  function FromOwner(owner: string): string {
    "(from " + owner + ")"
  }

  /** The separator before the decoration is a space that trimming removes. */
  lemma TrimLeftDecoration(owner: string)
    ensures TrimLeft(" " + FromOwner(owner)) == FromOwner(owner)
  {
    var tail := " " + FromOwner(owner);
    assert tail[0] == ' ' && tail[1..] == FromOwner(owner);
    assert FromOwner(owner)[0] == '(';
  }

  /**
   * Leading spaces of the decorated message: those of the source message,
   * and the separator too when the source message is empty or all spaces.
   */
  lemma TrimLeftDecorated(message: string, owner: string)
    ensures TrimLeft(message + (" " + FromOwner(owner))) ==
      if TrimLeft(message) == [] then FromOwner(owner) else TrimLeft(message) + (" " + FromOwner(owner))
  {
    TrimLeftConcat(message, " " + FromOwner(owner));
    TrimLeftDecoration(owner);
  }

  /**
   * The mirrored message: the source message without its leading spaces,
   * followed by " (from <owner>)"; when the source message is empty or all
   * spaces, just "(from <owner>)".
   */
  lemma MirroredMessageShape(message: string, owner: string)
    ensures MirroredMessage(message, owner) ==
      if TrimLeft(message) == [] then FromOwner(owner) else TrimLeft(message) + (" " + FromOwner(owner))
  {
    MirroredMessageTrims(message, owner);
    TrimLeftDecorated(message, owner);
    var l := TrimLeft(message + (" " + FromOwner(owner)));
    EndsInParenthesis(l);
  }

  /** The mirrored message trims the source message followed by the separated decoration. */
  lemma MirroredMessageTrims(message: string, owner: string)
    ensures MirroredMessage(message, owner) == TrimRight(TrimLeft(message + (" " + FromOwner(owner))))
  {
    assert message + " (from " + owner + ")" == message + (" " + FromOwner(owner));
  }

  /** A string that ends in a closing parenthesis keeps its end when trimmed. */
  lemma EndsInParenthesis(l: string)
    requires l != [] && l[|l| - 1] == ')'
    ensures TrimRight(l) == l
  {
    TrimRightNoTrailingSpace(l);
  }

  /**
   * The mirrored message ends with "(from <owner>)" and neither starts nor
   * ends with a space.
   */
  lemma MirroredMessageEnds(message: string, owner: string)
    ensures var m, from := MirroredMessage(message, owner), FromOwner(owner);
      && |from| <= |m| && m[|m| - |from|..] == from
      && !IsSpace(m[0]) && !IsSpace(m[|m| - 1])
  {
    MirroredMessageShape(message, owner);
    DecoratedEnds(TrimLeft(message), owner);
  }

  /**
   * Text that does not start with a space, followed by the separated
   * decoration (or the decoration alone), ends with the decoration and has
   * no space at either end.
   */
  lemma DecoratedEnds(p: string, owner: string)
    requires p == [] || !IsSpace(p[0])
    ensures var m, from := if p == [] then FromOwner(owner) else p + (" " + FromOwner(owner)), FromOwner(owner);
      && |from| <= |m| && m[|m| - |from|..] == from
      && !IsSpace(m[0]) && !IsSpace(m[|m| - 1])
  {
    var from := FromOwner(owner);
    assert from[0] == '(' && from[|from| - 1] == ')';
    if p != [] {
      var m := p + (" " + from);
      assert m == (p + " ") + from;
      assert m[0] == p[0];
    }
  }

  /**
   * In every case the mirror has the resolved target Type: the one set by the
   * last TargetConditionType directive, or the source Type when there is none.
   */
  lemma MirrorType(owner: string, condition: Option<Condition>, sourceConditionType: string,
                   opts: seq<MirrorOption>)
    ensures MirrorOf(owner, condition, sourceConditionType, opts).conditionType
            == ResolvedTarget(opts, sourceConditionType)
    ensures (forall i :: 0 <= i < |opts| ==> !opts[i].TargetConditionType?) ==>
            MirrorOf(owner, condition, sourceConditionType, opts).conditionType == sourceConditionType
  {
    ApplyAllLastWriteWins(Defaults(sourceConditionType), opts);
    if forall i :: 0 <= i < |opts| ==> !opts[i].TargetConditionType? {
      NoTargetDirective(opts, sourceConditionType);
    }
  }

  /** Without a TargetConditionType directive the resolved Type is the initial one. */
  lemma {:induction false} NoTargetDirective(opts: seq<MirrorOption>, initial: string)
    requires forall i :: 0 <= i < |opts| ==> !opts[i].TargetConditionType?
    ensures ResolvedTarget(opts, initial) == initial
  {
    if opts != [] {
      NoTargetDirective(opts[..|opts| - 1], initial);
    }
  }

  /**
   * Source condition present: Status, Reason and LastTransitionTime are
   * copied, ObservedGeneration is left unset, and the message is the source
   * message decorated with the owner. This holds whatever fallback the
   * directives configure.
   */
  lemma MirrorPresent(owner: string, c: Condition, sourceConditionType: string, opts: seq<MirrorOption>)
    ensures var r := MirrorOf(owner, Some(c), sourceConditionType, opts);
      && r.conditionType == ResolvedTarget(opts, sourceConditionType)
      && r.status == c.status && r.reason == c.reason
      && r.lastTransitionTime == c.lastTransitionTime && r.observedGeneration == 0
      && r.message == if TrimLeft(c.message) == [] then FromOwner(owner)
                      else TrimLeft(c.message) + (" " + FromOwner(owner))
  {
    MirrorType(owner, Some(c), sourceConditionType, opts);
    MirroredMessageShape(c.message, owner);
  }

  /**
   * Source condition absent and the last FallbackCondition directive has a
   * non-empty status: the mirror is exactly that fallback triple, with no
   * owner decoration, and LastTransitionTime and ObservedGeneration unset.
   */
  lemma MirrorFallback(owner: string, sourceConditionType: string, opts: seq<MirrorOption>)
    requires ResolvedFallback(opts).Some? && ResolvedFallback(opts).value.0 != ""
    ensures var r, f := MirrorOf(owner, None, sourceConditionType, opts), ResolvedFallback(opts).value;
      && r.conditionType == ResolvedTarget(opts, sourceConditionType)
      && r.status == f.0 && r.reason == f.1 && r.message == f.2
      && r.lastTransitionTime == None && r.observedGeneration == 0
  {
    ApplyAllLastWriteWins(Defaults(sourceConditionType), opts);
  }

  /**
   * Source condition absent and no fallback configured (no FallbackCondition
   * directive, or the last one has an empty status): the mirror is an
   * Unknown / NotYetReported placeholder naming the source Type and the owner.
   */
  lemma MirrorNotYetReported(owner: string, sourceConditionType: string, opts: seq<MirrorOption>)
    requires ResolvedFallback(opts).None? || ResolvedFallback(opts).value.0 == ""
    ensures var r := MirrorOf(owner, None, sourceConditionType, opts);
      && r.conditionType == ResolvedTarget(opts, sourceConditionType)
      && r.status == ConditionUnknown && r.reason == NotYetReportedReason == "NotYetReported"
      && r.message == "Condition " + sourceConditionType + " not yet reported from " + owner
      && r.lastTransitionTime == None && r.observedGeneration == 0
  {
    ApplyAllLastWriteWins(Defaults(sourceConditionType), opts);
  }

  /**
   * newMirrorCondition: builds a MirrorOptions record, applies the directives
   * to it, and constructs the mirror condition from it.
   */
  method BuildMirrorCondition<S>(sourceObj: S, ownerInfo: S -> string, condition: Option<Condition>,
                                 sourceConditionType: string, opts: seq<MirrorOption>)
    returns (r: Condition)
    ensures r == MirrorOf(ownerInfo(sourceObj), condition, sourceConditionType, opts)
  {
    var mirrorOpt := new MirrorOptions(sourceConditionType);
    var _ := mirrorOpt.ApplyOptions(opts);
    var conditionOwner := ownerInfo(sourceObj);
    if condition.Some? {
      var c := condition.value;
      return Condition(mirrorOpt.targetConditionType, c.status, c.reason,
                       TrimSpace(c.message + " (from " + conditionOwner + ")"), c.lastTransitionTime, 0);
    }
    if mirrorOpt.fallbackStatus != "" {
      return Condition(mirrorOpt.targetConditionType, mirrorOpt.fallbackStatus, mirrorOpt.fallbackReason,
                       mirrorOpt.fallbackMessage, None, 0);
    }
    return Condition(mirrorOpt.targetConditionType, ConditionUnknown, NotYetReportedReason,
                     "Condition " + sourceConditionType + " not yet reported from " + conditionOwner, None, 0);
  }

  /** NewMirrorCondition: fetches the source condition through the getter, then mirrors it. */
  method NewMirrorCondition<S>(sourceObj: S, get: (S, string) -> Option<Condition>, ownerInfo: S -> string,
                               sourceConditionType: string, opts: seq<MirrorOption>)
    returns (r: Condition)
    ensures r == MirrorOf(ownerInfo(sourceObj), get(sourceObj, sourceConditionType), sourceConditionType, opts)
  {
    var condition := get(sourceObj, sourceConditionType);
    r := BuildMirrorCondition(sourceObj, ownerInfo, condition, sourceConditionType, opts);
  }

  /** SetMirrorCondition: mirrors the source condition and stores the result on the target. */
  method SetMirrorCondition<S>(sourceObj: S, target: TargetObject, get: (S, string) -> Option<Condition>,
                               ownerInfo: S -> string, sourceConditionType: string, opts: seq<MirrorOption>)
    modifies target
    ensures target.conditions ==
      Upsert(old(target.conditions),
             MirrorOf(ownerInfo(sourceObj), get(sourceObj, sourceConditionType), sourceConditionType, opts))
    ensures var t := ResolvedTarget(opts, sourceConditionType);
      && Lookup(target.conditions, t) ==
           Some(MirrorOf(ownerInfo(sourceObj), get(sourceObj, sourceConditionType), sourceConditionType, opts))
      && forall u :: u != t ==> Lookup(target.conditions, u) == Lookup(old(target.conditions), u)
  {
    var mirrorCondition := NewMirrorCondition(sourceObj, get, ownerInfo, sourceConditionType, opts);
    MirrorType(ownerInfo(sourceObj), get(sourceObj, sourceConditionType), sourceConditionType, opts);
    Set(target, mirrorCondition);
  }

  /** The error the decoder of an unstructured object reports. */
  datatype DecodeError = DecodeError(detail: string)

  /**
   * SetMirrorConditionFromUnstructured: decodes the source condition from an
   * unstructured object; a decode error is returned unchanged and nothing is
   * written; otherwise the mirror is stored on the target and no error is returned.
   */
  method SetMirrorConditionFromUnstructured<U>(sourceObj: U, target: TargetObject,
                                               unstructuredGet: (U, string) -> Result<Option<Condition>, DecodeError>,
                                               ownerInfo: U -> string, sourceConditionType: string,
                                               opts: seq<MirrorOption>)
    returns (err: Option<DecodeError>)
    modifies target
    ensures unstructuredGet(sourceObj, sourceConditionType).Failure? ==>
      && err == Some(unstructuredGet(sourceObj, sourceConditionType).error)
      && target.conditions == old(target.conditions)
    ensures unstructuredGet(sourceObj, sourceConditionType).Success? ==>
      && err == None
      && target.conditions ==
           Upsert(old(target.conditions),
                  MirrorOf(ownerInfo(sourceObj), unstructuredGet(sourceObj, sourceConditionType).value,
                           sourceConditionType, opts))
    ensures unstructuredGet(sourceObj, sourceConditionType).Success? ==>
      var t := ResolvedTarget(opts, sourceConditionType);
      && Lookup(target.conditions, t) ==
           Some(MirrorOf(ownerInfo(sourceObj), unstructuredGet(sourceObj, sourceConditionType).value,
                         sourceConditionType, opts))
      && forall u :: u != t ==> Lookup(target.conditions, u) == Lookup(old(target.conditions), u)
  {
    var got := unstructuredGet(sourceObj, sourceConditionType);
    if got.Failure? {
      return Some(got.error);
    }
    var mirrorCondition := BuildMirrorCondition(sourceObj, ownerInfo, got.value, sourceConditionType, opts);
    MirrorType(ownerInfo(sourceObj), got.value, sourceConditionType, opts);
    Set(target, mirrorCondition);
    return None;
  }

  /** BoolToStatus: true is the True status, false the False status. */
  function BoolToStatus(status: bool): (r: ConditionStatus)
    ensures r == ConditionTrue <==> status
    ensures r == ConditionFalse <==> !status
  {
    if status then ConditionTrue else ConditionFalse
  }
}
