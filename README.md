# Mirror conditions

A model of the mirror-condition builder of the cluster-api status-condition utilities
(`util/conditions/v1beta2/mirror.go`). A mirror condition is a copy of one object's status
condition, put onto another object. The builder resolves a list of option directives into a
`MirrorOptions` record. It then produces exactly one condition:

- **Source condition present.** The condition is copied under the target Type. Status, Reason and
  LastTransitionTime are kept. The owner label is appended to the Message as `" (from <owner>)"`,
  and the result is whitespace-trimmed. ObservedGeneration is left unset.
- **Absent, with a fallback whose status is non-empty.** The result is the fallback status,
  reason and message, unchanged.
- **Absent, without a fallback.** The result is an `Unknown` / `NotYetReported` placeholder whose
  message names the source Type and the owner.

Two convenience wrappers fetch the source condition and store the mirror on a target object. The
first uses a typed getter. The second decodes the condition from an unstructured object and
returns the decode error without writing anything.

Layout:

- `wrappers.dfy`: `Option` and `Result`.
- `strings.dfy`: Go's `strings.TrimSpace` on sequences of characters, with `unicode.IsSpace` as
  the space predicate.
- `conditions.dfy`: the `Condition` record, the status constants, the target object (a class whose
  condition list is replaced in place) and the setter. The setter replaces the entry of the same
  Type or appends a new one.
- `mirror.dfy`: everything in `mirror.go`.
  - `MirrorOptions` is a class whose fields the directives change in place.
  - `ApplyOptions` is a loop. It is proved equal to the pure fold `ApplyAll`.
  - "Last write wins" is proved by comparing `ApplyAll` with `ResolvedTarget` and
    `ResolvedFallback`. These two definitions read the directive list from the back.
  - `MirrorOf` is the function that specifies the builder. The builder methods are proved
    equal to it.

The collaborators `Get`, `UnstructuredGet` and `getConditionOwnerInfo` are defined elsewhere in
the `v1beta2` package and are not modelled. The methods that call them take them as parameters,
each a total function supplied by the caller. The results are therefore deterministic:
`MirrorOf` is a function, so two calls with the same inputs give field-for-field equal conditions.

Representation choices:

- `metav1.ConditionStatus` is a string type. The model keeps it as a string. "No fallback" means
  that `fallbackStatus` is the empty string, exactly as the Go check at line 87 tests. A
  `FallbackCondition` directive whose status is empty therefore leads to the placeholder, not to
  the fallback.
- A zero `LastTransitionTime` is modelled as `None`. A zero `ObservedGeneration` is `0`. Timestamps
  are opaque values that are only copied.

## Model

| member | source | states |
|---|---|---|
| `Mirror.MirrorOptions.constructor` | util/conditions/v1beta2/mirror.go:67-69 | a fresh options record has the source Type as target Type and empty fallback fields |
| `Mirror.ApplyToMirror` | util/conditions/v1beta2/mirror.go:32-36 | a target-Type directive writes only the target Type; a fallback directive writes the status, reason and message together; other fields keep their values |
| `Mirror.MirrorOptions.ApplyOptions` | util/conditions/v1beta2/mirror.go:46-53 | applies the directives in list order, changing the record in place, and returns the same record |
| `Mirror.ApplyAllSnoc` | util/conditions/v1beta2/mirror.go:49-51 | applying one more directive after a list is the same as applying the longer list |
| `Mirror.ApplyAllAppend` | util/conditions/v1beta2/mirror.go:49-51 | applying two directive lists in turn is the same as applying their concatenation |
| `Mirror.ApplyAllLastWriteWins` | util/conditions/v1beta2/mirror.go:46-53 | last write wins: the target Type comes from the last target-Type directive (or stays the initial Type), and all three fallback fields come from the last fallback directive (or keep their initial values) |
| `Mirror.NoTargetDirective` | util/conditions/v1beta2/mirror.go:67-70 | without any target-Type directive, the resolved target Type is the initial one |
| `Mirror.MirrorOf` | util/conditions/v1beta2/mirror.go:66-105 | a present source condition wins over any fallback and keeps its status, reason and transition time; a missing one never yields an empty status and leaves the transition time unset; ObservedGeneration is always left unset (the case lemmas below give each outcome in full) |
| `Mirror.MirrorType` | util/conditions/v1beta2/mirror.go:67-99 | in all three cases the mirror's Type is the resolved target Type, and it equals the source Type when no directive overrides it |
| `Mirror.MirrorPresent` | util/conditions/v1beta2/mirror.go:74-85 | with a source condition present, whatever fallback is configured, the mirror copies Status, Reason and LastTransitionTime and leaves ObservedGeneration unset; its message is the source message without leading spaces followed by " (from owner)", or just "(from owner)" when the source message is blank |
| `Mirror.MirroredMessageShape` | util/conditions/v1beta2/mirror.go:81 | trimming the decorated message removes only the source message's leading spaces (and the separator when the message is blank); the trailing ")" stops any trimming at the end |
| `Mirror.MirroredMessageEnds` | util/conditions/v1beta2/mirror.go:81 | the mirrored message ends with "(from owner)" and has no space at either end |
| `Mirror.MirrorFallback` | util/conditions/v1beta2/mirror.go:87-96 | with no source condition and a last fallback directive whose status is non-empty, the mirror has exactly that status, reason and message, with no owner text, and LastTransitionTime and ObservedGeneration unset |
| `Mirror.MirrorNotYetReported` | util/conditions/v1beta2/mirror.go:98-104 | with no source condition and no fallback status, the mirror is Unknown with reason `NotYetReportedReason`, the constant "NotYetReported" of line 30, and message "Condition <source Type> not yet reported from <owner>", and LastTransitionTime and ObservedGeneration unset |
| `Mirror.BuildMirrorCondition` | util/conditions/v1beta2/mirror.go:66-105 | building the options object in place and branching on it gives exactly the condition `MirrorOf` specifies |
| `Mirror.NewMirrorCondition` | util/conditions/v1beta2/mirror.go:60-64 | the result is the mirror of whatever the getter returns for the source Type |
| `Mirror.SetMirrorCondition` | util/conditions/v1beta2/mirror.go:109-112 | the target's condition list becomes the old list with the mirror set. Reading the resolved target Type back gives the mirror, and every other Type reads back unchanged |
| `Mirror.SetMirrorConditionFromUnstructured` | util/conditions/v1beta2/mirror.go:116-124 | if decoding fails, the decode error is returned unchanged and the target is not touched. If it succeeds, no error is returned, exactly the mirror is set, the resolved target Type reads back as the mirror, and every other Type reads back unchanged |
| `Mirror.BoolToStatus` | util/conditions/v1beta2/mirror.go:127-132 | the result is True exactly when the flag is true, and False exactly when it is false |
| `Conditions.Set` | util/conditions/v1beta2/mirror.go:111 | the setter replaces the first entry of the condition's Type, or appends the condition; afterwards that Type reads back as the condition and every other Type reads back as before |
| `Conditions.Upsert` | util/conditions/v1beta2/mirror.go:111 | the list after a set contains the new condition, and every other entry was already in the list |
| `Conditions.UpsertLookup` | util/conditions/v1beta2/mirror.go:122 | after a set, the written Type reads back as the new condition and every other Type as before; the list grows only when the Type was missing |
| `Conditions.UpsertKeepsUniqueTypes` | util/conditions/v1beta2/mirror.go:122 | a set keeps condition Types unique on the target object |
| `Conditions.Lookup` | util/conditions/v1beta2/mirror.go:111 | the read-back of a set: a condition found by Type has that Type and is the first entry of that Type in the list; "not found" means no entry has that Type |
| `Strings.TrimLeft` | util/conditions/v1beta2/mirror.go:81 | the result is a suffix of the input; everything dropped is whitespace; the result does not start with whitespace |
| `Strings.TrimRight` | util/conditions/v1beta2/mirror.go:81 | the result is a prefix of the input; everything dropped is whitespace; the result does not end with whitespace |
| `Strings.IsSpaceLatin1` | util/conditions/v1beta2/mirror.go:81 | below U+0100 exactly tab, newline, vertical tab, form feed, carriage return, space, NEL and NO-BREAK SPACE count as whitespace; `IsSpace` also admits U+1680, U+2000-U+200A, U+2028, U+2029, U+202F, U+205F and U+3000, as `unicode.IsSpace` does |
| `Strings.TrimSpace` | util/conditions/v1beta2/mirror.go:81 | `strings.TrimSpace`: the result is no longer than the input and has no whitespace at either end |
| `Strings.TrimSpaceSlice` | util/conditions/v1beta2/mirror.go:81 | the trimmed string is the contiguous part of the input that starts after its leading whitespace |
| `Strings.TrimSpaceDropsOnlySpaces` | util/conditions/v1beta2/mirror.go:81 | everything trimming removes before and after the kept part is whitespace |
| `Strings.TrimSpaceIdempotent` | util/conditions/v1beta2/mirror.go:81 | trimming twice is the same as trimming once |
| `Strings.TrimLeftConcat` | util/conditions/v1beta2/mirror.go:81 | the leading whitespace of a concatenation is that of the first part, and reaches into the second part only when the first part is all whitespace |

## Left out

- `Get`, `UnstructuredGet` and `getConditionOwnerInfo` are not part of this model. The methods
  take them as function parameters: a getter returning an optional condition, a decoder returning a
  condition or a `DecodeError`, and an owner-label function.
- The option types `TargetConditionType` and `FallbackCondition` are defined in
  `util/conditions/v1beta2/options.go`, which is not part of this model. They are modelled as the
  `MirrorOption` datatype. The first overrides the target Type. The second sets the three
  fallback fields of `MirrorOptions` together.
- Conditions.Set: models only "replace or append by Type". The package's setter, defined
  elsewhere in `v1beta2` and not modelled, also stamps LastTransitionTime and ObservedGeneration
  and orders the list.
- Strings are sequences of decoded characters. Go's byte-level UTF-8 handling, including invalid
  UTF-8 in `strings.TrimSpace`, is not modelled.
- `fmt.Sprintf` is modelled only for the two fixed `%s` formats at lines 81 and 102, as string
  concatenation.
- The builder returns a fresh `*metav1.Condition` pointer. The model returns a condition value,
  because no caller shares or mutates the pointer. A nil directive in the option list, which would
  make Go panic, is not modelled.
- Kubernetes `runtime.Unstructured`, `metav1` types and real timestamp semantics are not modelled.
  Timestamps are opaque values that are only copied or left unset.
