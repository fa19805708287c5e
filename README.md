# CNI broken-pod repair, modelled in Dafny

This project models the engine of Istio's CNI race-condition repair
(`cni/pkg/repair/repair.go`). A pod is *broken* when its sidecar-injection
init container crash-loops because the pod's network redirection was not in
place when it started. The engine has three parts:

- **Classifier** (`detectPod` and its two closures). A pod is broken when:
  - it is in scope: either no sidecar annotation is configured, or the pod
    carries the configured annotation key;
  - one of its init containers, selected by name, last terminated with the
    configured termination message (compared after `strings.TrimSpace`) and
    exit code;
  - and that container has not since exited cleanly.
- **Per-pod remediations.** `labelBrokenPod` adds a configured label.
  `deleteBrokenPod` deletes the pod. Both re-check the classifier first.
  `ReconcilePod` dispatches to one of them: delete takes precedence over
  label.
- **Bulk operations.** `ListBrokenPods` lists pods through the server-side
  selectors and keeps the broken ones, in order. `LabelBrokenPods` and
  `DeleteBrokenPods` act on every listed broken pod. They never stop at the
  first failure and return the combined error.

Layout:

- `pods.dfy` (module `Pods`): the value types, i.e. pods, container
  statuses, filters, options and store errors.
- `trim.dfy` (module `Trim`): Go's `strings.TrimSpace` over the white-space
  code points of `unicode.IsSpace`.
- `detect.dfy` (module `Detect`): the classifier, and lemmas on its
  wildcard, safety and padding behaviour.
- `store.dfy` (module `Store`): the pod store the engine talks to, a class
  `PodStore` with list, update and delete. The server-side selectors are an
  opaque predicate. Failures are part of the store's state:
  - `listFails` makes every listing fail;
  - the set `failing` holds the keys whose update or delete is rejected;
  - an update or delete of a pod that is not stored answers `NotFound`.
- `remediation.dfy` (module `Remediation`): the specification functions on
  values. These are one label, delete or reconcile step, its fold over a
  list of pods, the broken pods of a listing, and the lemmas about them.
  These functions take the classifier as a parameter `broken: Pod -> bool`.
- `repair.dfy` (module `Repair`): the reconciler, a class
  `BrokenPodReconciler` holding the store, the filters and the options.
  Its methods are proved against the specification functions, with the
  classifier fixed to `DetectPod` with the reconciler's filters.

Combined errors are modelled as a sequence of store errors, empty when the
Go code returns `nil`:
- `multierr.Append` in `LabelBrokenPods`;
- the comma-joined message in `DeleteBrokenPods`.

The per-attempt metric (an increment tagged by action and result) is the
ghost log `repaired` of the reconciler. It gets one `(action, outcome)`
entry per attempt, in order.

## Model

| member | source | states |
|---|---|---|
| Trim.TrimSpace | cni/pkg/repair/repair.go:190-191 | the trimmed string is the slice of the input between an all-white-space prefix and an all-white-space suffix, and it neither starts nor ends with white space (white space as Go's unicode.IsSpace) |
| Trim.TrimSpaceUnique | cni/pkg/repair/repair.go:190-191 | a string made of white space, then a core that neither starts nor ends with white space, then white space, trims to exactly that core |
| Trim.TrimSpaceSplit | cni/pkg/repair/repair.go:190-191 | every string is its trimmed form with white space before and after it |
| Trim.TrimSpaceEmpty | cni/pkg/repair/repair.go:190-191 | a string trims to "" exactly when it is all white space, so an all-white-space message filter is a wildcard |
| Trim.TrimSpaceIdempotent | cni/pkg/repair/repair.go:190-191 | trimming a trimmed string changes nothing |
| Trim.TrimSpaceUnpadded | cni/pkg/repair/repair.go:190-191 | a string that neither starts nor ends with white space trims to itself |
| Trim.TrimSpacePadded | cni/pkg/repair/repair.go:190-191 | white space added at both ends of a string does not change what it trims to |
| Detect.MatchTerminationMessage | cni/pkg/repair/repair.go:188-192 | the message closure: the configured message, trimmed, is empty or equals the trimmed observed message (its meaning is stated by MessageMatchWildcard and MessageMatchIgnoresPadding) |
| Detect.MatchExitCode | cni/pkg/repair/repair.go:194-200 | the exit-code closure: the configured code is zero or equals the observed code (its meaning is stated by ExitCodeMatch) |
| Detect.ScanStatuses | cni/pkg/repair/repair.go:212-239 | the walk over the init-container statuses, with its continues and early return, answers true iff some container is selected by name, has not exited cleanly now, and has a last terminated state matching both the message and the exit-code filter |
| Detect.DetectPod | cni/pkg/repair/repair.go:186-240 | a pod is broken iff it is in scope (no sidecar annotation configured, or the pod carries that key) and some init container crash-looped as the filters describe |
| Detect.NoSidecarNeverBroken | cni/pkg/repair/repair.go:204-208 | with a sidecar annotation configured, a pod without that key is never broken, whatever its container statuses |
| Detect.ScanSkipsCleanExit | cni/pkg/repair/repair.go:223-227 | inserting a container that exited cleanly anywhere in the statuses does not change the walk's answer |
| Detect.CleanExitIgnored | cni/pkg/repair/repair.go:219-227 | a container terminated now with reason "Completed" or exit code 0 never makes a pod broken, even when its last terminated state matches |
| Detect.AllCleanNotBroken | cni/pkg/repair/repair.go:219-227 | a pod whose init containers all exited cleanly is not broken |
| Detect.AnyNameMatches | cni/pkg/repair/repair.go:213-217 | with no container-name filter, any container that has not exited cleanly and whose last state matches makes an in-scope pod broken |
| Detect.DetectIgnoresLabels | cni/pkg/repair/repair.go:186-240 | the classification does not depend on the pod's labels |
| Detect.MessageMatchIgnoresPadding | cni/pkg/repair/repair.go:188-192 | white space around the observed message or around the configured one does not change whether they match (" foo " matches "foo") |
| Detect.MessageMatchWildcard | cni/pkg/repair/repair.go:188-192 | an empty or all-white-space message filter matches any message; any other filter matches exactly the messages with the same trimmed text |
| Detect.ExitCodeMatch | cni/pkg/repair/repair.go:194-200 | exit-code filter 0 matches any code; a non-zero filter matches only that code |
| Detect.CrashLoopScenario | cni/pkg/repair/repair.go:212-239 | an in-scope pod whose selected container last terminated with exactly the configured code and message is broken while crash-looping, and not once it is terminated now with exit code 0 |
| Detect.ScenarioCrashLoop | cni/pkg/repair/repair.go:186-240 | with annotation sidecar.istio.io/status, container istio-validation, code 126 and message "driver not ready": the crash-looping pod is broken, the same pod terminated now with code 0 (reason "Error", so the code alone makes it clean) is not |
| Store.Select | cni/pkg/repair/repair.go:167-170 | every listed pod is stored under its key exactly as listed and is picked by the selectors |
| Store.SelectComplete | cni/pkg/repair/repair.go:167-170 | the listing misses no stored pod the selectors pick |
| Store.SelectDistinct | cni/pkg/repair/repair.go:167-170 | a listing over an enumeration order without repeats has no repeated keys |
| Store.SelectInOrder | cni/pkg/repair/repair.go:167-170 | the listing keeps the server's enumeration order: its pods sit at strictly increasing positions of that order |
| Store.Restrict | cni/pkg/repair/repair.go:155 | the enumeration order after deletes keeps exactly the remaining keys, without repeats |
| Store.RestrictTwice | cni/pkg/repair/repair.go:155 | two successive deletes restrict the enumeration order as one would |
| Store.RestrictAll | cni/pkg/repair/repair.go:155 | restricting the enumeration order to a set holding all its keys changes nothing |
| Store.PodStore.constructor | cni/pkg/repair/repair.go:167-170 | a store holding the given pods, enumeration order, selectors and failures, and satisfying its invariant |
| Store.PodStore.Listing | cni/pkg/repair/repair.go:167-173 | the listing fails exactly when the store's list fails; otherwise it holds pods with distinct keys, each as stored, and every stored pod the selectors pick |
| Store.PodStore.List | cni/pkg/repair/repair.go:167-170 | the list call answers Listing and changes nothing |
| Store.PodStore.Update | cni/pkg/repair/repair.go:113 | an update replaces the stored pod with the one sent, or fails (pod gone: NotFound; rejected: Rejected) and changes nothing; it succeeds iff the pod is stored and its key is not failing; keys and order are kept |
| Store.PodStore.Delete | cni/pkg/repair/repair.go:155 | a delete by namespace and name removes that pod, or fails and changes nothing; it succeeds iff the pod is stored and not failing; the order keeps exactly the remaining keys |
| Remediation.Errors | cni/pkg/repair/repair.go:130-143 | the combined error is empty iff no attempt failed, and holds no more errors than there were attempts |
| Remediation.ErrorsExact | cni/pkg/repair/repair.go:130-143 | the combined error holds the error of every failed attempt, and every error it holds is that of a failed attempt |
| Remediation.Labeled | cni/pkg/repair/repair.go:105-111 | the labeled pod has the same name, annotations and statuses; its labels are the old ones plus key = value, no other label changes |
| Remediation.LabelStep | cni/pkg/repair/repair.go:89-120 | one label attempt: skipped iff the pod is not broken or already carries the key; succeeds iff also the pod is stored and not failing, storing the labeled pod; otherwise the store is unchanged; no other pod ever changes |
| Remediation.LabelTwiceIsNoop | cni/pkg/repair/repair.go:99-103 | labeling a labeled pod (as sent, or as stored after success) is skipped and changes nothing; a pod already carrying the key is skipped whatever the value |
| Remediation.LabelStepOutcomeByKeys | cni/pkg/repair/repair.go:113 | the outcome of a label attempt depends on the store only through which keys are stored |
| Remediation.LabelAll | cni/pkg/repair/repair.go:83-85 | labeling a list never adds or removes a stored pod, and gives one outcome per listed pod |
| Remediation.LabelAllOutcomes | cni/pkg/repair/repair.go:83-85 | each label attempt of a list has the outcome it would have had alone against the original store, so one failure never stops or changes the others |
| Remediation.LabelAllEffect | cni/pkg/repair/repair.go:83-85 | after labeling distinct pods, each pod whose attempt succeeded is stored labeled and every other stored pod is unchanged |
| Remediation.DeleteStep | cni/pkg/repair/repair.go:147-162 | one delete attempt: skipped iff the pod is not broken; succeeds iff broken, stored and not failing, removing exactly that key; remaining pods are never changed |
| Remediation.DeleteStepOutcomeByKey | cni/pkg/repair/repair.go:155 | the outcome of a delete depends on the store only through whether the pod's key is stored |
| Remediation.DeleteAll | cni/pkg/repair/repair.go:131-136 | deleting a list only removes stored pods, never changes a pod it leaves, and gives one outcome per listed pod |
| Remediation.DeleteAllRemoved | cni/pkg/repair/repair.go:131-136 | deleting a list removes a stored key iff some listed pod with that key is broken and its key is not failing |
| Remediation.DeleteAllOutcomes | cni/pkg/repair/repair.go:131-136 | for distinct pods, each delete attempt's outcome is the one it would have had alone |
| Remediation.ReconcileStep | cni/pkg/repair/repair.go:64-73 | with deleting enabled the result is exactly one delete step (its store and its outcome, logged as a delete); else with labeling enabled exactly one label step, logged as a label; else nothing and no log entry; one action at most, so a deleted pod is never labeled |
| Remediation.BrokenOf | cni/pkg/repair/repair.go:175-180 | a pod is among the broken pods of a listing iff it is listed and broken |
| Remediation.BrokenOfOrder | cni/pkg/repair/repair.go:175-180 | the broken pods of a listing are a subsequence of it, in the listing's order, holding each broken pod as often as it is listed and no other pod |
| Remediation.BrokenOfDistinct | cni/pkg/repair/repair.go:175-180 | the broken pods of a listing without repeated keys have no repeated keys |
| Remediation.BrokenOfSnapshots | cni/pkg/repair/repair.go:175-180 | the broken pods of a listing of distinct stored snapshots are again distinct stored snapshots |
| Remediation.ListScenario | cni/pkg/repair/repair.go:176-180 | over three pods of which only the middle one is broken, the list of broken pods is exactly that pod |
| Remediation.LabelListedOutcomes | cni/pkg/repair/repair.go:76-87 | labeling freshly listed pods: each outcome is skip, rejected or success by whether the label is wanted and the key is failing; the combined error is non-empty iff some wanted update was rejected |
| Remediation.LabelListedEffect | cni/pkg/repair/repair.go:76-87 | labeling distinct freshly listed pods: every wanted, non-failing pod is stored labeled, and every stored pod no such attempt concerns is unchanged |
| Remediation.DeleteListedOutcomes | cni/pkg/repair/repair.go:123-145 | deleting distinct freshly listed broken pods: each delete fails iff its key is failing, and the combined error is non-empty iff some delete failed |
| Remediation.LabelBrokenOfEffect | cni/pkg/repair/repair.go:76-87 | after the bulk labeling a stored pod is labeled iff it was listed, is broken, lacks the key and is not failing; every other pod is as it was; no pod appears or disappears |
| Remediation.DeleteBrokenOfEffect | cni/pkg/repair/repair.go:123-145 | after the bulk deletion a stored pod is gone iff it was listed, is broken and is not failing; every pod left is as it was |
| Remediation.DeleteScenario | cni/pkg/repair/repair.go:130-143 | two broken pods whose second delete fails: the first is deleted all the same, and the combined error is exactly the second's failure |
| Repair.LabelBrokenPodIdempotent | cni/pkg/repair/repair.go:92-103 | with the configured classifier, labeling a broken pod a second time is skipped and changes nothing |
| Repair.BrokenPodReconciler.constructor | cni/pkg/repair/repair.go:56-62 | the reconciler holds the given store, filters and options, with an empty outcome log |
| Repair.BrokenPodReconciler.ListBrokenPods | cni/pkg/repair/repair.go:165-183 | a failed listing is passed on; otherwise the answer is the broken pods of the listing, in order |
| Repair.BrokenPodReconciler.LabelBrokenPod | cni/pkg/repair/repair.go:89-120 | the store and the answer are those of one label step, and one (label, outcome) entry is logged |
| Repair.BrokenPodReconciler.DeleteBrokenPod | cni/pkg/repair/repair.go:147-162 | the store and the answer are those of one delete step, the order keeps the remaining keys, and one (delete, outcome) entry is logged |
| Repair.BrokenPodReconciler.ReconcilePod | cni/pkg/repair/repair.go:64-73 | the store, the answer and the log are those of the reconcile step: delete, else label, else nothing and no log entry; the enumeration order keeps exactly the remaining keys |
| Repair.BrokenPodReconciler.LabelEach | cni/pkg/repair/repair.go:83-86 | the loop over the listed pods leaves the store of LabelAll, answers the errors of all failed attempts, and logs one entry per pod |
| Repair.BrokenPodReconciler.LabelBrokenPods | cni/pkg/repair/repair.go:76-87 | a failed listing is answered alone and changes nothing; otherwise a stored pod is labeled iff it was listed, is broken, lacks the key and is not failing, everything else is unchanged, and the answer is the combined error of all attempts |
| Repair.BrokenPodReconciler.DeleteEach | cni/pkg/repair/repair.go:130-136 | the loop over the listed pods leaves the store of DeleteAll, answers the errors of all failed deletes, and logs one entry per pod |
| Repair.BrokenPodReconciler.DeleteBrokenPods | cni/pkg/repair/repair.go:123-145 | a failed listing is answered alone and changes nothing; otherwise a stored pod is gone iff it was listed, is broken and is not failing, the pods left are unchanged, and the answer is the combined error of all attempts |

## Left out

- `StartRepair`, `clientSetup`, the flag parsing of `options.go` and the
  watch-based repair controller are not part of this model. They are
  process wiring: configuration, client construction, and a daemon loop
  calling `ReconcilePod`.
- Logging is left out, and `context.TODO()` is dropped from every store
  call.
- The metrics counter is a ghost log in the reconciler rather than a
  process-wide registry.
- The server-side label and field selector languages are an opaque
  predicate of the store (`selects`). The node name is read only to build
  the field selector outside the engine, so the engine never uses it.
- The store is a map keyed by namespace and name, plus an enumeration order.
  - Resource versions and update conflicts are not modelled; an update
    writes the pod sent.
  - Why a call fails is not modelled either: the store's state decides,
    through `listFails` and `failing`.
- Store.PodStore.Update: does not model the pod the server answers, which
  the engine ignores.
- Combined errors are sequences of store errors, not Go error values. The
  comma-joined message of `DeleteBrokenPods` and the multierr flattening of
  `LabelBrokenPods` both become the list of errors in attempt order.
- `labelBrokenPod` writes the label into the label map it got from the pod
  it was passed. In Go that map is shared with the listed pod. The model
  builds a new labeled pod value, so this aliasing is not captured. A nil
  label or annotation map is the empty map.
- Strings are sequences of Unicode scalar values. Invalid UTF-8, which Go's
  `TrimSpace` would treat as `U+FFFD`, cannot be represented.
- The filter's exit code is an unbounded integer. Go's 64-bit `int` range is
  not enforced. The comparison with the sign-extended 32-bit observed code is
  exact either way.
- Concurrency is left out. Each operation runs alone against the store, so
  there is no pod changing between the listing and the action.
- `LabelEach` and `DeleteEach` are the loops of `LabelBrokenPods` and
  `DeleteBrokenPods`, written as methods of their own. The source has them
  inline.
