/** The broken-pod classifier: a pod is broken when it is in scope (no
    sidecar annotation is configured, or the pod carries the configured
    annotation key) and one of its init containers crash-looped with the
    configured termination message and exit code, and has not since exited
    cleanly. Every filter that is empty (or zero) matches anything. */
module Detect {
  import opened Pods
  import opened Trim

  /** The termination-message filter: both sides compared after trimming
      white space; a filter that trims to nothing matches any message. */
  predicate MatchTerminationMessage(f: Filters, state: Terminated) {
    var want := TrimSpace(f.initContainerTerminationMessage);
    want == "" || want == TrimSpace(state.message)
  }

  /** The exit-code filter: zero matches any code, otherwise the codes must
      be equal. */
  predicate MatchExitCode(f: Filters, state: Terminated) {
    var want := f.initContainerExitCode;
    want == 0 || want == state.exitCode as int
  }

  /** A pod is in scope when no sidecar annotation is configured or the pod
      carries that annotation key (whatever its value). */
  predicate InScope(f: Filters, pod: Pod) {
    f.sidecarAnnotation == "" || f.sidecarAnnotation in pod.annotations
  }

  predicate NameSelected(f: Filters, c: ContainerStatus) {
    f.initContainerName == "" || c.name == f.initContainerName
  }

  /** The container is terminated now, and cleanly: reason "Completed" or
      exit code zero. */
  predicate ExitedCleanly(c: ContainerStatus) {
    c.current.Some? && (c.current.value.reason == "Completed" || c.current.value.exitCode == 0)
  }

  /** The reference definition of a crash-looping container that matches the
      filters, stated as one conjunction. */
  predicate CrashMatches(f: Filters, c: ContainerStatus) {
    && NameSelected(f, c)
    && !ExitedCleanly(c)
    && c.last.Some?
    && MatchTerminationMessage(f, c.last.value)
    && MatchExitCode(f, c.last.value)
  }

  /** The walk over the init-container statuses, in order: a container whose
      name is not selected, or that exited cleanly, is skipped; the first one
      whose last terminated state matches both filters answers true. */
  function ScanStatuses(f: Filters, cs: seq<ContainerStatus>): (found: bool)
    ensures found <==> exists i :: 0 <= i < |cs| && CrashMatches(f, cs[i])
  {
    if cs == [] then false
    else
      var c := cs[0];
      assert forall i :: 1 <= i < |cs| ==> cs[i] == cs[1..][i - 1];
      if f.initContainerName != "" && c.name != f.initContainerName then
        ScanStatuses(f, cs[1..])
      else if c.current.Some? && (c.current.value.reason == "Completed" || c.current.value.exitCode == 0) then
        ScanStatuses(f, cs[1..])
      else if c.last.Some? && MatchTerminationMessage(f, c.last.value) && MatchExitCode(f, c.last.value) then
        true
      else
        ScanStatuses(f, cs[1..])
  }

  /** The classifier: a pod is broken iff it is in scope and some init
      container crash-looped in the way the filters describe. */
  function DetectPod(f: Filters, pod: Pod): (broken: bool)
    ensures broken <==> InScope(f, pod) && exists i :: 0 <= i < |pod.initStatuses| && CrashMatches(f, pod.initStatuses[i])
  {
    if f.sidecarAnnotation != "" && f.sidecarAnnotation !in pod.annotations then
      false
    else
      ScanStatuses(f, pod.initStatuses)
  }

  /** A pod without the configured sidecar annotation is never broken,
      whatever its container statuses say. */
  lemma NoSidecarNeverBroken(f: Filters, pod: Pod, cs: seq<ContainerStatus>)
    requires f.sidecarAnnotation != "" && f.sidecarAnnotation !in pod.annotations
    ensures !DetectPod(f, pod.(initStatuses := cs))
  {
  }

  /** The walk skips a cleanly exited container wherever it stands. */
  lemma {:induction false} ScanSkipsCleanExit(f: Filters, before: seq<ContainerStatus>, c: ContainerStatus, after: seq<ContainerStatus>)
    requires ExitedCleanly(c)
    ensures ScanStatuses(f, before + [c] + after) == ScanStatuses(f, before + after)
  {
    if before == [] {
      assert before + [c] + after == [c] + after;
      assert ([c] + after)[1..] == after;
      assert before + after == after;
    } else {
      assert (before + [c] + after)[0] == (before + after)[0] == before[0];
      assert (before + [c] + after)[1..] == before[1..] + [c] + after;
      assert (before + after)[1..] == before[1..] + after;
      ScanSkipsCleanExit(f, before[1..], c, after);
    }
  }

  /** A container that is terminated now with reason "Completed" or exit code
      zero never makes a pod broken, even when its last terminated state
      matches: adding it anywhere in the statuses changes nothing. */
  lemma CleanExitIgnored(f: Filters, pod: Pod, before: seq<ContainerStatus>, c: ContainerStatus, after: seq<ContainerStatus>)
    requires ExitedCleanly(c)
    ensures DetectPod(f, pod.(initStatuses := before + [c] + after)) == DetectPod(f, pod.(initStatuses := before + after))
  {
    ScanSkipsCleanExit(f, before, c, after);
  }

  /** If every init container exited cleanly, the pod is not broken. */
  lemma AllCleanNotBroken(f: Filters, pod: Pod)
    requires forall i :: 0 <= i < |pod.initStatuses| ==> ExitedCleanly(pod.initStatuses[i])
    ensures !DetectPod(f, pod)
  {
  }

  /** With no container-name filter, any container that has not exited
      cleanly and whose last terminated state matches makes an in-scope pod
      broken. */
  lemma AnyNameMatches(f: Filters, pod: Pod, i: nat)
    requires f.initContainerName == "" && InScope(f, pod)
    requires i < |pod.initStatuses| && !ExitedCleanly(pod.initStatuses[i])
    requires pod.initStatuses[i].last.Some?
    requires MatchTerminationMessage(f, pod.initStatuses[i].last.value)
    requires MatchExitCode(f, pod.initStatuses[i].last.value)
    ensures DetectPod(f, pod)
  {
    assert CrashMatches(f, pod.initStatuses[i]);
  }

  /** The labels of a pod play no part in the classification. */
  lemma DetectIgnoresLabels(f: Filters, pod: Pod, labels: map<string, string>)
    ensures DetectPod(f, pod.(labels := labels)) == DetectPod(f, pod)
  {
    assert pod.(labels := labels).initStatuses == pod.initStatuses;
  }

  /** The message match does not see white space around either the observed
      message or the configured one. */
  lemma MessageMatchIgnoresPadding(f: Filters, state: Terminated, p: string, q: string, p': string, q': string)
    requires AllSpace(p) && AllSpace(q) && AllSpace(p') && AllSpace(q')
    ensures MatchTerminationMessage(f.(initContainerTerminationMessage := p' + f.initContainerTerminationMessage + q'),
                                    state.(message := p + state.message + q))
        == MatchTerminationMessage(f, state)
  {
    TrimSpacePadded(p, state.message, q);
    TrimSpacePadded(p', f.initContainerTerminationMessage, q');
  }

  /** A message filter that is empty or all white space matches any message;
      any other filter needs the trimmed messages to be equal. */
  lemma MessageMatchWildcard(f: Filters, state: Terminated)
    ensures AllSpace(f.initContainerTerminationMessage) ==> MatchTerminationMessage(f, state)
    ensures !AllSpace(f.initContainerTerminationMessage) ==>
      (MatchTerminationMessage(f, state) <==> TrimSpace(f.initContainerTerminationMessage) == TrimSpace(state.message))
  {
    TrimSpaceEmpty(f.initContainerTerminationMessage);
  }

  /** A zero exit-code filter matches any code; a non-zero one only itself. */
  lemma ExitCodeMatch(f: Filters, state: Terminated)
    ensures f.initContainerExitCode == 0 ==> MatchExitCode(f, state)
    ensures f.initContainerExitCode != 0 ==> (MatchExitCode(f, state) <==> f.initContainerExitCode == state.exitCode as int)
  {
  }

  /** A pod with the sidecar annotation whose selected init container last
      terminated with exactly the configured code and message is broken
      while that container crash-loops, and not once it has exited with
      code zero. */
  lemma CrashLoopScenario(f: Filters, pod: Pod, last: Terminated)
    requires InScope(f, pod)
    requires pod.initStatuses == [ContainerStatus(f.initContainerName, None, Some(last))]
    requires last.exitCode as int == f.initContainerExitCode && last.message == f.initContainerTerminationMessage
    ensures DetectPod(f, pod)
    ensures forall now: Terminated :: now.exitCode == 0 ==>
      !DetectPod(f, pod.(initStatuses := [ContainerStatus(f.initContainerName, Some(now), Some(last))]))
  {
    assert CrashMatches(f, pod.initStatuses[0]);
  }

  /** The filters of the scenarios below: the defaults of the repair command
      with exit code 126 and message "driver not ready". */
  function ScenarioFilters(): Filters {
    Filters("", "sidecar.istio.io/status", "istio-validation", "driver not ready", 126, "", "")
  }

  function ScenarioPod(current: Option<Terminated>): Pod {
    Pod("default", "web", map[], map["sidecar.istio.io/status" := "{}"],
        [ContainerStatus("istio-validation", current, Some(Terminated("Error", 126, "driver not ready")))])
  }

  /** A crash-looping validation container with the configured exit code and
      message makes the pod broken; once it is terminated now with code zero
      (and a reason other than "Completed", so the code alone decides) the
      same pod is not broken. */
  lemma ScenarioCrashLoop()
    ensures DetectPod(ScenarioFilters(), ScenarioPod(None))
    ensures !DetectPod(ScenarioFilters(), ScenarioPod(Some(Terminated("Error", 0, ""))))
  {
    var pod := ScenarioPod(None);
    CrashLoopScenario(ScenarioFilters(), pod, Terminated("Error", 126, "driver not ready"));
    assert ScenarioPod(Some(Terminated("Error", 0, ""))) ==
      pod.(initStatuses := [ContainerStatus("istio-validation", Some(Terminated("Error", 0, "")), Some(Terminated("Error", 126, "driver not ready")))]);
  }
}
