/** The values the repair engine reads: pods, their init-container statuses,
    the filter criteria and the remediation options. Pods are snapshots, so
    they are values here; the store that owns them is a class (module Store). */
module Pods {

  datatype Option<+T> = None | Some(value: T)

  datatype Result<+T, +E> = Success(value: T) | Failure(error: E)

  /** The exit code a container reports is a 32-bit signed integer. */
  newtype int32 = x: int | -0x8000_0000 <= x < 0x8000_0000

  /** A terminated container state: why it stopped, its exit code and its
      termination message. */
  datatype Terminated = Terminated(reason: string, exitCode: int32, message: string)

  /** One init-container status: its name, its current terminated state (if it
      is terminated now) and the terminated state it last left. */
  datatype ContainerStatus = ContainerStatus(
    name: string,
    current: Option<Terminated>,
    last: Option<Terminated>)

  /** A pod snapshot. A missing label or annotation mapping is the empty map. */
  datatype Pod = Pod(
    namespace: string,
    name: string,
    labels: map<string, string>,
    annotations: map<string, string>,
    initStatuses: seq<ContainerStatus>)

  /** A pod is identified by its namespace and name. */
  type Key = (string, string)

  function KeyOf(p: Pod): Key {
    (p.namespace, p.name)
  }

  /** The filter criteria. An empty string or a zero exit code is a wildcard.
      The node name has already been folded into the field selector by the
      caller, so the engine never reads it. */
  datatype Filters = Filters(
    nodeName: string,
    sidecarAnnotation: string,
    initContainerName: string,
    initContainerTerminationMessage: string,
    initContainerExitCode: int,
    fieldSelectors: string,
    labelSelectors: string)

  /** The remediation options: which label to add and which action to take. */
  datatype Options = Options(
    podLabelKey: string,
    podLabelValue: string,
    labelPods: bool,
    deletePods: bool)

  /** What a call to the pod store can fail with. */
  datatype Error =
    | ListFailed
    | NotFound(key: Key)
    | Rejected(key: Key)

  /** No two pods of `ps` share a namespace and name. */
  predicate DistinctKeys(ps: seq<Pod>) {
    forall i, j :: 0 <= i < j < |ps| ==> KeyOf(ps[i]) != KeyOf(ps[j])
  }
}
