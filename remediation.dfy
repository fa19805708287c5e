/** What the remediation actions do, stated on values: one step per pod
    (label or delete, each gated by the classifier), the fold of a step over
    a list of pods, and the filter that picks the broken pods of a listing.
    The methods of the reconciler (module Repair) are proved against these. */
module Remediation {
  import opened Pods
  import opened Store

  datatype Action = LabelAction | DeleteAction

  /** How one remediation attempt ended. */
  datatype Outcome = Skipped | Succeeded | Failed(error: Error)

  /** One entry of the outcome log: which action, how it ended. */
  datatype Repaired = Repaired(action: Action, outcome: Outcome)

  function OutcomeOf(err: Option<Error>): Outcome {
    if err.None? then Succeeded else Failed(err.value)
  }

  function ErrorOf(out: Outcome): Option<Error> {
    if out.Failed? then Some(out.error) else None
  }

  /** The errors of the failed attempts, in order: the combined error, empty
      when nothing failed. */
  function Errors(outs: seq<Outcome>): (errs: seq<Error>)
    ensures |errs| == 0 <==> forall i :: 0 <= i < |outs| ==> !outs[i].Failed?
    ensures |errs| <= |outs|
  {
    if outs == [] then []
    else
      var n := |outs| - 1;
      var front := outs[..n];
      assert forall i :: 0 <= i < n ==> outs[i] == front[i];
      Errors(front) + (if outs[n].Failed? then [outs[n].error] else [])
  }

  /** The combined error holds the error of every failed attempt and no
      other. */
  lemma {:induction false} ErrorsExact(outs: seq<Outcome>)
    ensures forall i :: 0 <= i < |outs| && outs[i].Failed? ==> outs[i].error in Errors(outs)
    ensures forall e :: e in Errors(outs) ==> exists i :: 0 <= i < |outs| && outs[i] == Failed(e)
    decreases |outs|
  {
    if outs != [] {
      var n := |outs| - 1;
      var front := outs[..n];
      ErrorsExact(front);
      assert outs == front + [outs[n]];
      ErrorsSnoc(front, outs[n]);
      forall i | 0 <= i < |outs| && outs[i].Failed? ensures outs[i].error in Errors(outs) {
        if i < n {
          assert outs[i] == front[i];
        }
      }
      forall e | e in Errors(outs) ensures exists i :: 0 <= i < |outs| && outs[i] == Failed(e) {
        if e in Errors(front) {
          var i :| 0 <= i < |front| && front[i] == Failed(e);
          assert outs[i] == front[i];
        } else {
          assert outs[n] == Failed(e);
        }
      }
    }
  }

  /** The log entries for a run of attempts of one action. */
  function Records(a: Action, outs: seq<Outcome>): seq<Repaired> {
    seq(|outs|, i requires 0 <= i < |outs| => Repaired(a, outs[i]))
  }

  /** One more attempt adds its error, if it failed, at the end. */
  lemma ErrorsSnoc(outs: seq<Outcome>, out: Outcome)
    ensures Errors(outs + [out]) == Errors(outs) + (if out.Failed? then [out.error] else [])
  {
    assert (outs + [out])[..|outs|] == outs;
  }

  /** One more attempt adds its log entry at the end of a log. */
  lemma RecordsSnoc(log: seq<Repaired>, a: Action, outs: seq<Outcome>, out: Outcome)
    ensures log + Records(a, outs + [out]) == log + Records(a, outs) + [Repaired(a, out)]
  {
    assert Records(a, outs + [out]) == Records(a, outs) + [Repaired(a, out)];
  }

  // ---------------------------------------------------------------------------
  // Labeling

  /** `p` with the configured label added; nothing else about it changes. */
  function Labeled(o: Options, p: Pod): (q: Pod)
    ensures KeyOf(q) == KeyOf(p) && q.annotations == p.annotations && q.initStatuses == p.initStatuses
    ensures q.labels.Keys == p.labels.Keys + {o.podLabelKey} && q.labels[o.podLabelKey] == o.podLabelValue
    ensures forall k :: k in p.labels && k != o.podLabelKey ==> q.labels[k] == p.labels[k]
  {
    p.(labels := p.labels[o.podLabelKey := o.podLabelValue])
  }

  /** The label action acts on a pod that is broken and does not carry the
      label key yet, whatever value it might have. */
  predicate WantsLabel(broken: Pod -> bool, o: Options, p: Pod) {
    broken(p) && o.podLabelKey !in p.labels
  }

  /** One label attempt on the pod snapshot `p` against the stored pods `m`:
      skipped unless the label is wanted, otherwise an update with the label
      added, which fails when the pod is gone or its key is failing. */
  function LabelStep(broken: Pod -> bool, o: Options, failing: set<Key>, m: map<Key, Pod>, p: Pod): (r: (map<Key, Pod>, Outcome))
    ensures r.0.Keys == m.Keys
    ensures forall k :: k in m && k != KeyOf(p) ==> r.0[k] == m[k]
    ensures r.1 == Skipped <==> !WantsLabel(broken, o, p)
    ensures r.1 == Succeeded <==> WantsLabel(broken, o, p) && KeyOf(p) in m && KeyOf(p) !in failing
    ensures r.1 == Succeeded ==> r.0[KeyOf(p)] == Labeled(o, p)
    ensures r.1 != Succeeded ==> r.0 == m
  {
    if !broken(p) then (m, Skipped)
    else if o.podLabelKey in p.labels then (m, Skipped)
    else
      var (m', err) := UpdateEffect(m, failing, Labeled(o, p));
      (m', OutcomeOf(err))
  }

  /** Labeling is idempotent and never overwrites: once a pod has been
      labeled, labeling it again (as the update sent it, or as the store now
      holds it) is skipped and changes nothing; a pod that already carries the
      key is skipped whatever the value. This needs only that the label does
      not change whether the pod is broken. */
  lemma LabelTwiceIsNoop(broken: Pod -> bool, o: Options, failing: set<Key>, m: map<Key, Pod>, p: Pod)
    requires broken(Labeled(o, p)) == broken(p)
    ensures var (m1, out1) := LabelStep(broken, o, failing, m, p);
            && LabelStep(broken, o, failing, m1, Labeled(o, p)) == (m1, Skipped)
            && (out1 == Succeeded ==> LabelStep(broken, o, failing, m1, m1[KeyOf(p)]) == (m1, Skipped))
    ensures o.podLabelKey in p.labels ==> LabelStep(broken, o, failing, m, p) == (m, Skipped)
  {
    var q := Labeled(o, p);
    assert q.labels[o.podLabelKey := o.podLabelValue] == q.labels;
    assert Labeled(o, q) == q;
  }

  /** The outcome of a label attempt depends on the stored pods only through
      which keys are stored. */
  lemma LabelStepOutcomeByKeys(broken: Pod -> bool, o: Options, failing: set<Key>, m1: map<Key, Pod>, m2: map<Key, Pod>, p: Pod)
    requires m1.Keys == m2.Keys
    ensures LabelStep(broken, o, failing, m1, p).1 == LabelStep(broken, o, failing, m2, p).1
  {
  }

  /** The label action applied to each pod of `ps` in turn: the final store
      and every attempt's outcome. Each attempt's outcome is the one it would
      have had alone, so a failure never stops or changes the later ones. */
  function LabelAll(broken: Pod -> bool, o: Options, failing: set<Key>, m: map<Key, Pod>, ps: seq<Pod>): (r: (map<Key, Pod>, seq<Outcome>))
    ensures r.0.Keys == m.Keys && |r.1| == |ps|
    decreases |ps|
  {
    if ps == [] then (m, [])
    else
      var n := |ps| - 1;
      var (m1, outs) := LabelAll(broken, o, failing, m, ps[..n]);
      var (m2, out) := LabelStep(broken, o, failing, m1, ps[n]);
      (m2, outs + [out])
  }

  /** Labeling one more pod of a list is one more label step after the
      others. */
  lemma LabelAllNext(broken: Pod -> bool, o: Options, failing: set<Key>, m: map<Key, Pod>, ps: seq<Pod>, i: nat,
                     before: map<Key, Pod>, outs: seq<Outcome>)
    requires i < |ps| && (before, outs) == LabelAll(broken, o, failing, m, ps[..i])
    ensures var s := LabelStep(broken, o, failing, before, ps[i]);
            LabelAll(broken, o, failing, m, ps[..i + 1]) == (s.0, outs + [s.1])
  {
    assert ps[..i + 1][..i] == ps[..i];
  }

  /** Each label attempt's outcome is the one it would have had alone, so
      a failure never stops or changes the later ones. */
  lemma {:induction false} LabelAllOutcomes(broken: Pod -> bool, o: Options, failing: set<Key>, m: map<Key, Pod>, ps: seq<Pod>)
    ensures var r := LabelAll(broken, o, failing, m, ps);
            forall i :: 0 <= i < |ps| ==> r.1[i] == LabelStep(broken, o, failing, m, ps[i]).1
    decreases |ps|
  {
    if ps != [] {
      var n := |ps| - 1;
      var front := ps[..n];
      LabelAllOutcomes(broken, o, failing, m, front);
      var r0 := LabelAll(broken, o, failing, m, front);
      LabelAllNext(broken, o, failing, m, ps, n, r0.0, r0.1);
      assert ps[..n + 1] == ps;
      LabelStepOutcomeByKeys(broken, o, failing, r0.0, m, ps[n]);
      var r := LabelAll(broken, o, failing, m, ps);
      forall i | 0 <= i < |ps| ensures r.1[i] == LabelStep(broken, o, failing, m, ps[i]).1 {
        if i < n {
          assert r.1[i] == r0.1[i];
          assert front[i] == ps[i];
        }
      }
    }
  }

  /** The store after labeling a list of distinct pods: every pod whose
      attempt succeeded holds the label, every other stored pod is as it was. */
  lemma {:induction false} LabelAllEffect(broken: Pod -> bool, o: Options, failing: set<Key>, m: map<Key, Pod>, ps: seq<Pod>)
    requires DistinctKeys(ps)
    ensures var r := LabelAll(broken, o, failing, m, ps);
            forall i :: 0 <= i < |ps| && r.1[i] == Succeeded ==> KeyOf(ps[i]) in r.0 && r.0[KeyOf(ps[i])] == Labeled(o, ps[i])
    ensures var r := LabelAll(broken, o, failing, m, ps);
            forall k :: k in m && (forall i :: 0 <= i < |ps| && KeyOf(ps[i]) == k ==> r.1[i] != Succeeded) ==> r.0[k] == m[k]
    decreases |ps|
  {
    if ps != [] {
      var n := |ps| - 1;
      var front := ps[..n];
      assert forall i :: 0 <= i < n ==> front[i] == ps[i];
      LabelAllEffect(broken, o, failing, m, front);
      var r0 := LabelAll(broken, o, failing, m, front);
      var r := LabelAll(broken, o, failing, m, ps);
      assert r == (LabelStep(broken, o, failing, r0.0, ps[n]).0, r0.1 + [LabelStep(broken, o, failing, r0.0, ps[n]).1]);
      forall i | 0 <= i < |ps| && r.1[i] == Succeeded
        ensures KeyOf(ps[i]) in r.0 && r.0[KeyOf(ps[i])] == Labeled(o, ps[i])
      {
        if i < n {
          assert KeyOf(ps[i]) != KeyOf(ps[n]);
          assert r.1[i] == r0.1[i];
        }
      }
      forall k | k in m && (forall i :: 0 <= i < |ps| && KeyOf(ps[i]) == k ==> r.1[i] != Succeeded)
        ensures r.0[k] == m[k]
      {
        assert forall i :: 0 <= i < n && KeyOf(front[i]) == k ==> r0.1[i] != Succeeded by {
          forall i | 0 <= i < n && KeyOf(front[i]) == k ensures r0.1[i] != Succeeded {
            assert r.1[i] == r0.1[i];
          }
        }
      }
    }
  }

  // ---------------------------------------------------------------------------
  // Deleting

  /** One delete attempt: skipped unless the pod is broken, otherwise a delete
      by namespace and name, which fails when the pod is gone or its key is
      failing. A delete never changes a pod it leaves in the store. */
  function DeleteStep(broken: Pod -> bool, failing: set<Key>, m: map<Key, Pod>, p: Pod): (r: (map<Key, Pod>, Outcome))
    ensures r.0.Keys == if r.1 == Succeeded then m.Keys - {KeyOf(p)} else m.Keys
    ensures forall k :: k in r.0 ==> r.0[k] == m[k]
    ensures r.1 == Skipped <==> !broken(p)
    ensures r.1 == Succeeded <==> broken(p) && KeyOf(p) in m && KeyOf(p) !in failing
  {
    if !broken(p) then (m, Skipped)
    else
      var (m', err) := DeleteEffect(m, failing, (p.namespace, p.name));
      (m', OutcomeOf(err))
  }

  /** The outcome of a delete attempt depends on the stored pods only through
      whether the pod's key is stored. */
  lemma DeleteStepOutcomeByKey(broken: Pod -> bool, failing: set<Key>, m1: map<Key, Pod>, m2: map<Key, Pod>, p: Pod)
    requires KeyOf(p) in m1 <==> KeyOf(p) in m2
    ensures DeleteStep(broken, failing, m1, p).1 == DeleteStep(broken, failing, m2, p).1
  {
  }

  /** The delete action applied to each pod of `ps` in turn. */
  function DeleteAll(broken: Pod -> bool, failing: set<Key>, m: map<Key, Pod>, ps: seq<Pod>): (r: (map<Key, Pod>, seq<Outcome>))
    ensures |r.1| == |ps|
    ensures r.0.Keys <= m.Keys && forall k :: k in r.0 ==> r.0[k] == m[k]
    decreases |ps|
  {
    if ps == [] then (m, [])
    else
      var n := |ps| - 1;
      var (m1, outs) := DeleteAll(broken, failing, m, ps[..n]);
      var (m2, out) := DeleteStep(broken, failing, m1, ps[n]);
      (m2, outs + [out])
  }

  /** Deleting one more pod of a list is one more delete step after the
      others. */
  lemma DeleteAllNext(broken: Pod -> bool, failing: set<Key>, m: map<Key, Pod>, ps: seq<Pod>, i: nat,
                      before: map<Key, Pod>, outs: seq<Outcome>)
    requires i < |ps| && (before, outs) == DeleteAll(broken, failing, m, ps[..i])
    ensures var s := DeleteStep(broken, failing, before, ps[i]);
            DeleteAll(broken, failing, m, ps[..i + 1]) == (s.0, outs + [s.1])
  {
    assert ps[..i + 1][..i] == ps[..i];
  }

  /** Deleting a list removes exactly the stored keys of the listed broken
      pods whose delete is not rejected. */
  lemma {:induction false} DeleteAllRemoved(broken: Pod -> bool, failing: set<Key>, m: map<Key, Pod>, ps: seq<Pod>)
    ensures var r := DeleteAll(broken, failing, m, ps);
            forall k :: k in m ==>
              (k !in r.0 <==> exists i :: 0 <= i < |ps| && KeyOf(ps[i]) == k && broken(ps[i]) && k !in failing)
    decreases |ps|
  {
    if ps != [] {
      var n := |ps| - 1;
      var front := ps[..n];
      DeleteAllRemoved(broken, failing, m, front);
      var r0 := DeleteAll(broken, failing, m, front);
      DeleteAllNext(broken, failing, m, ps, n, r0.0, r0.1);
      assert ps[..n + 1] == ps;
      var r := DeleteAll(broken, failing, m, ps);
      assert r.0 == DeleteStep(broken, failing, r0.0, ps[n]).0;
      forall k | k in m
        ensures k !in r.0 <==> exists i :: 0 <= i < |ps| && KeyOf(ps[i]) == k && broken(ps[i]) && k !in failing
      {
        if k !in r0.0 {
          var i :| 0 <= i < |front| && KeyOf(front[i]) == k && broken(front[i]) && k !in failing;
          assert ps[i] == front[i];
        } else {
          forall i | 0 <= i < n ensures !(KeyOf(ps[i]) == k && broken(ps[i]) && k !in failing) {
            assert ps[i] == front[i];
          }
        }
      }
    }
  }

  /** For distinct pods, each delete attempt's outcome is the one it would
      have had alone: a failure never stops or changes the later ones. */
  lemma {:induction false} DeleteAllOutcomes(broken: Pod -> bool, failing: set<Key>, m: map<Key, Pod>, ps: seq<Pod>)
    requires DistinctKeys(ps)
    ensures var r := DeleteAll(broken, failing, m, ps);
            forall i :: 0 <= i < |ps| ==> r.1[i] == DeleteStep(broken, failing, m, ps[i]).1
    decreases |ps|
  {
    if ps != [] {
      var n := |ps| - 1;
      var front := ps[..n];
      DistinctKeysFront(ps);
      DeleteAllOutcomes(broken, failing, m, front);
      var r0 := DeleteAll(broken, failing, m, front);
      DeleteAllKeeps(broken, failing, m, front, KeyOf(ps[n]));
      DeleteStepOutcomeByKey(broken, failing, r0.0, m, ps[n]);
      DeleteAllNext(broken, failing, m, ps, n, r0.0, r0.1);
      assert ps[..n + 1] == ps;
      var r := DeleteAll(broken, failing, m, ps);
      forall i | 0 <= i < |ps| ensures r.1[i] == DeleteStep(broken, failing, m, ps[i]).1 {
        if i < n {
          assert r.1[i] == r0.1[i];
          assert front[i] == ps[i];
        }
      }
    }
  }

  /** A delete of a list never removes a key none of its pods has. */
  lemma DeleteAllKeeps(broken: Pod -> bool, failing: set<Key>, m: map<Key, Pod>, ps: seq<Pod>, k: Key)
    requires forall i :: 0 <= i < |ps| ==> KeyOf(ps[i]) != k
    ensures k in m ==> k in DeleteAll(broken, failing, m, ps).0
  {
    DeleteAllRemoved(broken, failing, m, ps);
  }

  // ---------------------------------------------------------------------------
  // Dispatch

  /** One reconciliation: delete when deleting is enabled, else label when
      labeling is enabled, else nothing (and no log entry). */
  function ReconcileStep(broken: Pod -> bool, o: Options, failing: set<Key>, m: map<Key, Pod>, p: Pod): (r: (map<Key, Pod>, Option<Repaired>))
    ensures o.deletePods ==> r.1.Some? && r.1.value.action == DeleteAction
    ensures !o.deletePods && o.labelPods ==> r.1.Some? && r.1.value.action == LabelAction
    ensures !o.deletePods && !o.labelPods ==> r == (m, None)
    ensures o.deletePods ==> r.0.Keys <= m.Keys && forall k :: k in r.0 ==> r.0[k] == m[k]
    ensures !o.deletePods ==> r.0.Keys == m.Keys
    ensures o.deletePods ==>
              var d := DeleteStep(broken, failing, m, p);
              r == (d.0, Some(Repaired(DeleteAction, d.1)))
    ensures !o.deletePods && o.labelPods ==>
              var l := LabelStep(broken, o, failing, m, p);
              r == (l.0, Some(Repaired(LabelAction, l.1)))
  {
    if o.deletePods then
      var (m', out) := DeleteStep(broken, failing, m, p);
      (m', Some(Repaired(DeleteAction, out)))
    else if o.labelPods then
      var (m', out) := LabelStep(broken, o, failing, m, p);
      (m', Some(Repaired(LabelAction, out)))
    else
      (m, None)
  }

  // ---------------------------------------------------------------------------
  // Listing

  /** The pods of `ps` are stored under their keys exactly as listed. */
  predicate Snapshots(m: map<Key, Pod>, ps: seq<Pod>) {
    forall i :: 0 <= i < |ps| ==> KeyOf(ps[i]) in m && m[KeyOf(ps[i])] == ps[i]
  }

  /** `xs` is `ys` with some elements left out, the rest in the same order. */
  predicate IsSubsequence<T(==)>(xs: seq<T>, ys: seq<T>)
    decreases |ys|
  {
    if xs == [] then true
    else if ys == [] then false
    else if xs[|xs| - 1] == ys[|ys| - 1] then IsSubsequence(xs[..|xs| - 1], ys[..|ys| - 1])
    else IsSubsequence(xs, ys[..|ys| - 1])
  }

  /** The broken pods of a listing: exactly the listed pods the classifier
      accepts, each as often as it is listed, in the listing's order. */
  function BrokenOf(broken: Pod -> bool, ps: seq<Pod>): (r: seq<Pod>)
    ensures forall p :: p in r <==> p in ps && broken(p)
  {
    if ps == [] then []
    else
      var n := |ps| - 1;
      var rest := BrokenOf(broken, ps[..n]);
      assert ps == ps[..n] + [ps[n]];
      if broken(ps[n]) then rest + [ps[n]] else rest
  }

  /** One more listed pod adds itself at the end when it is broken. */
  lemma BrokenOfSnoc(broken: Pod -> bool, ps: seq<Pod>, p: Pod)
    ensures BrokenOf(broken, ps + [p]) == BrokenOf(broken, ps) + if broken(p) then [p] else []
  {
    assert (ps + [p])[..|ps|] == ps;
  }

  /** The broken pods keep the listing's order and are each kept as often
      as they are listed. */
  lemma {:induction false} BrokenOfOrder(broken: Pod -> bool, ps: seq<Pod>)
    ensures IsSubsequence(BrokenOf(broken, ps), ps)
    ensures forall p :: multiset(BrokenOf(broken, ps))[p] == if broken(p) then multiset(ps)[p] else 0
    decreases |ps|
  {
    if ps != [] {
      var n := |ps| - 1;
      var front := ps[..n];
      BrokenOfOrder(broken, front);
      assert ps == front + [ps[n]];
      BrokenOfSnoc(broken, front, ps[n]);
      var rest := BrokenOf(broken, front);
      if broken(ps[n]) {
        assert (rest + [ps[n]])[..|rest|] == rest;
      } else {
        assert rest != [] ==> rest[|rest| - 1] in rest;
      }
    }
  }

  /** Adding a pod whose key is new keeps the keys distinct. */
  lemma DistinctKeysSnoc(xs: seq<Pod>, p: Pod)
    requires DistinctKeys(xs) && forall i :: 0 <= i < |xs| ==> KeyOf(xs[i]) != KeyOf(p)
    ensures DistinctKeys(xs + [p])
  {
  }

  /** All but the last of distinct pods are distinct, and none shares the
      last one's key. */
  lemma DistinctKeysFront(ps: seq<Pod>)
    requires DistinctKeys(ps) && ps != []
    ensures var n := |ps| - 1;
            DistinctKeys(ps[..n]) && forall i :: 0 <= i < n ==> KeyOf(ps[..n][i]) != KeyOf(ps[n])
  {
    var n := |ps| - 1;
    assert forall i :: 0 <= i < n ==> ps[..n][i] == ps[i];
  }

  /** The broken pods of a listing of distinct pods are distinct. */
  lemma {:induction false} BrokenOfDistinct(broken: Pod -> bool, ps: seq<Pod>)
    requires DistinctKeys(ps)
    ensures DistinctKeys(BrokenOf(broken, ps))
    decreases |ps|
  {
    if ps != [] {
      var n := |ps| - 1;
      var front := ps[..n];
      assert ps == front + [ps[n]];
      assert DistinctKeys(front);
      BrokenOfDistinct(broken, front);
      BrokenOfSnoc(broken, front, ps[n]);
      var b0 := BrokenOf(broken, front);
      if broken(ps[n]) {
        forall i | 0 <= i < |b0| ensures KeyOf(b0[i]) != KeyOf(ps[n]) {
          assert b0[i] in front;
          var l :| 0 <= l < n && front[l] == b0[i];
          assert ps[l] == b0[i];
        }
        DistinctKeysSnoc(b0, ps[n]);
      }
    }
  }

  /** The broken pods of a listing of distinct pods that are all stored as
      listed are again distinct and stored as listed. */
  lemma BrokenOfSnapshots(broken: Pod -> bool, m: map<Key, Pod>, ps: seq<Pod>)
    requires DistinctKeys(ps) && Snapshots(m, ps)
    ensures DistinctKeys(BrokenOf(broken, ps)) && Snapshots(m, BrokenOf(broken, ps))
  {
    BrokenOfDistinct(broken, ps);
    var b := BrokenOf(broken, ps);
    forall i | 0 <= i < |b| ensures KeyOf(b[i]) in m && m[KeyOf(b[i])] == b[i] {
      assert b[i] in ps;
      var l :| 0 <= l < |ps| && ps[l] == b[i];
    }
  }

  /** Only the middle of three listed pods is broken: it alone is kept. */
  lemma ListScenario(broken: Pod -> bool, a: Pod, b: Pod, c: Pod)
    requires !broken(a) && broken(b) && !broken(c)
    ensures BrokenOf(broken, [a, b, c]) == [b]
  {
    var e: seq<Pod> := [];
    assert [a] == e + [a] && [a, b] == [a] + [b] && [a, b, c] == [a, b] + [c];
    BrokenOfSnoc(broken, e, a);
    BrokenOfSnoc(broken, [a], b);
    BrokenOfSnoc(broken, [a, b], c);
  }

  // ---------------------------------------------------------------------------
  // Bulk actions over a listing

  /** The outcomes of labeling freshly listed pods: each is skip, rejected
      or success by whether the label is wanted and the key is failing, and
      the combined error is non-empty exactly when some wanted update was
      rejected. */
  lemma LabelListedOutcomes(broken: Pod -> bool, o: Options, failing: set<Key>, m: map<Key, Pod>, ps: seq<Pod>)
    requires Snapshots(m, ps)
    ensures var r := LabelAll(broken, o, failing, m, ps);
            forall i :: 0 <= i < |ps| ==>
              r.1[i] == if !WantsLabel(broken, o, ps[i]) then Skipped
                        else if KeyOf(ps[i]) in failing then Failed(Rejected(KeyOf(ps[i])))
                        else Succeeded
    ensures var r := LabelAll(broken, o, failing, m, ps);
            |Errors(r.1)| > 0 <==> exists i :: 0 <= i < |ps| && WantsLabel(broken, o, ps[i]) && KeyOf(ps[i]) in failing
  {
    LabelAllOutcomes(broken, o, failing, m, ps);
    var r := LabelAll(broken, o, failing, m, ps);
    forall i | 0 <= i < |ps|
      ensures r.1[i] == if !WantsLabel(broken, o, ps[i]) then Skipped
                        else if KeyOf(ps[i]) in failing then Failed(Rejected(KeyOf(ps[i])))
                        else Succeeded
    {
      assert r.1[i] == LabelStep(broken, o, failing, m, ps[i]).1;
    }
  }

  /** Labeling the distinct, freshly listed pods: each wanted, non-failing
      pod is stored labeled, and every stored pod no such attempt concerns is
      unchanged. */
  lemma LabelListedEffect(broken: Pod -> bool, o: Options, failing: set<Key>, m: map<Key, Pod>, ps: seq<Pod>)
    requires DistinctKeys(ps) && Snapshots(m, ps)
    ensures var r := LabelAll(broken, o, failing, m, ps);
            forall i :: 0 <= i < |ps| && WantsLabel(broken, o, ps[i]) && KeyOf(ps[i]) !in failing ==>
              r.0[KeyOf(ps[i])] == Labeled(o, m[KeyOf(ps[i])])
    ensures var r := LabelAll(broken, o, failing, m, ps);
            forall k :: k in m && (forall i :: 0 <= i < |ps| && KeyOf(ps[i]) == k ==> !WantsLabel(broken, o, ps[i]) || k in failing) ==>
              r.0[k] == m[k]
  {
    LabelAllEffect(broken, o, failing, m, ps);
    LabelListedOutcomes(broken, o, failing, m, ps);
  }

  /** The outcomes of deleting distinct, freshly listed broken pods: each
      delete fails exactly when its key is failing, and the combined error is
      non-empty exactly when some delete was rejected. */
  lemma DeleteListedOutcomes(broken: Pod -> bool, failing: set<Key>, m: map<Key, Pod>, ps: seq<Pod>)
    requires DistinctKeys(ps) && Snapshots(m, ps)
    requires forall i :: 0 <= i < |ps| ==> broken(ps[i])
    ensures var r := DeleteAll(broken, failing, m, ps);
            forall i :: 0 <= i < |ps| ==>
              r.1[i] == if KeyOf(ps[i]) in failing then Failed(Rejected(KeyOf(ps[i]))) else Succeeded
    ensures var r := DeleteAll(broken, failing, m, ps);
            |Errors(r.1)| > 0 <==> exists i :: 0 <= i < |ps| && KeyOf(ps[i]) in failing
  {
    DeleteAllOutcomes(broken, failing, m, ps);
    var r := DeleteAll(broken, failing, m, ps);
    forall i | 0 <= i < |ps|
      ensures r.1[i] == if KeyOf(ps[i]) in failing then Failed(Rejected(KeyOf(ps[i]))) else Succeeded
    {
      assert r.1[i] == DeleteStep(broken, failing, m, ps[i]).1;
    }
  }

  /** The whole bulk labeling, from a listing of distinct pods stored as
      listed: a stored pod ends up labeled exactly when it was listed, is
      broken, lacks the label key and its update is not rejected; every other
      stored pod is as it was, and no pod appears or disappears. */
  lemma LabelBrokenOfEffect(broken: Pod -> bool, o: Options, failing: set<Key>, m: map<Key, Pod>, ps: seq<Pod>)
    requires KeyedByName(m) && DistinctKeys(ps) && Snapshots(m, ps)
    ensures var r := LabelAll(broken, o, failing, m, BrokenOf(broken, ps));
            && r.0.Keys == m.Keys
            && forall k :: k in m ==>
                 r.0[k] == if m[k] in ps && WantsLabel(broken, o, m[k]) && k !in failing then Labeled(o, m[k]) else m[k]
  {
    forall k | k in m
      ensures var r := LabelAll(broken, o, failing, m, BrokenOf(broken, ps));
              r.0[k] == if m[k] in ps && WantsLabel(broken, o, m[k]) && k !in failing then Labeled(o, m[k]) else m[k]
    {
      LabelBrokenOfAt(broken, o, failing, m, ps, k);
    }
  }

  /** LabelBrokenOfEffect for one stored key. */
  lemma LabelBrokenOfAt(broken: Pod -> bool, o: Options, failing: set<Key>, m: map<Key, Pod>, ps: seq<Pod>, k: Key)
    requires KeyedByName(m) && DistinctKeys(ps) && Snapshots(m, ps) && k in m
    ensures var r := LabelAll(broken, o, failing, m, BrokenOf(broken, ps));
            r.0[k] == if m[k] in ps && WantsLabel(broken, o, m[k]) && k !in failing then Labeled(o, m[k]) else m[k]
  {
    var bs := BrokenOf(broken, ps);
    BrokenOfSnapshots(broken, m, ps);
    LabelAllEffect(broken, o, failing, m, bs);
    LabelAllOutcomes(broken, o, failing, m, bs);
    var r := LabelAll(broken, o, failing, m, bs);
    if m[k] in ps && WantsLabel(broken, o, m[k]) && k !in failing {
      assert m[k] in bs;
      var i :| 0 <= i < |bs| && bs[i] == m[k];
      assert KeyOf(bs[i]) == k;
      assert r.1[i] == LabelStep(broken, o, failing, m, bs[i]).1 == Succeeded;
    } else {
      forall i | 0 <= i < |bs| && KeyOf(bs[i]) == k
        ensures r.1[i] != Succeeded
      {
        assert bs[i] == m[k];
        assert r.1[i] == LabelStep(broken, o, failing, m, bs[i]).1;
      }
    }
  }

  /** The whole bulk deletion, from a listing of distinct pods stored as
      listed: a stored pod is gone exactly when it was listed, is broken and
      its delete is not rejected; every pod left is as it was. */
  lemma DeleteBrokenOfEffect(broken: Pod -> bool, failing: set<Key>, m: map<Key, Pod>, ps: seq<Pod>)
    requires KeyedByName(m) && DistinctKeys(ps) && Snapshots(m, ps)
    ensures var r := DeleteAll(broken, failing, m, BrokenOf(broken, ps));
            && (forall k :: k in r.0 ==> k in m && r.0[k] == m[k])
            && forall k :: k in m ==> (k !in r.0 <==> m[k] in ps && broken(m[k]) && k !in failing)
  {
    var bs := BrokenOf(broken, ps);
    BrokenOfSnapshots(broken, m, ps);
    DeleteAllRemoved(broken, failing, m, bs);
    var r := DeleteAll(broken, failing, m, bs);
    forall k | k in m
      ensures k !in r.0 <==> m[k] in ps && broken(m[k]) && k !in failing
    {
      if m[k] in ps && broken(m[k]) && k !in failing {
        assert m[k] in bs;
        var i :| 0 <= i < |bs| && bs[i] == m[k];
        assert KeyOf(bs[i]) == k;
      }
      if k !in r.0 {
        var i :| 0 <= i < |bs| && KeyOf(bs[i]) == k && broken(bs[i]) && k !in failing;
        assert bs[i] == m[k];
        assert bs[i] in bs;
      }
    }
  }

  /** Two broken pods, the second of which cannot be deleted: the first is
      gone all the same, and the combined error holds the second's failure
      alone. */
  lemma DeleteScenario(broken: Pod -> bool, failing: set<Key>, m: map<Key, Pod>, p1: Pod, p2: Pod)
    requires broken(p1) && broken(p2)
    requires KeyOf(p1) in m && KeyOf(p2) in m && KeyOf(p1) != KeyOf(p2)
    requires KeyOf(p1) !in failing && KeyOf(p2) in failing
    ensures DeleteAll(broken, failing, m, [p1, p2]) == (m - {KeyOf(p1)}, [Succeeded, Failed(Rejected(KeyOf(p2)))])
    ensures Errors(DeleteAll(broken, failing, m, [p1, p2]).1) == [Rejected(KeyOf(p2))]
  {
    var k1, k2 := KeyOf(p1), KeyOf(p2);
    assert [p1, p2][..1] == [p1];
    assert [p1][..0] == [];
    assert DeleteAll(broken, failing, m, []) == (m, []);
    assert DeleteStep(broken, failing, m, p1) == (m - {k1}, Succeeded);
    var none: seq<Outcome> := [];
    assert none + [Succeeded] == [Succeeded];
    assert DeleteAll(broken, failing, m, [p1]) == (m - {k1}, [Succeeded]);
    assert DeleteStep(broken, failing, m - {k1}, p2) == (m - {k1}, Failed(Rejected(k2)));
    var outs := [Succeeded, Failed(Rejected(k2))];
    assert outs[..1] == [Succeeded];
    assert [Succeeded][..0] == [];
    assert [Succeeded] + [Failed(Rejected(k2))] == outs;
    assert DeleteAll(broken, failing, m, [p1, p2]) == (m - {k1}, outs);
    assert Errors([Succeeded]) == [];
    var noErrors: seq<Error> := [];
    assert noErrors + [Rejected(k2)] == [Rejected(k2)];
    assert Errors(outs) == Errors(outs[..1]) + [Rejected(k2)];
  }
}
