/** The broken-pod reconciler: the classifier with the configured filters,
    the per-pod label and delete actions (each re-checking the classifier),
    the dispatcher, and the bulk operations over a listing of the store. The
    outcome log `repaired` stands for the per-attempt counter the source
    increments (action type and result). */
module Repair {
  import opened Pods
  import opened Detect
  import opened Store
  import opened Remediation

  /** The classifier with the given filters, as the remediation steps take it. */
  function Classifier(f: Filters): Pod -> bool {
    p => DetectPod(f, p)
  }

  /** Labeling with the configured filters is idempotent: a pod labeled once
      is skipped the second time and nothing changes. */
  lemma LabelBrokenPodIdempotent(f: Filters, o: Options, failing: set<Key>, m: map<Key, Pod>, p: Pod)
    ensures var (m1, out1) := LabelStep(Classifier(f), o, failing, m, p);
            && LabelStep(Classifier(f), o, failing, m1, Labeled(o, p)) == (m1, Skipped)
            && (out1 == Succeeded ==> LabelStep(Classifier(f), o, failing, m1, m1[KeyOf(p)]) == (m1, Skipped))
  {
    DetectIgnoresLabels(f, p, Labeled(o, p).labels);
    assert Labeled(o, p) == p.(labels := Labeled(o, p).labels);
    LabelTwiceIsNoop(Classifier(f), o, failing, m, p);
  }

  class BrokenPodReconciler {
    const client: PodStore
    const filters: Filters
    const options: Options
    /** One entry per label or delete attempt, in order. */
    ghost var repaired: seq<Repaired>

    constructor (client: PodStore, filters: Filters, options: Options)
      ensures this.client == client && this.filters == filters && this.options == options
      ensures repaired == []
    {
      this.client := client;
      this.filters := filters;
      this.options := options;
      repaired := [];
    }

    /** Lists the pods selected by the configured selectors and keeps the
        broken ones, in listing order; a failed listing is passed on. */
    method ListBrokenPods() returns (list: Result<seq<Pod>, Error>)
      requires client.Valid()
      ensures var listing := client.Listing(filters.labelSelectors, filters.fieldSelectors);
              && (listing.Failure? ==> list == Failure(listing.error))
              && (listing.Success? ==> list == Success(BrokenOf(Classifier(filters), listing.value)))
    {
      var raw := client.List(filters.labelSelectors, filters.fieldSelectors);
      if raw.Failure? {
        return Failure(raw.error);
      }
      var pods := raw.value;
      var items: seq<Pod> := [];
      for i := 0 to |pods|
        invariant items == BrokenOf(Classifier(filters), pods[..i])
      {
        assert pods[..i + 1][..i] == pods[..i];
        if DetectPod(filters, pods[i]) {
          items := items + [pods[i]];
        }
      }
      assert pods[..|pods|] == pods;
      list := Success(items);
    }

    /** Labels `pod` if it is broken and does not carry the label key yet;
        answers the update's error, or none when skipped. */
    method LabelBrokenPod(pod: Pod) returns (err: Option<Error>)
      requires client.Valid()
      modifies this, client
      ensures client.Valid() && client.order == old(client.order)
      ensures var (m, out) := LabelStep(Classifier(filters), options, client.failing, old(client.pods), pod);
              && client.pods == m
              && err == ErrorOf(out)
              && repaired == old(repaired) + [Repaired(LabelAction, out)]
    {
      if !DetectPod(filters, pod) {
        repaired := repaired + [Repaired(LabelAction, Skipped)];
        return None;
      }
      var labels := pod.labels;
      if options.podLabelKey in labels {
        repaired := repaired + [Repaired(LabelAction, Skipped)];
        return None;
      }
      labels := labels[options.podLabelKey := options.podLabelValue];
      var labeled := pod.(labels := labels);
      err := client.Update(labeled);
      repaired := repaired + [Repaired(LabelAction, OutcomeOf(err))];
    }

    /** Deletes `pod` by namespace and name if it is broken; answers the
        delete's error, or none when skipped. */
    method DeleteBrokenPod(pod: Pod) returns (err: Option<Error>)
      requires client.Valid()
      modifies this, client
      ensures client.Valid() && client.order == Restrict(old(client.order), client.pods.Keys)
      ensures var (m, out) := DeleteStep(Classifier(filters), client.failing, old(client.pods), pod);
              && client.pods == m
              && err == ErrorOf(out)
              && repaired == old(repaired) + [Repaired(DeleteAction, out)]
    {
      if !DetectPod(filters, pod) {
        repaired := repaired + [Repaired(DeleteAction, Skipped)];
        RestrictAll(client.order, client.pods.Keys);
        return None;
      }
      err := client.Delete(pod.namespace, pod.name);
      repaired := repaired + [Repaired(DeleteAction, OutcomeOf(err))];
    }

    /** Deletes when deleting is enabled, otherwise labels when labeling is
        enabled, otherwise does nothing; never both. */
    method ReconcilePod(pod: Pod) returns (err: Option<Error>)
      requires client.Valid()
      modifies this, client
      ensures client.Valid() && client.order == Restrict(old(client.order), client.pods.Keys)
      ensures var (m, entry) := ReconcileStep(Classifier(filters), options, client.failing, old(client.pods), pod);
              && client.pods == m
              && err == (if entry.Some? then ErrorOf(entry.value.outcome) else None)
              && repaired == old(repaired) + (if entry.Some? then [entry.value] else [])
    {
      RestrictAll(client.order, client.pods.Keys);
      err := None;
      if options.deletePods {
        err := DeleteBrokenPod(pod);
      } else if options.labelPods {
        err := LabelBrokenPod(pod);
      }
    }

    /** The loop of the bulk labeling: one label attempt per pod of `pods`,
        in order, going on after failures and collecting the errors. */
    method LabelEach(pods: seq<Pod>) returns (errs: seq<Error>)
      requires client.Valid()
      modifies this, client
      ensures client.Valid() && client.order == old(client.order)
      ensures var (m, outs) := LabelAll(Classifier(filters), options, client.failing, old(client.pods), pods);
              && client.pods == m
              && errs == Errors(outs)
              && repaired == old(repaired) + Records(LabelAction, outs)
    {
      ghost var broken := Classifier(filters);
      ghost var m0, log0 := client.pods, repaired;
      ghost var outs: seq<Outcome> := [];
      errs := [];
      for i := 0 to |pods|
        invariant client.Valid() && client.order == old(client.order)
        invariant (client.pods, outs) == LabelAll(broken, options, client.failing, m0, pods[..i])
        invariant errs == Errors(outs)
        invariant repaired == log0 + Records(LabelAction, outs)
      {
        ghost var before := client.pods;
        var err := LabelBrokenPod(pods[i]);
        ghost var out := LabelStep(broken, options, client.failing, before, pods[i]).1;
        LabelAllNext(broken, options, client.failing, m0, pods, i, before, outs);
        RecordsSnoc(log0, LabelAction, outs, out);
        ErrorsSnoc(outs, out);
        if err.Some? {
          errs := errs + [err.value];
        }
        outs := outs + [out];
      }
      assert pods[..|pods|] == pods;
    }

    /** Labels every broken pod of the listing, going on after failures; the
        answer is the list error, or the errors of the failed updates. */
    method LabelBrokenPods() returns (errs: seq<Error>)
      requires client.Valid()
      modifies this, client
      ensures client.Valid() && client.order == old(client.order)
      ensures var listing := old(client.Listing(filters.labelSelectors, filters.fieldSelectors));
              listing.Failure? ==>
                errs == [listing.error] && client.pods == old(client.pods) && repaired == old(repaired)
      ensures var listing := old(client.Listing(filters.labelSelectors, filters.fieldSelectors));
              listing.Success? ==>
                var (m, outs) := LabelAll(Classifier(filters), options, client.failing, old(client.pods),
                                          BrokenOf(Classifier(filters), listing.value));
                && client.pods == m
                && errs == Errors(outs)
                && repaired == old(repaired) + Records(LabelAction, outs)
      ensures var listing := old(client.Listing(filters.labelSelectors, filters.fieldSelectors));
              listing.Success? ==>
                && client.pods.Keys == old(client.pods).Keys
                && forall k :: k in old(client.pods) ==>
                     var p := old(client.pods)[k];
                     client.pods[k] ==
                       if p in listing.value && DetectPod(filters, p) && options.podLabelKey !in p.labels && k !in client.failing
                       then Labeled(options, p) else p
    {
      ghost var m0 := client.pods;
      var listed := ListBrokenPods();
      if listed.Failure? {
        return [listed.error];
      }
      LabelBrokenOfEffect(Classifier(filters), options, client.failing, m0, old(client.Listing(filters.labelSelectors, filters.fieldSelectors)).value);
      errs := LabelEach(listed.value);
    }

    /** The loop of the bulk deletion: one delete attempt per pod of `pods`,
        in order, going on after failures and collecting the errors. */
    method DeleteEach(pods: seq<Pod>) returns (errs: seq<Error>)
      requires client.Valid()
      modifies this, client
      ensures client.Valid() && client.order == Restrict(old(client.order), client.pods.Keys)
      ensures var (m, outs) := DeleteAll(Classifier(filters), client.failing, old(client.pods), pods);
              && client.pods == m
              && errs == Errors(outs)
              && repaired == old(repaired) + Records(DeleteAction, outs)
    {
      ghost var broken := Classifier(filters);
      ghost var m0, log0, order0 := client.pods, repaired, client.order;
      ghost var outs: seq<Outcome> := [];
      errs := [];
      RestrictAll(order0, m0.Keys);
      for i := 0 to |pods|
        invariant client.Valid() && client.order == Restrict(order0, client.pods.Keys)
        invariant (client.pods, outs) == DeleteAll(broken, client.failing, m0, pods[..i])
        invariant errs == Errors(outs)
        invariant repaired == log0 + Records(DeleteAction, outs)
      {
        ghost var before := client.pods;
        var err := DeleteBrokenPod(pods[i]);
        RestrictTwice(order0, before.Keys, client.pods.Keys);
        ghost var out := DeleteStep(broken, client.failing, before, pods[i]).1;
        DeleteAllNext(broken, client.failing, m0, pods, i, before, outs);
        RecordsSnoc(log0, DeleteAction, outs, out);
        ErrorsSnoc(outs, out);
        if err.Some? {
          errs := errs + [err.value];
        }
        outs := outs + [out];
      }
      assert pods[..|pods|] == pods;
    }

    /** Deletes every broken pod of the listing, going on after failures; the
        answer is the list error, or the errors of the failed deletes. */
    method DeleteBrokenPods() returns (errs: seq<Error>)
      requires client.Valid()
      modifies this, client
      ensures client.Valid() && client.order == Restrict(old(client.order), client.pods.Keys)
      ensures var listing := old(client.Listing(filters.labelSelectors, filters.fieldSelectors));
              listing.Failure? ==>
                errs == [listing.error] && client.pods == old(client.pods) && repaired == old(repaired)
      ensures var listing := old(client.Listing(filters.labelSelectors, filters.fieldSelectors));
              listing.Success? ==>
                var (m, outs) := DeleteAll(Classifier(filters), client.failing, old(client.pods),
                                           BrokenOf(Classifier(filters), listing.value));
                && client.pods == m
                && errs == Errors(outs)
                && repaired == old(repaired) + Records(DeleteAction, outs)
      ensures var listing := old(client.Listing(filters.labelSelectors, filters.fieldSelectors));
              listing.Success? ==>
                && (forall k :: k in client.pods ==> k in old(client.pods) && client.pods[k] == old(client.pods)[k])
                && forall k :: k in old(client.pods) ==>
                     var p := old(client.pods)[k];
                     (k !in client.pods <==> p in listing.value && DetectPod(filters, p) && k !in client.failing)
    {
      ghost var m0 := client.pods;
      var listed := ListBrokenPods();
      if listed.Failure? {
        RestrictAll(client.order, client.pods.Keys);
        return [listed.error];
      }
      DeleteBrokenOfEffect(Classifier(filters), client.failing, m0, old(client.Listing(filters.labelSelectors, filters.fieldSelectors)).value);
      errs := DeleteEach(listed.value);
    }
  }
}
