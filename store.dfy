/** The pod store the engine talks to: the three calls it makes on the
    cluster's pod API (list with selectors, update, delete by namespace and
    name). The server-side selectors are opaque: `selects` decides which pods
    a pair of selector strings picks. Failures are part of the store's state:
    `listFails` makes every listing fail and the keys in `failing` make every
    update or delete of that pod fail. */
module Store {
  import opened Pods

  predicate DistinctSeq(ks: seq<Key>) {
    forall i, j :: 0 <= i < j < |ks| ==> ks[i] != ks[j]
  }

  /** Every pod is stored under its own namespace and name. */
  predicate KeyedByName(pods: map<Key, Pod>) {
    forall k :: k in pods ==> KeyOf(pods[k]) == k
  }

  /** The pods stored under `ks` that the selectors pick, in the order of `ks`. */
  function Select(pods: map<Key, Pod>, ks: seq<Key>, selects: (string, string, Pod) -> bool,
                  labelSelector: string, fieldSelector: string): (r: seq<Pod>)
    requires KeyedByName(pods)
    requires forall i :: 0 <= i < |ks| ==> ks[i] in pods
    ensures forall i :: 0 <= i < |r| ==> KeyOf(r[i]) in ks && pods[KeyOf(r[i])] == r[i]
    ensures forall i :: 0 <= i < |r| ==> selects(labelSelector, fieldSelector, r[i])
  {
    if ks == [] then []
    else
      var rest := Select(pods, ks[1..], selects, labelSelector, fieldSelector);
      assert forall k :: k in ks[1..] ==> k in ks;
      var p := pods[ks[0]];
      if selects(labelSelector, fieldSelector, p) then [p] + rest else rest
  }

  /** The listing misses no stored pod the selectors pick. */
  lemma {:induction false} SelectComplete(pods: map<Key, Pod>, ks: seq<Key>, selects: (string, string, Pod) -> bool,
                                          labelSelector: string, fieldSelector: string)
    requires KeyedByName(pods)
    requires forall i :: 0 <= i < |ks| ==> ks[i] in pods
    ensures var r := Select(pods, ks, selects, labelSelector, fieldSelector);
            forall k :: k in ks && selects(labelSelector, fieldSelector, pods[k]) ==> pods[k] in r
  {
    if ks != [] {
      var tail := ks[1..];
      SelectComplete(pods, tail, selects, labelSelector, fieldSelector);
      var rest := Select(pods, tail, selects, labelSelector, fieldSelector);
      assert forall k :: k in ks && k != ks[0] ==> k in tail;
      var p := pods[ks[0]];
      var front: seq<Pod> := if selects(labelSelector, fieldSelector, p) then [p] else [];
      assert Select(pods, ks, selects, labelSelector, fieldSelector) == front + rest;
    }
  }

  /** The listing repeats no key when `ks` repeats none. */
  lemma {:induction false} SelectDistinct(pods: map<Key, Pod>, ks: seq<Key>, selects: (string, string, Pod) -> bool,
                                          labelSelector: string, fieldSelector: string)
    requires KeyedByName(pods) && DistinctSeq(ks)
    requires forall i :: 0 <= i < |ks| ==> ks[i] in pods
    ensures DistinctKeys(Select(pods, ks, selects, labelSelector, fieldSelector))
  {
    if ks != [] {
      var tail := ks[1..];
      assert ks[0] !in tail && DistinctSeq(tail);
      SelectDistinct(pods, tail, selects, labelSelector, fieldSelector);
      var rest := Select(pods, tail, selects, labelSelector, fieldSelector);
      var p := pods[ks[0]];
      if selects(labelSelector, fieldSelector, p) {
        var r := Select(pods, ks, selects, labelSelector, fieldSelector);
        assert r == [p] + rest;
        forall i | 0 <= i < |rest| ensures KeyOf(rest[i]) != KeyOf(p) {
          assert KeyOf(rest[i]) in tail;
        }
        assert forall i :: 0 < i < |r| ==> r[i] == rest[i - 1];
      }
    }
  }

  /** The listing keeps the enumeration order: the listed pods sit at
      strictly increasing positions `pos` of `ks`. */
  lemma {:induction false} SelectInOrder(pods: map<Key, Pod>, ks: seq<Key>, selects: (string, string, Pod) -> bool,
                                         labelSelector: string, fieldSelector: string) returns (pos: seq<nat>)
    requires KeyedByName(pods)
    requires forall i :: 0 <= i < |ks| ==> ks[i] in pods
    ensures var r := Select(pods, ks, selects, labelSelector, fieldSelector);
            |pos| == |r| && forall i :: 0 <= i < |r| ==> pos[i] < |ks| && ks[pos[i]] == KeyOf(r[i])
    ensures Increasing(pos)
  {
    if ks == [] {
      pos := [];
    } else {
      var tail := ks[1..];
      var later := SelectInOrder(pods, tail, selects, labelSelector, fieldSelector);
      var rest := Select(pods, tail, selects, labelSelector, fieldSelector);
      assert forall j :: 0 <= j < |tail| ==> tail[j] == ks[j + 1];
      var p := pods[ks[0]];
      var front: seq<Pod> := if selects(labelSelector, fieldSelector, p) then [p] else [];
      assert Select(pods, ks, selects, labelSelector, fieldSelector) == front + rest;
      pos := PrependPositions(ks, front, rest, later);
    }
  }

  predicate Increasing(pos: seq<nat>) {
    forall i, j :: 0 <= i < j < |pos| ==> pos[i] < pos[j]
  }

  /** SelectInOrder's step: the positions of `rest` in `ks[1..]` moved up by
      one, behind position 0 for the first key when it is picked too. */
  lemma PrependPositions(ks: seq<Key>, front: seq<Pod>, rest: seq<Pod>, later: seq<nat>) returns (pos: seq<nat>)
    requires |ks| > 0 && |front| <= 1 && |later| == |rest| && Increasing(later)
    requires |front| == 1 ==> KeyOf(front[0]) == ks[0]
    requires forall i :: 0 <= i < |rest| ==> later[i] + 1 < |ks| && ks[later[i] + 1] == KeyOf(rest[i])
    ensures |pos| == |front + rest|
    ensures forall i :: 0 <= i < |front + rest| ==> pos[i] < |ks| && ks[pos[i]] == KeyOf((front + rest)[i])
    ensures Increasing(pos)
  {
    var shifted := seq(|later|, i requires 0 <= i < |later| => later[i] + 1);
    pos := if |front| == 1 then [0] + shifted else shifted;
    var h := |front|;
    forall i | 0 <= i < |front + rest| ensures pos[i] < |ks| && ks[pos[i]] == KeyOf((front + rest)[i]) {
      if i >= h {
        assert (front + rest)[i] == rest[i - h] && pos[i] == later[i - h] + 1;
      }
    }
  }

  /** The keys of `ks` that are in `keep`, in the order of `ks`. */
  function Restrict(ks: seq<Key>, keep: set<Key>): (r: seq<Key>)
    ensures forall k :: k in r <==> k in ks && k in keep
    ensures DistinctSeq(ks) ==> DistinctSeq(r)
  {
    if ks == [] then []
    else
      var rest := Restrict(ks[1..], keep);
      assert forall k :: k in ks <==> k == ks[0] || k in ks[1..];
      assert DistinctSeq(ks) ==> ks[0] !in ks[1..] && DistinctSeq(ks[1..]);
      if ks[0] in keep then [ks[0]] + rest else rest
  }

  /** Restricting twice is restricting once to the smaller set. */
  lemma {:induction false} RestrictTwice(ks: seq<Key>, a: set<Key>, b: set<Key>)
    requires b <= a
    ensures Restrict(Restrict(ks, a), b) == Restrict(ks, b)
  {
    if ks != [] {
      RestrictTwice(ks[1..], a, b);
    }
  }

  /** What an update does to the stored pods and what it answers: a pod that
      is not stored is not found, a failing key is rejected, any other pod is
      replaced by the one sent. */
  function UpdateEffect(pods: map<Key, Pod>, failing: set<Key>, p: Pod): (r: (map<Key, Pod>, Option<Error>))
  {
    var k := KeyOf(p);
    if k !in pods then (pods, Some(NotFound(k)))
    else if k in failing then (pods, Some(Rejected(k)))
    else (pods[k := p], None)
  }

  /** What a delete does to the stored pods and what it answers. */
  function DeleteEffect(pods: map<Key, Pod>, failing: set<Key>, k: Key): (r: (map<Key, Pod>, Option<Error>))
  {
    if k !in pods then (pods, Some(NotFound(k)))
    else if k in failing then (pods, Some(Rejected(k)))
    else (pods - {k}, None)
  }

  class PodStore {
    /** The stored pods, by namespace and name. */
    var pods: map<Key, Pod>
    /** The order in which the server enumerates the stored pods. */
    var order: seq<Key>
    const selects: (string, string, Pod) -> bool
    const listFails: bool
    const failing: set<Key>

    ghost predicate Valid()
      reads this
    {
      && KeyedByName(pods)
      && (forall i :: 0 <= i < |order| ==> order[i] in pods)
      && (forall k :: k in pods ==> k in order)
      && DistinctSeq(order)
    }

    constructor (pods: map<Key, Pod>, order: seq<Key>, selects: (string, string, Pod) -> bool,
                 listFails: bool, failing: set<Key>)
      requires KeyedByName(pods) && DistinctSeq(order)
      requires forall k :: k in order <==> k in pods
      ensures Valid()
      ensures this.pods == pods && this.order == order && this.selects == selects
      ensures this.listFails == listFails && this.failing == failing
    {
      this.pods := pods;
      this.order := order;
      this.selects := selects;
      this.listFails := listFails;
      this.failing := failing;
    }

    /** What a listing with the given selectors answers in the current state. */
    function Listing(labelSelector: string, fieldSelector: string): (r: Result<seq<Pod>, Error>)
      reads this
      requires Valid()
      ensures r.Failure? <==> listFails
      ensures r.Failure? ==> r.error == ListFailed
      ensures r.Success? ==> DistinctKeys(r.value)
      ensures r.Success? ==> forall i :: 0 <= i < |r.value| ==> KeyOf(r.value[i]) in pods && pods[KeyOf(r.value[i])] == r.value[i]
      ensures r.Success? ==> forall k :: k in pods && selects(labelSelector, fieldSelector, pods[k]) ==> pods[k] in r.value
    {
      if listFails then Failure(ListFailed)
      else
        SelectComplete(pods, order, selects, labelSelector, fieldSelector);
        SelectDistinct(pods, order, selects, labelSelector, fieldSelector);
        Success(Select(pods, order, selects, labelSelector, fieldSelector))
    }

    method List(labelSelector: string, fieldSelector: string) returns (r: Result<seq<Pod>, Error>)
      requires Valid()
      ensures r == Listing(labelSelector, fieldSelector)
    {
      if listFails {
        r := Failure(ListFailed);
      } else {
        r := Success(Select(pods, order, selects, labelSelector, fieldSelector));
      }
    }

    /** Sends `p` as the new version of the pod stored under its namespace
        and name. */
    method Update(p: Pod) returns (err: Option<Error>)
      requires Valid()
      modifies this
      ensures Valid()
      ensures (pods, err) == UpdateEffect(old(pods), failing, p)
      ensures err.None? <==> KeyOf(p) in old(pods) && KeyOf(p) !in failing
      ensures pods.Keys == old(pods).Keys && order == old(order)
    {
      var k := KeyOf(p);
      if k !in pods {
        err := Some(NotFound(k));
      } else if k in failing {
        err := Some(Rejected(k));
      } else {
        pods := pods[k := p];
        err := None;
      }
    }

    /** Deletes the pod stored under the given namespace and name. */
    method Delete(namespace: string, name: string) returns (err: Option<Error>)
      requires Valid()
      modifies this
      ensures Valid()
      ensures (pods, err) == DeleteEffect(old(pods), failing, (namespace, name))
      ensures err.None? <==> (namespace, name) in old(pods) && (namespace, name) !in failing
      ensures order == Restrict(old(order), pods.Keys)
    {
      var k := (namespace, name);
      if k !in pods {
        err := Some(NotFound(k));
        RestrictAll(order, pods.Keys);
      } else if k in failing {
        err := Some(Rejected(k));
        RestrictAll(order, pods.Keys);
      } else {
        pods := pods - {k};
        order := Restrict(order, pods.Keys);
        err := None;
      }
    }
  }

  /** Restricting to a set that holds every key changes nothing. */
  lemma {:induction false} RestrictAll(ks: seq<Key>, keep: set<Key>)
    requires forall i :: 0 <= i < |ks| ==> ks[i] in keep
    ensures Restrict(ks, keep) == ks
  {
    if ks != [] {
      RestrictAll(ks[1..], keep);
    }
  }
}
