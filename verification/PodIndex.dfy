/** The index from a workload to one of its pods, against a scan of the pod list. */
module PodIndex {
  import opened Options

  type Uid = string

  datatype OwnerRef = OwnerRef(kind: string, name: string, uid: Uid, controller: bool)

  datatype Pod = Pod(
    namespace: string, name: string, owners: seq<OwnerRef>,
    qosClass: string, podIP: string, conditions: seq<string>)

  /** The owners of every cached ReplicaSet, by namespace and name. */
  type ReplicaSets = map<string, seq<OwnerRef>>

  const REPLICA_SET := "ReplicaSet"

  function Key(pod: Pod, name: string): string {
    pod.namespace + "/" + name
  }

  predicate HasStatus(pod: Pod) {
    pod.qosClass != "" || pod.podIP != "" || pod.conditions != []
  }

  /** `c` is the first reference marked as controller, or the first of all when none is marked. */
  ghost predicate Controls(c: OwnerRef, refs: seq<OwnerRef>) {
    exists i :: 0 <= i < |refs| && refs[i] == c
                && (forall j :: 0 <= j < i ==> !refs[j].controller)
                && (c.controller || (i == 0 && forall j :: 0 <= j < |refs| ==> !refs[j].controller))
  }

  /** The pod belongs to the workload: through its controller, or through its ReplicaSet's. */
  ghost predicate Belongs(pod: Pod, rs: ReplicaSets, uid: Uid) {
    exists c :: Controls(c, pod.owners)
                && (c.uid == uid
                    || (c.kind == "ReplicaSet" && pod.namespace + "/" + c.name in rs
                        && exists d :: Controls(d, rs[pod.namespace + "/" + c.name]) && d.uid == uid))
  }

  lemma ControllerUnique(c: OwnerRef, d: OwnerRef, refs: seq<OwnerRef>)
    requires Controls(c, refs) && Controls(d, refs)
    ensures c == d
  {
  }

  method ControllerOwner(refs: seq<OwnerRef>) returns (owner: Option<OwnerRef>)
    ensures owner.Some? ==> Controls(owner.value, refs)
    ensures owner.None? ==> refs == [] && forall c :: !Controls(c, refs)
  {
    for k := 0 to |refs|
      invariant forall j :: 0 <= j < k ==> !refs[j].controller
    {
      if refs[k].controller {
        return Some(refs[k]);
      }
    }
    if |refs| > 0 {
      return Some(refs[0]);
    }
    return None;
  }

  method WorkloadOwnerUids(pod: Pod, rs: ReplicaSets) returns (uids: seq<Uid>)
    ensures forall uid :: uid in uids <==> Belongs(pod, rs, uid)
  {
    var owner := ControllerOwner(pod.owners);
    if owner.None? {
      return [];
    }
    var c := owner.value;
    forall d | Controls(d, pod.owners) ensures d == c { ControllerUnique(c, d, pod.owners); }
    uids := [c.uid];
    var key := Key(pod, c.name);
    if c.kind == REPLICA_SET && key in rs {
      var above := ControllerOwner(rs[key]);
      if above.Some? {
        var d := above.value;
        forall d' | Controls(d', rs[key]) ensures d' == d { ControllerUnique(d, d', rs[key]); }
        uids := uids + [d.uid];
      }
    }
  }

  /** The first pod of the list that reported status and belongs to the workload. */
  ghost function Scan(pods: seq<Pod>, rs: ReplicaSets, uid: Uid): Option<Pod> {
    if pods == [] then None
    else
      var earlier := Scan(pods[..|pods| - 1], rs, uid);
      var last := pods[|pods| - 1];
      if earlier.Some? then earlier
      else if Represents(last, rs, uid) then Some(last)
      else None
  }

  function Lookup(index: map<Uid, Pod>, uid: Uid): Option<Pod> {
    if uid in index then Some(index[uid]) else None
  }

  /** One pass over the pods answers every lookup as a scan of the list for that workload would. */
  method BuildPodIndex(pods: seq<Pod>, rs: ReplicaSets) returns (index: map<Uid, Pod>)
    ensures forall uid :: Lookup(index, uid) == Scan(pods, rs, uid)
  {
    index := map[];
    for k := 0 to |pods|
      invariant forall uid :: Lookup(index, uid) == Scan(pods[..k], rs, uid)
    {
      var pod := pods[k];
      assert pods[..k + 1][..k] == pods[..k];
      if !HasStatus(pod) {
        continue;
      }
      var uids := WorkloadOwnerUids(pod, rs);
      ghost var was := index;
      for i := 0 to |uids|
        invariant forall uid :: uid in was ==> uid in index && index[uid] == was[uid]
        invariant forall uid :: uid in index && uid !in was ==> index[uid] == pod && uid in uids
        invariant forall uid :: uid in uids[..i] ==> uid in index
      {
        if uids[i] !in index {
          index := index[uids[i] := pod];
        }
      }
      assert uids[..|uids|] == uids;
    }
    assert pods[..|pods|] == pods;
  }

  /** The pod can stand for the workload: it belongs to it and reported status. */
  ghost predicate Represents(pod: Pod, rs: ReplicaSets, uid: Uid) {
    (pod.qosClass != "" || pod.podIP != "" || |pod.conditions| > 0) && Belongs(pod, rs, uid)
  }

  /** What a scan finds: a pod of the workload that reported status, with none before it in the list;
      and it finds nothing exactly when there is no such pod. */
  lemma {:induction false} ScanFindsFirst(pods: seq<Pod>, rs: ReplicaSets, uid: Uid)
    ensures Scan(pods, rs, uid).None? <==> forall i :: 0 <= i < |pods| ==> !Represents(pods[i], rs, uid)
    ensures Scan(pods, rs, uid).Some? ==>
              exists i :: 0 <= i < |pods| && pods[i] == Scan(pods, rs, uid).value && Represents(pods[i], rs, uid)
                          && forall j :: 0 <= j < i ==> !Represents(pods[j], rs, uid)
  {
    if pods != [] {
      var n := |pods| - 1;
      ScanFindsFirst(pods[..n], rs, uid);
      assert forall i :: 0 <= i < n ==> pods[..n][i] == pods[i];
      if Scan(pods[..n], rs, uid).Some? {
        var i :| 0 <= i < n && pods[..n][i] == Scan(pods, rs, uid).value && Represents(pods[..n][i], rs, uid)
                 && forall j :: 0 <= j < i ==> !Represents(pods[..n][j], rs, uid);
        assert pods[i] == Scan(pods, rs, uid).value;
        assert forall j :: 0 <= j < i ==> pods[..n][j] == pods[j];
      }
    }
  }
}
