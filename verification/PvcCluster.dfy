/** The part of a Kubernetes cluster that a PVC downsize touches: two claims, the volumes behind
    them, one workload, and what the cluster does by itself between the agent's calls. */
module PvcCluster {
  import opened Options

  type Files = map<string, string>
  type VolumeId = nat

  datatype Kind = Deployment | StatefulSet

  /** Reclaim policy of a PersistentVolume. Only Retain keeps an unclaimed volume. */
  datatype Policy = Retain | Delete | Recycle

  datatype Volume = Volume(policy: Policy, files: Files)

  /** The claim being downsized, and the one the agent creates beside it. */
  datatype ClaimName = Original | Scratch

  datatype Claim = Claim(volume: VolumeId, deleting: bool)

  /** `data` is the workload's data: what the workload last wrote while it ran on a volume that
      held all of it. `mount` is the volume the workload's pods have mounted, if any pod exists. */
  datatype State = State(
    claims: map<ClaimName, Claim>,
    volumes: map<VolumeId, Volume>,
    next: VolumeId,
    classPolicy: Policy,
    template: ClaimName,
    replicas: nat,
    mount: Option<VolumeId>,
    data: Files)

  predicate Live(s: State, c: ClaimName) {
    c in s.claims && !s.claims[c].deleting
  }

  predicate Bound(s: State, v: VolumeId) {
    || (Original in s.claims && s.claims[Original].volume == v)
    || (Scratch in s.claims && s.claims[Scratch].volume == v)
  }

  /** Volume `v` holds a complete copy of the workload's data. */
  predicate Complete(s: State, v: VolumeId) {
    v in s.volumes && s.volumes[v].files == s.data
  }

  /** Some volume holds a complete copy of the workload's data. */
  ghost predicate CopyExists(s: State) {
    exists v :: Complete(s, v)
  }

  function WithFiles(s: State, v: VolumeId, files: Files): State
    requires v in s.volumes
  {
    s.(volumes := s.volumes[v := s.volumes[v].(files := files)])
  }

  function NewClaim(s: State, c: ClaimName): State {
    s.(claims := s.claims[c := Claim(s.next, false)],
       volumes := s.volumes[s.next := Volume(s.classPolicy, map[])],
       next := s.next + 1)
  }

  /** What the cluster may do on its own. */
  datatype EnvAction =
    | StartPods
    | StopPods
    | Write(files: Files)          // the workload rewrites its mounted volume
    | Finalize(claim: ClaimName)   // an accepted claim deletion takes effect
    | Reclaim(volume: VolumeId)    // an unclaimed volume that is not Retain is destroyed
    | FillTemplate                 // the StatefulSet controller creates its missing claim

  /** The environment's action, or no change when the action is not possible. */
  function EnvApply(kind: Kind, s: State, a: EnvAction): State {
    match a
    case StartPods =>
      if s.mount.None? && s.replicas > 0 && Live(s, s.template)
      then s.(mount := Some(s.claims[s.template].volume)) else s
    case StopPods => s.(mount := None)
    case Write(files) =>
      if s.mount.Some? && s.mount.value in s.volumes then
        var advances := Complete(s, s.mount.value);
        WithFiles(s, s.mount.value, files).(data := if advances then files else s.data)
      else s
    case Finalize(c) =>
      if c in s.claims && s.claims[c].deleting && s.mount != Some(s.claims[c].volume)
      then s.(claims := s.claims - {c}) else s
    case Reclaim(v) =>
      if v in s.volumes && s.volumes[v].policy != Retain && !Bound(s, v)
      then s.(volumes := s.volumes - {v}) else s
    case FillTemplate =>
      if kind.StatefulSet? && s.replicas > 0 && s.template !in s.claims
      then NewClaim(s, s.template) else s
  }

  /** A call of the agent that changes or observes the cluster. */
  datatype Op =
    | Scale(replicas: nat)
    | AwaitNoPods
    | Patch(volume: VolumeId, policy: Policy)
    | Create(claim: ClaimName)
    | Copy(src: ClaimName, dst: ClaimName)
    | Inspect(claim: ClaimName)             // re-read the claim and compare its configuration
    | Repoint(target: ClaimName)
    | DeleteClaim(claim: ClaimName)
    | AwaitGone(claim: ClaimName)
    | DeleteVolume(volume: VolumeId)
    | Nothing

  predicate Copyable(s: State, src: ClaimName, dst: ClaimName) {
    && Live(s, src) && s.claims[src].volume in s.volumes
    && Live(s, dst) && s.claims[dst].volume in s.volumes
  }

  /** The call can report success in `s`. */
  predicate CanSucceed(s: State, op: Op) {
    match op
    case AwaitNoPods => s.mount.None?
    case AwaitGone(c) => c !in s.claims
    case Create(c) => c !in s.claims
    case Inspect(c) => c in s.claims
    case Copy(src, dst) => Copyable(s, src, dst)
    case _ => true
  }

  function Kept(files: Files, kept: set<string>): Files {
    map k | k in files && k in kept :: files[k]
  }

  /** `cp -a` of the files named in `kept` only: what an interrupted copy leaves behind. */
  function CopyPart(s: State, src: ClaimName, dst: ClaimName, kept: set<string>): State
    requires Copyable(s, src, dst)
  {
    var d := s.claims[dst].volume;
    WithFiles(s, d, s.volumes[d].files + Kept(s.volumes[s.claims[src].volume].files, kept))
  }

  /** The change the call makes on the server. A copy taken while pods write may be torn, so it
      brings over only the files in `kept`. */
  function Effect(s: State, op: Op, kept: set<string>): State {
    match op
    case Scale(n) => s.(replicas := n)
    case Patch(v, p) => if v in s.volumes then s.(volumes := s.volumes[v := s.volumes[v].(policy := p)]) else s
    case Create(c) => if c in s.claims then s else NewClaim(s, c)
    case Copy(src, dst) =>
      if !Copyable(s, src, dst) then s
      else if s.mount.None? then CopyPart(s, src, dst, s.volumes[s.claims[src].volume].files.Keys)
      else CopyPart(s, src, dst, kept)
    case Repoint(c) => s.(template := c)
    case DeleteClaim(c) => if c in s.claims then s.(claims := s.claims[c := s.claims[c].(deleting := true)]) else s
    case DeleteVolume(v) => s.(volumes := s.volumes - {v})
    case _ => s
  }

  /** What a failed call may leave behind: nothing, or its effect; an interrupted copy leaves the
      files in `kept`. */
  function FailureEffect(s: State, op: Op, applied: bool, kept: set<string>): State {
    if !applied then s
    else if op.Copy? then (if Copyable(s, op.src, op.dst) then CopyPart(s, op.src, op.dst, kept) else s)
    else Effect(s, op, kept)
  }
}
