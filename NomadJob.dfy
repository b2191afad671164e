/** The translation between volume claims and Nomad jobs of
    lib/orchprovider/nomad/helper_funcs.go: the label checks and the job
    built from a claim, the per-replica address entries, and the mappings
    from an evaluation or a job back to a persistent volume.

    Nomad's pointer fields are flattened: a field the code always sets is a
    plain value; one that may stay nil is an Option. */
module NomadJob {
  import opened Base
  import opened Text
  import opened V1

  datatype Constraint = Constraint(lTarget: string, operand: string, rTarget: string)

  /** Interval and delay in seconds. */
  datatype RestartPolicy = RestartPolicy(attempts: int, interval: int, delay: int, mode: string)

  /** CPU, memory and the bandwidth of each network resource. */
  datatype Resources = Resources(cpu: int, memoryMB: int, networkMBits: seq<int>)

  datatype Artifact = Artifact(getterSource: string, relativeDest: string)

  datatype LogConfig = LogConfig(maxFiles: int, maxFileSizeMB: int)

  datatype Task = Task(
    name: string,
    driver: string,
    resources: Resources,
    env: map<string, string>,
    artifacts: seq<Artifact>,
    config: map<string, string>,
    logConfig: LogConfig)

  datatype TaskGroup = TaskGroup(
    name: string,
    count: int,
    constraints: seq<Constraint>,
    restartPolicy: RestartPolicy,
    tasks: seq<Task>)

  /** api.Job, with the fields the modelled code sets or reads. */
  datatype Job = Job(
    region: Option<string>,
    name: Option<string>,
    id: Option<string>,
    datacenters: seq<string>,
    jobType: Option<string>,
    priority: Option<int>,
    constraints: seq<Constraint>,
    meta: Labels,
    taskGroups: seq<TaskGroup>,
    status: Option<string>,
    statusDescription: Option<string>)

  /** api.Evaluation, with the fields JobEvalToPv reads. */
  datatype Evaluation = Evaluation(
    priority: int,
    evalType: string,
    triggeredBy: string,
    jobID: string,
    status: string,
    statusDescription: string,
    blockedEval: string)

  const JobTypeService := "service"
  const JobStatusRunning := "running"
  const NilClaim := "Nil persistent volume claim provided"
  const MissingName := "Missing VSM name in pvc"

  /** The policy both task groups restart with: 3 attempts in 5 minutes,
      25 seconds apart. */
  const JivaRestartPolicy := RestartPolicy(3, 5 * 60, 25, "delay")
  const TaskResources := Resources(50, 50, [50])
  const TaskLogConfig := LogConfig(3, 1)
  const LinuxOnly := Constraint("${attr.kernel.name}", "=", "linux")
  const DistinctHosts := Constraint("", "distinct_hosts", "true")

  // ---------------------------------------------------------- PvcToJobName

  /** PvcToJobName. */
  function PvcToJobName(pvc: Claim?): (r: Result<string>)
    reads pvc
    ensures pvc == null ==> r == Err(Msg(NilClaim))
    ensures pvc != null && pvc.name == "" ==> r == Err(Msg(MissingName))
    ensures r.Ok? <==> pvc != null && pvc.name != ""
    ensures r.Ok? ==> r.value == pvc.name
  {
    if pvc == null then Err(Msg(NilClaim))
    else if pvc.name == "" then Err(Msg(MissingName))
    else Ok(pvc.name)
  }

  // ------------------------------------------------------- the label checks

  /** The labels PvcToJob demands, in the order it checks them, with the
      error each missing one produces. */
  const Required: seq<(string, string)> := [
    (OrchRegionLbl, "Missing region in pvc"),
    (OrchDCLbl, "Missing datacenter in pvc"),
    (PVPControllerImageLbl, "Missing controller image in pvc"),
    (PVPControllerIPsLbl, "Missing controller IP(s) in pvc"),
    (PVPReplicaIPsLbl, "Missing replica IPs in pvc"),
    (CNTypeLbl, "Missing CN type in pvc"),
    (CNSubnetLbl, "Missing CN subnet in pvc"),
    (CNInterfaceLbl, "Missing CN interface in pvc"),
    (PVPPersistenceLocationLbl, "Missing persistent location in pvc"),
    (PVPStorageSizeLbl, "Missing storage size in pvc")
  ]

  /** The position of the first required label that is empty in `m`. */
  function FirstMissing(m: map<string, string>, req: seq<(string, string)>): (r: Option<nat>)
    ensures r.None? <==> forall i :: 0 <= i < |req| ==> Get(m, req[i].0) != ""
    ensures r.Some? ==> r.value < |req| && Get(m, req[r.value].0) == ""
    ensures r.Some? ==> forall j :: 0 <= j < r.value ==> Get(m, req[j].0) != ""
    decreases |req|
  {
    if |req| == 0 then None
    else if Get(m, req[0].0) == "" then Some(0)
    else match FirstMissing(m, req[1..])
      case None => None
      case Some(i) => Some(i + 1)
  }

  /** The check's error depends only on which label is the first empty one:
      two label maps that agree on the emptiness of the first i+1 required
      labels, and have label i empty, fail alike. */
  lemma FirstMissingDependsOnPrefix(m1: map<string, string>, m2: map<string, string>, i: nat)
    requires i < |Required|
    requires forall j :: 0 <= j <= i ==> (Get(m1, Required[j].0) == "" <==> Get(m2, Required[j].0) == "")
    requires Get(m1, Required[i].0) == ""
    ensures FirstMissing(m1, Required) == FirstMissing(m2, Required)
    ensures FirstMissing(m1, Required).Some? && FirstMissing(m1, Required).value <= i
  {
  }

  // ------------------------------------------------------------- setBEIPs

  /** The key of the i-th replica's address. */
  function BackendIPKey(i: int): (k: string)
    ensures |k| > |JivaBackEndIPPrefixLbl| && k[..|JivaBackEndIPPrefixLbl|] == JivaBackEndIPPrefixLbl
  {
    JivaBackEndIPPrefixLbl + Itoa(i)
  }

  lemma BackendIPKeyInjective(i: int, j: int)
    requires BackendIPKey(i) == BackendIPKey(j)
    ensures i == j
  {
    var n := |JivaBackEndIPPrefixLbl|;
    assert Itoa(i) == BackendIPKey(i)[n..];
    assert Itoa(j) == BackendIPKey(j)[n..];
    ItoaInjective(i, j);
  }

  /** The address entries of the first |ips| replicas, as setBEIPs writes them. */
  function IndexedIPs(ips: seq<string>): map<string, string>
  {
    if |ips| == 0 then map[]
    else IndexedIPs(ips[..|ips| - 1])[BackendIPKey(|ips| - 1) := ips[|ips| - 1]]
  }

  /** The entry of replica i holds that replica's address. */
  lemma {:induction false} IndexedIPsAt(ips: seq<string>, i: nat)
    requires i < |ips|
    ensures BackendIPKey(i) in IndexedIPs(ips) && IndexedIPs(ips)[BackendIPKey(i)] == ips[i]
  {
    var init := ips[..|ips| - 1];
    if i < |ips| - 1 {
      IndexedIPsAt(init, i);
      if BackendIPKey(i) == BackendIPKey(|ips| - 1) {
        BackendIPKeyInjective(i, |ips| - 1);
      }
    }
  }

  /** Every entry belongs to one of the replicas. */
  lemma {:induction false} IndexedIPsKeyIndex(ips: seq<string>, k: string) returns (i: nat)
    requires k in IndexedIPs(ips)
    ensures i < |ips| && k == BackendIPKey(i)
  {
    if k == BackendIPKey(|ips| - 1) {
      i := |ips| - 1;
    } else {
      i := IndexedIPsKeyIndex(ips[..|ips| - 1], k);
    }
  }

  /** The entries of one more replica. */
  lemma IndexedIPsSnoc(ips: seq<string>, i: nat)
    requires i < |ips|
    ensures IndexedIPs(ips[..i + 1]) == IndexedIPs(ips[..i])[BackendIPKey(i) := ips[i]]
  {
    assert ips[..i + 1][..i] == ips[..i];
  }

  /** Updating a union is updating its right-hand side. */
  lemma UnionUpdate(a: map<string, string>, b: map<string, string>, k: string, v: string)
    ensures (a + b)[k := v] == a + b[k := v]
  {
  }

  /** The keys of the backend environment before the replica entries. */
  const FixedBeEnvKeys: set<string> := {
    "NOMAD_ALLOC_INDEX", "JIVA_REP_NAME", "JIVA_CTL_IP", "JIVA_REP_VOLNAME", "JIVA_REP_VOLSIZE",
    "JIVA_REP_VOLSTORE", "JIVA_REP_VERSION", "JIVA_REP_NETWORK", "JIVA_REP_IFACE", "JIVA_REP_SUBNET"
  }

  /** The keys of the job metadata before the replica entries. */
  const FixedMetaKeys: set<string> := {
    JivaBackEndVolSizeLbl, JivaFrontEndIPLbl, JivaTargetPortalLbl, JivaIqnLbl, PVPReplicaCountLbl
  }

  /** Every fixed key is shorter than the replica key prefix. */
  lemma FixedKeysShort()
    ensures forall k :: k in FixedBeEnvKeys + FixedMetaKeys ==> |k| <= |JivaBackEndIPPrefixLbl|
  {
  }

  /** The two checks of setBEIPs. */
  function BackendIPsCheck(ipCount: int, count: int): (r: Outcome)
    ensures r.Pass? <==> count != 0 && ipCount == count
    ensures count == 0 ==> r == Fail(Msg("Invalid replica count '0'"))
    ensures count != 0 && ipCount != count ==>
              r == Fail(Msg("Replica IP count '" + Itoa(ipCount) + "' does not match replica count '" + Itoa(count) + "'"))
  {
    if count == 0 then Fail(Msg("Invalid replica count '0'"))
    else if ipCount != count then
      Fail(Msg("Replica IP count '" + Itoa(ipCount) + "' does not match replica count '" + Itoa(count) + "'"))
    else Pass
  }

  /** setBEIPs: after the checks, the replica count goes into the metadata and
      each replica's address into both maps under its indexed key. */
  method SetBEIPs(beEnv: map<string, string>, jobMeta: map<string, string>, ips: seq<string>, count: int)
    returns (err: Outcome, beEnv': map<string, string>, jobMeta': map<string, string>)
    ensures err == BackendIPsCheck(|ips|, count)
    ensures err.Fail? ==> beEnv' == beEnv && jobMeta' == jobMeta
    ensures err.Pass? ==> beEnv' == beEnv + IndexedIPs(ips)
    ensures err.Pass? ==> jobMeta' == jobMeta[PVPReplicaCountLbl := Itoa(count)] + IndexedIPs(ips)
  {
    beEnv', jobMeta' := beEnv, jobMeta;
    if count == 0 {
      return Fail(Msg("Invalid replica count '0'")), beEnv', jobMeta';
    }
    if |ips| != count {
      return Fail(Msg("Replica IP count '" + Itoa(|ips|) + "' does not match replica count '" + Itoa(count) + "'")), beEnv', jobMeta';
    }
    jobMeta' := jobMeta'[PVPReplicaCountLbl := Itoa(count)];
    ghost var meta0 := jobMeta';
    var i := 0;
    while i < count
      invariant 0 <= i <= count
      invariant beEnv' == beEnv + IndexedIPs(ips[..i])
      invariant jobMeta' == meta0 + IndexedIPs(ips[..i])
    {
      IndexedIPsSnoc(ips, i);
      UnionUpdate(beEnv, IndexedIPs(ips[..i]), BackendIPKey(i), ips[i]);
      UnionUpdate(meta0, IndexedIPs(ips[..i]), BackendIPKey(i), ips[i]);
      var k := BackendIPKey(i);
      var v := ips[i];
      beEnv' := beEnv'[k := v];
      jobMeta' := jobMeta'[k := v];
      i := i + 1;
    }
    assert ips[..count] == ips;
    err := Pass;
  }

  // ------------------------------------------------------------- PvcToJob

  /** The job metadata before the replica entries. */
  function JobMeta(name: string, m: map<string, string>): map<string, string>
  {
    var feIP := Get(m, PVPControllerIPsLbl);
    map[JivaBackEndVolSizeLbl := Get(m, PVPStorageSizeLbl),
        JivaFrontEndIPLbl := feIP,
        JivaTargetPortalLbl := feIP + ":" + JivaISCSIPortDef,
        JivaIqnLbl := JivaIqnFormatPrefix + ":" + name]
  }

  /** The frontend task's environment. */
  function FeEnv(name: string, m: map<string, string>): map<string, string>
  {
    map["JIVA_CTL_NAME" := name + "-" + "fe" + "${NOMAD_ALLOC_INDEX}",
        "JIVA_CTL_VERSION" := Get(m, PVPControllerImageLbl),
        "JIVA_CTL_VOLNAME" := name,
        "JIVA_CTL_VOLSIZE" := Get(m, PVPStorageSizeLbl),
        "JIVA_CTL_IP" := Get(m, PVPControllerIPsLbl),
        "JIVA_CTL_SUBNET" := Get(m, CNSubnetLbl),
        "JIVA_CTL_IFACE" := Get(m, CNInterfaceLbl)]
  }

  /** The backend task's environment before the replica entries. */
  function BeEnv(name: string, m: map<string, string>): (r: map<string, string>)
    ensures r.Keys == FixedBeEnvKeys
  {
    map["NOMAD_ALLOC_INDEX" := "${NOMAD_ALLOC_INDEX}",
        "JIVA_REP_NAME" := name + "-" + "be" + "${NOMAD_ALLOC_INDEX}",
        "JIVA_CTL_IP" := Get(m, PVPControllerIPsLbl),
        "JIVA_REP_VOLNAME" := name,
        "JIVA_REP_VOLSIZE" := Get(m, PVPStorageSizeLbl),
        "JIVA_REP_VOLSTORE" := Get(m, PVPPersistenceLocationLbl) + name + "/" + "be" + "${NOMAD_ALLOC_INDEX}",
        "JIVA_REP_VERSION" := Get(m, PVPControllerImageLbl),
        "JIVA_REP_NETWORK" := Get(m, CNTypeLbl),
        "JIVA_REP_IFACE" := Get(m, CNInterfaceLbl),
        "JIVA_REP_SUBNET" := Get(m, CNSubnetLbl)]
  }

  /** A raw_exec task that fetches and runs one launch script. */
  function LaunchTask(name: string, env: map<string, string>, script: string): Task
  {
    Task(name, "raw_exec", TaskResources, env,
         [Artifact("https://raw.githubusercontent.com/openebs/jiva/master/scripts/" + script, "local/")],
         map["command" := script], TaskLogConfig)
  }

  /** The job literal PvcToJob returns. */
  function AssembleJob(name: string, m: map<string, string>, count: int,
                       beEnv: map<string, string>, jobMeta: map<string, string>): Job
  {
    Job(Some(Get(m, OrchRegionLbl)), Some(name), Some(name), [Get(m, OrchDCLbl)],
        Some(JobTypeService), Some(50), [LinuxOnly], Some(jobMeta),
        [TaskGroup("fe-jiva-pod", 1, [], JivaRestartPolicy,
                   [LaunchTask("fe", FeEnv(name, m), "launch-jiva-ctl-with-ip")]),
         TaskGroup("be-jiva-pod", count, [DistinctHosts], JivaRestartPolicy,
                   [LaunchTask("be", beEnv, "launch-jiva-rep-with-ip")])],
        None, None)
  }

  /** The job metadata once setBEIPs has added the replica entries. */
  function ReplicaMeta(name: string, m: map<string, string>, ips: seq<string>): map<string, string>
  {
    JobMeta(name, m)[PVPReplicaCountLbl := Itoa(|ips|)] + IndexedIPs(ips)
  }

  /** The backend environment once setBEIPs has added the replica entries. */
  function ReplicaEnv(name: string, m: map<string, string>, ips: seq<string>): map<string, string>
  {
    BeEnv(name, m) + IndexedIPs(ips)
  }

  /** The metadata: the backend size, the frontend address, the target
      portal and IQN derived from them, the replica count, and each
      replica's address under its indexed key, and nothing else. */
  lemma ReplicaMetaContents(name: string, m: map<string, string>, ips: seq<string>)
    ensures var meta := ReplicaMeta(name, m, ips);
            var feIP := Get(m, PVPControllerIPsLbl);
            && meta.Keys == FixedMetaKeys + IndexedIPs(ips).Keys
            && meta[JivaBackEndVolSizeLbl] == Get(m, PVPStorageSizeLbl)
            && meta[JivaFrontEndIPLbl] == feIP
            && meta[JivaTargetPortalLbl] == feIP + ":" + JivaISCSIPortDef
            && meta[JivaIqnLbl] == JivaIqnFormatPrefix + ":" + name
            && meta[PVPReplicaCountLbl] == Itoa(|ips|)
            && forall i :: 0 <= i < |ips| ==> BackendIPKey(i) in meta && meta[BackendIPKey(i)] == ips[i]
  {
    var base := JobMeta(name, m)[PVPReplicaCountLbl := Itoa(|ips|)];
    ReplicaMetaBase(name, m, |ips|);
    FixedKeysShort();
    AddReplicas(base, ips);
  }

  /** Adding the replica entries to a map with only fixed keys keeps its
      entries and adds each address. */
  lemma AddReplicas(base: map<string, string>, ips: seq<string>)
    requires forall k :: k in base ==> |k| <= |JivaBackEndIPPrefixLbl|
    ensures (base + IndexedIPs(ips)).Keys == base.Keys + IndexedIPs(ips).Keys
    ensures forall k :: k in base ==> (base + IndexedIPs(ips))[k] == base[k]
    ensures forall i :: 0 <= i < |ips| ==> BackendIPKey(i) in base + IndexedIPs(ips) && (base + IndexedIPs(ips))[BackendIPKey(i)] == ips[i]
  {
    forall k | k in base
      ensures (base + IndexedIPs(ips))[k] == base[k]
    {
      NotIndexed(ips, k);
    }
    AddedEntries(base, ips);
  }

  /** The replica entries override whatever the base map holds. */
  lemma AddedEntries(base: map<string, string>, ips: seq<string>)
    ensures forall i :: 0 <= i < |ips| ==> BackendIPKey(i) in base + IndexedIPs(ips) && (base + IndexedIPs(ips))[BackendIPKey(i)] == ips[i]
  {
    forall i | 0 <= i < |ips|
      ensures BackendIPKey(i) in base + IndexedIPs(ips) && (base + IndexedIPs(ips))[BackendIPKey(i)] == ips[i]
    {
      IndexedIPsAt(ips, i);
    }
  }

  /** The metadata before the replica addresses are added. */
  lemma ReplicaMetaBase(name: string, m: map<string, string>, n: int)
    ensures var base := JobMeta(name, m)[PVPReplicaCountLbl := Itoa(n)];
            var feIP := Get(m, PVPControllerIPsLbl);
            && base.Keys == FixedMetaKeys
            && base[JivaBackEndVolSizeLbl] == Get(m, PVPStorageSizeLbl)
            && base[JivaFrontEndIPLbl] == feIP
            && base[JivaTargetPortalLbl] == feIP + ":" + JivaISCSIPortDef
            && base[JivaIqnLbl] == JivaIqnFormatPrefix + ":" + name
            && base[PVPReplicaCountLbl] == Itoa(n)
  {
  }

  /** A key no longer than the replica key prefix is not a replica key. */
  lemma NotIndexed(ips: seq<string>, k: string)
    requires |k| <= |JivaBackEndIPPrefixLbl|
    ensures k !in IndexedIPs(ips)
  {
    if k in IndexedIPs(ips) {
      var i := IndexedIPsKeyIndex(ips, k);
      assert false;
    }
  }

  /** The backend environment: the fixed entries, as built, and each
      replica's address under its indexed key. */
  lemma ReplicaEnvContents(name: string, m: map<string, string>, ips: seq<string>)
    ensures var env := ReplicaEnv(name, m, ips);
            && env.Keys == FixedBeEnvKeys + IndexedIPs(ips).Keys
            && (forall k :: k in FixedBeEnvKeys ==> env[k] == BeEnv(name, m)[k])
            && forall i :: 0 <= i < |ips| ==> BackendIPKey(i) in env && env[BackendIPKey(i)] == ips[i]
  {
    FixedKeysShort();
    AddReplicas(BeEnv(name, m), ips);
  }

  /** The replica addresses PvcToJob reads from the claim. */
  function ReplicaIPs(m: map<string, string>): seq<string>
  {
    Split(Get(m, PVPReplicaIPsLbl))
  }

  /** The checks PvcToJob makes, in order, on a (non-nil) claim with this
      name and these labels before it builds the job; the replica count
      when they all pass. */
  function ClaimCount(name: string, labels: Labels): (r: Result<int>)
    ensures name == "" ==> r == Err(Msg(MissingName))
    ensures name != "" && labels.None? ==> r == Err(Msg("Missing labels in pvc"))
    ensures name != "" && labels.Some? && FirstMissing(labels.value, Required).Some? ==>
              r == Err(Msg(Required[FirstMissing(labels.value, Required).value].1))
    ensures name != "" && labels.Some? && FirstMissing(labels.value, Required).None? ==>
              var count := Atoi(Get(labels.value, PVPReplicaCountLbl));
              && (count.Err? ==> r == Err(count.error))
              && (count.Ok? && BackendIPsCheck(|ReplicaIPs(labels.value)|, count.value).Fail? ==>
                    r == Err(BackendIPsCheck(|ReplicaIPs(labels.value)|, count.value).error))
    ensures r.Ok? <==> && name != "" && labels.Some?
                       && FirstMissing(labels.value, Required).None?
                       && Atoi(Get(labels.value, PVPReplicaCountLbl)).Ok?
                       && Atoi(Get(labels.value, PVPReplicaCountLbl)).value != 0
                       && |ReplicaIPs(labels.value)| == Atoi(Get(labels.value, PVPReplicaCountLbl)).value
    ensures r.Ok? ==> r.value == |ReplicaIPs(labels.value)| == Atoi(Get(labels.value, PVPReplicaCountLbl)).value
  {
    if name == "" then Err(Msg(MissingName))
    else if labels.None? then Err(Msg("Missing labels in pvc"))
    else
      var m := labels.value;
      match FirstMissing(m, Required)
      case Some(i) => Err(Msg(Required[i].1))
      case None =>
        match Atoi(Get(m, PVPReplicaCountLbl))
        case Err(e) => Err(e)
        case Ok(count) =>
          match BackendIPsCheck(|ReplicaIPs(m)|, count)
          case Fail(e) => Err(e)
          case Pass => Ok(count)
  }

  /** What PvcToJob computes for a (non-nil) claim: the first failed check,
      or the job with the replica entries added. */
  function ClaimToJob(name: string, labels: Labels): (r: Result<Job>)
    ensures r.Ok? <==> ClaimCount(name, labels).Ok?
    ensures r.Err? ==> r == Err(ClaimCount(name, labels).error)
  {
    match ClaimCount(name, labels)
    case Err(e) => Err(e)
    case Ok(count) =>
      var m := labels.value;
      var ips := ReplicaIPs(m);
      Ok(AssembleJob(name, m, count, ReplicaEnv(name, m, ips), ReplicaMeta(name, m, ips)))
  }

  /** PvcToJob: the checks in order, the replica count, the replica entries,
      then the job. */
  method PvcToJob(pvc: Claim?) returns (r: Result<Job>)
    ensures pvc == null ==> r == Err(Msg(NilClaim))
    ensures pvc != null ==> r == ClaimToJob(pvc.name, pvc.labels)
  {
    if pvc == null {
      return Err(Msg(NilClaim));
    }
    if pvc.name == "" {
      return Err(Msg(MissingName));
    }
    if pvc.labels.None? {
      return Err(Msg("Missing labels in pvc"));
    }
    var m := pvc.labels.value;
    var missing := FirstMissing(m, Required);
    if missing.Some? {
      return Err(Msg(Required[missing.value].1));
    }
    var count := Atoi(Get(m, PVPReplicaCountLbl));
    if count.Err? {
      return Err(count.error);
    }
    var ips := ReplicaIPs(m);
    var err, beEnv, jobMeta := SetBEIPs(BeEnv(pvc.name, m), JobMeta(pvc.name, m), ips, count.value);
    if err.Fail? {
      return Err(err.error);
    }
    return Ok(AssembleJob(pvc.name, m, count.value, beEnv, jobMeta));
  }

  /** The shape of every job PvcToJob builds: named and identified by the
      claim, in the claim's region and datacenter, a service job of priority
      50 on Linux, one frontend and `count` backends spread over distinct
      hosts, both groups with the same restart policy. */
  lemma JobShape(name: string, labels: Labels)
    requires ClaimToJob(name, labels).Ok?
    ensures var j := ClaimToJob(name, labels).value;
            var count := ClaimCount(name, labels).value;
            && j.id == j.name == Some(name)
            && j.region == Some(Lookup(labels, OrchRegionLbl)) && Lookup(labels, OrchRegionLbl) != ""
            && j.datacenters == [Lookup(labels, OrchDCLbl)] && Lookup(labels, OrchDCLbl) != ""
            && j.jobType == Some(JobTypeService) && j.priority == Some(50)
            && j.constraints == [LinuxOnly]
            && |j.taskGroups| == 2
            && j.taskGroups[0].count == 1
            && j.taskGroups[1].count == count == |ReplicaIPs(labels.value)|
            && DistinctHosts in j.taskGroups[1].constraints
            && DistinctHosts !in j.taskGroups[0].constraints
            && j.taskGroups[0].restartPolicy == j.taskGroups[1].restartPolicy == JivaRestartPolicy
  {
    var m := labels.value;
    var ips := ReplicaIPs(m);
    assert ClaimToJob(name, labels).value == AssembleJob(name, m, |ips|, ReplicaEnv(name, m, ips), ReplicaMeta(name, m, ips));
    assert FirstMissing(m, Required).None?;
    assert Required[0].0 == OrchRegionLbl && Required[1].0 == OrchDCLbl;
  }

  /** The built job carries exactly the metadata and backend environment
      described by ReplicaMetaContents and ReplicaEnvContents. */
  lemma JobMetaContents(name: string, labels: Labels)
    requires ClaimToJob(name, labels).Ok?
    ensures var j := ClaimToJob(name, labels).value;
            var ips := ReplicaIPs(labels.value);
            && j.meta == Some(ReplicaMeta(name, labels.value, ips))
            && |j.taskGroups| == 2 && |j.taskGroups[1].tasks| == 1
            && j.taskGroups[1].tasks[0].env == ReplicaEnv(name, labels.value, ips)
            && j.taskGroups[0].tasks[0].env == FeEnv(name, labels.value)
  {
    var m := labels.value;
    var ips := ReplicaIPs(m);
    assert ClaimToJob(name, labels).value == AssembleJob(name, m, |ips|, ReplicaEnv(name, m, ips), ReplicaMeta(name, m, ips));
  }

  /** A claim without a replica count label fails on its parse. */
  lemma MissingReplicaCount(name: string, labels: Labels)
    requires name != "" && labels.Some? && FirstMissing(labels.value, Required).None?
    requires Get(labels.value, PVPReplicaCountLbl) == ""
    ensures ClaimCount(name, labels) == Err(NumError("", InvalidSyntax))
    ensures ClaimToJob(name, labels) == Err(NumError("", InvalidSyntax))
  {
  }

  // ------------------------------------------------- job and volume records

  /** JobEvalToPv. */
  function JobEvalToPv(jobName: string, eval: Option<Evaluation>): (r: Result<PersistentVolume>)
    ensures eval.None? <==> r == Err(Msg("Nil job evaluation provided"))
    ensures r.Ok? <==> eval.Some?
    ensures r.Ok? ==> && r.value.name == jobName
                      && r.value.status == VolumeStatus(eval.value.statusDescription, eval.value.status)
                      && r.value.annotations.Some?
                      && r.value.annotations.value.Keys == EvalKeys
    ensures r.Ok? ==> var a := r.value.annotations.value;
                      && a["evalpriority"] == Itoa(eval.value.priority)
                      && a["evaltype"] == eval.value.evalType
                      && a["evaltrigger"] == eval.value.triggeredBy
                      && a["evaljob"] == eval.value.jobID
                      && a["evalstatus"] == eval.value.status
                      && a["evalstatusdesc"] == eval.value.statusDescription
                      && a["evalblockedeval"] == eval.value.blockedEval
  {
    if eval.None? then Err(Msg("Nil job evaluation provided"))
    else
      var e := eval.value;
      Ok(PersistentVolume(jobName,
        Some(map["evalpriority" := Itoa(e.priority),
                 "evaltype" := e.evalType,
                 "evaltrigger" := e.triggeredBy,
                 "evaljob" := e.jobID,
                 "evalstatus" := e.status,
                 "evalstatusdesc" := e.statusDescription,
                 "evalblockedeval" := e.blockedEval]),
        VolumeStatus(e.statusDescription, e.status)))
  }

  const EvalKeys: set<string> :=
    {"evalpriority", "evaltype", "evaltrigger", "evaljob", "evalstatus", "evalstatusdesc", "evalblockedeval"}

  /** The recorded priority parses back to the evaluation's priority. */
  lemma EvalPriorityRoundTrip(jobName: string, e: Evaluation)
    requires InInt64(e.priority)
    ensures Atoi(JobEvalToPv(jobName, Some(e)).value.annotations.value["evalpriority"]) == Ok(e.priority)
  {
    AtoiItoa(e.priority);
  }

  /** PvToJob: a job named and identified by the volume, nothing else set. */
  function PvToJob(pv: Option<PersistentVolume>): (r: Result<Job>)
    ensures pv.None? ==> r == Err(Msg("Nil persistent volume provided"))
    ensures r.Ok? <==> pv.Some?
    ensures r.Ok? ==> r.value.name == r.value.id == Some(pv.value.name)
    ensures r.Ok? ==> r.value == Job(None, Some(pv.value.name), Some(pv.value.name), [], None, None, [], None, [], None, None)
  {
    if pv.None? then Err(Msg("Nil persistent volume provided"))
    else Ok(Job(None, Some(pv.value.name), Some(pv.value.name), [], None, None, [], None, [], None, None))
  }

  /** JobToPv: name and status copied from the job, whose name, status
      description and status it dereferences in that order; the metadata
      becomes the annotations only while the job is running. */
  function JobToPv(job: Option<Job>): (r: Result<PersistentVolume>)
    ensures job.None? ==> r == Err(Msg("Nil job provided"))
    ensures job.Some? && (job.value.name.None? || job.value.statusDescription.None? || job.value.status.None?) ==> r == Err(NilDereference)
    ensures r.Ok? <==> job.Some? && job.value.name.Some? && job.value.statusDescription.Some? && job.value.status.Some?
    ensures r.Ok? ==> && r.value.name == job.value.name.value
                      && r.value.status == VolumeStatus(job.value.statusDescription.value, job.value.status.value)
    ensures r.Ok? ==> r.value.annotations == if job.value.status.value == JobStatusRunning then job.value.meta else None
  {
    if job.None? then Err(Msg("Nil job provided"))
    else
      var j := job.value;
      if j.name.None? || j.statusDescription.None? || j.status.None? then Err(NilDereference)
      else
        Ok(PersistentVolume(j.name.value,
                            if j.status.value == JobStatusRunning then j.meta else None,
                            VolumeStatus(j.statusDescription.value, j.status.value)))
  }

  /** A volume mapped to a job and back keeps its name; the job for a
      volume's record is the job it came from as far as name and ID go. */
  lemma JobToPvToJob(job: Option<Job>)
    requires JobToPv(job).Ok?
    ensures PvToJob(Some(JobToPv(job).value)).value.name == job.value.name
    ensures PvToJob(Some(JobToPv(job).value)).value.id == job.value.name
  {
  }

  /** The job PvToJob builds carries no status, so JobToPv cannot map it
      back: it dereferences the nil status description. */
  lemma PvToJobToPvDereferencesNil(pv: PersistentVolume)
    ensures JobToPv(Some(PvToJob(Some(pv)).value)) == Err(NilDereference)
  {
  }

  /** A running job built from a claim is recorded with the job metadata as
      its annotations, so the claim's frontend address survives the round
      trip through Nomad. */
  lemma RunningJobAnnotations(name: string, labels: Labels, desc: string)
    requires ClaimToJob(name, labels).Ok?
    ensures var j := ClaimToJob(name, labels).value.(status := Some(JobStatusRunning), statusDescription := Some(desc));
            var pv := JobToPv(Some(j));
            && pv.Ok? && pv.value.name == name
            && pv.value.annotations.Some?
            && JivaFrontEndIPLbl in pv.value.annotations.value
            && pv.value.annotations.value[JivaFrontEndIPLbl] == Get(labels.value, PVPControllerIPsLbl)
  {
    var m := labels.value;
    var ips := ReplicaIPs(m);
    var j := ClaimToJob(name, labels).value.(status := Some(JobStatusRunning), statusDescription := Some(desc));
    JobMetaContents(name, labels);
    assert j.meta == Some(ReplicaMeta(name, m, ips));
    assert JobToPv(Some(j)).value.annotations == j.meta;
    ReplicaMetaContents(name, m, ips);
  }
}
