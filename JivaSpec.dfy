/** What the claim-resolution steps of lib/volume/jiva/util.go do to a claim,
    stated on values. The imperative methods of module Jiva are proved to
    update a Claim object exactly as these functions say.

    Every step follows one precedence rule: a non-empty label already on the
    claim wins over the orchestrator/datacenter default, which wins over a
    hard-coded default. The exception is the subnet label, which setCN
    always recomputes. */
module JivaSpec {
  import opened Base
  import opened Text
  import opened V1

  /** The collaborators of jivaUtil reached through its volume-plugin aspect,
      and the nethelper functions, as parameters of the model. */
  datatype Env = Env(
    orchestrator: Outcome,                              // GetOrchProvider and StoragePlacements support
    region: Result<string>,                             // aspect -> orchestrator -> Region()
    defaultDC: Result<string>,                          // aspect.DefaultDatacenter()
    storageProps: string -> Result<map<string, string>>, // StorageProps(dc)
    networkProps: string -> Result<map<string, string>>, // NetworkProps(dc)
    cidrSubnet: string -> Result<string>,               // nethelper.CIDRSubnet
    availableIPs: (string, int) -> Result<seq<string>>, // nethelper.GetAvailableIPs
    placement: (string, ClaimState) -> Result<PersistentVolume> // StoragePlacementReq
  )

  /** The one property assumed of nethelper.GetAvailableIPs: a successful
      request for n addresses yields exactly n strings. */
  ghost predicate ExactIPs(env: Env) {
    forall cidr: string, n: int :: 0 <= n && env.availableIPs(cidr, n).Ok? ==> |env.availableIPs(cidr, n).value| == n
  }

  const NotInitialized := "Persistent volume claim's labels not initialized"
  const DefaultJivaImage := "openebs/jiva:latest"

  /** Every non-empty label of `l` has the same value in `l'`. */
  ghost predicate KeepsExplicit(l: Labels, l': Labels) {
    forall k :: Lookup(l, k) != "" ==> Lookup(l', k) == Lookup(l, k)
  }

  // ---------------------------------------------------------------- initLabels

  /** initLabels: a nil label map becomes the empty map; any other is kept. */
  function InitLabels(l: Labels): (r: Labels)
    ensures r.Some?
    ensures l.None? ==> r == Some(map[])
    ensures l.Some? ==> r == l
  {
    if l.None? then Some(map[]) else l
  }

  lemma InitLabelsIdempotent(l: Labels)
    ensures InitLabels(InitLabels(l)) == InitLabels(l)
  {
  }

  // --------------------------------------------------------------- verifySpecs

  /** verifySpecs: only a nil request map is rejected (the other two nil
      checks of the source compare addresses of fields and never hold). */
  function VerifySpecs(q: Requests): (r: Outcome)
    ensures r.Pass? <==> q.Some?
    ensures r.Fail? ==> r.error == Msg("Storage specs missing in pvc")
  {
    if q.None? then Fail(Msg("Storage specs missing in pvc")) else Pass
  }

  // ----------------------------------------------------------- setJivaLblProps

  /** setJivaLblProps: fills in the frontend image label when it is empty. */
  function SetJivaLblProps(l: Labels): (r: (Outcome, Labels))
    ensures r.0.Fail? <==> l.None?
    ensures r.0.Fail? ==> r.0.error == Msg("Labels missing in pvc") && r.1 == l
    ensures r.0.Pass? ==> r.1.Some? && r.1.value - {JivaFrontEndImageLbl} == l.value - {JivaFrontEndImageLbl}
    ensures Lookup(l, JivaFrontEndImageLbl) != "" ==> r.1 == l
    ensures r.0.Pass? && Lookup(l, JivaFrontEndImageLbl) == "" ==> Lookup(r.1, JivaFrontEndImageLbl) == DefaultJivaImage
    ensures KeepsExplicit(l, r.1)
  {
    if l.None? then (Fail(Msg("Labels missing in pvc")), l)
    else if Get(l.value, JivaFrontEndImageLbl) == "" then (Pass, Some(l.value[JivaFrontEndImageLbl := DefaultJivaImage]))
    else (Pass, l)
  }

  // ------------------------------------------------- getStorageSize, setJivaSpecProps

  /** getStorageSize: the "storage" request, which must be positive. A missing
      request reads as the zero quantity and so is rejected as invalid (the
      "missing" branch of the source tests the address of a local and is
      unreachable). */
  function GetStorageSize(q: Requests): (r: Result<int>)
    ensures r.Ok? <==> Quantity(q, StorageResource) > 0
    ensures r.Ok? ==> r.value == Quantity(q, StorageResource) && q.Some?
    ensures r.Err? ==> r.error == Msg("Invalid storage size in pvc")
  {
    var size := Quantity(q, StorageResource);
    if size <= 0 then Err(Msg("Invalid storage size in pvc")) else Ok(size)
  }

  /** One half of setJivaSpecProps: a non-positive size under `key` is
      replaced by the storage size. */
  function DefaultSize(q: Requests, key: string): (r: (Outcome, Requests))
    requires key != StorageResource
    ensures r.0.Fail? <==> Quantity(q, key) <= 0 && Quantity(q, StorageResource) <= 0
    ensures r.0.Fail? ==> r.1 == q && r.0.error == Msg("Invalid storage size in pvc")
    ensures r.0.Pass? ==> Quantity(r.1, key) > 0
    ensures Quantity(q, key) > 0 ==> r == (Pass, q)
    ensures r.0.Pass? && Quantity(q, key) <= 0 ==> Quantity(r.1, key) == Quantity(q, StorageResource)
    ensures r.0.Pass? ==> r.1.Some? && q.Some? && r.1.value - {key} == q.value - {key}
  {
    if Quantity(q, key) > 0 then (Pass, q)
    else match GetStorageSize(q)
      case Err(e) => (Fail(e), q)
      case Ok(size) => (Pass, Some(q.value[key := size]))
  }

  /** setJivaSpecProps: defaults the frontend size, then the backend size. */
  function SetJivaSpecProps(q: Requests): (r: (Outcome, Requests))
    ensures r.0.Pass? <==> Quantity(q, StorageResource) > 0 || (Quantity(q, JivaFrontEndVolSizeLbl) > 0 && Quantity(q, JivaBackEndVolSizeLbl) > 0)
    ensures r.0.Fail? ==> r.1 == q
    ensures Quantity(q, JivaFrontEndVolSizeLbl) > 0 && Quantity(q, JivaBackEndVolSizeLbl) > 0 ==> r == (Pass, q)
    ensures r.0.Pass? ==> Quantity(r.1, JivaFrontEndVolSizeLbl) > 0 && Quantity(r.1, JivaBackEndVolSizeLbl) > 0
    ensures r.0.Pass? ==> Quantity(r.1, JivaFrontEndVolSizeLbl) == (if Quantity(q, JivaFrontEndVolSizeLbl) > 0 then Quantity(q, JivaFrontEndVolSizeLbl) else Quantity(q, StorageResource))
    ensures r.0.Pass? ==> Quantity(r.1, JivaBackEndVolSizeLbl) == (if Quantity(q, JivaBackEndVolSizeLbl) > 0 then Quantity(q, JivaBackEndVolSizeLbl) else Quantity(q, StorageResource))
    ensures r.0.Pass? ==> r.1.Some? && q.Some? && r.1.value - {JivaFrontEndVolSizeLbl, JivaBackEndVolSizeLbl} == q.value - {JivaFrontEndVolSizeLbl, JivaBackEndVolSizeLbl}
  {
    var (fe, q1) := DefaultSize(q, JivaFrontEndVolSizeLbl);
    if fe.Fail? then (fe, q1)
    else
      var (be, q2) := DefaultSize(q1, JivaBackEndVolSizeLbl);
      assert q2.Some? ==> q2.value - {JivaFrontEndVolSizeLbl, JivaBackEndVolSizeLbl} == (q1.value - {JivaBackEndVolSizeLbl}) - {JivaFrontEndVolSizeLbl};
      if be.Fail? then (be, q) else (be, q2)
  }

  // ------------------------------------------------------------ setRegion, setDC

  /** setRegion: keeps a non-empty region label, otherwise takes the
      orchestrator's region, which must not be empty. */
  function SetRegion(l: Labels, region: Result<string>): (r: (Outcome, Labels))
    ensures l.None? ==> r == (Fail(Msg(NotInitialized)), l)
    ensures r.0.Pass? <==> l.Some? && (Lookup(l, RegionLbl) != "" || (region.Ok? && region.value != ""))
    ensures r.0.Fail? ==> r.1 == l
    ensures Lookup(l, RegionLbl) != "" ==> r.1 == l
    ensures l.Some? && Lookup(l, RegionLbl) == "" && region.Err? ==> r.0 == Fail(region.error)
    ensures l.Some? && Lookup(l, RegionLbl) == "" && region == Ok("") ==> r.0 == Fail(Msg("Region could not be determined"))
    ensures r.0.Pass? ==> r.1.Some? && Lookup(r.1, RegionLbl) != "" && r.1.value - {RegionLbl} == l.value - {RegionLbl}
    ensures r.0.Pass? && Lookup(l, RegionLbl) == "" ==> Lookup(r.1, RegionLbl) == region.value
    ensures KeepsExplicit(l, r.1)
  {
    if l.None? then (Fail(Msg(NotInitialized)), l)
    else if Get(l.value, RegionLbl) != "" then (Pass, l)
    else match region
      case Err(e) => (Fail(e), l)
      case Ok(v) =>
        if v == "" then (Fail(Msg("Region could not be determined")), l)
        else (Pass, Some(l.value[RegionLbl := v]))
  }

  /** setDC: returns a non-empty datacenter label as it is, otherwise takes
      the default datacenter, which must not be empty, and records it. */
  function SetDC(l: Labels, defaultDC: Result<string>): (r: (Result<string>, Labels))
    ensures l.None? ==> r == (Err(Msg(NotInitialized)), l)
    ensures r.0.Ok? <==> l.Some? && (Lookup(l, DatacenterLbl) != "" || (defaultDC.Ok? && defaultDC.value != ""))
    ensures r.0.Err? ==> r.1 == l
    ensures Lookup(l, DatacenterLbl) != "" ==> r == (Ok(Lookup(l, DatacenterLbl)), l)
    ensures l.Some? && Lookup(l, DatacenterLbl) == "" && defaultDC.Err? ==> r.0 == Err(defaultDC.error)
    ensures l.Some? && Lookup(l, DatacenterLbl) == "" && defaultDC == Ok("") ==> r.0 == Err(Msg("Datacenter could not be determined"))
    ensures r.0.Ok? ==> r.0.value != "" && r.0.value == Lookup(r.1, DatacenterLbl)
    ensures r.0.Ok? ==> r.1.Some? && r.1.value - {DatacenterLbl} == l.value - {DatacenterLbl}
    ensures r.0.Ok? && Lookup(l, DatacenterLbl) == "" ==> r.0 == defaultDC
    ensures KeepsExplicit(l, r.1)
  {
    if l.None? then (Err(Msg(NotInitialized)), l)
    else if Get(l.value, DatacenterLbl) != "" then (Ok(Get(l.value, DatacenterLbl)), l)
    else match defaultDC
      case Err(e) => (Err(e), l)
      case Ok(dc) =>
        if dc == "" then (Err(Msg("Datacenter could not be determined")), l)
        else (Ok(dc), Some(l.value[DatacenterLbl := dc]))
  }

  // --------------------------------------------------------- the merge of setCS/setCN

  /** The merge loops of setCS and setCN: every key of the defaults `d` whose
      label is empty or missing takes the default value (which may itself be
      empty); every other label is kept. */
  function MergeDefaults(m: map<string, string>, d: map<string, string>): (r: map<string, string>)
    ensures r.Keys == m.Keys + d.Keys
    ensures forall k :: k in d ==> r[k] == (if Get(m, k) != "" then m[k] else d[k])
    ensures forall k :: k in m && k !in d ==> r[k] == m[k]
    ensures forall k :: Get(m, k) != "" ==> Get(r, k) == Get(m, k)
  {
    PartialMerge(m, d, d.Keys)
  }

  /** The merge after the loop has visited the default keys in `done`. */
  function PartialMerge(m: map<string, string>, d: map<string, string>, done: set<string>): map<string, string>
  {
    m + map k | k in done && k in d && Get(m, k) == "" :: d[k]
  }

  lemma PartialMergeNone(m: map<string, string>, d: map<string, string>)
    ensures PartialMerge(m, d, {}) == m
  {
    assert PartialMerge(m, d, {}).Keys == m.Keys;
  }

  /** One more iteration of the merge loop: key `k` is filled when its label
      is still empty. */
  lemma PartialMergeStep(m: map<string, string>, d: map<string, string>, done: set<string>, k: string)
    requires k in d && k !in done
    ensures var cur := PartialMerge(m, d, done);
            PartialMerge(m, d, done + {k}) == if Get(cur, k) == "" then cur[k := d[k]] else cur
  {
    var cur := PartialMerge(m, d, done);
    var next := PartialMerge(m, d, done + {k});
    assert Get(cur, k) == Get(m, k);
    if Get(m, k) == "" {
      assert next == cur[k := d[k]];
    } else {
      assert next.Keys == cur.Keys;
    }
  }

  /** Merging the same defaults twice is merging them once. */
  lemma MergeIdempotent(m: map<string, string>, d: map<string, string>)
    ensures MergeDefaults(MergeDefaults(m, d), d) == MergeDefaults(m, d)
  {
    var once := MergeDefaults(m, d);
    var twice := MergeDefaults(once, d);
    assert forall k :: k in twice ==> twice[k] == once[k];
  }

  /** `m` already holds every default of `d` it would take: a merge of `d`
      changes nothing. */
  ghost predicate Saturated(m: map<string, string>, d: map<string, string>) {
    forall k :: k in d ==> k in m && (m[k] != "" || d[k] == "")
  }

  lemma {:induction false} SaturatedMergeIsIdentity(m: map<string, string>, d: map<string, string>)
    requires Saturated(m, d)
    ensures MergeDefaults(m, d) == m
  {
    var r := MergeDefaults(m, d);
    forall k | k in r
      ensures k in m && r[k] == m[k]
    {
      if k in d {
        assert k in m && (m[k] != "" || d[k] == "");
      }
    }
    assert r.Keys == m.Keys;
  }

  // ------------------------------------------------------------------- setCS

  /** setCS: merges the datacenter's storage defaults into the labels. */
  function SetCS(l: Labels, dc: string, storageProps: string -> Result<map<string, string>>): (r: (Outcome, Labels))
    ensures l.None? ==> r == (Fail(Msg(NotInitialized)), l)
    ensures l.Some? && dc == "" ==> r == (Fail(Msg("Datacenter not provided")), l)
    ensures r.0.Pass? <==> l.Some? && dc != "" && storageProps(dc).Ok?
    ensures r.0.Fail? ==> r.1 == l
    ensures l.Some? && dc != "" && storageProps(dc).Err? ==> r.0 == Fail(storageProps(dc).error)
    ensures r.0.Pass? ==> r.1 == Some(MergeDefaults(l.value, storageProps(dc).value))
    ensures KeepsExplicit(l, r.1)
  {
    if l.None? then (Fail(Msg(NotInitialized)), l)
    else if dc == "" then (Fail(Msg("Datacenter not provided")), l)
    else match storageProps(dc)
      case Err(e) => (Fail(e), l)
      case Ok(cs) => (Pass, Some(MergeDefaults(l.value, cs)))
  }

  // ------------------------------------------------------------ IP assignment

  /** getBackendCount: the replica count label parsed as a Go int. */
  function GetBackendCount(l: Labels): (r: Result<int>)
    ensures r.Ok? ==> IsDecimal(Lookup(l, CSReplicaCountLbl)) && InInt64(r.value) && r.value == DecimalValue(Lookup(l, CSReplicaCountLbl))
    ensures Lookup(l, CSReplicaCountLbl) == "" ==> r == Err(NumError("", InvalidSyntax))
    ensures r.Ok? <==> Atoi(Lookup(l, CSReplicaCountLbl)).Ok?
    ensures r.Err? ==> r == Atoi(Lookup(l, CSReplicaCountLbl))
  {
    Atoi(Lookup(l, CSReplicaCountLbl))
  }

  /** setBackendIPsAsString: the backend IPs joined by commas. */
  function SetBackendIPsAsString(m: map<string, string>, ips: seq<string>): (r: map<string, string>)
  {
    m[JivaBackEndAllIPsLbl := Join(ips)]
  }

  /** The label setBackendIPsAsString writes is read back, by the strings.Split
      of the job builder, as exactly the addresses it was given, provided
      they contain no comma and there is at least one; every other label is
      untouched. */
  lemma BackendIPsLabelRoundTrip(m: map<string, string>, ips: seq<string>)
    requires 0 < |ips| && forall i :: 0 <= i < |ips| ==> CommaFree(ips[i])
    ensures Split(SetBackendIPsAsString(m, ips)[JivaBackEndAllIPsLbl]) == ips
    ensures forall k :: k != JivaBackEndAllIPsLbl ==> Get(SetBackendIPsAsString(m, ips), k) == Get(m, k)
  {
    SplitJoin(ips);
  }

  /** setBackendIPs: allocates as many addresses as the replica count asks for. */
  function SetBackendIPs(m: map<string, string>, cidr: string, env: Env): (r: (Outcome, map<string, string>))
    ensures GetBackendCount(Some(m)).Err? ==> r == (Fail(GetBackendCount(Some(m)).error), m)
    ensures r.0.Pass? <==> GetBackendCount(Some(m)).Ok? && env.availableIPs(cidr, GetBackendCount(Some(m)).value).Ok?
    ensures GetBackendCount(Some(m)).Ok? && env.availableIPs(cidr, GetBackendCount(Some(m)).value).Err? ==>
              r.0 == Fail(env.availableIPs(cidr, GetBackendCount(Some(m)).value).error)
    ensures r.0.Fail? ==> r.1 == m
    ensures r.0.Pass? ==> r.1 == m[JivaBackEndAllIPsLbl := Join(env.availableIPs(cidr, GetBackendCount(Some(m)).value).value)]
  {
    match GetBackendCount(Some(m))
    case Err(e) => (Fail(e), m)
    case Ok(n) =>
      match env.availableIPs(cidr, n)
      case Err(e) => (Fail(e), m)
      case Ok(ips) => (Pass, SetBackendIPsAsString(m, ips))
  }

  /** The three-way branch at the end of setCN: frontend and backend
      addresses together, only the frontend address, or only the backend
      addresses, whichever labels are empty. The first address of a joint
      allocation goes to the frontend; `1 + count` wraps as a Go int. */
  function AssignIPs(m: map<string, string>, cidr: string, env: Env): (r: (Outcome, map<string, string>))
    // both labels set: nothing is allocated
    ensures Get(m, JivaFrontEndIPLbl) != "" && Get(m, JivaBackEndAllIPsLbl) != "" ==> r == (Pass, m)
    // only the backend label empty: the frontend label is untouched
    ensures Get(m, JivaFrontEndIPLbl) != "" && Get(m, JivaBackEndAllIPsLbl) == "" ==> r == SetBackendIPs(m, cidr, env)
    // only the frontend label empty: exactly one address, backends untouched
    ensures Get(m, JivaFrontEndIPLbl) == "" && Get(m, JivaBackEndAllIPsLbl) != "" ==>
              var ips := env.availableIPs(cidr, 1);
              && (r.0.Pass? <==> ips.Ok? && 0 < |ips.value|)
              && (ips.Err? ==> r.0 == Fail(ips.error))
              && (ips.Ok? && |ips.value| == 0 ==> r.0 == Fail(IndexOutOfRange(0, 0)))
              && (r.0.Pass? ==> r.1 == m[JivaFrontEndIPLbl := ips.value[0]])
    // both empty: 1 + count addresses, the first for the frontend
    ensures Get(m, JivaFrontEndIPLbl) == "" && Get(m, JivaBackEndAllIPsLbl) == "" ==>
              var n := GetBackendCount(Some(m));
              && (n.Err? ==> r.0 == Fail(n.error))
              && (n.Ok? ==>
                    var ips := env.availableIPs(cidr, Wrap64(1 + n.value));
                    && (r.0.Pass? <==> ips.Ok? && 0 < |ips.value|)
                    && (ips.Err? ==> r.0 == Fail(ips.error))
                    && (ips.Ok? && |ips.value| == 0 ==> r.0 == Fail(IndexOutOfRange(0, 0)))
                    && (r.0.Pass? ==> r.1 == m[JivaFrontEndIPLbl := ips.value[0]][JivaBackEndAllIPsLbl := Join(ips.value[1..])]))
    ensures r.0.Fail? ==> r.1 == m
    ensures forall k :: k != JivaFrontEndIPLbl && k != JivaBackEndAllIPsLbl ==> Get(r.1, k) == Get(m, k)
    ensures r.1.Keys <= m.Keys + {JivaFrontEndIPLbl, JivaBackEndAllIPsLbl}
    ensures m.Keys <= r.1.Keys
    ensures KeepsExplicit(Some(m), Some(r.1))
  {
    if Get(m, JivaFrontEndIPLbl) == "" && Get(m, JivaBackEndAllIPsLbl) == "" then
      match GetBackendCount(Some(m))
      case Err(e) => (Fail(e), m)
      case Ok(n) =>
        match env.availableIPs(cidr, Wrap64(1 + n))
        case Err(e) => (Fail(e), m)
        case Ok(ips) =>
          if |ips| == 0 then (Fail(IndexOutOfRange(0, 0)), m)
          else (Pass, SetBackendIPsAsString(m[JivaFrontEndIPLbl := ips[0]], ips[1..]))
    else if Get(m, JivaFrontEndIPLbl) == "" then
      match env.availableIPs(cidr, 1)
      case Err(e) => (Fail(e), m)
      case Ok(ips) =>
        if |ips| == 0 then (Fail(IndexOutOfRange(0, 0)), m)
        else (Pass, m[JivaFrontEndIPLbl := ips[0]])
    else if Get(m, JivaBackEndAllIPsLbl) == "" then
      SetBackendIPs(m, cidr, env)
    else
      (Pass, m)
  }

  // ------------------------------------------------------------------- setCN

  /** setCN: merges the datacenter's network defaults, derives the subnet
      from the merged network CIDR and assigns the missing addresses. The
      labels keep what was written before an error. */
  function SetCN(l: Labels, dc: string, env: Env): (r: (Outcome, Labels))
    ensures l.None? ==> r == (Fail(Msg(NotInitialized)), l)
    ensures l.Some? && dc == "" ==> r == (Fail(Msg("Datacenter not provided")), l)
    ensures l.Some? && dc != "" && env.networkProps(dc).Err? ==> r == (Fail(env.networkProps(dc).error), l)
    ensures l.Some? && dc != "" && env.networkProps(dc).Ok? ==>
              var merged := MergeDefaults(l.value, env.networkProps(dc).value);
              var cidr := Get(merged, CNNetworkCIDRAddrLbl);
              && r.1.Some?
              && (cidr == "" ==> r == (Fail(Msg("Network CIDR could not be determined")), Some(merged)))
              && (cidr != "" && env.cidrSubnet(cidr).Err? ==> r == (Fail(env.cidrSubnet(cidr).error), Some(merged)))
              && (cidr != "" && env.cidrSubnet(cidr).Ok? ==>
                    r == (AssignIPs(merged[CNSubnetLbl := env.cidrSubnet(cidr).value], cidr, env).0,
                          Some(AssignIPs(merged[CNSubnetLbl := env.cidrSubnet(cidr).value], cidr, env).1)))
    ensures r.0.Pass? ==> l.Some? && dc != "" && env.networkProps(dc).Ok?
    ensures forall k :: k != CNSubnetLbl && Lookup(l, k) != "" ==> Lookup(r.1, k) == Lookup(l, k)
  {
    if l.None? then (Fail(Msg(NotInitialized)), l)
    else if dc == "" then (Fail(Msg("Datacenter not provided")), l)
    else match env.networkProps(dc)
      case Err(e) => (Fail(e), l)
      case Ok(cn) =>
        var merged := MergeDefaults(l.value, cn);
        var cidr := Get(merged, CNNetworkCIDRAddrLbl);
        if cidr == "" then (Fail(Msg("Network CIDR could not be determined")), Some(merged))
        else match env.cidrSubnet(cidr)
          case Err(e) => (Fail(e), Some(merged))
          case Ok(subnet) =>
            var (o, m) := AssignIPs(merged[CNSubnetLbl := subnet], cidr, env);
            (o, Some(m))
  }

  /** After a successful setCN the subnet label is the subnet of the merged
      network CIDR, whatever subnet the claim carried before. */
  lemma SetCNSubnet(l: Labels, dc: string, env: Env)
    requires SetCN(l, dc, env).0.Pass?
    ensures var cidr := Get(MergeDefaults(l.value, env.networkProps(dc).value), CNNetworkCIDRAddrLbl);
            && cidr != ""
            && env.cidrSubnet(cidr).Ok?
            && Lookup(SetCN(l, dc, env).1, CNSubnetLbl) == env.cidrSubnet(cidr).value
  {
  }

  /** No address in `ips` contains a comma. */
  ghost predicate AllCommaFree(ips: seq<string>) {
    forall i :: 0 <= i < |ips| ==> CommaFree(ips[i])
  }

  /** With GetAvailableIPs returning exactly what is asked for, a joint
      allocation for a count of at least one stores exactly `count` comma-free
      backend addresses, so the label splits back into that many. */
  lemma JointAllocationCount(m: map<string, string>, cidr: string, env: Env)
    requires ExactIPs(env)
    requires Get(m, JivaFrontEndIPLbl) == "" && Get(m, JivaBackEndAllIPsLbl) == ""
    requires GetBackendCount(Some(m)).Ok? && 1 <= GetBackendCount(Some(m)).value < MaxInt64
    requires AssignIPs(m, cidr, env).0.Pass?
    requires AllCommaFree(env.availableIPs(cidr, Wrap64(1 + GetBackendCount(Some(m)).value)).value)
    ensures |Split(AssignIPs(m, cidr, env).1[JivaBackEndAllIPsLbl])| == GetBackendCount(Some(m)).value
  {
    var n := GetBackendCount(Some(m)).value;
    assert Wrap64(1 + n) == 1 + n;
    var ips := env.availableIPs(cidr, Wrap64(1 + n)).value;
    assert |ips| == 1 + n;
    var be := ips[1..];
    assert AllCommaFree(ips);
    assert forall i :: 0 <= i < |be| ==> CommaFree(be[i]) by {
      forall i | 0 <= i < |be| ensures CommaFree(be[i]) {
        assert 0 <= i + 1 < |ips|;
        assert CommaFree(ips[i + 1]);
        assert be[i] == ips[i + 1];
      }
    }
    SplitJoin(be);
  }

  /** Re-running the allocation with a frontend address already assigned but
      no backend addresses asks for exactly `count` addresses and leaves the
      frontend address alone. */
  lemma BackendOnlyAllocation(m: map<string, string>, cidr: string, env: Env)
    requires ExactIPs(env)
    requires Get(m, JivaFrontEndIPLbl) != "" && Get(m, JivaBackEndAllIPsLbl) == ""
    requires AssignIPs(m, cidr, env).0.Pass?
    ensures GetBackendCount(Some(m)).Ok?
    ensures var n := GetBackendCount(Some(m)).value;
            var ips := env.availableIPs(cidr, n).value;
            && (0 <= n ==> |ips| == n)
            && AssignIPs(m, cidr, env).1 == m[JivaBackEndAllIPsLbl := Join(ips)]
            && Get(AssignIPs(m, cidr, env).1, JivaFrontEndIPLbl) == Get(m, JivaFrontEndIPLbl)
  {
  }

  /** When the claim carries no replica count label (the key getBackendCount
      reads), a joint allocation fails with Atoi's syntax error. */
  lemma UnsetBackendCountFails(m: map<string, string>, cidr: string, env: Env)
    requires Get(m, JivaFrontEndIPLbl) == "" && Get(m, JivaBackEndAllIPsLbl) == ""
    requires Get(m, CSReplicaCountLbl) == ""
    ensures AssignIPs(m, cidr, env) == (Fail(NumError("", InvalidSyntax)), m)
  {
  }

  // -------------------------------------------------------- ProvisionStorage

  /** The label-resolution steps of ProvisionStorage. */
  datatype Stage =
    | InitLabelsStage
    | VerifySpecsStage
    | JivaLblPropsStage
    | JivaSpecPropsStage
    | RegionStage
    | DCStage
    | CSStage
    | CNStage

  /** ProvisionStorage runs the steps in exactly this order. */
  const ProvisionOrder: seq<Stage> :=
    [InitLabelsStage, VerifySpecsStage, JivaLblPropsStage, JivaSpecPropsStage,
     RegionStage, DCStage, CSStage, CNStage]

  /** The claim as the steps leave it, and the datacenter setDC returned. */
  datatype Progress = Progress(claim: ClaimState, dc: string)

  /** One step on the claim. */
  function Step(s: Stage, p: Progress, env: Env): (r: (Outcome, Progress))
    ensures s != DCStage ==> r.1.dc == p.dc
    ensures s != JivaSpecPropsStage ==> r.1.claim.requests == p.claim.requests
    ensures s == JivaSpecPropsStage || s == VerifySpecsStage ==> r.1.claim.labels == p.claim.labels
  {
    var c := p.claim;
    match s
    case InitLabelsStage => (Pass, Progress(c.(labels := InitLabels(c.labels)), p.dc))
    case VerifySpecsStage => (VerifySpecs(c.requests), p)
    case JivaLblPropsStage =>
      var (o, l) := SetJivaLblProps(c.labels); (o, Progress(c.(labels := l), p.dc))
    case JivaSpecPropsStage =>
      var (o, q) := SetJivaSpecProps(c.requests); (o, Progress(c.(requests := q), p.dc))
    case RegionStage =>
      var (o, l) := SetRegion(c.labels, env.region); (o, Progress(c.(labels := l), p.dc))
    case DCStage =>
      var (dc, l) := SetDC(c.labels, env.defaultDC);
      if dc.Ok? then (Pass, Progress(c.(labels := l), dc.value)) else (Fail(dc.error), Progress(c.(labels := l), p.dc))
    case CSStage =>
      var (o, l) := SetCS(c.labels, p.dc, env.storageProps); (o, Progress(c.(labels := l), p.dc))
    case CNStage =>
      var (o, l) := SetCN(c.labels, p.dc, env); (o, Progress(c.(labels := l), p.dc))
  }

  /** Runs the steps one after another; the first error ends the run. */
  function Run(stages: seq<Stage>, p: Progress, env: Env): (Outcome, Progress)
  {
    if |stages| == 0 then (Pass, p)
    else
      var (o, p') := Step(stages[0], p, env);
      if o.Fail? then (o, p') else Run(stages[1..], p', env)
  }

  /** Running a list is running a prefix, then, if it passed, the rest. */
  lemma {:induction false} RunSplit(stages: seq<Stage>, k: nat, p: Progress, env: Env)
    requires k <= |stages|
    ensures var (o, q) := Run(stages[..k], p, env);
            Run(stages, p, env) == if o.Fail? then (o, q) else Run(stages[k..], q, env)
  {
    if k > 0 {
      var (o, p') := Step(stages[0], p, env);
      assert stages[..k][0] == stages[0];
      assert stages[..k][1..] == stages[1..][..k - 1];
      if o.Pass? {
        RunSplit(stages[1..], k - 1, p', env);
        assert stages[1..][k - 1..] == stages[k..];
      }
    } else {
      assert stages[..0] == [];
      assert stages[0..] == stages;
    }
  }

  /** First error aborts: if the first k steps pass and step k fails, the
      run stops there with that error and the claim as step k left it. */
  lemma FirstErrorAborts(stages: seq<Stage>, k: nat, p: Progress, env: Env)
    requires k < |stages|
    requires Run(stages[..k], p, env).0.Pass?
    requires Step(stages[k], Run(stages[..k], p, env).1, env).0.Fail?
    ensures Run(stages, p, env) == Step(stages[k], Run(stages[..k], p, env).1, env)
  {
    RunSplit(stages, k, p, env);
    assert stages[k..][0] == stages[k];
  }

  /** A run passes only if every step it ran passed. */
  lemma {:induction false} RunPassesEveryStep(stages: seq<Stage>, p: Progress, env: Env, k: nat)
    requires Run(stages, p, env).0.Pass?
    requires k < |stages|
    ensures Step(stages[k], Run(stages[..k], p, env).1, env).0.Pass?
  {
    RunSplit(stages, k, p, env);
    assert stages[k..][0] == stages[k];
  }

  /** The precedence rule for a single step. */
  lemma StepKeepsExplicit(s: Stage, p: Progress, env: Env, k: string)
    requires k != CNSubnetLbl && Lookup(p.claim.labels, k) != ""
    ensures Lookup(Step(s, p, env).1.claim.labels, k) == Lookup(p.claim.labels, k)
  {
  }

  /** The precedence rule for a whole run, whether it passes or fails: a
      non-empty label is never overwritten; only the subnet label, which
      setCN recomputes, is exempt. */
  lemma {:induction false} RunKeepsExplicit(stages: seq<Stage>, p: Progress, env: Env, k: string)
    requires k != CNSubnetLbl && Lookup(p.claim.labels, k) != ""
    ensures Lookup(Run(stages, p, env).1.claim.labels, k) == Lookup(p.claim.labels, k)
  {
    if |stages| > 0 {
      var (o, p') := Step(stages[0], p, env);
      StepKeepsExplicit(stages[0], p, env, k);
      if o.Pass? {
        RunKeepsExplicit(stages[1..], p', env, k);
      }
    }
  }

  /** The eight resolution steps of ProvisionStorage (util.go:280-318), run in
      ProvisionOrder from an empty datacenter. */
  function ResolveClaim(st: ClaimState, env: Env): (Outcome, ClaimState)
  {
    var (o, p) := Run(ProvisionOrder, Progress(st, ""), env);
    (o, p.claim)
  }

  /** ProvisionStorage: the orchestrator must support storage placement, then
      the claim is resolved, then handed to the placement request. */
  function ProvisionStorage(name: string, st: ClaimState, env: Env): (r: (Result<PersistentVolume>, ClaimState))
    ensures env.orchestrator.Fail? ==> r == (Err(env.orchestrator.error), st)
    ensures env.orchestrator.Pass? ==> r.1 == ResolveClaim(st, env).1
    ensures env.orchestrator.Pass? && ResolveClaim(st, env).0.Fail? ==> r.0 == Err(ResolveClaim(st, env).0.error)
    ensures r.0.Ok? ==> env.orchestrator.Pass? && ResolveClaim(st, env).0.Pass?
    ensures env.orchestrator.Pass? && ResolveClaim(st, env).0.Pass? ==> r.0 == env.placement(name, ResolveClaim(st, env).1)
  {
    if env.orchestrator.Fail? then (Err(env.orchestrator.error), st)
    else
      var (o, c) := ResolveClaim(st, env);
      if o.Fail? then (Err(o.error), c) else (env.placement(name, c), c)
  }

  /** What a successful resolution guarantees of the claim it hands on. */
  ghost predicate Resolved(c: ClaimState, env: Env) {
    && c.labels.Some?
    && c.requests.Some?
    && Lookup(c.labels, JivaFrontEndImageLbl) != ""
    && Quantity(c.requests, JivaFrontEndVolSizeLbl) > 0
    && Quantity(c.requests, JivaBackEndVolSizeLbl) > 0
    && Lookup(c.labels, RegionLbl) != ""
    && Lookup(c.labels, DatacenterLbl) != ""
    && Lookup(c.labels, CNNetworkCIDRAddrLbl) != ""
    && env.cidrSubnet(Lookup(c.labels, CNNetworkCIDRAddrLbl)).Ok?
    && Lookup(c.labels, CNSubnetLbl) == env.cidrSubnet(Lookup(c.labels, CNNetworkCIDRAddrLbl)).value
  }

  lemma RunCons(x: Stage, rest: seq<Stage>, p: Progress, env: Env)
    ensures Run([x] + rest, p, env) ==
            if Step(x, p, env).0.Fail? then Step(x, p, env) else Run(rest, Step(x, p, env).1, env)
  {
    assert ([x] + rest)[0] == x;
    assert ([x] + rest)[1..] == rest;
  }

  /** The intermediate claims of a run that passes: each step passes on what
      the previous step left, and the run ends with the last of them. */
  lemma {:induction false} RunTrace(stages: seq<Stage>, p: Progress, env: Env) returns (ps: seq<Progress>)
    requires Run(stages, p, env).0.Pass?
    ensures |ps| == |stages| + 1 && ps[0] == p
    ensures forall k :: 0 <= k < |stages| ==> Step(stages[k], ps[k], env) == (Pass, ps[k + 1])
    ensures Run(stages, p, env).1 == ps[|stages|]
  {
    if |stages| == 0 {
      ps := [p];
    } else {
      var p' := Step(stages[0], p, env).1;
      var rest := RunTrace(stages[1..], p', env);
      ps := [p] + rest;
      forall k | 0 <= k < |stages|
        ensures Step(stages[k], ps[k], env) == (Pass, ps[k + 1])
      {
        if k > 0 {
          assert stages[k] == stages[1..][k - 1];
        }
      }
    }
  }

  /** `p` lists the claims of a resolution, each the result of a step on
      the previous one. */
  ghost predicate Chain(p: seq<Progress>, env: Env) {
    |p| == 9 && forall k :: 0 <= k < 8 ==> Step(ProvisionOrder[k], p[k], env).1 == p[k + 1]
  }

  lemma {:induction false} ChainKeepsExplicit(p: seq<Progress>, env: Env, key: string, i: nat, j: nat)
    requires Chain(p, env) && i <= j <= 8
    requires key != CNSubnetLbl && Lookup(p[i].claim.labels, key) != ""
    ensures Lookup(p[j].claim.labels, key) == Lookup(p[i].claim.labels, key)
    decreases j - i
  {
    if i < j {
      StepKeepsExplicit(ProvisionOrder[i], p[i], env, key);
      ChainKeepsExplicit(p, env, key, i + 1, j);
    }
  }

  lemma {:induction false} ChainKeepsRequests(p: seq<Progress>, env: Env, i: nat)
    requires Chain(p, env) && 4 <= i <= 8
    ensures p[i].claim.requests == p[4].claim.requests
  {
    if i > 4 {
      ChainKeepsRequests(p, env, i - 1);
      assert Step(ProvisionOrder[i - 1], p[i - 1], env).1 == p[i];
    }
  }

  lemma LblPropsEstablishes(p: Progress, env: Env)
    requires Step(JivaLblPropsStage, p, env).0.Pass?
    ensures Lookup(Step(JivaLblPropsStage, p, env).1.claim.labels, JivaFrontEndImageLbl) != ""
  {
  }

  lemma SpecPropsEstablish(p: Progress, env: Env)
    requires Step(JivaSpecPropsStage, p, env).0.Pass?
    ensures var q := Step(JivaSpecPropsStage, p, env).1.claim.requests;
            q.Some? && Quantity(q, JivaFrontEndVolSizeLbl) > 0 && Quantity(q, JivaBackEndVolSizeLbl) > 0
  {
  }

  lemma RegionEstablishes(p: Progress, env: Env)
    requires Step(RegionStage, p, env).0.Pass?
    ensures Lookup(Step(RegionStage, p, env).1.claim.labels, RegionLbl) != ""
  {
  }

  lemma DCEstablishes(p: Progress, env: Env)
    requires Step(DCStage, p, env).0.Pass?
    ensures Lookup(Step(DCStage, p, env).1.claim.labels, DatacenterLbl) != ""
  {
  }

  lemma CNEstablishes(p: Progress, env: Env)
    requires Step(CNStage, p, env).0.Pass?
    ensures var l := Step(CNStage, p, env).1.claim.labels;
            && l.Some?
            && Lookup(l, CNNetworkCIDRAddrLbl) != ""
            && env.cidrSubnet(Lookup(l, CNNetworkCIDRAddrLbl)).Ok?
            && Lookup(l, CNSubnetLbl) == env.cidrSubnet(Lookup(l, CNNetworkCIDRAddrLbl)).value
  {
    var l := p.claim.labels;
    SetCNSubnet(l, p.dc, env);
    var merged := MergeDefaults(l.value, env.networkProps(p.dc).value);
    assert Lookup(Step(CNStage, p, env).1.claim.labels, CNNetworkCIDRAddrLbl) == Get(merged, CNNetworkCIDRAddrLbl);
  }

  /** A resolution that passes leaves a claim with every property set: the
      frontend image, positive frontend and backend sizes, region, datacenter,
      a network CIDR and the subnet derived from it. */
  lemma ResolveEstablishes(st: ClaimState, env: Env)
    requires ResolveClaim(st, env).0.Pass?
    ensures Resolved(ResolveClaim(st, env).1, env)
  {
    var p := RunTrace(ProvisionOrder, Progress(st, ""), env);
    assert Chain(p, env);
    assert Step(ProvisionOrder[2], p[2], env) == (Pass, p[3]);
    assert Step(ProvisionOrder[3], p[3], env) == (Pass, p[4]);
    assert Step(ProvisionOrder[4], p[4], env) == (Pass, p[5]);
    assert Step(ProvisionOrder[5], p[5], env) == (Pass, p[6]);
    assert Step(ProvisionOrder[7], p[7], env) == (Pass, p[8]);
    SpecPropsEstablish(p[3], env);
    ChainKeepsRequests(p, env, 8);
    LblPropsEstablishes(p[2], env);
    ChainKeepsExplicit(p, env, JivaFrontEndImageLbl, 3, 8);
    RegionEstablishes(p[4], env);
    ChainKeepsExplicit(p, env, RegionLbl, 5, 8);
    DCEstablishes(p[5], env);
    ChainKeepsExplicit(p, env, DatacenterLbl, 6, 8);
    CNEstablishes(p[7], env);
  }

  // ------------------------------------------------ resolving a resolved claim

  /** `m` absorbs every default of `d` except possibly the one under `e`:
      each such key is present, and non-empty unless its default is. */
  ghost predicate SaturatedExcept(m: map<string, string>, d: map<string, string>, e: string) {
    forall k :: k in d && k != e ==> k in m && (m[k] != "" || d[k] == "")
  }

  /** A map that keeps the keys and the non-empty values of `m` (outside `e`)
      absorbs whatever `m` absorbed. */
  lemma SaturatedExceptKept(m: map<string, string>, m': map<string, string>, d: map<string, string>, e: string)
    requires SaturatedExcept(m, d, e)
    requires m.Keys <= m'.Keys
    requires forall k :: k != e && Get(m, k) != "" ==> Get(m', k) == Get(m, k)
    ensures SaturatedExcept(m', d, e)
  {
    forall k | k in d && k != e
      ensures k in m' && (m'[k] != "" || d[k] == "")
    {
      if m[k] != "" {
        assert Get(m, k) != "";
      }
    }
  }

  /** Away from `e`, merging defaults that are already absorbed changes nothing. */
  lemma MergeSaturatedExcept(m: map<string, string>, d: map<string, string>, e: string, x: string)
    requires e in m && SaturatedExcept(m, d, e)
    ensures MergeDefaults(m, d)[e := x] == m[e := x]
  {
    var r := MergeDefaults(m, d)[e := x];
    forall k | k in r
      ensures k in m[e := x] && r[k] == m[e := x][k]
    {
      if k != e && k in d {
        assert k in m && (m[k] != "" || d[k] == "");
      }
    }
    assert r.Keys == m[e := x].Keys;
  }

  /** Away from `e`, the merge does not depend on the label under `e`. */
  lemma MergeUpdated(m: map<string, string>, d: map<string, string>, e: string, x: string, y: string)
    requires e in m
    ensures MergeDefaults(m[e := x], d)[e := y] == MergeDefaults(m, d)[e := y]
  {
    var a := MergeDefaults(m[e := x], d)[e := y];
    var b := MergeDefaults(m, d)[e := y];
    forall k | k in a
      ensures k in b && a[k] == b[k]
    {
      if k != e {
        assert Get(m[e := x], k) == Get(m, k);
      }
    }
    assert a.Keys == b.Keys;
  }

  /** The address assignment keeps whatever its input absorbed. */
  lemma AssignIPsKeepsSaturation(m: map<string, string>, cidr: string, env: Env, d: map<string, string>, e: string)
    requires SaturatedExcept(m, d, e)
    ensures SaturatedExcept(AssignIPs(m, cidr, env).1, d, e)
  {
    var r := AssignIPs(m, cidr, env).1;
    assert KeepsExplicit(Some(m), Some(r));
    forall k | k != e && Get(m, k) != ""
      ensures Get(r, k) == Get(m, k)
    {
      assert Lookup(Some(m), k) != "";
    }
    SaturatedExceptKept(m, r, d, e);
  }

  /** A passing setCN leaves labels that absorb its network defaults and
      whatever its input absorbed, the subnet aside, and that carry a subnet
      label. */
  lemma SetCNSaturates(l: map<string, string>, dc: string, env: Env, d: map<string, string>)
    requires SetCN(Some(l), dc, env).0.Pass?
    requires SaturatedExcept(l, d, CNSubnetLbl)
    ensures var l8 := SetCN(Some(l), dc, env).1;
            && l8.Some?
            && CNSubnetLbl in l8.value
            && SaturatedExcept(l8.value, d, CNSubnetLbl)
            && SaturatedExcept(l8.value, env.networkProps(dc).value, CNSubnetLbl)
  {
    var cn := env.networkProps(dc).value;
    var merged := MergeDefaults(l, cn);
    var cidr := Get(merged, CNNetworkCIDRAddrLbl);
    var pre := merged[CNSubnetLbl := env.cidrSubnet(cidr).value];
    assert SetCN(Some(l), dc, env).1 == Some(AssignIPs(pre, cidr, env).1);
    SaturatedExceptKept(l, merged, d, CNSubnetLbl);
    assert SaturatedExcept(merged, cn, CNSubnetLbl);
    SaturatedExceptKept(merged, pre, d, CNSubnetLbl);
    SaturatedExceptKept(merged, pre, cn, CNSubnetLbl);
    AssignIPsKeepsSaturation(pre, cidr, env, d, CNSubnetLbl);
    AssignIPsKeepsSaturation(pre, cidr, env, cn, CNSubnetLbl);
  }

  /** What a passing setCS followed by a passing setCN leaves behind absorbs
      both sets of defaults, the subnet aside, and carries a subnet label. */
  lemma CSCNSaturate(l: Labels, dc: string, env: Env)
    requires SetCS(l, dc, env.storageProps).0.Pass?
    requires SetCN(SetCS(l, dc, env.storageProps).1, dc, env).0.Pass?
    ensures var l8 := SetCN(SetCS(l, dc, env.storageProps).1, dc, env).1;
            && l8.Some?
            && CNSubnetLbl in l8.value
            && SaturatedExcept(l8.value, env.storageProps(dc).value, CNSubnetLbl)
            && SaturatedExcept(l8.value, env.networkProps(dc).value, CNSubnetLbl)
  {
    var cs := env.storageProps(dc).value;
    var l7 := MergeDefaults(l.value, cs);
    assert SetCS(l, dc, env.storageProps).1 == Some(l7);
    assert SaturatedExcept(l7, cs, CNSubnetLbl);
    SetCNSaturates(l7, dc, env, cs);
  }

  /** Merging two sets of defaults that `m` already absorbs, away from `e`,
      and then restoring the label under `e`, gives `m` back. */
  lemma DoubleMergeFixpoint(m: map<string, string>, d1: map<string, string>, d2: map<string, string>, e: string)
    requires e in m && SaturatedExcept(m, d1, e) && SaturatedExcept(m, d2, e)
    ensures MergeDefaults(MergeDefaults(m, d1), d2)[e := m[e]] == m
  {
    var a := MergeDefaults(m, d1);
    MergeSaturatedExcept(m, d1, e, a[e]);
    assert a == a[e := a[e]];
    assert a == m[e := a[e]];
    MergeUpdated(m, d2, e, a[e], m[e]);
    MergeSaturatedExcept(m, d2, e, m[e]);
    assert m[e := m[e]] == m;
  }

  /** setCS then setCN on labels that already absorb both sets of defaults,
      hold both addresses and hold the subnet of their own network CIDR:
      both pass, and the labels come back unchanged. */
  lemma CSCNFixpoint(l8: map<string, string>, dc: string, env: Env)
    requires dc != "" && env.storageProps(dc).Ok? && env.networkProps(dc).Ok?
    requires CNSubnetLbl in l8
    requires SaturatedExcept(l8, env.storageProps(dc).value, CNSubnetLbl)
    requires SaturatedExcept(l8, env.networkProps(dc).value, CNSubnetLbl)
    requires Get(l8, CNNetworkCIDRAddrLbl) != ""
    requires env.cidrSubnet(Get(l8, CNNetworkCIDRAddrLbl)) == Ok(l8[CNSubnetLbl])
    requires Get(l8, JivaFrontEndIPLbl) != "" && Get(l8, JivaBackEndAllIPsLbl) != ""
    ensures SetCS(Some(l8), dc, env.storageProps).0.Pass?
    ensures SetCN(SetCS(Some(l8), dc, env.storageProps).1, dc, env) == (Pass, Some(l8))
  {
    var cs := env.storageProps(dc).value;
    var cn := env.networkProps(dc).value;
    DoubleMergeFixpoint(l8, cs, cn, CNSubnetLbl);
    var merged := MergeDefaults(MergeDefaults(l8, cs), cn);
    assert Get(merged, CNNetworkCIDRAddrLbl) == Get(l8, CNNetworkCIDRAddrLbl);
  }

  /** The converse of RunTrace: a chain of passing steps is a passing run. */
  lemma {:induction false} TraceRun(stages: seq<Stage>, ps: seq<Progress>, env: Env)
    requires |ps| == |stages| + 1
    requires forall k :: 0 <= k < |stages| ==> Step(stages[k], ps[k], env) == (Pass, ps[k + 1])
    ensures Run(stages, ps[0], env) == (Pass, ps[|stages|])
  {
    if |stages| > 0 {
      assert Step(stages[0], ps[0], env) == (Pass, ps[1]);
      forall k | 0 <= k < |stages| - 1
        ensures Step(stages[1..][k], ps[1..][k], env) == (Pass, ps[1..][k + 1])
      {
        assert Step(stages[k + 1], ps[k + 1], env) == (Pass, ps[k + 2]);
      }
      TraceRun(stages[1..], ps[1..], env);
    }
  }

  /** The first six steps leave a resolved claim as it is, and setDC returns
      its datacenter label. */
  lemma LocalStepsFixed(c: ClaimState, env: Env)
    requires Resolved(c, env)
    ensures var q0 := Progress(c, "");
            && Step(InitLabelsStage, q0, env) == (Pass, q0)
            && Step(VerifySpecsStage, q0, env) == (Pass, q0)
            && Step(JivaLblPropsStage, q0, env) == (Pass, q0)
            && Step(JivaSpecPropsStage, q0, env) == (Pass, q0)
            && Step(RegionStage, q0, env) == (Pass, q0)
            && Step(DCStage, q0, env) == (Pass, Progress(c, Lookup(c.labels, DatacenterLbl)))
  {
  }

  /** ProvisionOrder, one step at a time. */
  lemma ProvisionOrderCons()
    ensures ProvisionOrder == [InitLabelsStage] + ([VerifySpecsStage] + ([JivaLblPropsStage] + ([JivaSpecPropsStage] +
              ([RegionStage] + ([DCStage] + ([CSStage] + [CNStage]))))))
  {
  }

  /** The step view of setCS on a resolved claim. */
  lemma CSStepFixed(c: ClaimState, dc: string, env: Env)
    requires SetCS(c.labels, dc, env.storageProps).0.Pass?
    ensures Step(CSStage, Progress(c, dc), env) ==
            (Pass, Progress(c.(labels := SetCS(c.labels, dc, env.storageProps).1), dc))
  {
  }

  /** The step view of a setCN that gives back the claim's labels. */
  lemma CNStepFixed(c: ClaimState, l: Labels, dc: string, env: Env)
    requires SetCN(l, dc, env) == (Pass, c.labels)
    ensures Step(CNStage, Progress(c.(labels := l), dc), env) == (Pass, Progress(c, dc))
  {
    var r := SetCN(l, dc, env);
    assert c.(labels := l).(labels := r.1) == c;
  }

  /** A resolved claim whose setCS and setCN steps give back its own labels
      resolves to itself. */
  lemma ResolvedFixpoint(c: ClaimState, env: Env)
    requires Resolved(c, env)
    requires var dc := Lookup(c.labels, DatacenterLbl);
             && SetCS(c.labels, dc, env.storageProps).0.Pass?
             && SetCN(SetCS(c.labels, dc, env.storageProps).1, dc, env) == (Pass, c.labels)
    ensures ResolveClaim(c, env) == (Pass, c)
  {
    var dc := Lookup(c.labels, DatacenterLbl);
    LocalStepsFixed(c, env);
    CSStepFixed(c, dc, env);
    CNStepFixed(c, SetCS(c.labels, dc, env.storageProps).1, dc, env);
    var q0 := Progress(c, "");
    var q1 := Progress(c, dc);
    var q2 := Progress(c.(labels := SetCS(c.labels, dc, env.storageProps).1), dc);
    var t7 := [CNStage];
    var t6 := [CSStage] + t7;
    var t5 := [DCStage] + t6;
    var t4 := [RegionStage] + t5;
    var t3 := [JivaSpecPropsStage] + t4;
    var t2 := [JivaLblPropsStage] + t3;
    var t1 := [VerifySpecsStage] + t2;
    ProvisionOrderCons();
    RunCons(CNStage, [], q2, env);
    RunCons(CSStage, t7, q1, env);
    RunCons(DCStage, t6, q0, env);
    RunCons(RegionStage, t5, q0, env);
    RunCons(JivaSpecPropsStage, t4, q0, env);
    RunCons(JivaLblPropsStage, t3, q0, env);
    RunCons(VerifySpecsStage, t2, q0, env);
    RunCons(InitLabelsStage, t1, q0, env);
  }

  /** A passing setDC step records the datacenter it returns. */
  lemma DCStepPasses(p: Progress, q: Progress, env: Env)
    requires Step(DCStage, p, env) == (Pass, q)
    ensures q.dc == Lookup(q.claim.labels, DatacenterLbl) != ""
  {
  }

  /** A passing setCS step is setCS on the datacenter setDC returned. */
  lemma CSStepPasses(p: Progress, q: Progress, env: Env)
    requires Step(CSStage, p, env) == (Pass, q)
    ensures q.dc == p.dc && SetCS(p.claim.labels, p.dc, env.storageProps) == (Pass, q.claim.labels)
  {
  }

  /** A passing setCN step is setCN on the datacenter setDC returned. */
  lemma CNStepPasses(p: Progress, q: Progress, env: Env)
    requires Step(CNStage, p, env) == (Pass, q)
    ensures q.dc == p.dc && SetCN(p.claim.labels, p.dc, env) == (Pass, q.claim.labels)
  {
  }

  /** In a passing resolution, setDC's datacenter is the one the claim ends
      with, and the claim's labels are what setCS and setCN made of the labels
      setDC left. */
  lemma ResolvedByCSCN(st: ClaimState, env: Env) returns (l6: Labels)
    requires ResolveClaim(st, env).0.Pass?
    ensures var c := ResolveClaim(st, env).1;
            var dc := Lookup(c.labels, DatacenterLbl);
            && SetCS(l6, dc, env.storageProps).0.Pass?
            && SetCN(SetCS(l6, dc, env.storageProps).1, dc, env) == (Pass, c.labels)
  {
    var p := RunTrace(ProvisionOrder, Progress(st, ""), env);
    assert Chain(p, env);
    assert ProvisionOrder[5] == DCStage && ProvisionOrder[6] == CSStage && ProvisionOrder[7] == CNStage;
    DCStepPasses(p[5], p[6], env);
    CSStepPasses(p[6], p[7], env);
    CNStepPasses(p[7], p[8], env);
    ChainKeepsExplicit(p, env, DatacenterLbl, 6, 8);
    l6 := p[6].claim.labels;
  }

  /** Resolution is idempotent: resolving the claim a passing resolution
      produced passes again and changes nothing, provided both addresses were
      assigned non-empty values (the allocator is not known to return
      non-empty strings). */
  lemma ResolveIdempotent(st: ClaimState, env: Env)
    requires ResolveClaim(st, env).0.Pass?
    requires Lookup(ResolveClaim(st, env).1.labels, JivaFrontEndIPLbl) != ""
    requires Lookup(ResolveClaim(st, env).1.labels, JivaBackEndAllIPsLbl) != ""
    ensures ResolveClaim(ResolveClaim(st, env).1, env) == (Pass, ResolveClaim(st, env).1)
  {
    var c := ResolveClaim(st, env).1;
    var dc := Lookup(c.labels, DatacenterLbl);
    ResolveEstablishes(st, env);
    var l6 := ResolvedByCSCN(st, env);
    CSCNSaturate(l6, dc, env);
    CSCNFixpoint(c.labels.value, dc, env);
    ResolvedFixpoint(c, env);
  }
}
