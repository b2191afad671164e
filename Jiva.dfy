/** The in-place setters of lib/volume/jiva/util.go, as methods that update
    a Claim object. Each method is proved to leave the claim exactly as the
    matching function of module JivaSpec describes, so every property proved
    there holds of the objects here. */
module Jiva {
  import opened Base
  import opened Text
  import opened V1
  import JivaSpec

  /** initLabels. */
  method InitLabels(pvc: Claim)
    modifies pvc`labels
    ensures pvc.labels == JivaSpec.InitLabels(old(pvc.labels))
  {
    if pvc.labels.Some? {
      return;
    }
    pvc.labels := Some(map[]);
  }

  /** setJivaLblProps. */
  method SetJivaLblProps(pvc: Claim) returns (err: Outcome)
    modifies pvc`labels
    ensures (err, pvc.labels) == JivaSpec.SetJivaLblProps(old(pvc.labels))
  {
    if pvc.labels.None? {
      return Fail(Msg("Labels missing in pvc"));
    }
    if Get(pvc.labels.value, JivaFrontEndImageLbl) == "" {
      pvc.labels := Some(pvc.labels.value[JivaFrontEndImageLbl := JivaSpec.DefaultJivaImage]);
    }
    return Pass;
  }

  /** setJivaSpecProps: the frontend size first, then the backend size, each
      replaced by the storage size when not positive. */
  method SetJivaSpecProps(pvc: Claim) returns (err: Outcome)
    modifies pvc`requests
    ensures (err, pvc.requests) == JivaSpec.SetJivaSpecProps(old(pvc.requests))
  {
    if Quantity(pvc.requests, JivaFrontEndVolSizeLbl) <= 0 {
      var size := JivaSpec.GetStorageSize(pvc.requests);
      if size.Err? {
        return Fail(size.error);
      }
      pvc.requests := Some(pvc.requests.value[JivaFrontEndVolSizeLbl := size.value]);
    }
    if Quantity(pvc.requests, JivaBackEndVolSizeLbl) <= 0 {
      var size := JivaSpec.GetStorageSize(pvc.requests);
      if size.Err? {
        return Fail(size.error);
      }
      pvc.requests := Some(pvc.requests.value[JivaBackEndVolSizeLbl := size.value]);
    }
    return Pass;
  }

  /** setRegion; `region` is what the aspect's orchestrator reports. */
  method SetRegion(pvc: Claim, region: Result<string>) returns (err: Outcome)
    modifies pvc`labels
    ensures (err, pvc.labels) == JivaSpec.SetRegion(old(pvc.labels), region)
  {
    if pvc.labels.None? {
      return Fail(Msg(JivaSpec.NotInitialized));
    }
    if Get(pvc.labels.value, RegionLbl) != "" {
      return Pass;
    }
    if region.Err? {
      return Fail(region.error);
    }
    if region.value == "" {
      return Fail(Msg("Region could not be determined"));
    }
    pvc.labels := Some(pvc.labels.value[RegionLbl := region.value]);
    return Pass;
  }

  /** setDC; `defaultDC` is the aspect's default datacenter. */
  method SetDC(pvc: Claim, defaultDC: Result<string>) returns (dc: Result<string>)
    modifies pvc`labels
    ensures (dc, pvc.labels) == JivaSpec.SetDC(old(pvc.labels), defaultDC)
  {
    if pvc.labels.None? {
      return Err(Msg(JivaSpec.NotInitialized));
    }
    if Get(pvc.labels.value, DatacenterLbl) != "" {
      return Ok(Get(pvc.labels.value, DatacenterLbl));
    }
    if defaultDC.Err? {
      return Err(defaultDC.error);
    }
    if defaultDC.value == "" {
      return Err(Msg("Datacenter could not be determined"));
    }
    pvc.labels := Some(pvc.labels.value[DatacenterLbl := defaultDC.value]);
    return Ok(defaultDC.value);
  }

  /** The merge loop of setCS and setCN: visits each default key once, in
      no particular order, and fills the label when it is empty. */
  method MergeLabels(pvc: Claim, d: map<string, string>)
    requires pvc.labels.Some?
    modifies pvc`labels
    ensures pvc.labels == Some(JivaSpec.MergeDefaults(old(pvc.labels.value), d))
  {
    ghost var m0 := pvc.labels.value;
    var keys := d.Keys;
    ghost var done: set<string> := {};
    JivaSpec.PartialMergeNone(m0, d);
    while keys != {}
      invariant keys + done == d.Keys && keys !! done
      invariant pvc.labels == Some(JivaSpec.PartialMerge(m0, d, done))
      decreases |keys|
    {
      var k :| k in keys;
      JivaSpec.PartialMergeStep(m0, d, done, k);
      if Get(pvc.labels.value, k) == "" {
        pvc.labels := Some(pvc.labels.value[k := d[k]]);
      }
      keys := keys - {k};
      done := done + {k};
    }
  }

  /** setCS. */
  method SetCS(pvc: Claim, dc: string, storageProps: string -> Result<map<string, string>>) returns (err: Outcome)
    modifies pvc`labels
    ensures (err, pvc.labels) == JivaSpec.SetCS(old(pvc.labels), dc, storageProps)
  {
    if pvc.labels.None? {
      return Fail(Msg(JivaSpec.NotInitialized));
    }
    if dc == "" {
      return Fail(Msg("Datacenter not provided"));
    }
    var cs := storageProps(dc);
    if cs.Err? {
      return Fail(cs.error);
    }
    MergeLabels(pvc, cs.value);
    return Pass;
  }

  /** The string setBackendIPsAsString builds: every address followed by a
      comma, then the final comma trimmed. */
  method BackendIPsString(ips: seq<string>) returns (s: string)
    ensures s == Join(ips)
  {
    var acc := "";
    var i := 0;
    while i < |ips|
      invariant 0 <= i <= |ips|
      invariant acc == Terminated(ips[..i])
    {
      assert ips[..i + 1][..i] == ips[..i];
      acc := acc + ips[i] + ",";
      i := i + 1;
    }
    assert ips[..|ips|] == ips;
    TrimTerminated(ips);
    s := TrimSuffix(acc, ",");
  }

  /** setBackendIPsAsString; writing to a nil label map would panic. */
  method SetBackendIPsAsString(pvc: Claim, ips: seq<string>)
    requires pvc.labels.Some?
    modifies pvc`labels
    ensures pvc.labels == Some(JivaSpec.SetBackendIPsAsString(old(pvc.labels.value), ips))
  {
    var s := BackendIPsString(ips);
    pvc.labels := Some(pvc.labels.value[JivaBackEndAllIPsLbl := s]);
  }

  /** setBackendIPs. */
  method SetBackendIPs(pvc: Claim, cidr: string, env: JivaSpec.Env) returns (err: Outcome)
    requires pvc.labels.Some?
    modifies pvc`labels
    ensures pvc.labels.Some? && (err, pvc.labels.value) == JivaSpec.SetBackendIPs(old(pvc.labels.value), cidr, env)
  {
    var count := JivaSpec.GetBackendCount(pvc.labels);
    if count.Err? {
      return Fail(count.error);
    }
    var ips := env.availableIPs(cidr, count.value);
    if ips.Err? {
      return Fail(ips.error);
    }
    SetBackendIPsAsString(pvc, ips.value);
    return Pass;
  }

  /** setCN: the network defaults, the subnet, then the address branch. */
  method SetCN(pvc: Claim, dc: string, env: JivaSpec.Env) returns (err: Outcome)
    modifies pvc`labels
    ensures (err, pvc.labels) == JivaSpec.SetCN(old(pvc.labels), dc, env)
  {
    if pvc.labels.None? {
      return Fail(Msg(JivaSpec.NotInitialized));
    }
    if dc == "" {
      return Fail(Msg("Datacenter not provided"));
    }
    var cn := env.networkProps(dc);
    if cn.Err? {
      return Fail(cn.error);
    }
    MergeLabels(pvc, cn.value);
    var networkCIDR := Get(pvc.labels.value, CNNetworkCIDRAddrLbl);
    if networkCIDR == "" {
      return Fail(Msg("Network CIDR could not be determined"));
    }
    var subnet := env.cidrSubnet(networkCIDR);
    if subnet.Err? {
      return Fail(subnet.error);
    }
    pvc.labels := Some(pvc.labels.value[CNSubnetLbl := subnet.value]);
    err := AssignIPs(pvc, networkCIDR, env);
  }

  /** The address branch that ends setCN. */
  method AssignIPs(pvc: Claim, networkCIDR: string, env: JivaSpec.Env) returns (err: Outcome)
    requires pvc.labels.Some?
    modifies pvc`labels
    ensures pvc.labels.Some? && (err, pvc.labels.value) == JivaSpec.AssignIPs(old(pvc.labels.value), networkCIDR, env)
  {
    if Get(pvc.labels.value, JivaFrontEndIPLbl) == "" && Get(pvc.labels.value, JivaBackEndAllIPsLbl) == "" {
      var count := JivaSpec.GetBackendCount(pvc.labels);
      if count.Err? {
        return Fail(count.error);
      }
      var ips := env.availableIPs(networkCIDR, Wrap64(1 + count.value));
      if ips.Err? {
        return Fail(ips.error);
      }
      if |ips.value| == 0 {
        return Fail(IndexOutOfRange(0, 0));
      }
      pvc.labels := Some(pvc.labels.value[JivaFrontEndIPLbl := ips.value[0]]);
      SetBackendIPsAsString(pvc, ips.value[1..]);
      return Pass;
    }

    if Get(pvc.labels.value, JivaFrontEndIPLbl) == "" {
      var ips := env.availableIPs(networkCIDR, 1);
      if ips.Err? {
        return Fail(ips.error);
      }
      if |ips.value| == 0 {
        return Fail(IndexOutOfRange(0, 0));
      }
      pvc.labels := Some(pvc.labels.value[JivaFrontEndIPLbl := ips.value[0]]);
      return Pass;
    }

    if Get(pvc.labels.value, JivaBackEndAllIPsLbl) == "" {
      err := SetBackendIPs(pvc, networkCIDR, env);
      return err;
    }

    return Pass;
  }

  /** The first four steps of ProvisionStorage, which need nothing from the
      orchestrator: label initialisation, the request check, the image and
      the volume sizes. */
  method ResolveLocal(pvc: Claim, ghost env: JivaSpec.Env) returns (err: Outcome)
    modifies pvc`labels, pvc`requests
    ensures (err, JivaSpec.Progress(pvc.State(), "")) == JivaSpec.Run(JivaSpec.ProvisionOrder[..4], JivaSpec.Progress(old(pvc.State()), ""), env)
  {
    ghost var p0 := JivaSpec.Progress(pvc.State(), "");
    ghost var t4: seq<JivaSpec.Stage> := [];
    ghost var t3 := [JivaSpec.JivaSpecPropsStage] + t4;
    ghost var t2 := [JivaSpec.JivaLblPropsStage] + t3;
    ghost var t1 := [JivaSpec.VerifySpecsStage] + t2;
    assert JivaSpec.ProvisionOrder[..4] == [JivaSpec.InitLabelsStage] + t1;
    ghost var whole := JivaSpec.Run(JivaSpec.ProvisionOrder[..4], p0, env);

    JivaSpec.RunCons(JivaSpec.InitLabelsStage, t1, p0, env);
    InitLabels(pvc);
    ghost var p1 := JivaSpec.Progress(pvc.State(), "");
    assert whole == JivaSpec.Run(t1, p1, env);

    JivaSpec.RunCons(JivaSpec.VerifySpecsStage, t2, p1, env);
    err := JivaSpec.VerifySpecs(pvc.requests);
    if err.Fail? {
      return;
    }
    assert whole == JivaSpec.Run(t2, p1, env);

    JivaSpec.RunCons(JivaSpec.JivaLblPropsStage, t3, p1, env);
    err := SetJivaLblProps(pvc);
    if err.Fail? {
      return;
    }
    ghost var p3 := JivaSpec.Progress(pvc.State(), "");
    assert whole == JivaSpec.Run(t3, p3, env);

    JivaSpec.RunCons(JivaSpec.JivaSpecPropsStage, t4, p3, env);
    err := SetJivaSpecProps(pvc);
  }

  /** The last four steps of ProvisionStorage, which take their defaults from
      the orchestrator: region, datacenter, storage and network properties. */
  method ResolveOrchestrated(pvc: Claim, env: JivaSpec.Env) returns (err: Outcome)
    modifies pvc`labels
    ensures var r := JivaSpec.Run(JivaSpec.ProvisionOrder[4..], JivaSpec.Progress(old(pvc.State()), ""), env);
            err == r.0 && pvc.State() == r.1.claim
  {
    ghost var p4 := JivaSpec.Progress(pvc.State(), "");
    ghost var t8: seq<JivaSpec.Stage> := [];
    ghost var t7 := [JivaSpec.CNStage] + t8;
    ghost var t6 := [JivaSpec.CSStage] + t7;
    ghost var t5 := [JivaSpec.DCStage] + t6;
    assert JivaSpec.ProvisionOrder[4..] == [JivaSpec.RegionStage] + t5;
    ghost var whole := JivaSpec.Run(JivaSpec.ProvisionOrder[4..], p4, env);

    JivaSpec.RunCons(JivaSpec.RegionStage, t5, p4, env);
    err := SetRegion(pvc, env.region);
    if err.Fail? {
      return;
    }
    ghost var p5 := JivaSpec.Progress(pvc.State(), "");
    assert whole == JivaSpec.Run(t5, p5, env);

    JivaSpec.RunCons(JivaSpec.DCStage, t6, p5, env);
    var dc := SetDC(pvc, env.defaultDC);
    if dc.Err? {
      return Fail(dc.error);
    }
    ghost var p6 := JivaSpec.Progress(pvc.State(), dc.value);
    assert whole == JivaSpec.Run(t6, p6, env);

    JivaSpec.RunCons(JivaSpec.CSStage, t7, p6, env);
    err := SetCS(pvc, dc.value, env.storageProps);
    if err.Fail? {
      return;
    }
    ghost var p7 := JivaSpec.Progress(pvc.State(), dc.value);
    assert whole == JivaSpec.Run(t7, p7, env);

    JivaSpec.RunCons(JivaSpec.CNStage, t8, p7, env);
    err := SetCN(pvc, dc.value, env);
  }

  /** ProvisionStorage: the orchestrator check, the eight resolution steps in
      order with a return on the first error, then the placement request on
      the resolved claim. */
  method ProvisionStorage(pvc: Claim, env: JivaSpec.Env) returns (pv: Result<PersistentVolume>)
    modifies pvc`labels, pvc`requests
    ensures (pv, pvc.State()) == JivaSpec.ProvisionStorage(pvc.name, old(pvc.State()), env)
  {
    if env.orchestrator.Fail? {
      return Err(env.orchestrator.error);
    }
    ghost var p0 := JivaSpec.Progress(pvc.State(), "");
    JivaSpec.RunSplit(JivaSpec.ProvisionOrder, 4, p0, env);
    var err := ResolveLocal(pvc, env);
    if err.Fail? {
      return Err(err.error);
    }
    err := ResolveOrchestrated(pvc, env);
    if err.Fail? {
      return Err(err.error);
    }
    return env.placement(pvc.name, pvc.State());
  }
}
