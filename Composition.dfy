/** How the jiva claim-resolution steps of lib/volume/jiva/util.go behave
    when the datacenter properties come from the Nomad provider of
    lib/orchprovider/nomad/util.go. */
module Composition {
  import opened Base
  import opened V1
  import opened JivaSpec
  import opened NomadConf

  /** A merge leaves the labels its defaults do not name as they were. */
  lemma MergeKeepsOthers(m: map<string, string>, d: map<string, string>, k: string)
    requires k !in d
    ensures Get(MergeDefaults(m, d), k) == Get(m, k)
  {
  }

  /** With the Nomad provider's network defaults the merged network CIDR is
      never empty: it is the claim's own, or else the datacenter's
      configured one, or else the package default. So setCN never reports
      a missing CIDR, and goes on to the address assignment whenever the
      subnet helper accepts that CIDR. */
  lemma NomadNetworkSuppliesCIDR(l: Labels, dc: string, conf: Conf, env: Env)
    requires l.Some? && dc != ""
    requires env.networkProps(dc) == CN(conf, dc) && CN(conf, dc).Ok?
    ensures var merged := MergeDefaults(l.value, CN(conf, dc).value);
            var cidr := Get(merged, CNNetworkCIDRAddrLbl);
            && cidr != ""
            && (Get(l.value, CNNetworkCIDRAddrLbl) != "" ==> cidr == Get(l.value, CNNetworkCIDRAddrLbl))
            && (Get(l.value, CNNetworkCIDRAddrLbl) == "" ==> cidr == GetCNNetworkCIDR(conf, dc))
            && (env.cidrSubnet(cidr).Ok? ==>
                  SetCN(l, dc, env).0 == AssignIPs(merged[CNSubnetLbl := env.cidrSubnet(cidr).value], cidr, env).0)
  {
    var d := CN(conf, dc).value;
    assert CNNetworkCIDRAddrLbl in d;
  }

  /** The Nomad provider's storage defaults do not name the address labels
      or CSReplicaCountLbl: setCS passes and leaves those labels empty. */
  lemma NomadStorageKeepsAllocationLabels(l: Labels, dc: string, conf: Conf, env: Env)
    requires l.Some? && dc != ""
    requires Get(l.value, CSReplicaCountLbl) == ""
    requires Get(l.value, JivaFrontEndIPLbl) == "" && Get(l.value, JivaBackEndAllIPsLbl) == ""
    requires env.storageProps(dc) == CS(conf, dc) && CS(conf, dc).Ok?
    ensures var (o1, l1) := SetCS(l, dc, env.storageProps);
            && o1.Pass? && l1.Some?
            && Get(l1.value, CSReplicaCountLbl) == ""
            && Get(l1.value, JivaFrontEndIPLbl) == "" && Get(l1.value, JivaBackEndAllIPsLbl) == ""
  {
    var cs := CS(conf, dc).value;
    MergeKeepsOthers(l.value, cs, CSReplicaCountLbl);
    MergeKeepsOthers(l.value, cs, JivaFrontEndIPLbl);
    MergeKeepsOthers(l.value, cs, JivaBackEndAllIPsLbl);
  }

  /** With the Nomad provider's network defaults, a claim with no address
      labels and no CSReplicaCountLbl label fails setCN's joint allocation
      on Atoi's syntax error. */
  lemma NomadNetworkNeedsBackendCount(l: Labels, dc: string, conf: Conf, env: Env)
    requires l.Some? && dc != ""
    requires Get(l.value, CSReplicaCountLbl) == ""
    requires Get(l.value, JivaFrontEndIPLbl) == "" && Get(l.value, JivaBackEndAllIPsLbl) == ""
    requires env.networkProps(dc) == CN(conf, dc) && CN(conf, dc).Ok?
    requires env.cidrSubnet(Get(MergeDefaults(l.value, CN(conf, dc).value), CNNetworkCIDRAddrLbl)).Ok?
    ensures SetCN(l, dc, env).0 == Fail(NumError("", InvalidSyntax))
  {
    var cn := CN(conf, dc).value;
    var merged := MergeDefaults(l.value, cn);
    MergeKeepsOthers(l.value, cn, CSReplicaCountLbl);
    MergeKeepsOthers(l.value, cn, JivaFrontEndIPLbl);
    MergeKeepsOthers(l.value, cn, JivaBackEndAllIPsLbl);
    NomadNetworkSuppliesCIDR(l, dc, conf, env);
    var cidr := Get(merged, CNNetworkCIDRAddrLbl);
    UnsetBackendCountFails(merged[CNSubnetLbl := env.cidrSubnet(cidr).value], cidr, env);
  }

  /** The Nomad provider's storage defaults carry the replica count under
      PVPReplicaCountLbl, while getBackendCount reads CSReplicaCountLbl: a
      claim with neither address label nor its own CSReplicaCountLbl label
      passes setCS and then fails setCN's joint allocation on Atoi's syntax
      error. */
  lemma NomadStorageLeavesBackendCountUnset(l: Labels, dc: string, conf: Conf, env: Env)
    requires l.Some? && dc != ""
    requires Get(l.value, CSReplicaCountLbl) == ""
    requires Get(l.value, JivaFrontEndIPLbl) == "" && Get(l.value, JivaBackEndAllIPsLbl) == ""
    requires env.storageProps(dc) == CS(conf, dc) && CS(conf, dc).Ok?
    requires env.networkProps(dc) == CN(conf, dc)
    requires var l1 := SetCS(l, dc, env.storageProps).1;
             env.cidrSubnet(Get(MergeDefaults(l1.value, CN(conf, dc).value), CNNetworkCIDRAddrLbl)).Ok?
    ensures var (o1, l1) := SetCS(l, dc, env.storageProps);
            && o1.Pass?
            && SetCN(l1, dc, env).0 == Fail(NumError("", InvalidSyntax))
  {
    NomadStorageKeepsAllocationLabels(l, dc, conf, env);
    assert CN(conf, dc).Ok?;
    NomadNetworkNeedsBackendCount(SetCS(l, dc, env.storageProps).1, dc, conf, env);
  }
}
