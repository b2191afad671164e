/** The datacenter default properties of lib/orchprovider/nomad/util.go: the
    configuration check and the getters that fall back on the package
    defaults, and the two property maps built from them.

    The defaults live in lib/api/v1/nomad, which is not part of this model;
    they are symbolic, non-empty strings. */
module NomadConf {
  import opened Base
  import opened Text
  import opened V1

  const DefaultNomadCNType := "v1nomad.DefaultNomadCNType"
  const DefaultNomadCNNetworkCIDR := "v1nomad.DefaultNomadCNNetworkCIDR"
  const DefaultNomadCNInterface := "v1nomad.DefaultNomadCNInterface"
  const DefaultNomadCSPersistenceLocation := "v1nomad.DefaultNomadCSPersistenceLocation"
  const DefaultNomadCSReplicaCount := "v1nomad.DefaultNomadCSReplicaCount"

  /** One `[datacenter "<name>"]` section of the configuration. */
  datatype DcConfig = DcConfig(
    address: string,
    cnType: string,
    cnNetworkCIDR: string,
    cnInterface: string,
    csPersistenceLocation: string,
    csReplicaCount: string)

  /** NomadConfig: the sections by datacenter name; both the map and each
      entry may be nil. */
  datatype NomadConfig = NomadConfig(datacenter: Option<map<string, Option<DcConfig>>>)

  /** The nomadUtil's configuration pointer. */
  type Conf = Option<NomadConfig>

  /** The section of `dc`, if there is a configuration, a section map and a
      non-nil entry for `dc`. */
  function Entry(conf: Conf, dc: string): (e: Option<DcConfig>)
    ensures e.Some? <==> conf.Some? && conf.value.datacenter.Some? && dc in conf.value.datacenter.value && conf.value.datacenter.value[dc].Some?
    ensures e.Some? ==> e == conf.value.datacenter.value[dc]
  {
    if conf.None? || conf.value.datacenter.None? || dc !in conf.value.datacenter.value then None
    else conf.value.datacenter.value[dc]
  }

  /** validateConf: the four checks, in order. */
  function ValidateConf(conf: Conf, dc: string): (r: Outcome)
    ensures r.Pass? <==> dc != "" && Entry(conf, dc).Some?
    ensures dc == "" ==> r == Fail(Msg("DC name is empty"))
    ensures dc != "" && conf.None? ==> r == Fail(Msg("Nil nomad config provided"))
    ensures dc != "" && conf.Some? && conf.value.datacenter.None? ==> r == Fail(Msg("DC not available in nomad config"))
    ensures dc != "" && conf.Some? && conf.value.datacenter.Some? && Entry(conf, dc).None? ==>
              r == Fail(Msg("No details available for dc '" + dc + "'"))
  {
    if dc == "" then Fail(Msg("DC name is empty"))
    else if conf.None? then Fail(Msg("Nil nomad config provided"))
    else if conf.value.datacenter.None? then Fail(Msg("DC not available in nomad config"))
    else if Entry(conf, dc).None? then Fail(Msg("No details available for dc '" + dc + "'"))
    else Pass
  }

  /** The configured value, or the default when it is empty. */
  function OrDefault(configured: string, default: string): (r: string)
    ensures configured != "" ==> r == configured
    ensures configured == "" ==> r == default
  {
    if configured == "" then default else configured
  }

  // The getters dereference the section without a nil check of their own,
  // so they are only defined where the section exists.

  /** getCNType. */
  function GetCNType(conf: Conf, dc: string): (r: string)
    requires Entry(conf, dc).Some?
    ensures r != ""
    ensures Entry(conf, dc).value.cnType != "" ==> r == Entry(conf, dc).value.cnType
    ensures Entry(conf, dc).value.cnType == "" ==> r == DefaultNomadCNType
  {
    OrDefault(Entry(conf, dc).value.cnType, DefaultNomadCNType)
  }

  /** getCNNetworkCIDR. */
  function GetCNNetworkCIDR(conf: Conf, dc: string): (r: string)
    requires Entry(conf, dc).Some?
    ensures r != ""
    ensures Entry(conf, dc).value.cnNetworkCIDR != "" ==> r == Entry(conf, dc).value.cnNetworkCIDR
    ensures Entry(conf, dc).value.cnNetworkCIDR == "" ==> r == DefaultNomadCNNetworkCIDR
  {
    OrDefault(Entry(conf, dc).value.cnNetworkCIDR, DefaultNomadCNNetworkCIDR)
  }

  /** getCNInterface. */
  function GetCNInterface(conf: Conf, dc: string): (r: string)
    requires Entry(conf, dc).Some?
    ensures r != ""
    ensures Entry(conf, dc).value.cnInterface != "" ==> r == Entry(conf, dc).value.cnInterface
    ensures Entry(conf, dc).value.cnInterface == "" ==> r == DefaultNomadCNInterface
  {
    OrDefault(Entry(conf, dc).value.cnInterface, DefaultNomadCNInterface)
  }

  /** getCSPersistenceLocation. */
  function GetCSPersistenceLocation(conf: Conf, dc: string): (r: string)
    requires Entry(conf, dc).Some?
    ensures r != ""
    ensures Entry(conf, dc).value.csPersistenceLocation != "" ==> r == Entry(conf, dc).value.csPersistenceLocation
    ensures Entry(conf, dc).value.csPersistenceLocation == "" ==> r == DefaultNomadCSPersistenceLocation
  {
    OrDefault(Entry(conf, dc).value.csPersistenceLocation, DefaultNomadCSPersistenceLocation)
  }

  /** getCSReplicaCount: the configured count must parse as a non-zero Go
      int; it is then returned as it was written, not re-formatted. */
  function GetCSReplicaCount(conf: Conf, dc: string): (r: Result<string>)
    requires Entry(conf, dc).Some?
    ensures var raw := Entry(conf, dc).value.csReplicaCount;
            && (raw == "" ==> r == Ok(DefaultNomadCSReplicaCount))
            && (raw != "" ==> (r.Ok? <==> Atoi(raw).Ok? && Atoi(raw).value != 0))
            && (raw != "" && r.Ok? ==> r.value == raw)
            && (raw != "" && Atoi(raw).Err? ==>
                  r == Err(Wrapped("Invalid replica count '" + raw + "' provided.", Atoi(raw).error)))
            && (Atoi(raw) == Ok(0) ==> r == Err(Msg("Replica count can not be '0'")))
  {
    var raw := Entry(conf, dc).value.csReplicaCount;
    if raw == "" then Ok(DefaultNomadCSReplicaCount)
    else match Atoi(raw)
      case Err(e) => Err(Wrapped("Invalid replica count '" + raw + "' provided.", e))
      case Ok(n) => if n == 0 then Err(Msg("Replica count can not be '0'")) else Ok(raw)
  }

  /** CN: the container networking properties of the datacenter. */
  function CN(conf: Conf, dc: string): (r: Result<map<string, string>>)
    ensures r.Ok? <==> ValidateConf(conf, dc).Pass?
    ensures r.Err? ==> r.error == ValidateConf(conf, dc).error
    ensures r.Ok? ==> r.value.Keys == {CNTypeLbl, CNNetworkCIDRAddrLbl, CNInterfaceLbl}
    ensures r.Ok? ==> && r.value[CNTypeLbl] == GetCNType(conf, dc)
                      && r.value[CNNetworkCIDRAddrLbl] == GetCNNetworkCIDR(conf, dc)
                      && r.value[CNInterfaceLbl] == GetCNInterface(conf, dc)
  {
    var v := ValidateConf(conf, dc);
    if v.Fail? then Err(v.error)
    else Ok(map[CNTypeLbl := GetCNType(conf, dc),
                CNNetworkCIDRAddrLbl := GetCNNetworkCIDR(conf, dc),
                CNInterfaceLbl := GetCNInterface(conf, dc)])
  }

  /** CS: the container storage properties of the datacenter. */
  function CS(conf: Conf, dc: string): (r: Result<map<string, string>>)
    ensures ValidateConf(conf, dc).Fail? ==> r == Err(ValidateConf(conf, dc).error)
    ensures ValidateConf(conf, dc).Pass? && GetCSReplicaCount(conf, dc).Err? ==> r == Err(GetCSReplicaCount(conf, dc).error)
    ensures r.Ok? <==> ValidateConf(conf, dc).Pass? && GetCSReplicaCount(conf, dc).Ok?
    ensures r.Ok? ==> r.value.Keys == {PVPPersistenceLocationLbl, PVPReplicaCountLbl}
    ensures r.Ok? ==> && r.value[PVPPersistenceLocationLbl] == GetCSPersistenceLocation(conf, dc)
                      && r.value[PVPReplicaCountLbl] == GetCSReplicaCount(conf, dc).value
  {
    var v := ValidateConf(conf, dc);
    if v.Fail? then Err(v.error)
    else
      var persistLoc := GetCSPersistenceLocation(conf, dc);
      match GetCSReplicaCount(conf, dc)
      case Err(e) => Err(e)
      case Ok(repCount) =>
        Ok(map[PVPPersistenceLocationLbl := persistLoc, PVPReplicaCountLbl := repCount])
  }

  /** Every value CN provides is non-empty, so a claim merged with it never
      lacks a network CIDR. */
  lemma CNValuesNonEmpty(conf: Conf, dc: string)
    requires CN(conf, dc).Ok?
    ensures forall k :: k in CN(conf, dc).value ==> CN(conf, dc).value[k] != ""
  {
  }

  /** The replica count a datacenter configures is accepted exactly when it
      is a non-zero Go int, negative counts included. */
  lemma ReplicaCountAcceptsNegative()
    ensures var conf := Some(NomadConfig(Some(map["dc1" := Some(DcConfig("", "", "", "", "", "-2"))])));
            GetCSReplicaCount(conf, "dc1") == Ok("-2")
  {
    var conf := Some(NomadConfig(Some(map["dc1" := Some(DcConfig("", "", "", "", "", "-2"))])));
    assert Unsigned("-2") == "2";
    assert DigitsValue("2") == 2 by {
      assert "2"[..0] == "";
    }
  }

  /** The count is returned as written: "007" is accepted, and not as "7". */
  lemma ReplicaCountNotReformatted()
    ensures var conf := Some(NomadConfig(Some(map["dc1" := Some(DcConfig("", "", "", "", "", "007"))])));
            GetCSReplicaCount(conf, "dc1") == Ok("007")
  {
    assert Unsigned("007") == "007";
    assert "007"[..2] == "00" && "00"[..1] == "0" && "0"[..0] == "";
  }
}
