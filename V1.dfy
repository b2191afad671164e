/** The API types of lib/api/v1 that the core reads and writes: the label keys,
    the persistent volume claim and the persistent volume.

    The key strings themselves are defined in lib/api/v1, lib/api/v1/jiva and
    lib/api/v1/nomad, which are not part of this model. Each is modelled as a
    distinct symbolic string (the Go identifier that names it), so nothing
    here assumes that two differently named keys coincide. */
module V1 {
  import opened Base

  // Keys of lib/api/v1
  const RegionLbl := "v1.RegionLbl"
  const DatacenterLbl := "v1.DatacenterLbl"
  const OrchRegionLbl := "v1.OrchRegionLbl"
  const OrchDCLbl := "v1.OrchDCLbl"
  const PVPControllerImageLbl := "v1.PVPControllerImageLbl"
  const PVPControllerIPsLbl := "v1.PVPControllerIPsLbl"
  const PVPReplicaIPsLbl := "v1.PVPReplicaIPsLbl"
  const PVPReplicaCountLbl := "v1.PVPReplicaCountLbl"
  const PVPPersistenceLocationLbl := "v1.PVPPersistenceLocationLbl"
  const PVPStorageSizeLbl := "v1.PVPStorageSizeLbl"
  const CNTypeLbl := "v1.CNTypeLbl"
  const CNSubnetLbl := "v1.CNSubnetLbl"
  const CNInterfaceLbl := "v1.CNInterfaceLbl"
  const CNNetworkCIDRAddrLbl := "v1.CNNetworkCIDRAddrLbl"
  const CSReplicaCountLbl := "v1.CSReplicaCountLbl"

  // Values of lib/api/v1 used to build job metadata
  const JivaISCSIPortDef := "v1.JivaISCSIPortDef"
  const JivaIqnFormatPrefix := "v1.JivaIqnFormatPrefix"

  // Keys of lib/api/v1/jiva
  const JivaFrontEndImageLbl := "v1jiva.JivaFrontEndImageLbl"
  const JivaFrontEndIPLbl := "v1jiva.JivaFrontEndIPLbl"
  const JivaBackEndAllIPsLbl := "v1jiva.JivaBackEndAllIPsLbl"
  const JivaFrontEndVolSizeLbl := "v1jiva.JivaFrontEndVolSizeLbl"
  const JivaBackEndVolSizeLbl := "v1jiva.JivaBackEndVolSizeLbl"
  const JivaTargetPortalLbl := "v1jiva.JivaTargetPortalLbl"
  const JivaIqnLbl := "v1jiva.JivaIqnLbl"
  /** The prefix of the per-replica IP keys; suffixed with the replica index. */
  const JivaBackEndIPPrefixLbl := "v1jiva.JivaBackEndIPPrefixLbl"

  /** The resource name of the requested storage size. */
  const StorageResource := "storage"

  /** A claim's label map; None is a nil Go map. */
  type Labels = Option<map<string, string>>

  /** A claim's resource requests; quantities are modelled by signed integers. */
  type Requests = Option<map<string, int>>

  /** Go's `pvc.Labels[k]`: reading a nil or a missing entry gives "". */
  function Lookup(l: Labels, k: string): (v: string)
    ensures l.Some? ==> v == Get(l.value, k)
    ensures l.None? ==> v == ""
  {
    if l.Some? then Get(l.value, k) else ""
  }

  /** Go's `pvc.Spec.Resources.Requests[k]`: a nil or missing entry reads as zero. */
  function Quantity(q: Requests, k: string): (v: int)
    ensures q.Some? && k in q.value ==> v == q.value[k]
    ensures q.None? || k !in q.value ==> v == 0
  {
    if q.Some? && k in q.value then q.value[k] else 0
  }

  /** The parts of a claim that provisioning updates. */
  datatype ClaimState = ClaimState(labels: Labels, requests: Requests)

  /** v1.PersistentVolumeClaim: its name, labels and storage requests. */
  class Claim {
    var name: string
    var labels: Labels
    var requests: Requests

    constructor (name: string, labels: Labels, requests: Requests)
      ensures this.name == name && this.labels == labels && this.requests == requests
    {
      this.name := name;
      this.labels := labels;
      this.requests := requests;
    }

    function State(): ClaimState
      reads this
    {
      ClaimState(labels, requests)
    }
  }

  /** v1.PersistentVolumeStatus. */
  datatype VolumeStatus = VolumeStatus(message: string, reason: string)

  /** v1.PersistentVolume: a name, its annotations (None when unset) and a status. */
  datatype PersistentVolume = PersistentVolume(name: string, annotations: Labels, status: VolumeStatus)
}
