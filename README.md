# mayaserver volume provisioning: a verified model

mayaserver turns a persistent volume claim into a Nomad job that runs one
jiva controller (the frontend) and a set of jiva replicas (the backends).
This project models the three parts of that pipeline and proves what they
promise:

- **Claim property resolution** (`lib/volume/jiva/util.go`). `ProvisionStorage`
  runs eight steps on the claim, in a fixed order, and stops at the first
  error. They fill in the labels and storage requests the claim does not set
  itself. A setter keeps a non-empty label, and otherwise takes the
  orchestrator or datacenter default, and otherwise a hard-coded default.
  The subnet label is the one exception: `setCN` always recomputes it. It
  then assigns the frontend and backend addresses that are still missing.
  - Modules `JivaSpec` (pure functions on label and request maps, plus the
    lemmas) and `Jiva` (methods that update a `V1.Claim` object in place).
  - Each `Jiva` method is proved to leave the claim exactly as the matching
    `JivaSpec` function says.
- **Job building and status mapping** (`lib/orchprovider/nomad/helper_funcs.go`).
  `PvcToJob` checks the claim's labels in order, parses the replica count,
  adds the per-replica address entries (`setBEIPs`) and builds the job.
  `JobEvalToPv`, `PvToJob` and `JobToPv` map between jobs, evaluations and
  volume records. Module `NomadJob`.
- **Datacenter defaults** (`lib/orchprovider/nomad/util.go`).
  `validateConf` checks the configuration. The getters return the
  configured value or the package default. `CN` and `CS` build the network
  and storage default maps. Module `NomadConf`.

Supporting modules:

- `Base`: Option, Result and Go's nil-map read.
- `Text`: Go's `strconv.Atoi`/`Itoa` on 64-bit ints, and `strings.Split`,
  `TrimSuffix` and the comma join.
- `V1`: the label keys, the claim and the volume.
- `Composition`: how the jiva steps behave with the Nomad provider's
  defaults.

The label keys and default values are defined in `lib/api/v1`,
`lib/api/v1/jiva` and `lib/api/v1/nomad`, which are not part of this model.
Each key is a distinct symbolic string, named after the Go identifier, so
no proof relies on two differently named keys being equal. No fixed key is
modelled as longer than the replica address prefix. That last point is a
modelling choice, and it is what makes the per-replica keys distinct from
the fixed ones.

The collaborators that jiva reaches through its volume-plugin aspect are
fields of `JivaSpec.Env`, the model's parameters:

- the orchestrator, its region and the default datacenter;
- `StorageProps`/`NetworkProps`;
- the placement request;
- `nethelper.CIDRSubnet` and `nethelper.GetAvailableIPs`.

Two things are assumed of `GetAvailableIPs`: that n requested addresses
come back as exactly n strings (`JivaSpec.ExactIPs`) and, for
`JivaSpec.JointAllocationCount` only, that no returned address contains a
comma (`JivaSpec.AllCommaFree`). Lemmas that need these state them as
hypotheses.

A Go panic becomes an error value instead of a crash:

- `ips[0]` on an empty slice becomes `IndexOutOfRange(0, 0)`;
- a nil pointer dereference becomes `NilDereference`.

## Model

| member | source | states |
|---|---|---|
| JivaSpec.InitLabels | lib/volume/jiva/util.go:360-371 | nil labels become the empty map; non-nil labels are returned unchanged |
| JivaSpec.InitLabelsIdempotent | lib/volume/jiva/util.go:360-371 | initialising twice is initialising once |
| Jiva.InitLabels | lib/volume/jiva/util.go:360-371 | updates the claim's labels exactly as JivaSpec.InitLabels says |
| JivaSpec.VerifySpecs | lib/volume/jiva/util.go:378-385 | passes iff the request map is non-nil, and fails with "Storage specs missing in pvc" otherwise |
| JivaSpec.SetJivaLblProps | lib/volume/jiva/util.go:392-405 | fails iff the labels are nil, leaving them as they were; an empty image label becomes "openebs/jiva:latest"; a non-empty one is kept; no other label changes |
| Jiva.SetJivaLblProps | lib/volume/jiva/util.go:392-405 | updates the claim as JivaSpec.SetJivaLblProps says |
| JivaSpec.GetStorageSize | lib/volume/jiva/util.go:450-464 | succeeds iff the "storage" quantity is positive, and then returns it; a missing quantity is rejected as "Invalid storage size in pvc" |
| JivaSpec.DefaultSize | lib/volume/jiva/util.go:414-441 | a non-positive size is replaced by the storage size (an error if that is not positive too); a positive size is kept; no other request changes |
| JivaSpec.SetJivaSpecProps | lib/volume/jiva/util.go:412-443 | passes iff the storage size is positive or both sizes already are; afterwards both sizes are positive, each is its old value if that was positive and the storage size otherwise, and nothing else changes; on error the requests are unchanged; requests whose two sizes are already positive come back unchanged |
| Jiva.SetJivaSpecProps | lib/volume/jiva/util.go:412-443 | updates the claim's requests as JivaSpec.SetJivaSpecProps says |
| JivaSpec.SetRegion | lib/volume/jiva/util.go:471-505 | keeps a non-empty region label; otherwise takes the orchestrator's region and fails when it is missing or empty; on success the region label is non-empty and nothing else changes |
| Jiva.SetRegion | lib/volume/jiva/util.go:471-505 | updates the claim as JivaSpec.SetRegion says |
| JivaSpec.SetDC | lib/volume/jiva/util.go:512-537 | returns a non-empty datacenter label as it is; otherwise takes the default datacenter and records it, failing when it is empty; a returned datacenter is non-empty and equals the label |
| Jiva.SetDC | lib/volume/jiva/util.go:512-537 | updates the claim and returns the datacenter as JivaSpec.SetDC says |
| JivaSpec.MergeDefaults | lib/volume/jiva/util.go:565-569 | for each default key, the label is its old value if that was non-empty and the default otherwise; other labels are unchanged; the keys are the union |
| JivaSpec.PartialMergeStep | lib/volume/jiva/util.go:603-607 | one loop iteration of the merge fills key k exactly when its label is still empty |
| JivaSpec.MergeIdempotent | lib/volume/jiva/util.go:565-569 | merging the same defaults twice is merging them once |
| JivaSpec.SaturatedMergeIsIdentity | lib/volume/jiva/util.go:603-607 | a merge changes nothing when every default key already holds a non-empty label, or an empty default |
| Jiva.MergeLabels | lib/volume/jiva/util.go:565-569 | the loop over the default keys, in any order, leaves the labels equal to JivaSpec.MergeDefaults |
| JivaSpec.SetCS | lib/volume/jiva/util.go:544-572 | fails on nil labels or an empty datacenter, each with its own message, or with the storage-properties error, always leaving the labels unchanged; otherwise merges the storage defaults; never overwrites a non-empty label |
| Jiva.SetCS | lib/volume/jiva/util.go:544-572 | updates the claim as JivaSpec.SetCS says |
| JivaSpec.GetBackendCount | lib/volume/jiva/util.go:685-698 | succeeds iff the replica count label parses as a Go int, and returns its value; otherwise fails with Atoi's own error, which for an empty label is the syntax error |
| JivaSpec.BackendIPsLabelRoundTrip | lib/volume/jiva/util.go:733-747 | splitting the stored label on "," gives back a non-empty list of comma-free addresses; no other label changes |
| Jiva.BackendIPsString | lib/volume/jiva/util.go:736-743 | the accumulating loop followed by the trim of the trailing comma yields exactly the comma join; the empty list gives "" |
| Jiva.SetBackendIPsAsString | lib/volume/jiva/util.go:733-747 | stores the joined addresses under the backend-addresses label and changes nothing else |
| JivaSpec.SetBackendIPsAsString | lib/volume/jiva/util.go:733-747 | the label map setBackendIPsAsString leaves; characterised by JivaSpec.BackendIPsLabelRoundTrip (the stored label splits back into the addresses, nothing else changes) and by Jiva.BackendIPsString (the loop and the trim produce the join) |
| JivaSpec.SetBackendIPs | lib/volume/jiva/util.go:706-725 | asks for exactly the parsed replica count; passes iff both the parse and the allocation do; a parse error or an allocator error is returned as it is; on error the labels are unchanged |
| Jiva.SetBackendIPs | lib/volume/jiva/util.go:706-725 | updates the claim as JivaSpec.SetBackendIPs says |
| JivaSpec.AssignIPs | lib/volume/jiva/util.go:625-677 | the four cases: both address labels empty: 1+count addresses (count wraps as a Go int), the first for the frontend, the rest joined for the backends; only the frontend label empty: one address, backends untouched; only the backend label empty: setBackendIPs, frontend untouched; both set: no change. In both allocating branches an allocator error is returned as it is and an empty allocation is the index error of `ips[0]`; no other label changes; no non-empty label is overwritten |
| Jiva.AssignIPs | lib/volume/jiva/util.go:625-677 | updates the claim as JivaSpec.AssignIPs says |
| JivaSpec.SetCN | lib/volume/jiva/util.go:582-678 | fails on nil labels, an empty datacenter or a network-properties error, with the labels unchanged; otherwise merges the network defaults; fails when the merged CIDR is empty or its subnet cannot be computed, keeping the merge; otherwise writes the subnet and assigns the addresses; no non-empty label other than the subnet is overwritten |
| JivaSpec.SetCNSubnet | lib/volume/jiva/util.go:609-619 | after a successful setCN the merged CIDR is non-empty and the subnet label is its subnet, whatever subnet the claim carried |
| JivaSpec.JointAllocationCount | lib/volume/jiva/util.go:625-649 | for a replica count of at least 1 and below MaxInt64, when the allocator returns exactly what is asked for and no address contains a comma, the backend label of a joint allocation splits back into exactly count pieces |
| JivaSpec.BackendOnlyAllocation | lib/volume/jiva/util.go:664-675 | with the frontend address set, the allocation asks for count addresses, stores their join and keeps the frontend address |
| JivaSpec.UnsetBackendCountFails | lib/volume/jiva/util.go:625-632 | a joint allocation for a claim without the replica count label fails with Atoi's syntax error and changes nothing |
| Jiva.SetCN | lib/volume/jiva/util.go:582-678 | updates the claim as JivaSpec.SetCN says |
| JivaSpec.Step | lib/volume/jiva/util.go:280-318 | each step changes only what its setter touches: only setDC changes the datacenter, only setJivaSpecProps the requests, and neither it nor verifySpecs the labels |
| JivaSpec.Run | lib/volume/jiva/util.go:280-318 | the step sequence with its early returns; characterised by JivaSpec.RunSplit, FirstErrorAborts, RunPassesEveryStep, RunKeepsExplicit, RunTrace and TraceRun |
| JivaSpec.ResolveClaim | lib/volume/jiva/util.go:280-318 | the eight steps in ProvisionOrder; characterised by JivaSpec.ResolveEstablishes, ResolveIdempotent and ResolvedByCSCN, and tied to the claim object by Jiva.ResolveLocal and Jiva.ResolveOrchestrated |
| JivaSpec.RunSplit | lib/volume/jiva/util.go:280-318 | running the steps is running a prefix and then, if the prefix passed, the rest |
| JivaSpec.FirstErrorAborts | lib/volume/jiva/util.go:280-318 | if the first k steps pass and step k fails, the run ends there, with that error and the claim as step k left it |
| JivaSpec.RunPassesEveryStep | lib/volume/jiva/util.go:280-318 | a run that passes passed every step |
| JivaSpec.StepKeepsExplicit | lib/volume/jiva/util.go:280-318 | no step overwrites a non-empty label other than the subnet |
| JivaSpec.RunKeepsExplicit | lib/volume/jiva/util.go:280-318 | a whole run, failed or not, never overwrites a non-empty label other than the subnet |
| JivaSpec.RunTrace | lib/volume/jiva/util.go:280-318 | a passing run has a chain of intermediate claims, each step passing on the previous one |
| JivaSpec.TraceRun | lib/volume/jiva/util.go:280-318 | the converse of RunTrace: a chain of passing steps is a passing run ending in the last claim |
| JivaSpec.SaturatedExceptKept | lib/volume/jiva/util.go:603-607 | labels that keep the keys and the non-empty values of labels absorbing a set of defaults absorb it too |
| JivaSpec.MergeSaturatedExcept | lib/volume/jiva/util.go:603-607 | merging defaults the labels already absorb changes nothing, except possibly under the one exempt key |
| JivaSpec.MergeUpdated | lib/volume/jiva/util.go:603-607 | away from one key, the merge does not depend on the label under that key |
| JivaSpec.DoubleMergeFixpoint | lib/volume/jiva/util.go:565-569 | merging two absorbed sets of defaults, then restoring the exempt label, gives the labels back |
| JivaSpec.AssignIPsKeepsSaturation | lib/volume/jiva/util.go:625-677 | address assignment keeps every set of defaults its input absorbed |
| JivaSpec.SetCNSaturates | lib/volume/jiva/util.go:582-678 | a passing setCN leaves labels that absorb its network defaults and whatever its input absorbed, the subnet aside, and carry a subnet label |
| JivaSpec.CSCNSaturate | lib/volume/jiva/util.go:544-678 | a passing setCS followed by a passing setCN leaves labels that absorb both sets of defaults, the subnet aside |
| JivaSpec.CSCNFixpoint | lib/volume/jiva/util.go:544-678 | setCS then setCN on labels that absorb both sets of defaults, hold both addresses and the subnet of their own CIDR both pass and give the labels back |
| JivaSpec.LocalStepsFixed | lib/volume/jiva/util.go:280-308 | on a resolved claim the first six steps pass and change nothing; setDC returns the claim's datacenter |
| JivaSpec.DCStepPasses | lib/volume/jiva/util.go:305-308 | a passing setDC step records, as the datacenter it passes on, the non-empty datacenter label |
| JivaSpec.CSStepPasses | lib/volume/jiva/util.go:310-313 | a passing setCS step is setCS on the datacenter setDC returned |
| JivaSpec.CNStepPasses | lib/volume/jiva/util.go:315-318 | a passing setCN step is setCN on the datacenter setDC returned |
| JivaSpec.CSStepFixed | lib/volume/jiva/util.go:310-313 | the step view of a passing setCS |
| JivaSpec.CNStepFixed | lib/volume/jiva/util.go:315-318 | the step view of a setCN that gives back the claim's labels |
| JivaSpec.ResolvedFixpoint | lib/volume/jiva/util.go:280-318 | a resolved claim whose setCS and setCN give back its labels resolves to itself |
| JivaSpec.ResolvedByCSCN | lib/volume/jiva/util.go:305-318 | in a passing resolution the final labels are what setCS and setCN, on the datacenter the claim ends with, made of the labels setDC left |
| JivaSpec.ResolveIdempotent | lib/volume/jiva/util.go:280-318 | resolving a resolved claim whose two address labels are non-empty passes and changes nothing: explicit labels win, the merges are idempotent, the subnet is re-derived from the same CIDR and no address is reallocated |
| JivaSpec.ResolveEstablishes | lib/volume/jiva/util.go:280-318 | a passing resolution leaves the frontend image, positive frontend and backend sizes, region, datacenter, a network CIDR and its subnet all set |
| JivaSpec.ProvisionStorage | lib/volume/jiva/util.go:267-321 | an orchestrator error returns at once with the claim untouched; otherwise the claim is the resolved one; a resolution error is returned; after a passing resolution the result is the placement request made on the resolved claim |
| Jiva.ResolveLocal | lib/volume/jiva/util.go:280-298 | the first four steps on the claim object agree with running them on values |
| Jiva.ResolveOrchestrated | lib/volume/jiva/util.go:300-318 | the last four steps on the claim object agree with running them on values |
| Jiva.ProvisionStorage | lib/volume/jiva/util.go:267-321 | returns, and leaves the claim, as JivaSpec.ProvisionStorage says |
| NomadConf.Entry | lib/orchprovider/nomad/util.go:331 | the datacenter's section is present iff there is a configuration, a section map and a non-nil entry for the datacenter |
| NomadConf.ValidateConf | lib/orchprovider/nomad/util.go:317-336 | passes iff the name is non-empty and the section exists; otherwise returns the error of the first failing check, in order |
| NomadConf.OrDefault | lib/orchprovider/nomad/util.go:339-346 | the configured value when non-empty, the default otherwise |
| NomadConf.GetCNType | lib/orchprovider/nomad/util.go:339-346 | the configured network type verbatim, or the default when it is empty; never empty |
| NomadConf.GetCNNetworkCIDR | lib/orchprovider/nomad/util.go:349-356 | the configured CIDR verbatim, or the default when it is empty; never empty |
| NomadConf.GetCNInterface | lib/orchprovider/nomad/util.go:359-366 | the configured interface verbatim, or the default when it is empty; never empty |
| NomadConf.GetCSPersistenceLocation | lib/orchprovider/nomad/util.go:370-377 | the configured location verbatim, or the default when it is empty; never empty |
| NomadConf.GetCSReplicaCount | lib/orchprovider/nomad/util.go:381-397 | empty gives the default; a value Atoi rejects gives the wrapped Atoi error; a value parsing to 0 is rejected; any other value is returned as written |
| NomadConf.ReplicaCountAcceptsNegative | lib/orchprovider/nomad/util.go:387-396 | a configured count of "-2" is accepted |
| NomadConf.ReplicaCountNotReformatted | lib/orchprovider/nomad/util.go:387-396 | a configured count of "007" is returned as "007" |
| NomadConf.CN | lib/orchprovider/nomad/util.go:270-286 | fails exactly when validateConf fails, with its error; otherwise a map with exactly the type, CIDR and interface keys, valued by the getters |
| NomadConf.CNValuesNonEmpty | lib/orchprovider/nomad/util.go:278-283 | every value CN provides is non-empty |
| NomadConf.CS | lib/orchprovider/nomad/util.go:291-315 | fails iff validateConf or the replica count fails, with that error; otherwise a map with exactly the persistence-location and replica-count keys |
| NomadJob.PvcToJobName | lib/orchprovider/nomad/helper_funcs.go:17-28 | errors on a nil claim or an empty name; otherwise exactly the claim's name |
| NomadJob.FirstMissing | lib/orchprovider/nomad/helper_funcs.go:57-104 | the position of the first empty required label; none iff every required label is non-empty |
| NomadJob.FirstMissingDependsOnPrefix | lib/orchprovider/nomad/helper_funcs.go:57-104 | the error depends only on which label is the first empty one |
| NomadJob.ClaimCount | lib/orchprovider/nomad/helper_funcs.go:45-137 | the checks in order: name, labels, the ten required labels, the replica count parse, then the count checks of setBEIPs; passes iff all do, and returns the count, which equals the number of replica addresses |
| NomadJob.MissingReplicaCount | lib/orchprovider/nomad/helper_funcs.go:133-137 | a claim with all required labels but an empty replica count fails with Atoi's syntax error |
| NomadJob.BackendIPKeyInjective | lib/orchprovider/nomad/helper_funcs.go:324 | distinct replica indices give distinct keys |
| NomadJob.BackendIPsCheck | lib/orchprovider/nomad/helper_funcs.go:311-317 | passes iff the count is non-zero and matches the number of addresses; each failure has its own message |
| NomadJob.IndexedIPsAt | lib/orchprovider/nomad/helper_funcs.go:323-329 | the entry of replica i holds its address |
| NomadJob.IndexedIPsKeyIndex | lib/orchprovider/nomad/helper_funcs.go:323-329 | every added key belongs to one of the replicas |
| NomadJob.SetBEIPs | lib/orchprovider/nomad/helper_funcs.go:309-332 | on a failed check both maps are unchanged; otherwise the metadata gets the count and both maps get each replica's address under its indexed key, and nothing else |
| NomadJob.BackendIPKey | lib/orchprovider/nomad/helper_funcs.go:324 | the key of replica i is the backend-address prefix followed by Itoa(i), strictly longer than the prefix; distinct indices give distinct keys by NomadJob.BackendIPKeyInjective |
| NomadJob.IndexedIPs | lib/orchprovider/nomad/helper_funcs.go:323-329 | the entries the setBEIPs loop adds; characterised by NomadJob.IndexedIPsAt (each replica's key holds its address) and NomadJob.IndexedIPsKeyIndex (no other keys) |
| NomadJob.ReplicaIPs | lib/orchprovider/nomad/helper_funcs.go:139-140 | the replica addresses, the comma split of the replica-addresses label; NomadJob.ClaimCount states that a passing claim has exactly the parsed count of them |
| NomadJob.JobMeta | lib/orchprovider/nomad/helper_funcs.go:151-156 | the metadata literal; characterised by NomadJob.ReplicaMetaBase |
| NomadJob.FeEnv | lib/orchprovider/nomad/helper_funcs.go:159-167 | the frontend environment literal; NomadJob.JobMetaContents states that the frontend task carries it |
| NomadJob.ReplicaMeta | lib/orchprovider/nomad/helper_funcs.go:151-156 | the metadata after setBEIPs (lines 319-329); characterised by NomadJob.ReplicaMetaContents |
| NomadJob.ReplicaEnv | lib/orchprovider/nomad/helper_funcs.go:170-181 | the backend environment after setBEIPs (lines 323-329); characterised by NomadJob.ReplicaEnvContents |
| NomadJob.AssembleJob | lib/orchprovider/nomad/helper_funcs.go:205-305 | the job literal; characterised by NomadJob.JobShape and NomadJob.JobMetaContents |
| NomadJob.BeEnv | lib/orchprovider/nomad/helper_funcs.go:170-181 | the backend environment has exactly its ten fixed keys |
| NomadJob.ReplicaMetaBase | lib/orchprovider/nomad/helper_funcs.go:151-156 | the metadata holds the backend size, the frontend address, the target portal "address:port" and the IQN "prefix:name", and the replica count |
| NomadJob.AddReplicas | lib/orchprovider/nomad/helper_funcs.go:323-329 | adding the replica entries keeps every fixed entry and adds each address |
| NomadJob.ReplicaMetaContents | lib/orchprovider/nomad/helper_funcs.go:151-156 | the finished metadata: exactly the five fixed keys plus the replica keys, with the values above and each replica's address |
| NomadJob.ReplicaEnvContents | lib/orchprovider/nomad/helper_funcs.go:170-181 | the finished backend environment: the fixed entries as built, and each replica's address |
| NomadJob.ClaimToJob | lib/orchprovider/nomad/helper_funcs.go:43-306 | fails iff a check fails, with that check's error |
| NomadJob.PvcToJob | lib/orchprovider/nomad/helper_funcs.go:43-306 | a nil claim gives "Nil persistent volume claim provided"; otherwise the result is NomadJob.ClaimToJob |
| NomadJob.JobShape | lib/orchprovider/nomad/helper_funcs.go:205-305 | ID and name are the claim's name; region and the single datacenter are the claim's; a service job of priority 50 on Linux; frontend count 1; backend count the replica count; distinct_hosts on the backend group only; the same restart policy on both groups |
| NomadJob.JobMetaContents | lib/orchprovider/nomad/helper_funcs.go:215-287 | the job carries the finished metadata, the finished backend environment and the frontend environment |
| NomadJob.JobEvalToPv | lib/orchprovider/nomad/helper_funcs.go:356-383 | a nil evaluation is an error; otherwise the volume is named after the job, message and reason are the status description and status, and the annotations have exactly the seven eval keys with the evaluation's fields |
| NomadJob.EvalPriorityRoundTrip | lib/orchprovider/nomad/helper_funcs.go:366 | the recorded priority parses back to the evaluation's priority |
| NomadJob.PvToJob | lib/orchprovider/nomad/helper_funcs.go:386-398 | a nil volume is an error; otherwise a job named and identified by the volume's name, with nothing else set |
| NomadJob.JobToPv | lib/orchprovider/nomad/helper_funcs.go:401-421 | a nil job is an error; a nil name, status description or status is a nil dereference; otherwise name, message and reason come from the job, and the annotations are the metadata exactly when the job is running |
| NomadJob.JobToPvToJob | lib/orchprovider/nomad/helper_funcs.go:386-421 | a job that maps to a volume maps back to a job with the same name and that name as ID |
| NomadJob.PvToJobToPvDereferencesNil | lib/orchprovider/nomad/helper_funcs.go:392-410 | the job built from a volume has no status description, so mapping it back dereferences nil |
| NomadJob.RunningJobAnnotations | lib/orchprovider/nomad/helper_funcs.go:151-156 | a running job built from a claim maps to a volume whose annotations carry the claim's frontend address |
| Composition.NomadNetworkSuppliesCIDR | lib/volume/jiva/util.go:603-613 | with the Nomad network defaults the merged CIDR is the claim's, or else the configured or default one, and never empty; setCN goes on to assign addresses when the subnet helper accepts it |
| Composition.NomadStorageKeepsAllocationLabels | lib/orchprovider/nomad/util.go:306-312 | setCS with the Nomad storage defaults passes and leaves both address labels and CSReplicaCountLbl empty, under the modelling assumption that CSReplicaCountLbl and PVPReplicaCountLbl are different keys |
| Composition.NomadNetworkNeedsBackendCount | lib/volume/jiva/util.go:625-632 | with the Nomad network defaults, a claim without address labels or CSReplicaCountLbl fails setCN on Atoi's syntax error, under the modelling assumption that CSReplicaCountLbl is none of the network default keys |
| Composition.NomadStorageLeavesBackendCountUnset | lib/volume/jiva/util.go:688 | setCS, then setCN, both with the Nomad defaults: a claim that does not set CSReplicaCountLbl itself, and has no address labels, fails. The Nomad storage defaults supply PVPReplicaCountLbl, which getBackendCount does not read, under the modelling assumption that CSReplicaCountLbl and PVPReplicaCountLbl are different keys |
| Text.Atoi | lib/volume/jiva/util.go:690 | accepts exactly an optional sign and at least one digit whose value fits in 64 bits, and returns that value; every error names the input |
| Text.Itoa | lib/orchprovider/nomad/helper_funcs.go:319 | strconv.Itoa: a non-empty decimal string with a leading minus sign exactly for negative numbers; Text.AtoiItoa proves Atoi reads it back, and Text.ItoaInjective that distinct numbers print differently |
| Text.ItoaInjective | lib/orchprovider/nomad/helper_funcs.go:324 | two numbers with the same decimal string are equal |
| Text.Split | lib/orchprovider/nomad/helper_funcs.go:140 | strings.Split on ",": never empty; Text.SplitJoin proves it undoes the comma join of comma-free strings |
| Text.TrimSuffix | lib/volume/jiva/util.go:743 | strings.TrimSuffix: the suffix is removed when present, so that the result followed by the suffix is the input; otherwise the input is returned unchanged |
| Text.AtoiItoa | lib/orchprovider/nomad/helper_funcs.go:319 | parsing what Itoa printed gives the number back |
| Text.SplitJoin | lib/volume/jiva/util.go:743 | splitting a join of a non-empty list of comma-free strings gives the list back |
| Text.TrimTerminated | lib/volume/jiva/util.go:738-743 | trimming the trailing comma from the accumulated string is the join |
| Text.Wrap64 | lib/volume/jiva/util.go:634 | the result is a 64-bit int congruent to the input, and equal to it when the input is in range |

## Left out

- The orchestrator and provider delegations of `lib/volume/jiva/util.go`:
  `NetworkProps`, `StorageProps`, `StorageInfo`, `ReadStorage`,
  `AddStorage`, `DeleteStorage` and the final `StoragePlacementReq`. Each is
  a call through registries and the volume-plugin aspect, so it is a field
  of `JivaSpec.Env`, a result or an error.
- `JivaSpec.SetRegion`: the three ways to miss an orchestrator (a nil
  aspect, a `GetOrchProvider` error, a nil orchestrator) are folded into one
  region Result. Their messages are not told apart.
- `nethelper.CIDRSubnet` and `nethelper.GetAvailableIPs` are not part of
  this model and are uninterpreted functions. Address distinctness, subnet
  membership and the exclusion of assigned addresses are not claimed, and
  that returned addresses contain no comma is a hypothesis, not a result.
- `nomadUtil.Http` (environment, TLS, client construction) and
  `readNomadConfig` (INI parsing) are not part of this model. The
  configuration is a parameter.
- The HTTP handlers of `lib/server/volume_endpoint.go` and
  `lib/server/snapshot_endpoint.go` are not part of this model.
- Concurrency: the code has no locking, and none is modelled.
- Quantities (`resource.Quantity`) are signed integers. Only their sign and
  their identity matter to the code.
- Nomad's pointer fields are flattened: a field the code always sets is a
  plain value, one it may leave nil is an Option. Durations are in seconds.
- The `${NOMAD_ALLOC_INDEX}` placeholder, artifact URLs, log configuration
  and task resources are literal constants.
- The error text of `fmt.Errorf` with a wrapped error (`%v`) is kept as a
  structured value (`Wrapped(message, error)`), not rendered into one
  string.
- Text.Atoi: an input with too many digits and a later invalid character
  is reported as a syntax error. Go reports a range error when the overflow
  comes first. Only the error's cause differs.
- NomadConf.GetCNType, NomadConf.GetCNNetworkCIDR, NomadConf.GetCNInterface,
  NomadConf.GetCSPersistenceLocation, NomadConf.GetCSReplicaCount: their
  precondition is that the datacenter's section exists. The Go getters
  dereference a nil section and panic, which the model does not represent.
  `CN` and `CS` call them only after `validateConf` has passed.
- Jiva.SetBackendIPsAsString, Jiva.SetBackendIPs, Jiva.MergeLabels and
  Jiva.AssignIPs require non-nil labels. Go would panic writing to a nil
  map, and every caller has checked the labels first.
- JivaSpec.VerifySpecs and JivaSpec.GetStorageSize: the nil checks on the
  addresses of fields and locals (`&pvc.Spec == nil`, `sizePtr == nil`)
  can never hold, so those branches are not modelled.
- `JivaSpec.AssignIPs`, `Jiva.ResolveLocal` and `Jiva.ResolveOrchestrated`
  are not separate functions in the source. They split code that is inline
  in `setCN` and `ProvisionStorage`.
- `NomadJob.FirstMissing` walks a list of the ten required labels. It
  stands in for the ten separate `if` statements of `PvcToJob`, with the
  same order and the same messages.
- The label keys and defaults are symbolic. Properties that depend on their
  actual strings are out of reach: whether `CSReplicaCountLbl` and
  `PVPReplicaCountLbl` coincide, and the exact target portal and IQN text.
- NomadJob.AddReplicas, NomadJob.NotIndexed, NomadJob.FixedKeysShort: the
  per-replica keys `prefix + Itoa(i)` are shown to miss every fixed key
  because no fixed key is longer than the symbolic prefix, and
  `prefix + Itoa(i)` is strictly longer than the prefix. That is a
  property of the placeholder strings, not of the program. For the real
  constants it would hold if no fixed key starts with the prefix, and that
  is not checked.
- JivaSpec.ResolveIdempotent: requires both address labels of the resolved
  claim to be non-empty. The allocator is uninterpreted and may return
  empty strings, and then a second resolution allocates again.
- NomadConf.GetCNType, NomadConf.GetCNNetworkCIDR, NomadConf.GetCNInterface,
  NomadConf.GetCSPersistenceLocation, NomadConf.CNValuesNonEmpty,
  Composition.NomadNetworkSuppliesCIDR: "never empty" assumes that the
  `v1nomad` defaults are non-empty strings. They are modelled as non-empty
  placeholders, and their real values are not part of this model.
