# AKO core logic in Dafny

A Dafny model of three pieces of the Avi Kubernetes Operator (AKO), with proofs about them.

- **Container-library helpers** (`vendor/github.com/avinetworks/container-lib/utils/utils.go`, module `ContainerUtils`):
  - the 32-bit FNV-1a key hash;
  - the worker-lane choice that masks the hash with `num_workers - 1`;
  - the HTTP service-port classifier;
  - the `namespace:name` correlation key;
  - the `namespace/name` key splitter;
  - removing the first occurrence of an item from a slice, shifting the slice's own backing array;
  - a membership test on a dynamically typed slice.
- **Pool REST operations and the pool/VS caches** (`pkg/rest/avi_obj_pool.go`, module `PoolRest`):
  - building the PUT/POST of a pool and the DELETE of a pool;
  - folding a controller response into the pool cache, keyed by `{tenant, name}`;
  - keeping each virtual service's pool-key collection in step with the pool cache, and removing both again.
  - The caches are fields of the class `RestOperations`. Its methods update them in place. Each method is proved against a function of the old state (`AddRecords`, `DelPool`), and the lemmas about those functions carry the properties: the cross-reference, the frame, the skip rules, last-writer-wins, and add-then-delete.
- **The VPC handler of the infra controller** (`ako-infra/avirest/vpc_handler.go`, module `VpcHandler`):
  - the sync that merges the VPC-to-subnet listing into the NSX-T cloud's tier-1 router table and PUTs the cloud only when the table changes;
  - the step that creates one AviInfraSetting per VPC, annotates namespaces, and deletes infra settings that no namespace's VPC uses.
  - The handler has no state. Its methods return the external calls they make, as a sequence of `Effect` values. The proofs cover every order in which Go's map iteration may visit the entries.

`GoStrings` models the parts of Go's `strings` package that this code relies on: `Index`, `Split`, `Join` and `HasPrefix`. `Wrappers` holds the `Option` type.

Go's `nil` results and failed lookups become `Option` values. Error returns become `Option<PoolCacheError>`. Go's unsigned 32-bit arithmetic is written with `bv32`, and `int32` is a newtype. A string the source handles as bytes is a `seq<bv8>`.

`Bkt` keeps the lane below `num_workers` for every non-zero count, since masking with `n - 1` never exceeds `n - 1`. What a power of two adds is coverage: every lane below `n` is some hash's lane (`BktCoversLanes`). With three workers, lane 1 is never chosen (`BktThreeWorkersSkipsLaneOne`). With a count of 0, the mask is all ones and the lane is the hash itself.

## Model

| member | source | states |
|---|---|---|
| ContainerUtils.Hash | vendor/github.com/avinetworks/container-lib/utils/utils.go:129-133 | The loop over the key's bytes returns the FNV-1a hash of the key. |
| ContainerUtils.Fnv1aRecurrence | vendor/github.com/avinetworks/container-lib/utils/utils.go:129-133 | The empty key hashes to the offset basis 2166136261. Each further byte is XORed in, then the result is multiplied by 16777619 modulo 2^32. |
| ContainerUtils.FnvFromConcat | vendor/github.com/avinetworks/container-lib/utils/utils.go:130-132 | Writing a key to the hasher in two chunks gives the same state as writing it at once. |
| ContainerUtils.FnvTestVector | vendor/github.com/avinetworks/container-lib/utils/utils.go:129-133 | The published FNV-1a-32 vector holds: "a" hashes to 0xe40c292c. |
| ContainerUtils.Lane | vendor/github.com/avinetworks/container-lib/utils/utils.go:119 | Masking with count minus one gives a lane below any non-zero count. A count of 1 gives lane 0. A count of 0 gives the hash unchanged. |
| ContainerUtils.Bkt | vendor/github.com/avinetworks/container-lib/utils/utils.go:118-121 | A key's lane is below any non-zero worker count. With one worker every key goes to lane 0. With zero workers the lane is the raw hash. The lane depends only on the key and the count. |
| ContainerUtils.BktCoversLanes | vendor/github.com/avinetworks/container-lib/utils/utils.go:118-121 | With a power-of-two count, every lane below the count is left unchanged by the mask, so every lane is some hash's lane. |
| ContainerUtils.BktThreeWorkersSkipsLaneOne | vendor/github.com/avinetworks/container-lib/utils/utils.go:118-121 | With three workers no hash ever lands in lane 1. |
| ContainerUtils.IsSvcHttp | vendor/github.com/avinetworks/container-lib/utils/utils.go:64-74 | True exactly when the name is "http" or "http-" followed by anything, or the port is 80, 443, 8080 or 8443. |
| ContainerUtils.CrudHashKey | vendor/github.com/avinetworks/container-lib/utils/utils.go:96-116 | Endpoints, Service and Ingress give namespace + ":" + name. Any other type gives ":". |
| ContainerUtils.CrudHashKeyInjective | vendor/github.com/avinetworks/container-lib/utils/utils.go:115 | When namespaces contain no ':', equal keys mean equal namespace and name. |
| ContainerUtils.ExtractNamespaceObjectName | vendor/github.com/avinetworks/container-lib/utils/utils.go:246-252 | A key with exactly one '/' comes back as its two halves, neither containing '/', that rejoin to the key. Any other key gives ("", ""). |
| ContainerUtils.ExtractNamespaceObjectNameRoundTrip | vendor/github.com/avinetworks/container-lib/utils/utils.go:246-252 | Extracting from ns + "/" + name gives back (ns, name) when neither contains '/'. |
| ContainerUtils.RemoveFirstAt | vendor/github.com/avinetworks/container-lib/utils/utils.go:280-283 | When the first occurrence is at index i, removal splices out exactly index i and keeps the rest in order. |
| ContainerUtils.RemoveFirstAbsent | vendor/github.com/avinetworks/container-lib/utils/utils.go:285 | An absent item leaves the slice unchanged. |
| ContainerUtils.RemoveFirstMultiset | vendor/github.com/avinetworks/container-lib/utils/utils.go:279-286 | Exactly one copy of the item goes: the length drops by one exactly when the item was present, and every other element keeps its count. |
| ContainerUtils.Remove | vendor/github.com/avinetworks/container-lib/utils/utils.go:279-286 | The returned slice is the input with the first occurrence removed. When the item is absent, the array and its length are unchanged. When it is present, the shift happens in the caller's backing array, which is one slot longer than the result; its last slot keeps its old value. |
| ContainerUtils.HasElem | vendor/github.com/avinetworks/container-lib/utils/utils.go:254-268 | True exactly when the argument is a slice and some element equals elem. |
| GoStrings.IndexFrom | vendor/github.com/avinetworks/container-lib/utils/utils.go:247 | Go's `strings.Index` from a start position: the result, when there is one, is at or after the start and no later than where the separator still fits. |
| GoStrings.IndexFromAt | vendor/github.com/avinetworks/container-lib/utils/utils.go:247 | A position the search returns holds an occurrence of the separator. |
| GoStrings.IndexFromSpec | vendor/github.com/avinetworks/container-lib/utils/utils.go:247 | The search used by Split finds the first occurrence of the separator at or after the start, or reports that there is none. |
| GoStrings.Split | vendor/github.com/avinetworks/container-lib/utils/utils.go:247 | Go's `strings.Split` with a non-empty separator always returns at least one piece. |
| GoStrings.SplitJoin | vendor/github.com/avinetworks/container-lib/utils/utils.go:247 | Joining the pieces of a split with the same separator gives back the string. |
| GoStrings.SplitPiecesFree | vendor/github.com/avinetworks/container-lib/utils/utils.go:247 | No piece of a split contains the separator. |
| GoStrings.SplitCharCount | vendor/github.com/avinetworks/container-lib/utils/utils.go:247-248 | Splitting on one character gives one more piece than there are occurrences of that character. |
| GoStrings.SplitConcat | ako-infra/avirest/vpc_handler.go:139 | When no occurrence of the separator starts inside a, not even one reaching into the separator after it, a split of a + sep + b is a followed by the pieces of b. |
| PoolRest.DecimalString | pkg/rest/avi_obj_pool.go:33-34 | The checksum is printed as decimal digits that read back as the checksum, with no leading zero: one digit exactly below ten, and a first digit '0' only for zero itself. |
| PoolRest.PoolPath | pkg/rest/avi_obj_pool.go:70 | The pool path is "/api/pool/" followed by exactly the uuid. |
| PoolRest.PoolPathInjective | pkg/rest/avi_obj_pool.go:94-95 | Two pool paths are equal exactly when their uuids are. |
| PoolRest.RestOperations.AviPoolBuild | pkg/rest/avi_obj_pool.go:31-92 | With a cached object: PUT to its uuid path. Otherwise, with a pool cached under {tenant, name}: PUT to that uuid. Otherwise: POST of a "Pool" macro to "/api/macro". Every branch has the operation's tenant and model "Pool". The payload is the wire form of the pool: name, checksum and refs; one server per desired server, in order, with the pool port and the node only when non-empty; exactly one health monitor, UDP for "udp" and TCP otherwise. Neither cache changes. |
| PoolRest.IsWirePool | pkg/rest/avi_obj_pool.go:31-62 | The wire form of a desired pool: name, checksum and refs; one server per desired server, in order, with the pool port and the node only when non-empty; one health monitor, UDP for "udp" and TCP otherwise. `AviPoolBuild` ensures its payload satisfies it. |
| PoolRest.AviPoolDel | pkg/rest/avi_obj_pool.go:94-101 | A DELETE on "/api/pool/" + uuid with the given tenant, model "Pool" and no payload. |
| PoolRest.PoolRecords | pkg/rest/avi_obj_pool.go:109 | Every record of the pool type in the response is processed, and no record of another type. |
| PoolRest.PoolRecordsConcat | pkg/rest/avi_obj_pool.go:109 | Selecting pool records distributes over concatenation, so they are processed in the response's order. |
| PoolRest.PoolEntry | pkg/rest/avi_obj_pool.go:128-157 | An accepted record is cached with its name, uuid and checksum and the operation's tenant. Its service metadata is the record's, or the empty value when the record has none. InvalidData is set exactly when no non-empty last-modified string came back. |
| PoolRest.RestOperations.AviPoolCacheAdd | pkg/rest/avi_obj_pool.go:103-183 | The checksum is demanded only of pool records of a successful response. An errored operation, or one with no response, gives "Errored rest_op". A response with no pool records gives "pool not found". In both cases neither cache changes. Otherwise there is no error, and the caches become the pool records folded in one after another. |
| PoolRest.AcceptedOnly | pkg/rest/avi_obj_pool.go:117-127 | Keeps every record with a name and a uuid, and no other. |
| PoolRest.AcceptedOnlyConcat | pkg/rest/avi_obj_pool.go:116-127 | Keeping accepted records distributes over concatenation, so they keep the response's order. |
| PoolRest.SkippedRecordsInert | pkg/rest/avi_obj_pool.go:116-127 | A record without a name or uuid is skipped without ending the loop: the result is that of the accepted records alone. |
| PoolRest.AddRecord | pkg/rest/avi_obj_pool.go:116-177 | One loop iteration: an accepted record is stored under {tenant, name} and its key collected for vsKey; an existing VS also gets an ingress status update when the record names a namespace; a missing VS is created first. A skipped record changes nothing. Its properties are the lemmas below. |
| PoolRest.AddRecords | pkg/rest/avi_obj_pool.go:116-177 | The loop over the pool records, first to last. Its properties are the lemmas below. |
| PoolRest.AddRecordGrows | pkg/rest/avi_obj_pool.go:159-177 | One record never removes a cached pool, a VS entry or a collected key. |
| PoolRest.AddRecordsCrossRef | pkg/rest/avi_obj_pool.go:159-177 | After the fold every accepted record's key is in the pool cache. When any record was accepted, the VS exists (created if missing) and its collection contains every accepted key. |
| PoolRest.AddRecordsFrame | pkg/rest/avi_obj_pool.go:116-180 | Pool keys that no accepted record names keep their entry, or their absence. Every VS other than vsKey keeps its entry, or its absence. |
| PoolRest.AddRecordsLastWins | pkg/rest/avi_obj_pool.go:159-160 | The entry under a key is built from the last accepted record with that key. |
| PoolRest.AddRecordsKeepsRefsClosed | pkg/rest/avi_obj_pool.go:159-177 | If no VS collection names an uncached pool before the fold, none does after it. |
| PoolRest.RestOperations.AviPoolCacheDel | pkg/rest/avi_obj_pool.go:185-214 | Always returns no error. The caches become the old caches with the pool {tenant, ObjName} deleted, its key removed from vsKey's collection, and its service metadata handed to the status cleanup when it was cached. |
| PoolRest.DelPool | pkg/rest/avi_obj_pool.go:185-211 | The deletion's effect on both caches. Its properties are the lemmas below. |
| PoolRest.DelPoolFrame | pkg/rest/avi_obj_pool.go:185-214 | The deleted key leaves the pool cache and vsKey's collection. Every other pool entry is kept. No VS entry is created or dropped. Every other VS is unchanged. |
| PoolRest.DelPoolKeepsRefsClosed | pkg/rest/avi_obj_pool.go:200-211 | Deleting a pool that no other VS lists keeps every collection inside the pool cache. |
| PoolRest.DelPoolSharedPoolDangles | pkg/rest/avi_obj_pool.go:202-211 | Deleting a pool that another VS also lists leaves that VS holding a key the pool cache no longer has. |
| PoolRest.AddThenDelRestores | pkg/rest/avi_obj_pool.go:185-211 | Deleting the pool one accepted record added restores the pool cache and the VS's collection. A VS entry created by the add stays, with an empty collection. |
| VpcHandler.Table | ako-infra/avirest/vpc_handler.go:81-84 | The cloud's table has a key for every router in the list, and each value is the segment of an entry for that router. |
| VpcHandler.TableLastWins | ako-infra/avirest/vpc_handler.go:82-84 | When a router is listed twice, its last entry decides its segment. |
| VpcHandler.VpcHandlerOps.BuildTable | ako-infra/avirest/vpc_handler.go:81-84 | The loop builds the table of the cloud's router list. |
| VpcHandler.NeedsUpdate | ako-infra/avirest/vpc_handler.go:85-92 | Some listed VPC is missing from the table or mapped to another subnet. `NeedsUpdateIff` states what it means. |
| VpcHandler.NeedsUpdateIff | ako-infra/avirest/vpc_handler.go:85-92 | Some listed VPC is missing or maps to another subnet exactly when merging the listing changes the table. |
| VpcHandler.MergeDone | ako-infra/avirest/vpc_handler.go:85-92 | When no VPCs are pending, the merged table is the old table overridden by the listing, and the flag is set exactly when an update is needed. |
| VpcHandler.VpcHandlerOps.MergeListing | ako-infra/avirest/vpc_handler.go:85-92 | Returns the cloud table with every listed VPC written over it; cloud VPCs that are not listed are kept. The update flag is set exactly when some listed VPC was missing or different. |
| VpcHandler.VpcHandlerOps.AddLrInfo | ako-infra/avirest/vpc_handler.go:98-103 | Stores one router entry at the given index and changes no other slot. |
| VpcHandler.VpcHandlerOps.ListRouters | ako-infra/avirest/vpc_handler.go:97-108 | The new list has the map's size: one entry per key, no router twice, each entry carrying its key's subnet. |
| VpcHandler.ListedCovers | ako-infra/avirest/vpc_handler.go:104-108 | A list filled with one distinct key per slot, covering every key, lists the map. |
| VpcHandler.TableOfListing | ako-infra/avirest/vpc_handler.go:97-109 | Reading the written list back as a table gives the merged map, whatever the list's order. |
| VpcHandler.SyncConverges | ako-infra/avirest/vpc_handler.go:85-109 | After the cloud is written, the next sync with the same listing finds nothing to update. |
| VpcHandler.UsesOverlay | ako-infra/avirest/vpc_handler.go:65-73 | The sync goes past its guards: NSX-T configuration and data-network settings present, no VLAN segments. |
| VpcHandler.HasManualConfig | ako-infra/avirest/vpc_handler.go:75-78 | The tier-1 segment settings hold a manual configuration. |
| VpcHandler.WithRouters | ako-infra/avirest/vpc_handler.go:109-110 | The written cloud has the new router list and VPC mode on. Its uuid and the rest of the object are unchanged. |
| VpcHandler.VpcHandlerOps.SyncLSLRNetwork | ako-infra/avirest/vpc_handler.go:51-123 | No effect at all in each of these cases: listing fails, the cloud is missing, NSX-T or data-network settings are absent, VLAN segments are used, or no manual tier-1 configuration exists. Otherwise, when the listing is non-empty and the table needs an update, the run starts with one PUT to "/api/cloud/" + uuid; that PUT carries the cloud with the merged table as its router list and VPC mode on, and the infra-setting step follows it. In every other case only the infra-setting step runs. In both cases the infra-setting step is an ordered run, as for `CreateInfraSettingAndAnnotateNS`. |
| VpcHandler.InfraSettingName | ako-infra/avirest/vpc_handler.go:139-140 | The last piece of the VPC path split on "/vpcs/". `InfraSettingNameIsLastSegment` states what it is. |
| VpcHandler.HasProject | ako-infra/avirest/vpc_handler.go:139-142 | The piece before "/vpcs/" splits on "/projects/" into at least two pieces, so line 142's index is in range. `HasProjectIff` states what it means. |
| VpcHandler.ProjectOf | ako-infra/avirest/vpc_handler.go:142 | The second piece of that split. `ProjectOfFollowsProjects` states what it is. |
| GoStrings.SplitFirst | ako-infra/avirest/vpc_handler.go:139-142 | The first piece of a split starts the string; it is the whole string when the separator is absent, and otherwise ends where the first separator starts. |
| GoStrings.SplitManyIffContains | ako-infra/avirest/vpc_handler.go:139-142 | A split gives two or more pieces exactly when the string contains the separator. |
| GoStrings.SplitSecond | ako-infra/avirest/vpc_handler.go:142 | The second piece of a split sits right after the first separator and ends at the end of the string or at the next separator. |
| GoStrings.SplitLast | ako-infra/avirest/vpc_handler.go:139-140 | The last piece of a split ends the string and does not contain the separator; it is the whole string when there is one piece, and is otherwise preceded by a separator. |
| GoStrings.JoinSecond | vendor/github.com/avinetworks/container-lib/utils/utils.go:247 | In a join of two or more pieces, the first separator is followed by the second piece and then by the end or another separator. |
| GoStrings.JoinLast | vendor/github.com/avinetworks/container-lib/utils/utils.go:247 | In a join, the last piece ends the string and, with two or more pieces, a separator precedes it. |
| VpcHandler.InfraSettingNameIsLastSegment | ako-infra/avirest/vpc_handler.go:139-140 | The infra-setting name is a suffix of the path that contains no "/vpcs/" and directly follows an occurrence of it (the piece after Split's last cut, which scans from the left at non-overlapping occurrences), or the whole path when it has none. |
| VpcHandler.HasProjectIff | ako-infra/avirest/vpc_handler.go:139-142 | The part before the first "/vpcs/" starts the path, and a project can be read from it exactly when it contains "/projects/". |
| VpcHandler.ProjectOfFollowsProjects | ako-infra/avirest/vpc_handler.go:142 | The project is the text right after the first "/projects/" in the part before "/vpcs/", up to the end of that part or the next "/projects/", and contains no "/projects/". |
| VpcHandler.VpcPathRoundTrip | ako-infra/avirest/vpc_handler.go:139-142 | For `<org>/projects/<project>/vpcs/<vpc>`, the infra setting is named `<vpc>` and the tenant is `<project>`. |
| VpcHandler.VpcHandlerOps.NameSet | ako-infra/avirest/vpc_handler.go:132-135 | The stale set starts as the set of listed infra-setting names. |
| VpcHandler.StaleStep | ako-infra/avirest/vpc_handler.go:141 | Handling a namespace removes exactly its VPC's name from the stale set. |
| VpcHandler.StaleSet | ako-infra/avirest/vpc_handler.go:132-141 | A name is stale exactly when it is listed and no namespace's VPC is named after it. |
| VpcHandler.NsEffects | ako-infra/avirest/vpc_handler.go:139-153 | A namespace's calls: first create or update its VPC's infra setting; then, exactly when that creation succeeds, annotate the namespace with the setting; last, annotate it with the VPC's project as tenant. Two calls when creation fails, three otherwise, and never a delete or an annotation removal. The outcome is the namespace's own: `createFails` names the namespaces whose create-or-update call fails. |
| VpcHandler.SharedSettingSeparateOutcomes | ako-infra/avirest/vpc_handler.go:144-153 | Two namespaces whose VPCs give the same infra setting can get different creation outcomes: when only the first one's call fails, only the second is annotated with the setting. |
| VpcHandler.VpcHandlerOps.NamespaceCalls | ako-infra/avirest/vpc_handler.go:139-153 | The loop body returns the infra-setting name the stale set loses and exactly the calls `NsEffects` specifies for the namespace. |
| VpcHandler.VpcHandlerOps.AnnotateNamespaces | ako-infra/avirest/vpc_handler.go:137-154 | Visits each namespace exactly once, in some order, making its calls. It returns the listed names that no VPC is named after. |
| VpcHandler.PerNamespaceComplete | ako-infra/avirest/vpc_handler.go:138-154 | Every visited namespace's calls are made. |
| VpcHandler.PerNamespaceSound | ako-infra/avirest/vpc_handler.go:138-154 | Every call made belongs to some visited namespace. |
| VpcHandler.VpcHandlerOps.DeleteStale | ako-infra/avirest/vpc_handler.go:156-165 | Every stale name is deleted exactly once, and only stale names are. |
| VpcHandler.InfraRunOf | ako-infra/avirest/vpc_handler.go:137-168 | The namespace calls in any order, followed by the deletes of the stale names and then the annotation removal, form a complete and sound infra-setting run. |
| VpcHandler.PerNamespacePrefix | ako-infra/avirest/vpc_handler.go:137-154 | The calls of the first namespaces visited are a prefix of the calls of all of them. |
| VpcHandler.PerNamespaceUpTo | ako-infra/avirest/vpc_handler.go:137-154 | Visiting one more namespace appends exactly its calls. |
| VpcHandler.PerNamespaceBlock | ako-infra/avirest/vpc_handler.go:137-154 | Each namespace's calls form one contiguous block of the run, right after the calls of the namespaces visited before it. |
| VpcHandler.OrderedInfraRunIsInfraRun | ako-infra/avirest/vpc_handler.go:137-168 | A run made of the namespaces' calls in one visiting order, then one delete per stale name, then the annotation removal, makes every call the step must make and no other. |
| VpcHandler.VpcHandlerOps.CreateInfraSettingAndAnnotateNS | ako-infra/avirest/vpc_handler.go:125-169 | When listing the settings fails, nothing happens. Otherwise the run has a visiting order that covers each namespace once: first each namespace's calls, as one block per namespace in that order; then each stale setting deleted exactly once and nothing else deleted; last the removal of the stale annotations. So every namespace's calls are made and nothing else is done. |
| VpcHandler.InfraRunKeepsLiveSettings | ako-infra/avirest/vpc_handler.go:132-168 | A setting that some namespace's VPC is named after is neither deleted nor stripped from namespaces. |

## Left out

- Logging (`AviLog`, `spew`) is not modelled.
- JSON marshalling and unmarshalling are not modelled. The pool's service-metadata JSON is a given string. A response record's `service_metadata` is an optional, already decoded value, with the zero value when absent.
- `RestRespArrToObjByType` is not part of this model. It is taken to select the records whose type is "pool", and an empty selection is "pool not found".
- `AddToPoolKeyCollection` and `RemoveFromPoolKeyCollection` are not part of this model. The collection is a set, so duplicates and order are not captured.
- `UpdateIngressStatus` and `DeleteIngressStatus` are Kubernetes status writes. They are recorded as entries in a status log and not executed.
- Cache lookups whose type assertion fails (`vs_cache.(*avicache.AviVsCache)` returning false) are not modelled. The caches only ever hold values of the asserted types.
- Package globals (`utils.CtrlVersion` and its `init` from the environment, `utils.CloudName`, `OSHIFT_K8S_CLOUD_CONNECTOR` and the default health monitors) are the `Settings` parameter. The `lib.GetTenant()` result is the `tenant` parameter of the VPC sync.
- External calls in the VPC handler are not modelled as behaviour. These are the VPC and CR listers, the cloud cache lookup, `executeRestOp`, and the `lib` create, annotate, delete and remove calls. Listers and lookups become parameters. Calls become `Effect` values. `createFails` names the namespaces whose own create-or-update call fails; each namespace's goroutine makes its own call, so namespaces sharing a setting can differ. Delete failures are only logged by the source and change nothing.
- The goroutine and WaitGroup fan-out (lines 144-153 and 156-165 of `ako-infra/avirest/vpc_handler.go`) is sequential in this model, so interleavings of the per-namespace calls and the deletes are not captured. The ordered run the model proves is one admissible interleaving: in the source, calls of different namespaces and the deletes may interleave, and only the annotation removal after `wg.Wait()` is ordered. Every order of Go's map iteration is covered, because each loop picks an arbitrary remaining key. The join is kept: the annotation removal comes after all other calls.
- `AddNetworkInfoEventHandler`, `NewLRLSFullSyncWorker`, informers, `sync.Once` singletons, `IsV4`, `AviUrlToObjType`, `DeepCopy`, `Stringify`, `ObjKey` and `RandomSeq` are not modelled. They are cluster plumbing, timers, or thin wrappers over the standard library and randomness.
- Removing stale VPCs from the cloud's router list is not modelled; the source leaves it as a TODO. The model keeps the source's behaviour: unlisted VPCs stay in the table.
- Go's `strings.Split` with an empty separator is not modelled; the code never splits on one.
- ContainerUtils.CrudHashKey: requires the object's kind to match `obj_type` for the three known types. The source's type assertion panics on a mismatch.
- PoolRest.RestOperations.AviPoolCacheAdd: requires every pool record with a name and a uuid to carry a `cloud_config_cksum`. The unchecked assertion at line 128 panics otherwise.
- VpcHandler.VpcHandlerOps.SyncLSLRNetwork: requires `Tier1SegmentConfig` to be present when the sync reads it, because line 75 dereferences it without a nil check. It also requires, once the sync is past its guards and the CR listing succeeds, every namespace's VPC path to name a project, because line 142 indexes past the end of the split otherwise.
- VpcHandler.VpcHandlerOps.CreateInfraSettingAndAnnotateNS: requires every namespace's VPC path to name a project, for the same reason (line 142).
- VpcHandler.VpcHandlerOps.SyncLSLRNetwork: the PUT's outcome is ignored, as in the source. The cloud cache is not updated by the model.
- ContainerUtils.HasElem: compares elements of one static element type with Dafny equality. Go's `==` on interface values at line 261 is false when the dynamic types differ, and it panics when the dynamic type is not comparable (a slice, map or function); neither case is modelled.
- ContainerUtils.Bkt: takes the key as bytes. The conversion of a `CrudHashKey` string to bytes (`[]byte(key)`, UTF-8) is not modelled, so no lemma connects a key string to its lane.
- VpcHandler.VpcHandlerOps.SyncLSLRNetwork: the router entries' `Tier1LrID` and `SegmentID` (dereferenced at line 83) and the cloud's `UUID` (dereferenced at line 111) are plain strings, so the nil-pointer panics on those lines are not modelled.
- PoolRest.RestOperations.AviPoolCacheAdd: a `service_metadata` value that is present but not a string panics at line 132; a record's metadata is already decoded, so that panic, and a JSON decode failure that leaves the zero value, are not modelled.
