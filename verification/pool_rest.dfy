/**
 * The pool half of the REST layer (`avi_obj_pool.go`): building the create,
 * update and delete operations for a pool, and folding the controller's
 * responses into the pool cache and into the owning virtual service's
 * pool-key collection.
 */
module PoolRest {
  import opened Wrappers
  import opened GoStrings
  import opened ContainerUtils

  /** A cache key: tenant (or namespace) and object name. */
  datatype NamespaceName = NamespaceName(namespace: string, name: string)

  datatype RestMethod = Post | Put | Delete

  /**
   * Values fixed outside the modelled files: the controller version, the cloud
   * name, the `created_by` marker and the names of the default UDP and TCP
   * health monitors.
   */
  datatype Settings = Settings(
    ctrlVersion: string,
    cloudName: string,
    createdBy: string,
    defaultUdpHm: string,
    defaultTcpHm: string)

  /** One backend of a desired pool: its address and, possibly empty, its node name. */
  datatype PoolServer = PoolServer(ip: string, serverNode: string)

  /**
   * The desired pool, as the graph layer hands it over. `serviceMetadataJson` is
   * the JSON encoding of the node's service metadata.
   */
  datatype AviPoolNode = AviPoolNode(
    name: string,
    tenant: string,
    cloudConfigCksum: nat,
    vrfContext: string,
    serviceMetadataJson: string,
    servers: seq<PoolServer>,
    port: int32,
    protocol: string)

  /** A server entry of the wire-format pool. */
  datatype AviServer = AviServer(ip: string, port: int32, serverNode: Option<string>)

  /** The wire-format pool object. */
  datatype Pool = Pool(
    name: string,
    cloudConfigCksum: string,
    createdBy: string,
    tenantRef: string,
    cloudRef: string,
    serviceMetadata: string,
    vrfRef: string,
    servers: seq<AviServer>,
    healthMonitorRefs: seq<string>)

  /** The payload of a REST operation. */
  datatype RestObj = PoolObj(pool: Pool) | MacroObj(modelName: string, data: Pool) | NoObj

  /** Decoded `service_metadata` of a response record; only the namespace is looked at. */
  datatype ServiceMetadataObj = ServiceMetadataObj(namespace: string, details: string)

  /** The zero value Go leaves in place when a record carries no service metadata. */
  const NoServiceMetadata := ServiceMetadataObj("", "")

  /**
   * One record of a controller response. A field that is missing, or not a
   * string, is `None`.
   */
  datatype ResponseRecord = ResponseRecord(
    objType: string,
    name: Option<string>,
    uuid: Option<string>,
    cloudConfigCksum: Option<string>,
    serviceMetadata: Option<ServiceMetadataObj>,
    lastModified: Option<string>)

  /** A REST operation; `err` and `response` are filled in once it has been executed. */
  datatype RestOp = RestOp(
    path: string,
    verb: RestMethod,
    obj: RestObj,
    tenant: string,
    model: string,
    version: string,
    objName: string,
    err: Option<string>,
    response: Option<seq<ResponseRecord>>)

  /** A cached pool. */
  datatype AviPoolCache = AviPoolCache(
    name: string,
    tenant: string,
    uuid: string,
    cloudConfigCksum: string,
    serviceMetadataObj: ServiceMetadataObj,
    lastModified: string,
    invalidData: bool)

  /** A cached virtual service, reduced to the keys of the pools it owns. */
  datatype AviVsCache = AviVsCache(poolKeyCollection: set<NamespaceName>)

  /** Ingress status writes issued while the caches are updated. */
  datatype StatusUpdate =
    | UpdateIngressStatus(vsKey: NamespaceName, svcMetadata: ServiceMetadataObj)
    | DeleteIngressStatus(svcMetadata: ServiceMetadataObj)

  /** Everything the cache operations change: both caches and the status writes made so far. */
  datatype CacheState = CacheState(
    pools: map<NamespaceName, AviPoolCache>,
    vss: map<NamespaceName, AviVsCache>,
    status: seq<StatusUpdate>)

  datatype PoolCacheError = ErroredRestOp | PoolNotFound

  // ---------------------------------------------------------------------------
  // Building operations
  // ---------------------------------------------------------------------------

  /** The decimal digit for `d`. */
  function Digit(d: nat): char
    requires d < 10
  {
    "0123456789"[d]
  }

  predicate IsDigits(s: string) {
    forall i | 0 <= i < |s| :: '0' <= s[i] <= '9'
  }

  /** The number a string of decimal digits spells. */
  function DecimalValue(s: string): nat
    requires IsDigits(s)
  {
    if s == [] then 0
    else DecimalValue(s[..|s| - 1]) * 10 + (s[|s| - 1] as int - '0' as int)
  }

  /**
   * `fmt.Sprint` of a non-negative checksum: its decimal digits, which read back
   * as the number, with no leading zero (a single digit exactly below ten).
   */
  function DecimalString(n: nat): (s: string)
    ensures |s| >= 1 && IsDigits(s)
    ensures DecimalValue(s) == n
    ensures |s| == 1 <==> n < 10
    ensures s[0] == '0' <==> n == 0
    ensures |s| > 1 ==> s[0] != '0'
    decreases n
  {
    if n < 10 then [Digit(n)]
    else
      var prefix := DecimalString(n / 10);
      var s := prefix + [Digit(n % 10)];
      assert s[..|s| - 1] == prefix;
      assert s[0] == prefix[0];
      s
  }

  /** The REST path of a pool object. */
  function PoolPath(uuid: string): (path: string)
    ensures HasPrefix(path, "/api/pool/") && path[|"/api/pool/"|..] == uuid
  {
    "/api/pool/" + uuid
  }

  /** A PUT and a DELETE address the same pool exactly when they carry the same uuid. */
  lemma PoolPathInjective(u1: string, u2: string)
    ensures PoolPath(u1) == PoolPath(u2) <==> u1 == u2
  {
    if PoolPath(u1) == PoolPath(u2) {
      assert u1 == PoolPath(u1)[10..] == PoolPath(u2)[10..] == u2;
    }
  }

  function HealthMonitorRef(name: string): string {
    "/api/healthmonitor/?name=" + name
  }

  /** The cache key of a desired pool. */
  function PoolKey(meta: AviPoolNode): NamespaceName {
    NamespaceName(meta.tenant, meta.name)
  }

  /** The pool carried by an operation's payload, whichever form the payload takes. */
  function PayloadPool(obj: RestObj): Option<Pool> {
    match obj
    case PoolObj(p) => Some(p)
    case MacroObj(_, p) => Some(p)
    case NoObj => None
  }

  /**
   * `p` is the wire form of the desired pool `meta`: its name, checksum and
   * references, one server per desired server (same order, the pool's port,
   * the node name only when there is one), and exactly one health monitor,
   * the UDP default for "udp" and the TCP default for every other protocol.
   */
  ghost predicate IsWirePool(p: Pool, meta: AviPoolNode, settings: Settings) {
    && p.name == meta.name
    && p.cloudConfigCksum == DecimalString(meta.cloudConfigCksum)
    && p.createdBy == settings.createdBy
    && p.tenantRef == "/api/tenant/?name=" + meta.tenant
    && p.cloudRef == "/api/cloud?name=" + settings.cloudName
    && p.serviceMetadata == meta.serviceMetadataJson
    && p.vrfRef == "/api/vrfcontext?name=" + meta.vrfContext
    && |p.servers| == |meta.servers|
    && (forall i | 0 <= i < |p.servers| ::
          && p.servers[i].ip == meta.servers[i].ip
          && p.servers[i].port == meta.port
          && (p.servers[i].serverNode.Some? <==> meta.servers[i].serverNode != "")
          && (p.servers[i].serverNode.Some? ==> p.servers[i].serverNode.value == meta.servers[i].serverNode))
    && p.healthMonitorRefs
       == [HealthMonitorRef(if meta.protocol == "udp" then settings.defaultUdpHm else settings.defaultTcpHm)]
  }

  /** `AviPoolDel(uuid, tenant, key)`: a DELETE of the pool with that uuid. */
  function AviPoolDel(uuid: string, tenant: string, settings: Settings): (op: RestOp)
    ensures op.verb == Delete && op.path == PoolPath(uuid)
    ensures op.tenant == tenant && op.model == "Pool" && op.version == settings.ctrlVersion
    ensures op.obj == NoObj && op.err.None? && op.response.None?
  {
    RestOp(PoolPath(uuid), Delete, NoObj, tenant, "Pool", settings.ctrlVersion, "", None, None)
  }

  // ---------------------------------------------------------------------------
  // Folding responses into the caches
  // ---------------------------------------------------------------------------

  /**
   * Records of the pool type among the response's records (`RestRespArrToObjByType`):
   * every one of them and nothing else, in the response's order (`PoolRecordsConcat`).
   */
  function PoolRecords(recs: seq<ResponseRecord>): (r: seq<ResponseRecord>)
    ensures forall x | x in r :: x in recs && x.objType == "pool"
    ensures forall x | x in recs && x.objType == "pool" :: x in r
    ensures |r| <= |recs|
  {
    if recs == [] then []
    else
      assert recs == recs[..|recs| - 1] + [recs[|recs| - 1]];
      if recs[|recs| - 1].objType == "pool" then PoolRecords(recs[..|recs| - 1]) + [recs[|recs| - 1]]
      else PoolRecords(recs[..|recs| - 1])
  }

  /** Filtering distributes over concatenation, so the pool records keep their relative order. */
  lemma {:induction false} PoolRecordsConcat(a: seq<ResponseRecord>, b: seq<ResponseRecord>)
    ensures PoolRecords(a + b) == PoolRecords(a) + PoolRecords(b)
    decreases |b|
  {
    if b != [] {
      var b' := b[..|b| - 1];
      assert (a + b)[..|a + b| - 1] == a + b';
      PoolRecordsConcat(a, b');
    } else {
      assert a + b == a;
    }
  }

  /** A record is cached only when it carries a string name and a string uuid. */
  predicate Accepted(rec: ResponseRecord) {
    rec.name.Some? && rec.uuid.Some?
  }

  /** The source reads the checksum of an accepted record without checking it is there. */
  predicate CksumPresent(rec: ResponseRecord) {
    Accepted(rec) ==> rec.cloudConfigCksum.Some?
  }

  /** The cache key an accepted record is stored under. */
  function RecordKey(rec: ResponseRecord, tenant: string): NamespaceName
    requires Accepted(rec)
  {
    NamespaceName(tenant, rec.name.value)
  }

  /**
   * The cache entry for an accepted record: its fields, the operation's tenant,
   * and the invalid-data flag set exactly when no non-empty last-modified
   * string came back.
   */
  function PoolEntry(rec: ResponseRecord, tenant: string): (e: AviPoolCache)
    requires Accepted(rec) && CksumPresent(rec)
    ensures e.name == rec.name.value && e.tenant == tenant && e.uuid == rec.uuid.value
    ensures e.cloudConfigCksum == rec.cloudConfigCksum.value
    ensures e.invalidData <==> rec.lastModified.None? || rec.lastModified.value == ""
    ensures e.lastModified == if rec.lastModified.Some? then rec.lastModified.value else ""
    ensures e.serviceMetadataObj == if rec.serviceMetadata.Some? then rec.serviceMetadata.value else NoServiceMetadata
  {
    var svc := if rec.serviceMetadata.Some? then rec.serviceMetadata.value else NoServiceMetadata;
    var lastModified := if rec.lastModified.Some? then rec.lastModified.value else "";
    AviPoolCache(rec.name.value, tenant, rec.uuid.value, rec.cloudConfigCksum.value, svc,
                 lastModified, lastModified == "")
  }

  /**
   * One step of `AviPoolCacheAdd`: an accepted record is stored under
   * {tenant, name} and its key added to the collection of `vsKey`; an existing
   * VS entry also triggers an ingress status update when the record names a
   * namespace, a missing one is created first. A skipped record changes nothing.
   */
  function AddRecord(st: CacheState, rec: ResponseRecord, tenant: string, vsKey: NamespaceName): CacheState
    requires CksumPresent(rec)
  {
    if !Accepted(rec) then st
    else
      var e := PoolEntry(rec, tenant);
      var k := RecordKey(rec, tenant);
      var pools := st.pools[k := e];
      if vsKey in st.vss then
        var keys := st.vss[vsKey].poolKeyCollection + {k};
        var status :=
          if e.serviceMetadataObj.namespace != "" then st.status + [UpdateIngressStatus(vsKey, e.serviceMetadataObj)]
          else st.status;
        CacheState(pools, st.vss[vsKey := AviVsCache(keys)], status)
      else
        CacheState(pools, st.vss[vsKey := AviVsCache({k})], st.status)
  }

  /** The records folded in, first to last. */
  function AddRecords(st: CacheState, recs: seq<ResponseRecord>, tenant: string, vsKey: NamespaceName): CacheState
    requires forall r | r in recs :: CksumPresent(r)
  {
    if recs == [] then st
    else AddRecord(AddRecords(st, recs[..|recs| - 1], tenant, vsKey), recs[|recs| - 1], tenant, vsKey)
  }

  /** Every VS's collection names only cached pools: no dangling pool reference. */
  ghost predicate RefsClosed(st: CacheState) {
    forall v | v in st.vss :: st.vss[v].poolKeyCollection <= st.pools.Keys
  }

  /** The cache keys of the accepted records. */
  function AcceptedKeys(recs: seq<ResponseRecord>, tenant: string): set<NamespaceName> {
    set i | 0 <= i < |recs| && Accepted(recs[i]) :: RecordKey(recs[i], tenant)
  }

  lemma AcceptedKeysSnoc(recs: seq<ResponseRecord>, tenant: string)
    requires recs != []
    ensures AcceptedKeys(recs, tenant)
            == AcceptedKeys(recs[..|recs| - 1], tenant)
               + (if Accepted(recs[|recs| - 1]) then {RecordKey(recs[|recs| - 1], tenant)} else {})
  {
    var init := recs[..|recs| - 1];
    forall k | k in AcceptedKeys(recs, tenant)
      ensures k in AcceptedKeys(init, tenant) || (Accepted(recs[|recs| - 1]) && k == RecordKey(recs[|recs| - 1], tenant))
    {
      var i :| 0 <= i < |recs| && Accepted(recs[i]) && RecordKey(recs[i], tenant) == k;
      if i < |init| {
        assert init[i] == recs[i];
      }
    }
    forall k | k in AcceptedKeys(init, tenant)
      ensures k in AcceptedKeys(recs, tenant)
    {
      var i :| 0 <= i < |init| && Accepted(init[i]) && RecordKey(init[i], tenant) == k;
      assert recs[i] == init[i];
    }
  }

  /** What a step keeps: cached keys, VS entries and collected keys only grow. */
  lemma AddRecordGrows(st: CacheState, rec: ResponseRecord, tenant: string, vsKey: NamespaceName)
    requires CksumPresent(rec)
    ensures st.pools.Keys <= AddRecord(st, rec, tenant, vsKey).pools.Keys
    ensures forall v | v in st.vss :: v in AddRecord(st, rec, tenant, vsKey).vss
              && st.vss[v].poolKeyCollection <= AddRecord(st, rec, tenant, vsKey).vss[v].poolKeyCollection
  {
  }

  /**
   * The cross-reference after `AviPoolCacheAdd`: every accepted record's pool is
   * cached and listed in the collection of `vsKey`, which exists.
   */
  lemma {:induction false} AddRecordsCrossRef(st: CacheState, recs: seq<ResponseRecord>, tenant: string, vsKey: NamespaceName)
    requires forall r | r in recs :: CksumPresent(r)
    ensures AcceptedKeys(recs, tenant) <= AddRecords(st, recs, tenant, vsKey).pools.Keys
    ensures AcceptedKeys(recs, tenant) != {} ==>
              && vsKey in AddRecords(st, recs, tenant, vsKey).vss
              && AcceptedKeys(recs, tenant) <= AddRecords(st, recs, tenant, vsKey).vss[vsKey].poolKeyCollection
  {
    if recs != [] {
      var init := recs[..|recs| - 1];
      var last := recs[|recs| - 1];
      AcceptedKeysSnoc(recs, tenant);
      AddRecordsCrossRef(st, init, tenant, vsKey);
      AddRecordGrows(AddRecords(st, init, tenant, vsKey), last, tenant, vsKey);
    }
  }

  /**
   * What `AviPoolCacheAdd` leaves alone: a pool key that no accepted record
   * names keeps its entry (or its absence), and every VS other than `vsKey`
   * keeps its entry (or its absence).
   */
  lemma {:induction false} AddRecordsFrame(st: CacheState, recs: seq<ResponseRecord>, tenant: string, vsKey: NamespaceName)
    requires forall r | r in recs :: CksumPresent(r)
    ensures forall k | k !in AcceptedKeys(recs, tenant) ::
              (k in AddRecords(st, recs, tenant, vsKey).pools <==> k in st.pools)
              && (k in st.pools ==> AddRecords(st, recs, tenant, vsKey).pools[k] == st.pools[k])
    ensures forall v | v != vsKey ::
              (v in AddRecords(st, recs, tenant, vsKey).vss <==> v in st.vss)
              && (v in st.vss ==> AddRecords(st, recs, tenant, vsKey).vss[v] == st.vss[v])
  {
    if recs != [] {
      var init := recs[..|recs| - 1];
      AddRecordsFrame(st, init, tenant, vsKey);
      AcceptedKeysSnoc(recs, tenant);
    }
  }

  /**
   * The entry left under a pool key is built from the last accepted record
   * carrying that key: later records overwrite earlier ones.
   */
  lemma {:induction false} AddRecordsLastWins(st: CacheState, recs: seq<ResponseRecord>, tenant: string, vsKey: NamespaceName, i: nat)
    requires forall r | r in recs :: CksumPresent(r)
    requires i < |recs| && Accepted(recs[i])
    requires forall j | i < j < |recs| && Accepted(recs[j]) :: RecordKey(recs[j], tenant) != RecordKey(recs[i], tenant)
    ensures RecordKey(recs[i], tenant) in AddRecords(st, recs, tenant, vsKey).pools
    ensures AddRecords(st, recs, tenant, vsKey).pools[RecordKey(recs[i], tenant)] == PoolEntry(recs[i], tenant)
  {
    var init := recs[..|recs| - 1];
    if i < |recs| - 1 {
      assert init[i] == recs[i];
      forall j | i < j < |init| && Accepted(init[j])
        ensures RecordKey(init[j], tenant) != RecordKey(init[i], tenant)
      {
        assert init[j] == recs[j];
      }
      AddRecordsLastWins(st, init, tenant, vsKey, i);
    }
  }

  /** `AviPoolCacheAdd` keeps every VS's collection inside the pool cache. */
  lemma {:induction false} AddRecordsKeepsRefsClosed(st: CacheState, recs: seq<ResponseRecord>, tenant: string, vsKey: NamespaceName)
    requires forall r | r in recs :: CksumPresent(r)
    requires RefsClosed(st)
    ensures RefsClosed(AddRecords(st, recs, tenant, vsKey))
  {
    if recs != [] {
      AddRecordsKeepsRefsClosed(st, recs[..|recs| - 1], tenant, vsKey);
    }
  }

  /** The accepted records: every one of them and nothing else, in order (`AcceptedOnlyConcat`). */
  function AcceptedOnly(recs: seq<ResponseRecord>): (r: seq<ResponseRecord>)
    ensures forall x | x in r :: x in recs && Accepted(x)
    ensures forall x | x in recs && Accepted(x) :: x in r
    ensures |r| <= |recs|
  {
    if recs == [] then []
    else
      assert recs == recs[..|recs| - 1] + [recs[|recs| - 1]];
      if Accepted(recs[|recs| - 1]) then AcceptedOnly(recs[..|recs| - 1]) + [recs[|recs| - 1]]
      else AcceptedOnly(recs[..|recs| - 1])
  }

  /** Filtering distributes over concatenation, so the accepted records keep their relative order. */
  lemma {:induction false} AcceptedOnlyConcat(a: seq<ResponseRecord>, b: seq<ResponseRecord>)
    ensures AcceptedOnly(a + b) == AcceptedOnly(a) + AcceptedOnly(b)
    decreases |b|
  {
    if b != [] {
      var b' := b[..|b| - 1];
      assert (a + b)[..|a + b| - 1] == a + b';
      AcceptedOnlyConcat(a, b');
    } else {
      assert a + b == a;
    }
  }

  /** A skipped record does not stop the loop: the outcome is that of the accepted records alone. */
  lemma {:induction false} SkippedRecordsInert(st: CacheState, recs: seq<ResponseRecord>, tenant: string, vsKey: NamespaceName)
    requires forall r | r in recs :: CksumPresent(r)
    ensures AddRecords(st, recs, tenant, vsKey) == AddRecords(st, AcceptedOnly(recs), tenant, vsKey)
  {
    if recs != [] {
      var init := recs[..|recs| - 1];
      var last := recs[|recs| - 1];
      SkippedRecordsInert(st, init, tenant, vsKey);
      if Accepted(last) {
        var acc := AcceptedOnly(init) + [last];
        assert acc[..|acc| - 1] == AcceptedOnly(init);
      }
    }
  }

  /**
   * `AviPoolCacheDel`'s effect: the pool entry under {tenant, name} goes, its key
   * leaves the collection of `vsKey` if that VS is cached (none is created), and
   * a cached entry's service metadata is handed to the ingress status cleanup.
   */
  function DelPool(st: CacheState, tenant: string, objName: string, vsKey: NamespaceName): CacheState {
    var k := NamespaceName(tenant, objName);
    var status :=
      if k in st.pools then st.status + [DeleteIngressStatus(st.pools[k].serviceMetadataObj)] else st.status;
    var vss :=
      if vsKey in st.vss then st.vss[vsKey := AviVsCache(st.vss[vsKey].poolKeyCollection - {k})] else st.vss;
    CacheState(st.pools - {k}, vss, status)
  }

  /**
   * What `AviPoolCacheDel` leaves alone: every other pool entry, the set of
   * cached VSs (none is created or dropped) and every VS other than `vsKey`;
   * the deleted key is gone from the pool cache and from `vsKey`'s collection.
   */
  lemma DelPoolFrame(st: CacheState, tenant: string, objName: string, vsKey: NamespaceName)
    ensures NamespaceName(tenant, objName) !in DelPool(st, tenant, objName, vsKey).pools
    ensures forall k | k != NamespaceName(tenant, objName) ::
              (k in DelPool(st, tenant, objName, vsKey).pools <==> k in st.pools)
              && (k in st.pools ==> DelPool(st, tenant, objName, vsKey).pools[k] == st.pools[k])
    ensures DelPool(st, tenant, objName, vsKey).vss.Keys == st.vss.Keys
    ensures forall v | v in st.vss && v != vsKey :: DelPool(st, tenant, objName, vsKey).vss[v] == st.vss[v]
    ensures vsKey in st.vss ==>
              DelPool(st, tenant, objName, vsKey).vss[vsKey].poolKeyCollection
              == st.vss[vsKey].poolKeyCollection - {NamespaceName(tenant, objName)}
  {
  }

  /**
   * Deleting a pool that no other VS lists keeps every collection inside the
   * pool cache, and touches no other pool entry.
   */
  lemma DelPoolKeepsRefsClosed(st: CacheState, tenant: string, objName: string, vsKey: NamespaceName)
    requires RefsClosed(st)
    requires forall v | v in st.vss && v != vsKey :: NamespaceName(tenant, objName) !in st.vss[v].poolKeyCollection
    ensures RefsClosed(DelPool(st, tenant, objName, vsKey))
    ensures forall k | k in st.pools && k != NamespaceName(tenant, objName) ::
              k in DelPool(st, tenant, objName, vsKey).pools && DelPool(st, tenant, objName, vsKey).pools[k] == st.pools[k]
  {
    var after := DelPool(st, tenant, objName, vsKey);
    forall v | v in after.vss
      ensures after.vss[v].poolKeyCollection <= after.pools.Keys
    {
      assert v in st.vss;
    }
  }

  /**
   * Only the VS named in the delete is updated: any other VS that lists the
   * same pool is left holding a key the pool cache no longer has.
   */
  lemma DelPoolSharedPoolDangles(st: CacheState, tenant: string, objName: string, vsKey: NamespaceName, other: NamespaceName)
    requires other in st.vss && other != vsKey
    requires NamespaceName(tenant, objName) in st.vss[other].poolKeyCollection
    ensures !RefsClosed(DelPool(st, tenant, objName, vsKey))
  {
    var after := DelPool(st, tenant, objName, vsKey);
    assert other in after.vss;
    assert NamespaceName(tenant, objName) in after.vss[other].poolKeyCollection;
    assert NamespaceName(tenant, objName) !in after.pools.Keys;
  }

  /**
   * Deleting what one accepted record added restores the pool cache and the
   * VS's collection; a VS entry created by the add stays, with an empty collection.
   */
  lemma AddThenDelRestores(st: CacheState, rec: ResponseRecord, tenant: string, vsKey: NamespaceName)
    requires Accepted(rec) && CksumPresent(rec)
    requires RecordKey(rec, tenant) !in st.pools
    requires vsKey in st.vss ==> RecordKey(rec, tenant) !in st.vss[vsKey].poolKeyCollection
    ensures DelPool(AddRecord(st, rec, tenant, vsKey), tenant, rec.name.value, vsKey).pools == st.pools
    ensures vsKey in st.vss ==> DelPool(AddRecord(st, rec, tenant, vsKey), tenant, rec.name.value, vsKey).vss == st.vss
    ensures vsKey !in st.vss ==>
              DelPool(AddRecord(st, rec, tenant, vsKey), tenant, rec.name.value, vsKey).vss == st.vss[vsKey := AviVsCache({})]
  {
    var k := RecordKey(rec, tenant);
    var after := DelPool(AddRecord(st, rec, tenant, vsKey), tenant, rec.name.value, vsKey);
    assert after.pools == st.pools;
    if vsKey in st.vss {
      assert st.vss[vsKey].poolKeyCollection + {k} - {k} == st.vss[vsKey].poolKeyCollection;
      assert after.vss == st.vss;
    } else {
      assert {k} - {k} == {};
    }
  }

  // ---------------------------------------------------------------------------
  // The caches and the operations on them
  // ---------------------------------------------------------------------------

  /** The REST operations object with the pool cache and the VS cache it works on. */
  class RestOperations {
    var poolCache: map<NamespaceName, AviPoolCache>
    var vsCache: map<NamespaceName, AviVsCache>
    var statusUpdates: seq<StatusUpdate>

    function State(): CacheState
      reads this
    {
      CacheState(poolCache, vsCache, statusUpdates)
    }

    constructor ()
      ensures State() == CacheState(map[], map[], [])
    {
      poolCache := map[];
      vsCache := map[];
      statusUpdates := [];
    }

    /**
     * `AviPoolBuild(pool_meta, cache_obj, key)`: a PUT by the known uuid when a
     * cached object is passed, else a PUT adopting a pool cached under the same
     * {tenant, name}, else a POST of a "Pool" macro. The caches are only read.
     */
    method AviPoolBuild(meta: AviPoolNode, cacheObj: Option<AviPoolCache>, settings: Settings) returns (op: RestOp)
      ensures op.tenant == meta.tenant && op.model == "Pool" && op.version == settings.ctrlVersion
      ensures op.err.None? && op.response.None?
      ensures PayloadPool(op.obj).Some? && IsWirePool(PayloadPool(op.obj).value, meta, settings)
      ensures cacheObj.Some? ==>
                op.verb == Put && op.path == PoolPath(cacheObj.value.uuid) && op.obj.PoolObj?
      ensures cacheObj.None? && PoolKey(meta) in poolCache ==>
                op.verb == Put && op.path == PoolPath(poolCache[PoolKey(meta)].uuid) && op.obj.PoolObj?
      ensures cacheObj.None? && PoolKey(meta) !in poolCache ==>
                op.verb == Post && op.path == "/api/macro" && op.obj.MacroObj? && op.obj.modelName == "Pool"
    {
      var servers: seq<AviServer> := [];
      for i := 0 to |meta.servers|
        invariant |servers| == i
        invariant forall j | 0 <= j < i ::
                    && servers[j].ip == meta.servers[j].ip
                    && servers[j].port == meta.port
                    && (servers[j].serverNode.Some? <==> meta.servers[j].serverNode != "")
                    && (servers[j].serverNode.Some? ==> servers[j].serverNode.value == meta.servers[j].serverNode)
      {
        var server := meta.servers[i];
        var s := AviServer(server.ip, meta.port, None);
        if server.serverNode != "" {
          s := s.(serverNode := Some(server.serverNode));
        }
        servers := servers + [s];
      }
      var hm: string;
      if meta.protocol == "udp" {
        hm := HealthMonitorRef(settings.defaultUdpHm);
      } else {
        hm := HealthMonitorRef(settings.defaultTcpHm);
      }
      var pool := Pool(meta.name, DecimalString(meta.cloudConfigCksum), settings.createdBy,
                       "/api/tenant/?name=" + meta.tenant, "/api/cloud?name=" + settings.cloudName,
                       meta.serviceMetadataJson, "/api/vrfcontext?name=" + meta.vrfContext,
                       servers, [hm]);
      var macro := MacroObj("Pool", pool);
      if cacheObj.Some? {
        op := RestOp(PoolPath(cacheObj.value.uuid), Put, PoolObj(pool), meta.tenant, "Pool",
                     settings.ctrlVersion, "", None, None);
      } else {
        var poolKey := PoolKey(meta);
        if poolKey in poolCache {
          op := RestOp(PoolPath(poolCache[poolKey].uuid), Put, PoolObj(pool), meta.tenant, "Pool",
                       settings.ctrlVersion, "", None, None);
        } else {
          op := RestOp("/api/macro", Post, macro, meta.tenant, "Pool", settings.ctrlVersion, "", None, None);
        }
      }
    }

    /**
     * `AviPoolCacheAdd(rest_op, vsKey, key)`: an errored operation, one without
     * a response, or a response without pool records is refused and nothing
     * changes; otherwise every pool record is folded in, in order.
     */
    method AviPoolCacheAdd(op: RestOp, vsKey: NamespaceName) returns (err: Option<PoolCacheError>)
      requires op.err.None? && op.response.Some? ==>
                 forall r | r in op.response.value && r.objType == "pool" :: CksumPresent(r)
      modifies this
      ensures op.err.Some? || op.response.None? ==> err == Some(ErroredRestOp) && State() == old(State())
      ensures op.err.None? && op.response.Some? && PoolRecords(op.response.value) == [] ==>
                err == Some(PoolNotFound) && State() == old(State())
      ensures op.err.None? && op.response.Some? && PoolRecords(op.response.value) != [] ==>
                err == None && State() == AddRecords(old(State()), PoolRecords(op.response.value), op.tenant, vsKey)
    {
      if op.err.Some? || op.response.None? {
        return Some(ErroredRestOp);
      }
      var elems := PoolRecords(op.response.value);
      if elems == [] {
        return Some(PoolNotFound);
      }
      for i := 0 to |elems|
        invariant State() == AddRecords(old(State()), elems[..i], op.tenant, vsKey)
      {
        assert elems[..i + 1][..i] == elems[..i];
        ghost var before := State();
        assert AddRecords(old(State()), elems[..i + 1], op.tenant, vsKey)
               == AddRecord(before, elems[i], op.tenant, vsKey);
        var resp := elems[i];
        if resp.name.None? {
          assert State() == AddRecord(before, elems[i], op.tenant, vsKey);
          continue;
        }
        if resp.uuid.None? {
          assert State() == AddRecord(before, elems[i], op.tenant, vsKey);
          continue;
        }
        var name := resp.name.value;
        var uuid := resp.uuid.value;
        var cksum := resp.cloudConfigCksum.value;
        var svc := NoServiceMetadata;
        if resp.serviceMetadata.Some? {
          svc := resp.serviceMetadata.value;
        }
        var lastModified := "";
        if resp.lastModified.Some? {
          lastModified := resp.lastModified.value;
        }
        var entry := AviPoolCache(name, op.tenant, uuid, cksum, svc, lastModified, false);
        if lastModified == "" {
          entry := entry.(invalidData := true);
        }
        assert entry == PoolEntry(resp, op.tenant);
        var k := RecordKey(resp, op.tenant);
        poolCache := poolCache[k := entry];
        if vsKey in vsCache {
          vsCache := vsCache[vsKey := AviVsCache(vsCache[vsKey].poolKeyCollection + {k})];
          if svc.namespace != "" {
            statusUpdates := statusUpdates + [UpdateIngressStatus(vsKey, svc)];
          }
          assert State() == AddRecord(before, elems[i], op.tenant, vsKey);
        } else {
          vsCache := vsCache[vsKey := AviVsCache({})];
          vsCache := vsCache[vsKey := AviVsCache(vsCache[vsKey].poolKeyCollection + {k})];
          assert {} + {k} == {k};
          assert State() == AddRecord(before, elems[i], op.tenant, vsKey);
        }
      }
      assert elems[..|elems|] == elems;
      return None;
    }

    /**
     * `AviPoolCacheDel(rest_op, vsKey, key)`: drops the pool {tenant, ObjName}
     * and its key from the collection of `vsKey`; it never fails.
     */
    method AviPoolCacheDel(op: RestOp, vsKey: NamespaceName) returns (err: Option<PoolCacheError>)
      modifies this
      ensures err == None
      ensures State() == DelPool(old(State()), op.tenant, op.objName, vsKey)
    {
      var poolKey := NamespaceName(op.tenant, op.objName);
      if poolKey in poolCache {
        statusUpdates := statusUpdates + [DeleteIngressStatus(poolCache[poolKey].serviceMetadataObj)];
      }
      poolCache := poolCache - {poolKey};
      if vsKey in vsCache {
        vsCache := vsCache[vsKey := AviVsCache(vsCache[vsKey].poolKeyCollection - {poolKey})];
      }
      return None;
    }
  }
}
