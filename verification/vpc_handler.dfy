/**
 * The VPC handler of the infra controller (`vpc_handler.go`): the periodic
 * sync that writes the VPC-to-subnet mapping into the NSX-T cloud's tier-1
 * logical router list, and the follow-up that creates one AviInfraSetting per
 * VPC, annotates namespaces and removes infra settings no namespace uses.
 *
 * The handler keeps no state of its own. Each operation takes what it reads
 * from the cluster and the controller as parameters and returns the external
 * calls it makes, in one of the orders the Go code may issue them.
 */
module VpcHandler {
  import opened Wrappers
  import opened GoStrings

  /** One tier-1 logical router entry of the cloud: the router (VPC) path and its segment (subnet). */
  datatype Tier1Lr = Tier1Lr(tier1LrId: string, segmentId: string)

  datatype ManualConfig = ManualConfig(tier1Lrs: seq<Tier1Lr>)

  datatype Tier1SegmentConfig = Tier1SegmentConfig(manual: Option<ManualConfig>)

  datatype DataNetworkConfig = DataNetworkConfig(
    vlanSegments: seq<string>,
    tier1SegmentConfig: Option<Tier1SegmentConfig>)

  datatype NsxtConfiguration = NsxtConfiguration(
    dataNetworkConfig: Option<DataNetworkConfig>,
    vpcMode: Option<bool>)

  /** The parts of the cloud object the sync reads and writes. */
  datatype CloudModel = CloudModel(uuid: string, nsxtConfiguration: Option<NsxtConfiguration>)

  /** What listing the VPCs returns: VPC path to subnet, and namespace to VPC path. */
  datatype VpcListing = VpcListing(vpcToSubnet: map<string, string>, nsToVpc: map<string, string>)

  /** The external calls the handler makes. */
  datatype Effect =
    | PutCloud(path: string, objName: string, tenant: string, cloud: CloudModel)
    | CreateOrUpdateInfraSetting(name: string, vpc: string)
    | AnnotateNamespaceWithInfraSetting(ns: string, name: string)
    | AnnotateNamespaceWithTenant(ns: string, project: string)
    | DeleteInfraSetting(name: string)
    | RemoveInfraSettingAnnotation(names: set<string>)

  // ---------------------------------------------------------------------------
  // The cloud's router table
  // ---------------------------------------------------------------------------

  /** The router ids a list mentions. */
  function IdsOf(lrs: seq<Tier1Lr>): set<string> {
    if lrs == [] then {} else IdsOf(lrs[..|lrs| - 1]) + {lrs[|lrs| - 1].tier1LrId}
  }

  /** A router id is mentioned exactly when some entry carries it. */
  lemma {:induction false} IdsOfMembers(lrs: seq<Tier1Lr>)
    ensures forall j | 0 <= j < |lrs| :: lrs[j].tier1LrId in IdsOf(lrs)
    ensures forall id | id in IdsOf(lrs) :: exists j | 0 <= j < |lrs| :: lrs[j].tier1LrId == id
  {
    if lrs != [] {
      var init := lrs[..|lrs| - 1];
      IdsOfMembers(init);
      forall j | 0 <= j < |init|
        ensures lrs[j] == init[j]
      {
      }
    }
  }

  /**
   * The router-to-segment table a list of entries describes, entries read in
   * order. It has a key for every router mentioned, and each value is the
   * segment of some entry for that router.
   */
  function Table(lrs: seq<Tier1Lr>): (t: map<string, string>)
    ensures t.Keys == IdsOf(lrs)
    ensures forall id | id in t :: Tier1Lr(id, t[id]) in lrs
  {
    if lrs == [] then map[]
    else
      var init := lrs[..|lrs| - 1];
      var last := lrs[|lrs| - 1];
      var t := Table(init);
      t[last.tier1LrId := last.segmentId]
  }

  /** When a router appears more than once, its last entry decides the segment. */
  lemma {:induction false} TableLastWins(lrs: seq<Tier1Lr>, i: nat)
    requires i < |lrs|
    requires forall j | i < j < |lrs| :: lrs[j].tier1LrId != lrs[i].tier1LrId
    ensures lrs[i].tier1LrId in Table(lrs) && Table(lrs)[lrs[i].tier1LrId] == lrs[i].segmentId
  {
    IdsOfMembers(lrs);
    if i < |lrs| - 1 {
      var init := lrs[..|lrs| - 1];
      assert init[i] == lrs[i];
      forall j | i < j < |init|
        ensures init[j].tier1LrId != init[i].tier1LrId
      {
        assert init[j] == lrs[j];
      }
      TableLastWins(init, i);
    }
  }

  /** Some VPC of the listing is missing from the table or mapped to another subnet. */
  predicate NeedsUpdate(table: map<string, string>, desired: map<string, string>) {
    exists vpc | vpc in desired :: vpc !in table || table[vpc] != desired[vpc]
  }

  /** The cloud needs an update exactly when merging the listing into its table changes the table. */
  lemma NeedsUpdateIff(table: map<string, string>, desired: map<string, string>)
    ensures NeedsUpdate(table, desired) <==> table + desired != table
  {
    if NeedsUpdate(table, desired) {
      var vpc :| vpc in desired && (vpc !in table || table[vpc] != desired[vpc]);
      assert (table + desired)[vpc] == desired[vpc];
    } else {
      assert table + desired == table;
    }
  }

  lemma IdsOfSnoc(lrs: seq<Tier1Lr>, x: Tier1Lr)
    ensures IdsOf(lrs + [x]) == IdsOf(lrs) + {x.tier1LrId}
  {
    assert (lrs + [x])[..|lrs|] == lrs;
  }

  /**
   * Midway through merging: the VPCs outside `pending` are written over the
   * table, and `updated` records whether any of them was missing or different.
   */
  ghost predicate MergeState(table: map<string, string>, desired: map<string, string>, pending: set<string>,
                             merged: map<string, string>, updated: bool) {
    && pending <= desired.Keys
    && merged.Keys == table.Keys + (desired.Keys - pending)
    && (forall vpc | vpc in merged ::
          merged[vpc] == if vpc in desired && vpc !in pending then desired[vpc] else table[vpc])
    && (updated <==> exists vpc | vpc in desired && vpc !in pending :: vpc !in table || table[vpc] != desired[vpc])
  }

  lemma MergeStep(table: map<string, string>, desired: map<string, string>, pending: set<string>,
                  merged: map<string, string>, updated: bool, vpc: string)
    requires MergeState(table, desired, pending, merged, updated) && vpc in pending
    ensures var changed := vpc !in merged || merged[vpc] != desired[vpc];
            MergeState(table, desired, pending - {vpc},
                       if changed then merged[vpc := desired[vpc]] else merged, updated || changed)
  {
  }

  lemma MergeDone(table: map<string, string>, desired: map<string, string>, merged: map<string, string>, updated: bool)
    requires MergeState(table, desired, {}, merged, updated)
    ensures merged == table + desired
    ensures updated <==> NeedsUpdate(table, desired)
  {
  }

  /**
   * `lrs` lists the table `m`: one entry per key, no router twice, each
   * carrying the key's segment.
   */
  predicate IsTableListing(lrs: seq<Tier1Lr>, m: map<string, string>) {
    && |lrs| == |m|
    && IdsOf(lrs) == m.Keys
    && (forall j | 0 <= j < |lrs| :: lrs[j].tier1LrId in m && m[lrs[j].tier1LrId] == lrs[j].segmentId)
    && (forall i, j | 0 <= i < j < |lrs| :: lrs[i].tier1LrId != lrs[j].tier1LrId)
  }

  /** Each entry of `filled` carries its key's segment in `m` and a router no earlier entry has. */
  predicate Listed(filled: seq<Tier1Lr>, m: map<string, string>) {
    filled == [] ||
    var init := filled[..|filled| - 1];
    var last := filled[|filled| - 1];
    && Listed(init, m)
    && last.tier1LrId in m && m[last.tier1LrId] == last.segmentId
    && last.tier1LrId !in IdsOf(init)
  }

  lemma {:induction false} ListedFacts(filled: seq<Tier1Lr>, m: map<string, string>)
    requires Listed(filled, m)
    ensures forall j | 0 <= j < |filled| :: filled[j].tier1LrId in m && m[filled[j].tier1LrId] == filled[j].segmentId
    ensures forall i, j | 0 <= i < j < |filled| :: filled[i].tier1LrId != filled[j].tier1LrId
  {
    if filled != [] {
      var init := filled[..|filled| - 1];
      ListedFacts(init, m);
      IdsOfMembers(init);
      forall j | 0 <= j < |init|
        ensures filled[j] == init[j]
      {
      }
    }
  }

  /** Midway through listing `m`: `filled` is listed, and `remaining` holds exactly the keys not yet listed. */
  predicate ListingState(filled: seq<Tier1Lr>, m: map<string, string>, remaining: set<string>) {
    && Listed(filled, m)
    && remaining <= m.Keys
    && m.Keys == remaining + IdsOf(filled)
    && remaining !! IdsOf(filled)
  }

  lemma ListingStep(filled: seq<Tier1Lr>, m: map<string, string>, remaining: set<string>, vpc: string)
    requires ListingState(filled, m, remaining) && vpc in remaining
    ensures ListingState(filled + [Tier1Lr(vpc, m[vpc])], m, remaining - {vpc})
  {
    var f := filled + [Tier1Lr(vpc, m[vpc])];
    assert f[..|f| - 1] == filled;
    IdsOfSnoc(filled, Tier1Lr(vpc, m[vpc]));
  }

  /** A listing whose routers are exactly the keys of `m`, one entry per key, lists `m`. */
  lemma ListedCovers(filled: seq<Tier1Lr>, m: map<string, string>)
    requires Listed(filled, m) && IdsOf(filled) == m.Keys && |filled| == |m|
    ensures IsTableListing(filled, m)
  {
    ListedFacts(filled, m);
  }

  /** Reading a listing of `m` back as a table gives `m`, whatever order the entries are in. */
  lemma TableOfListing(lrs: seq<Tier1Lr>, m: map<string, string>)
    requires IsTableListing(lrs, m)
    ensures Table(lrs) == m
  {
    var t := Table(lrs);
    forall id | id in t
      ensures t[id] == m[id]
    {
      var j :| 0 <= j < |lrs| && lrs[j] == Tier1Lr(id, t[id]);
    }
  }

  /**
   * After a sync has written the merged table, the next sync with the same
   * listing finds nothing to update.
   */
  lemma SyncConverges(lrs: seq<Tier1Lr>, table: map<string, string>, desired: map<string, string>)
    requires IsTableListing(lrs, table + desired)
    ensures !NeedsUpdate(Table(lrs), desired)
  {
    TableOfListing(lrs, table + desired);
    forall vpc | vpc in desired
      ensures vpc in Table(lrs) && Table(lrs)[vpc] == desired[vpc]
    {
    }
  }

  // ---------------------------------------------------------------------------
  // The cloud object
  // ---------------------------------------------------------------------------

  /** The sync goes on past its guards: NSX-T data network settings present, no VLAN segments. */
  predicate UsesOverlay(cloud: CloudModel) {
    && cloud.nsxtConfiguration.Some?
    && cloud.nsxtConfiguration.value.dataNetworkConfig.Some?
    && |cloud.nsxtConfiguration.value.dataNetworkConfig.value.vlanSegments| == 0
  }

  /** The sync reaches the tier-1 segment settings and finds a manual configuration there. */
  predicate HasManualConfig(cloud: CloudModel)
    requires UsesOverlay(cloud)
  {
    var dnc := cloud.nsxtConfiguration.value.dataNetworkConfig.value;
    dnc.tier1SegmentConfig.Some? && dnc.tier1SegmentConfig.value.manual.Some?
  }

  function ManualLrs(cloud: CloudModel): seq<Tier1Lr>
    requires UsesOverlay(cloud) && HasManualConfig(cloud)
  {
    cloud.nsxtConfiguration.value.dataNetworkConfig.value.tier1SegmentConfig.value.manual.value.tier1Lrs
  }

  /** The cloud with its router list replaced by `lrs` and VPC mode switched on; nothing else changes. */
  function WithRouters(cloud: CloudModel, lrs: seq<Tier1Lr>): (c: CloudModel)
    requires UsesOverlay(cloud) && HasManualConfig(cloud)
    ensures UsesOverlay(c) && HasManualConfig(c) && ManualLrs(c) == lrs
    ensures c.uuid == cloud.uuid && c.nsxtConfiguration.value.vpcMode == Some(true)
  {
    var nsxt := cloud.nsxtConfiguration.value;
    var dnc := nsxt.dataNetworkConfig.value;
    var t1 := dnc.tier1SegmentConfig.value;
    var manual := t1.manual.value.(tier1Lrs := lrs);
    var dnc' := dnc.(tier1SegmentConfig := Some(t1.(manual := Some(manual))));
    cloud.(nsxtConfiguration := Some(nsxt.(dataNetworkConfig := Some(dnc'), vpcMode := Some(true))))
  }

  // ---------------------------------------------------------------------------
  // VPC paths
  // ---------------------------------------------------------------------------

  /** The infra setting named after a VPC: the last piece of its path split on "/vpcs/". */
  function InfraSettingName(vpc: string): string {
    var arr := Split(vpc, "/vpcs/");
    arr[|arr| - 1]
  }

  /** The part before "/vpcs/" names a project; otherwise the Go code indexes past the end of a slice. */
  predicate HasProject(vpc: string) {
    |Split(Split(vpc, "/vpcs/")[0], "/projects/")| >= 2
  }

  /** The project of a VPC: the piece after the first "/projects/" in the part before "/vpcs/". */
  function ProjectOf(vpc: string): string
    requires HasProject(vpc)
  {
    Split(Split(vpc, "/vpcs/")[0], "/projects/")[1]
  }

  /**
   * The infra setting name is the end of the VPC path: a suffix that contains no
   * "/vpcs/" and directly follows an occurrence of it (the piece after Split's
   * last cut), or the whole path when there is none.
   */
  lemma InfraSettingNameIsLastSegment(vpc: string)
    ensures var r := InfraSettingName(vpc);
            && |r| <= |vpc| && vpc[|vpc| - |r|..] == r
            && !Contains(r, "/vpcs/")
            && (!Contains(vpc, "/vpcs/") ==> r == vpc)
            && (Contains(vpc, "/vpcs/") ==> |r| + 6 <= |vpc| && IsAt(vpc, "/vpcs/", |vpc| - |r| - 6))
  {
    SplitLast(vpc, "/vpcs/");
    SplitManyIffContains(vpc, "/vpcs/");
  }

  /**
   * The part before the first "/vpcs/" (the whole path when there is none)
   * starts the path, and a project can be read from it exactly when it contains
   * "/projects/".
   */
  lemma HasProjectIff(vpc: string)
    ensures var head := Split(vpc, "/vpcs/")[0];
            && HasPrefix(vpc, head)
            && (Contains(vpc, "/vpcs/") ==> IsAt(vpc, "/vpcs/", |head|))
            && (HasProject(vpc) <==> Contains(head, "/projects/"))
  {
    var head := Split(vpc, "/vpcs/")[0];
    SplitFirst(vpc, "/vpcs/");
    SplitManyIffContains(vpc, "/vpcs/");
    SplitManyIffContains(head, "/projects/");
  }

  /**
   * The project follows the first "/projects/" of the part before "/vpcs/" and
   * runs to the next "/projects/" or to the end of that part; it contains no
   * "/projects/" itself.
   */
  lemma ProjectOfFollowsProjects(vpc: string)
    requires HasProject(vpc)
    ensures var head, r := Split(vpc, "/vpcs/")[0], ProjectOf(vpc);
            && IndexFrom(head, "/projects/", 0).Some?
            && var k := IndexFrom(head, "/projects/", 0).value;
            && IsAt(head, "/projects/", k) && IsAt(head, r, k + 10)
            && (k + 10 + |r| == |head| || IsAt(head, "/projects/", k + 10 + |r|))
            && !Contains(r, "/projects/")
  {
    var head := Split(vpc, "/vpcs/")[0];
    SplitSecond(head, "/projects/");
    SplitPiecesFree(head, "/projects/");
    assert !Contains(Split(head, "/projects/")[1], "/projects/");
  }

  /**
   * For a path `<org>/projects/<project>/vpcs/<vpc>` whose parts do not contain
   * the separators, the infra setting is named `<vpc>` and the tenant is `<project>`.
   */
  lemma VpcPathRoundTrip(org: string, project: string, vpc: string)
    requires !Contains(org + "/projects", "/projects/")
    requires !Contains(project, "/projects/")
    requires !Contains(org + "/projects/" + project + "/vpcs", "/vpcs/")
    requires !Contains(vpc, "/vpcs/")
    ensures HasProject(org + "/projects/" + project + "/vpcs/" + vpc)
    ensures InfraSettingName(org + "/projects/" + project + "/vpcs/" + vpc) == vpc
    ensures ProjectOf(org + "/projects/" + project + "/vpcs/" + vpc) == project
  {
    var head := org + "/projects/" + project;
    assert "/vpcs/"[..5] == "/vpcs";
    SplitConcat(head, "/vpcs/", vpc);
    SplitWithoutSep(vpc, "/vpcs/");
    assert Split(head + "/vpcs/" + vpc, "/vpcs/") == [head, vpc];
    assert "/projects/"[..9] == "/projects";
    SplitConcat(org, "/projects/", project);
    SplitWithoutSep(project, "/projects/");
    assert Split(head, "/projects/") == [org, project];
  }

  // ---------------------------------------------------------------------------
  // Infra settings and namespace annotations
  // ---------------------------------------------------------------------------

  /** The infra settings the VPCs of the namespaces in `done` are named after. */
  function UsedNames(nsToVpc: map<string, string>, done: set<string>): set<string> {
    set ns | ns in nsToVpc && ns in done :: InfraSettingName(nsToVpc[ns])
  }

  /** Handling one more namespace removes its VPC's name from the stale set. */
  lemma StaleStep(names: set<string>, nsToVpc: map<string, string>, done: set<string>, ns: string)
    requires ns in nsToVpc
    ensures names - UsedNames(nsToVpc, done) - {InfraSettingName(nsToVpc[ns])}
            == names - UsedNames(nsToVpc, done + {ns})
  {
    assert UsedNames(nsToVpc, done + {ns}) == UsedNames(nsToVpc, done) + {InfraSettingName(nsToVpc[ns])};
  }

  /** The infra settings of the listed names that no namespace's VPC is named after. */
  function StaleSet(crNames: seq<string>, nsToVpc: map<string, string>): (stale: set<string>)
    ensures forall n :: n in stale <==>
              n in crNames && forall ns | ns in nsToVpc :: InfraSettingName(nsToVpc[ns]) != n
  {
    (set n | n in crNames) - UsedNames(nsToVpc, nsToVpc.Keys)
  }

  /**
   * The calls made for one namespace: create or update its VPC's infra setting,
   * annotate the namespace with it only when that succeeded, then annotate the
   * namespace with the project as its tenant. Each namespace makes its own
   * create-or-update call, so `createFails` names namespaces, not settings.
   */
  function NsEffects(ns: string, vpc: string, createFails: set<string>): (r: seq<Effect>)
    requires HasProject(vpc)
    ensures |r| == if ns in createFails then 2 else 3
    ensures r[0] == CreateOrUpdateInfraSetting(InfraSettingName(vpc), vpc)
    ensures r[|r| - 1] == AnnotateNamespaceWithTenant(ns, ProjectOf(vpc))
    ensures AnnotateNamespaceWithInfraSetting(ns, InfraSettingName(vpc)) in r <==> ns !in createFails
    ensures ns !in createFails ==> r[1] == AnnotateNamespaceWithInfraSetting(ns, InfraSettingName(vpc))
    ensures forall e | e in r :: !e.DeleteInfraSetting? && !e.RemoveInfraSettingAnnotation?
  {
    var name := InfraSettingName(vpc);
    [CreateOrUpdateInfraSetting(name, vpc)]
    + (if ns in createFails then [] else [AnnotateNamespaceWithInfraSetting(ns, name)])
    + [AnnotateNamespaceWithTenant(ns, ProjectOf(vpc))]
  }

  /**
   * Two namespaces on one infra setting get their own creation outcomes: when
   * only the first one's call fails, only the second is annotated with it.
   */
  lemma SharedSettingSeparateOutcomes(ns1: string, ns2: string, vpc1: string, vpc2: string)
    requires HasProject(vpc1) && HasProject(vpc2) && ns1 != ns2
    requires InfraSettingName(vpc1) == InfraSettingName(vpc2)
    ensures AnnotateNamespaceWithInfraSetting(ns1, InfraSettingName(vpc1)) !in NsEffects(ns1, vpc1, {ns1})
    ensures AnnotateNamespaceWithInfraSetting(ns2, InfraSettingName(vpc2)) in NsEffects(ns2, vpc2, {ns1})
  {
  }

  predicate AllIn(xs: seq<Effect>, ys: seq<Effect>) {
    forall x | x in xs :: x in ys
  }

  /** `e` is one of the calls made for some namespace. */
  ghost predicate FromNamespaces(e: Effect, nsToVpc: map<string, string>, createFails: set<string>)
    requires forall ns | ns in nsToVpc :: HasProject(nsToVpc[ns])
  {
    exists ns | ns in nsToVpc :: e in NsEffects(ns, nsToVpc[ns], createFails)
  }

  /**
   * `effects` is a run of the infra-setting step: every namespace's calls and a
   * delete of every stale setting are made, nothing else is, and the run ends by
   * removing the stale settings' annotations from namespaces.
   */
  ghost predicate IsInfraRun(effects: seq<Effect>, nsToVpc: map<string, string>, crNames: seq<string>, createFails: set<string>)
    requires forall ns | ns in nsToVpc :: HasProject(nsToVpc[ns])
  {
    var stale := StaleSet(crNames, nsToVpc);
    && |effects| >= 1
    && effects[|effects| - 1] == RemoveInfraSettingAnnotation(stale)
    && (forall ns | ns in nsToVpc :: AllIn(NsEffects(ns, nsToVpc[ns], createFails), effects))
    && (forall n | n in stale :: DeleteInfraSetting(n) in effects)
    && (forall i | 0 <= i < |effects| - 1 ::
          (effects[i].DeleteInfraSetting? && effects[i].name in stale) || FromNamespaces(effects[i], nsToVpc, createFails))
  }

  /**
   * Per-namespace calls in some order, one delete per stale name and the final
   * annotation removal make a run of the infra-setting step.
   */
  lemma InfraRunOf(order: seq<string>, deletes: seq<Effect>, nsToVpc: map<string, string>, crNames: seq<string>,
                   createFails: set<string>)
    requires forall ns | ns in nsToVpc :: HasProject(nsToVpc[ns])
    requires IsOrderOf(order, nsToVpc.Keys)
    requires forall n | n in StaleSet(crNames, nsToVpc) :: DeleteInfraSetting(n) in deletes
    requires forall i | 0 <= i < |deletes| :: deletes[i].DeleteInfraSetting? && deletes[i].name in StaleSet(crNames, nsToVpc)
    ensures IsInfraRun(PerNamespace(order, nsToVpc, createFails) + deletes + [RemoveInfraSettingAnnotation(StaleSet(crNames, nsToVpc))],
                       nsToVpc, crNames, createFails)
  {
    var perNs := PerNamespace(order, nsToVpc, createFails);
    var stale := StaleSet(crNames, nsToVpc);
    var effects := perNs + deletes + [RemoveInfraSettingAnnotation(stale)];
    PerNamespaceComplete(order, nsToVpc, createFails);
    PerNamespaceSound(order, nsToVpc, createFails);
    forall ns | ns in nsToVpc
      ensures AllIn(NsEffects(ns, nsToVpc[ns], createFails), effects)
    {
      var k :| 0 <= k < |order| && order[k] == ns;
      assert AllIn(NsEffects(order[k], nsToVpc[order[k]], createFails), perNs);
    }
    forall i | 0 <= i < |effects| - 1
      ensures (effects[i].DeleteInfraSetting? && effects[i].name in stale)
              || FromNamespaces(effects[i], nsToVpc, createFails)
    {
      if i < |perNs| {
        assert effects[i] == perNs[i];
        assert perNs[i] in perNs;
        var k :| 0 <= k < |order| && perNs[i] in NsEffects(order[k], nsToVpc[order[k]], createFails);
      } else {
        assert effects[i] == deletes[i - |perNs|];
      }
    }
  }

  /** A setting that some namespace's VPC is named after is never deleted nor stripped from namespaces. */
  lemma InfraRunKeepsLiveSettings(effects: seq<Effect>, nsToVpc: map<string, string>, crNames: seq<string>,
                                  createFails: set<string>, ns: string)
    requires forall n | n in nsToVpc :: HasProject(nsToVpc[n])
    requires IsInfraRun(effects, nsToVpc, crNames, createFails)
    requires ns in nsToVpc
    ensures DeleteInfraSetting(InfraSettingName(nsToVpc[ns])) !in effects
    ensures InfraSettingName(nsToVpc[ns]) !in effects[|effects| - 1].names
  {
    var name := InfraSettingName(nsToVpc[ns]);
    var stale := StaleSet(crNames, nsToVpc);
    assert name !in stale;
  }

  /** The namespaces of `order` are keys of the map, each listed once. */
  predicate IsOrderOf(order: seq<string>, keys: set<string>) {
    && (forall ns | ns in order :: ns in keys)
    && (forall ns | ns in keys :: ns in order)
    && (forall i, j | 0 <= i < j < |order| :: order[i] != order[j])
  }

  /** Extending an order of `done` by a new namespace gives an order of the larger set. */
  lemma IsOrderOfSnoc(order: seq<string>, done: set<string>, ns: string)
    requires IsOrderOf(order, done) && ns !in done
    ensures IsOrderOf(order + [ns], done + {ns})
  {
    var o := order + [ns];
    forall i, j | 0 <= i < j < |o|
      ensures o[i] != o[j]
    {
      assert o[i] == order[i];
      if j < |order| {
        assert o[j] == order[j];
      }
    }
  }

  /** Midway through the namespaces: `order` lists those handled, `effects` holds their calls, `stale` what is left. */
  ghost predicate NsLoopState(nsToVpc: map<string, string>, names: set<string>, createFails: set<string>,
                              done: set<string>, order: seq<string>, effects: seq<Effect>, stale: set<string>)
    requires forall ns | ns in nsToVpc :: HasProject(nsToVpc[ns])
  {
    && done <= nsToVpc.Keys
    && IsOrderOf(order, done)
    && stale == names - UsedNames(nsToVpc, done)
    && effects == PerNamespace(order, nsToVpc, createFails)
  }

  lemma NsLoopStep(nsToVpc: map<string, string>, names: set<string>, createFails: set<string>,
                   done: set<string>, order: seq<string>, effects: seq<Effect>, stale: set<string>, ns: string,
                   calls: seq<Effect>, name: string)
    requires forall m | m in nsToVpc :: HasProject(nsToVpc[m])
    requires NsLoopState(nsToVpc, names, createFails, done, order, effects, stale)
    requires ns in nsToVpc && ns !in done
    requires calls == NsEffects(ns, nsToVpc[ns], createFails) && name == InfraSettingName(nsToVpc[ns])
    ensures NsLoopState(nsToVpc, names, createFails, done + {ns}, order + [ns], effects + calls, stale - {name})
  {
    StaleStep(names, nsToVpc, done, ns);
    PerNamespaceSnoc(order, ns, nsToVpc, createFails);
    IsOrderOfSnoc(order, done, ns);
  }

  /** The per-namespace calls, namespace after namespace in the given order. */
  function PerNamespace(order: seq<string>, nsToVpc: map<string, string>, createFails: set<string>): seq<Effect>
    requires forall ns | ns in order :: ns in nsToVpc && HasProject(nsToVpc[ns])
  {
    if order == [] then []
    else
      var last := order[|order| - 1];
      PerNamespace(order[..|order| - 1], nsToVpc, createFails) + NsEffects(last, nsToVpc[last], createFails)
  }

  lemma PerNamespaceSnoc(order: seq<string>, ns: string, nsToVpc: map<string, string>, createFails: set<string>)
    requires forall m | m in order :: m in nsToVpc && HasProject(nsToVpc[m])
    requires ns in nsToVpc && HasProject(nsToVpc[ns])
    ensures PerNamespace(order + [ns], nsToVpc, createFails)
            == PerNamespace(order, nsToVpc, createFails) + NsEffects(ns, nsToVpc[ns], createFails)
  {
    assert (order + [ns])[..|order|] == order;
  }

  /** Running the namespaces in any order makes each one's calls. */
  lemma {:induction false} PerNamespaceComplete(order: seq<string>, nsToVpc: map<string, string>, createFails: set<string>)
    requires forall ns | ns in order :: ns in nsToVpc && HasProject(nsToVpc[ns])
    ensures forall k | 0 <= k < |order| ::
              AllIn(NsEffects(order[k], nsToVpc[order[k]], createFails), PerNamespace(order, nsToVpc, createFails))
  {
    if order != [] {
      var init := order[..|order| - 1];
      PerNamespaceComplete(init, nsToVpc, createFails);
      forall k | 0 <= k < |init|
        ensures order[k] == init[k]
      {
      }
    }
  }

  /** Running the namespaces in any order makes no call that is not one of theirs. */
  lemma {:induction false} PerNamespaceSound(order: seq<string>, nsToVpc: map<string, string>, createFails: set<string>)
    requires forall ns | ns in order :: ns in nsToVpc && HasProject(nsToVpc[ns])
    ensures forall e | e in PerNamespace(order, nsToVpc, createFails) ::
              exists k | 0 <= k < |order| :: e in NsEffects(order[k], nsToVpc[order[k]], createFails)
  {
    if order != [] {
      var init := order[..|order| - 1];
      PerNamespaceSound(init, nsToVpc, createFails);
      var before := PerNamespace(init, nsToVpc, createFails);
      forall e | e in PerNamespace(order, nsToVpc, createFails)
        ensures exists k | 0 <= k < |order| :: e in NsEffects(order[k], nsToVpc[order[k]], createFails)
      {
        if e in before {
          var k :| 0 <= k < |init| && e in NsEffects(init[k], nsToVpc[init[k]], createFails);
          assert order[k] == init[k];
        } else {
          assert e in NsEffects(order[|order| - 1], nsToVpc[order[|order| - 1]], createFails);
        }
      }
    }
  }

  /** The run of a prefix of the order is a prefix of the run. */
  lemma {:induction false} PerNamespacePrefix(order: seq<string>, nsToVpc: map<string, string>, createFails: set<string>, j: nat)
    requires forall ns | ns in order :: ns in nsToVpc && HasProject(nsToVpc[ns])
    requires j <= |order|
    ensures var pre := PerNamespace(order[..j], nsToVpc, createFails);
            |pre| <= |PerNamespace(order, nsToVpc, createFails)|
            && PerNamespace(order, nsToVpc, createFails)[..|pre|] == pre
    decreases |order|
  {
    if j < |order| {
      var init := order[..|order| - 1];
      assert init[..j] == order[..j];
      PerNamespacePrefix(init, nsToVpc, createFails, j);
    } else {
      assert order[..j] == order;
    }
  }

  /** The run up to and including position `k` extends the run before it by that namespace's calls. */
  lemma PerNamespaceUpTo(order: seq<string>, nsToVpc: map<string, string>, createFails: set<string>, k: nat)
    requires forall ns | ns in order :: ns in nsToVpc && HasProject(nsToVpc[ns])
    requires k < |order|
    ensures PerNamespace(order[..k + 1], nsToVpc, createFails)
            == PerNamespace(order[..k], nsToVpc, createFails) + NsEffects(order[k], nsToVpc[order[k]], createFails)
  {
    assert order[..k + 1][..k] == order[..k];
  }

  /** Where `pre + calls` starts a sequence, `calls` sits right after `pre`. */
  lemma SliceAfterPrefix(run: seq<Effect>, pre: seq<Effect>, calls: seq<Effect>)
    requires |pre + calls| <= |run| && run[..|pre + calls|] == pre + calls
    ensures run[|pre|..|pre| + |calls|] == calls
  {
    assert run[|pre|..|pre| + |calls|] == (pre + calls)[|pre|..];
  }

  /**
   * The calls of the namespace at position `k` of the order form one block of
   * the run, right after the calls of the namespaces before it.
   */
  lemma PerNamespaceBlock(order: seq<string>, nsToVpc: map<string, string>, createFails: set<string>, k: nat)
    requires forall ns | ns in order :: ns in nsToVpc && HasProject(nsToVpc[ns])
    requires k < |order|
    ensures var off, calls := |PerNamespace(order[..k], nsToVpc, createFails)|, NsEffects(order[k], nsToVpc[order[k]], createFails);
            && off + |calls| <= |PerNamespace(order, nsToVpc, createFails)|
            && PerNamespace(order, nsToVpc, createFails)[off..off + |calls|] == calls
  {
    var run := PerNamespace(order, nsToVpc, createFails);
    var pre := PerNamespace(order[..k], nsToVpc, createFails);
    var calls := NsEffects(order[k], nsToVpc[order[k]], createFails);
    PerNamespaceUpTo(order, nsToVpc, createFails, k);
    PerNamespacePrefix(order, nsToVpc, createFails, k + 1);
    SliceAfterPrefix(run, pre, calls);
  }

  /** One delete per stale name: every stale name is deleted, nothing else is, and none twice. */
  predicate IsDeleteRun(deletes: seq<Effect>, stale: set<string>) {
    && (forall n | n in stale :: DeleteInfraSetting(n) in deletes)
    && (forall i | 0 <= i < |deletes| :: deletes[i].DeleteInfraSetting? && deletes[i].name in stale)
    && (forall i, j | 0 <= i < j < |deletes| :: deletes[i] != deletes[j])
  }

  /**
   * `effects` is the infra-setting step run one goroutine after another: the
   * namespaces' calls, each namespace once in `order`, then one delete per
   * stale name, then the annotation removal.
   */
  ghost predicate IsOrderedInfraRun(effects: seq<Effect>, order: seq<string>, nsToVpc: map<string, string>,
                                    crNames: seq<string>, createFails: set<string>)
    requires forall ns | ns in nsToVpc :: HasProject(nsToVpc[ns])
  {
    && IsOrderOf(order, nsToVpc.Keys)
    && var perNs, stale := PerNamespace(order, nsToVpc, createFails), StaleSet(crNames, nsToVpc);
    && |perNs| < |effects|
    && effects[..|perNs|] == perNs
    && IsDeleteRun(effects[|perNs|..|effects| - 1], stale)
    && effects[|effects| - 1] == RemoveInfraSettingAnnotation(stale)
  }

  /** An ordered run makes every call a run of the infra-setting step must make, and no other. */
  lemma OrderedInfraRunIsInfraRun(effects: seq<Effect>, order: seq<string>, nsToVpc: map<string, string>,
                                  crNames: seq<string>, createFails: set<string>)
    requires forall ns | ns in nsToVpc :: HasProject(nsToVpc[ns])
    requires IsOrderedInfraRun(effects, order, nsToVpc, crNames, createFails)
    ensures IsInfraRun(effects, nsToVpc, crNames, createFails)
  {
    var perNs, stale := PerNamespace(order, nsToVpc, createFails), StaleSet(crNames, nsToVpc);
    var deletes := effects[|perNs|..|effects| - 1];
    assert effects == perNs + deletes + [RemoveInfraSettingAnnotation(stale)];
    InfraRunOf(order, deletes, nsToVpc, crNames, createFails);
  }

  /** The VPC handler; it carries no state. */
  class VpcHandlerOps {
    constructor ()
    {
    }

    /** The names of the listed infra settings, as a set. */
    method NameSet(crs: seq<string>) returns (names: set<string>)
      ensures names == set n | n in crs
    {
      names := {};
      for i := 0 to |crs|
        invariant names == set n | n in crs[..i]
      {
        assert crs[..i + 1] == crs[..i] + [crs[i]];
        names := names + {crs[i]};
      }
      assert crs[..|crs|] == crs;
    }

    /**
     * The calls one namespace's goroutine makes; `name` is the infra setting
     * its VPC is named after.
     */
    method NamespaceCalls(ns: string, vpc: string, createFails: set<string>) returns (calls: seq<Effect>, name: string)
      requires HasProject(vpc)
      ensures name == InfraSettingName(vpc)
      ensures calls == NsEffects(ns, vpc, createFails)
    {
      var arr := Split(vpc, "/vpcs/");
      name := arr[|arr| - 1];
      var project := Split(arr[0], "/projects/")[1];
      calls := [CreateOrUpdateInfraSetting(name, vpc)];
      if ns !in createFails {
        calls := calls + [AnnotateNamespaceWithInfraSetting(ns, name)];
      }
      calls := calls + [AnnotateNamespaceWithTenant(ns, project)];
    }

    /**
     * The per-namespace calls, namespace after namespace in some order of the
     * map, and the listed names no namespace's VPC is named after.
     */
    method AnnotateNamespaces(nsToVpc: map<string, string>, names: set<string>, createFails: set<string>)
      returns (effects: seq<Effect>, stale: set<string>, ghost order: seq<string>)
      requires forall ns | ns in nsToVpc :: HasProject(nsToVpc[ns])
      ensures stale == names - UsedNames(nsToVpc, nsToVpc.Keys)
      ensures IsOrderOf(order, nsToVpc.Keys)
      ensures effects == PerNamespace(order, nsToVpc, createFails)
    {
      effects := [];
      stale := names;
      order := [];
      var pending := nsToVpc.Keys;
      ghost var done: set<string> := {};
      while pending != {}
        invariant pending <= nsToVpc.Keys && done == nsToVpc.Keys - pending
        invariant NsLoopState(nsToVpc, names, createFails, done, order, effects, stale)
        decreases pending
      {
        var ns :| ns in pending;
        var calls, infraSettingName := NamespaceCalls(ns, nsToVpc[ns], createFails);
        NsLoopStep(nsToVpc, names, createFails, done, order, effects, stale, ns, calls, infraSettingName);
        stale, effects, order := stale - {infraSettingName}, effects + calls, order + [ns];
        done, pending := done + {ns}, pending - {ns};
      }
    }

    /** One delete per stale setting, in one order of the set. */
    method DeleteStale(stale: set<string>) returns (deletes: seq<Effect>)
      ensures IsDeleteRun(deletes, stale)
    {
      deletes := [];
      var toDelete := stale;
      while toDelete != {}
        invariant toDelete <= stale
        invariant forall n | n in stale - toDelete :: DeleteInfraSetting(n) in deletes
        invariant forall i | 0 <= i < |deletes| :: deletes[i].DeleteInfraSetting? && deletes[i].name in stale - toDelete
        invariant forall i, j | 0 <= i < j < |deletes| :: deletes[i] != deletes[j]
        decreases toDelete
      {
        var name :| name in toDelete;
        deletes := deletes + [DeleteInfraSetting(name)];
        toDelete := toDelete - {name};
      }
    }

    /**
     * `createInfraSettingAndAnnotateNS(nsToVPCMap)`: lists the infra settings
     * (`crNames`, `None` when listing fails, which ends the step), drops from
     * the stale set every name some VPC uses, makes each namespace's calls,
     * deletes what is left stale and finally removes its annotations.
     * `createFails` names the namespaces whose own create-or-update call fails.
     */
    method CreateInfraSettingAndAnnotateNS(nsToVpc: map<string, string>, crNames: Option<seq<string>>,
                                           createFails: set<string>) returns (effects: seq<Effect>, ghost order: seq<string>)
      requires crNames.Some? ==> forall ns | ns in nsToVpc :: HasProject(nsToVpc[ns])
      ensures crNames.None? ==> effects == []
      ensures crNames.Some? ==> IsOrderedInfraRun(effects, order, nsToVpc, crNames.value, createFails)
      ensures crNames.Some? ==> IsInfraRun(effects, nsToVpc, crNames.value, createFails)
    {
      if crNames.None? {
        return [], [];
      }
      var names := NameSet(crNames.value);
      var perNs, stale;
      perNs, stale, order := AnnotateNamespaces(nsToVpc, names, createFails);
      assert stale == StaleSet(crNames.value, nsToVpc);
      var deletes := DeleteStale(stale);
      effects := perNs + deletes + [RemoveInfraSettingAnnotation(stale)];
      assert effects[..|perNs|] == perNs;
      assert effects[|perNs|..|effects| - 1] == deletes;
      OrderedInfraRunIsInfraRun(effects, order, nsToVpc, crNames.value, createFails);
    }

    /** The router table a list describes, built entry by entry. */
    method BuildTable(lrs: seq<Tier1Lr>) returns (table: map<string, string>)
      ensures table == Table(lrs)
    {
      table := map[];
      for i := 0 to |lrs|
        invariant table == Table(lrs[..i])
      {
        assert lrs[..i + 1][..i] == lrs[..i];
        table := table[lrs[i].tier1LrId := lrs[i].segmentId];
      }
      assert lrs[..|lrs|] == lrs;
    }

    /** Writes every VPC of the listing into the table, noting whether any entry was missing or different. */
    method MergeListing(table: map<string, string>, desired: map<string, string>)
      returns (merged: map<string, string>, updateCloud: bool)
      ensures merged == table + desired
      ensures updateCloud <==> NeedsUpdate(table, desired)
    {
      merged := table;
      updateCloud := false;
      var pending := desired.Keys;
      while pending != {}
        invariant MergeState(table, desired, pending, merged, updateCloud)
        decreases pending
      {
        var vpc :| vpc in pending;
        MergeStep(table, desired, pending, merged, updateCloud, vpc);
        if vpc !in merged || merged[vpc] != desired[vpc] {
          updateCloud := true;
          merged := merged[vpc := desired[vpc]];
        }
        pending := pending - {vpc};
      }
      MergeDone(table, desired, merged, updateCloud);
    }

    /** Lists a table as router entries, in one order of its keys, filling a slice of its size. */
    method ListRouters(m: map<string, string>) returns (lrs: seq<Tier1Lr>)
      ensures IsTableListing(lrs, m)
    {
      var list := new Tier1Lr[|m|];
      var remaining := m.Keys;
      var index := 0;
      ghost var filled: seq<Tier1Lr> := [];
      while remaining != {}
        invariant index == |filled| && index + |remaining| == list.Length
        invariant list[..index] == filled
        invariant ListingState(filled, m, remaining)
        decreases remaining
      {
        var vpc :| vpc in remaining;
        AddLrInfo(list, vpc, m[vpc], index);
        ListingStep(filled, m, remaining, vpc);
        filled := filled + [Tier1Lr(vpc, m[vpc])];
        index := index + 1;
        remaining := remaining - {vpc};
      }
      assert list[..] == filled;
      ListedCovers(filled, m);
      lrs := list[..];
    }

    /** `addLRInfo(vpc, subnet, index)`: stores one router entry at `index`. */
    method AddLrInfo(list: array<Tier1Lr>, vpc: string, subnet: string, index: nat)
      requires index < list.Length
      modifies list
      ensures list[..] == old(list[..])[index := Tier1Lr(vpc, subnet)]
      ensures list[..index + 1] == old(list[..index]) + [Tier1Lr(vpc, subnet)]
    {
      list[index] := Tier1Lr(vpc, subnet);
      assert list[..index + 1] == old(list[..index]) + [Tier1Lr(vpc, subnet)];
    }

    /**
     * `SyncLSLRNetwork()`: `vpcs` is the VPC listing (`None` when listing fails)
     * and `cloud` the cloud found in the controller cache (`None` when absent).
     * Past its guards, the sync merges the listing into the cloud's router
     * table and PUTs the cloud only when that changes the table, then runs the
     * infra-setting step.
     */
    method SyncLSLRNetwork(vpcs: Option<VpcListing>, cloud: Option<CloudModel>, cloudName: string, tenant: string,
                           crNames: Option<seq<string>>, createFails: set<string>)
      returns (effects: seq<Effect>, ghost order: seq<string>)
      requires vpcs.Some? && cloud.Some? && UsesOverlay(cloud.value) ==>
                 cloud.value.nsxtConfiguration.value.dataNetworkConfig.value.tier1SegmentConfig.Some?
      requires vpcs.Some? && cloud.Some? && UsesOverlay(cloud.value) && HasManualConfig(cloud.value) && crNames.Some? ==>
                 forall ns | ns in vpcs.value.nsToVpc :: HasProject(vpcs.value.nsToVpc[ns])
      ensures vpcs.None? || cloud.None? || !UsesOverlay(cloud.value) || !HasManualConfig(cloud.value) ==> effects == []
      ensures vpcs.Some? && cloud.Some? && UsesOverlay(cloud.value) && HasManualConfig(cloud.value) ==>
        var desired := vpcs.value.vpcToSubnet;
        var table := Table(ManualLrs(cloud.value));
        var nsToVpc := vpcs.value.nsToVpc;
        if |desired| > 0 && NeedsUpdate(table, desired) then
          && |effects| >= 1
          && effects[0].PutCloud?
          && effects[0].path == "/api/cloud/" + cloud.value.uuid
          && effects[0].objName == cloudName && effects[0].tenant == tenant
          && UsesOverlay(effects[0].cloud) && HasManualConfig(effects[0].cloud)
          && effects[0].cloud == WithRouters(cloud.value, ManualLrs(effects[0].cloud))
          && IsTableListing(ManualLrs(effects[0].cloud), table + desired)
          && (crNames.None? ==> |effects| == 1)
          && (crNames.Some? ==> IsOrderedInfraRun(effects[1..], order, nsToVpc, crNames.value, createFails))
          && (crNames.Some? ==> IsInfraRun(effects[1..], nsToVpc, crNames.value, createFails))
        else
          && (crNames.None? ==> effects == [])
          && (crNames.Some? ==> IsOrderedInfraRun(effects, order, nsToVpc, crNames.value, createFails))
          && (crNames.Some? ==> IsInfraRun(effects, nsToVpc, crNames.value, createFails))
    {
      if vpcs.None? || cloud.None? || !UsesOverlay(cloud.value) || !HasManualConfig(cloud.value) {
        return [], [];
      }
      var desired := vpcs.value.vpcToSubnet;
      var model := cloud.value;
      if |desired| > 0 {
        var table := BuildTable(ManualLrs(model));
        var merged, updateCloud := MergeListing(table, desired);
        if !updateCloud {
          effects, order := CreateInfraSettingAndAnnotateNS(vpcs.value.nsToVpc, crNames, createFails);
          return;
        }
        var lrs := ListRouters(merged);
        var updated := WithRouters(model, lrs);
        var put := PutCloud("/api/cloud/" + model.uuid, cloudName, tenant, updated);
        var infra;
        infra, order := CreateInfraSettingAndAnnotateNS(vpcs.value.nsToVpc, crNames, createFails);
        effects := [put] + infra;
        assert effects[1..] == infra;
        return;
      }
      effects, order := CreateInfraSettingAndAnnotateNS(vpcs.value.nsToVpc, crNames, createFails);
    }
  }
}
