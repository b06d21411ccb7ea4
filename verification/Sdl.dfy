/**
 * SDL version 2 (sdl/v2.go): one description compiled twice, into on-chain
 * deployment groups and into the manifest sent to the provider.
 */
module Sdl {
  import opened Wrappers
  import opened ResourceTypes
  import opened Manifest
  import opened CrossValidation
  import opened Names
  import opened Attributes
  import opened Permutations

  datatype ExposeTo = ExposeTo(service: string, global: bool)

  datatype Expose = Expose(port: nat, as_: nat, proto: string, to: seq<ExposeTo>, accept: seq<string>)

  datatype SdlService = SdlService(image: string, args: seq<string>, env: seq<string>, expose: seq<Expose>)

  datatype ServiceDeployment = ServiceDeployment(profile: string, count: nat)

  datatype ComputeResources = ComputeResources(cpu: Option<Quantity>, memory: Option<Quantity>, storage: Option<Quantity>)

  datatype Coin = Coin(denom: string, amount: int)

  datatype SignedBy = SignedBy(allOf: seq<string>, anyOf: seq<string>)

  datatype Placement = Placement(attributes: seq<Attribute>, signedBy: SignedBy, pricing: map<string, Coin>)

  datatype Document = Document(
    services: map<string, SdlService>,
    compute: map<string, Option<ComputeResources>>,
    placements: map<string, Placement>,
    deployments: map<string, map<string, ServiceDeployment>>)

  datatype PricedResource = PricedResource(resources: ResourceUnits, price: Coin, count: nat)

  datatype Requirements = Requirements(attributes: seq<Attribute>, signedBy: SignedBy)

  datatype GroupSpec = GroupSpec(name: string, requirements: Requirements, resources: seq<PricedResource>)

  datatype CompileError = NoComputeProfile | NoPlacementProfile | NoPricing | NoService | UnsupportedProtocol

  function ToUnits(c: Option<ComputeResources>): ResourceUnits {
    if c.None? then ResourceUnits(None, None, None, [])
    else ResourceUnits(c.value.cpu, c.value.memory, c.value.storage, [])
  }

  // ---------------------------------------------------------------- the (service, placement) pairs, in compilation order

  datatype Entry = Entry(svc: string, placement: string, depl: ServiceDeployment)

  function EntriesOf(svc: string, depl: map<string, ServiceDeployment>, names: seq<string>): (r: seq<Entry>)
    requires forall n :: n in names ==> n in depl
    ensures |r| == |names|
    ensures forall i :: 0 <= i < |r| ==> r[i] == Entry(svc, names[i], depl[names[i]])
  {
    seq(|names|, i requires 0 <= i < |names| => Entry(svc, names[i], depl[names[i]]))
  }

  function Row(doc: Document, svc: string): seq<Entry>
    requires svc in doc.deployments
  {
    EntriesOf(svc, doc.deployments[svc], SortedNames(doc.deployments[svc].Keys))
  }

  function Rows(doc: Document, svcs: seq<string>): seq<Entry>
    requires forall n :: n in svcs ==> n in doc.deployments
  {
    if svcs == [] then [] else Row(doc, svcs[0]) + Rows(doc, svcs[1..])
  }

  function Entries(doc: Document): seq<Entry> {
    Rows(doc, SortedNames(doc.deployments.Keys))
  }

  /** The entries that go into one placement group, in order. */
  function Of(es: seq<Entry>, placement: string): (r: seq<Entry>)
    ensures forall e :: e in r ==> e in es && e.placement == placement
  {
    if es == [] then []
    else (if es[0].placement == placement then [es[0]] else []) + Of(es[1..], placement)
  }

  function Placements(es: seq<Entry>): set<string> {
    set e | e in es :: e.placement
  }

  // ---------------------------------------------------------------- deployment groups

  predicate AnyGlobal(to: seq<ExposeTo>) {
    to != [] && (to[0].global || AnyGlobal(to[1..]))
  }

  /** The deployment compiler looks at the protocol of global exposes only. */
  predicate ProtocolKnown(e: Expose, globalOnly: bool) {
    (globalOnly ==> AnyGlobal(e.to)) ==> ParseServiceProtocol(e.proto).Some?
  }

  predicate ProtocolsKnown(exposes: seq<Expose>, globalOnly: bool) {
    forall i :: 0 <= i < |exposes| ==> ProtocolKnown(exposes[i], globalOnly)
  }

  /** The parsed protocol; unknown ones are rejected before this is used. */
  function Proto(e: Expose): string {
    var p := ParseServiceProtocol(e.proto);
    if p.Some? then p.value else ""
  }

  function ExposeOf(e: Expose, t: ExposeTo): ServiceExpose {
    ServiceExpose(e.port, e.as_, Proto(e), t.service, t.global, e.accept)
  }

  function EndpointsTo(e: Expose, to: seq<ExposeTo>): seq<EndpointKind> {
    if to == [] then []
    else (if to[0].global then [KindOf(ExposeOf(e, to[0]))] else []) + EndpointsTo(e, to[1..])
  }

  function EndpointsOf(exposes: seq<Expose>): seq<EndpointKind> {
    if exposes == [] then [] else EndpointsTo(exposes[0], exposes[0].to) + EndpointsOf(exposes[1..])
  }

  /** A service that is not described exposes nothing: the map yields the zero value. */
  function ExposesOfService(doc: Document, svc: string): seq<Expose> {
    if svc in doc.services then doc.services[svc].expose else []
  }

  function DeploymentError(doc: Document, e: Entry): Option<CompileError> {
    if e.depl.profile !in doc.compute then Some(NoComputeProfile)
    else if e.placement !in doc.placements then Some(NoPlacementProfile)
    else if e.depl.profile !in doc.placements[e.placement].pricing then Some(NoPricing)
    else if !ProtocolsKnown(ExposesOfService(doc, e.svc), true) then Some(UnsupportedProtocol)
    else None
  }

  function ResourceFor(doc: Document, e: Entry): PricedResource
    requires DeploymentError(doc, e).None?
  {
    PricedResource(
      ToUnits(doc.compute[e.depl.profile]).(endpoints := EndpointsOf(ExposesOfService(doc, e.svc))),
      doc.placements[e.placement].pricing[e.depl.profile],
      e.depl.count)
  }

  function FirstError(doc: Document, es: seq<Entry>, manifest: bool): Option<CompileError> {
    if es == [] then None
    else
      var err := EntryError(doc, es[0], manifest);
      if err.Some? then err else FirstError(doc, es[1..], manifest)
  }

  ghost predicate DeploymentsCompile(doc: Document, es: seq<Entry>) {
    forall e :: e in es ==> DeploymentError(doc, e).None?
  }

  /** The placement's own requirements, with the attributes sorted by key; the order among equal keys is the sorting library's choice. */
  ghost predicate IsRequirements(p: Placement, r: Requirements) {
    multiset(r.attributes) == multiset(p.attributes) && KeySorted(r.attributes) && r.signedBy == p.signedBy
  }

  /** `g` is the group of its placement over `es`: its requirements, and one priced resource an entry, in order. */
  ghost predicate IsGroupSpec(doc: Document, es: seq<Entry>, g: GroupSpec) {
    var mine := Of(es, g.name);
    && DeploymentsCompile(doc, es)
    && g.name in doc.placements && IsRequirements(doc.placements[g.name], g.requirements)
    && |g.resources| == |mine|
    && forall i :: 0 <= i < |mine| ==> g.resources[i] == ResourceFor(doc, mine[i])
  }

  ghost predicate AreDeploymentGroups(doc: Document, gs: seq<GroupSpec>) {
    var es := Entries(doc);
    var names := SortedNames(Placements(es));
    && |gs| == |names|
    && forall i :: 0 <= i < |names| ==> gs[i].name == names[i] && IsGroupSpec(doc, es, gs[i])
  }

  // ---------------------------------------------------------------- manifest

  function ExposesTo(e: Expose, to: seq<ExposeTo>): seq<ServiceExpose> {
    if to == [] then [] else [ExposeOf(e, to[0])] + ExposesTo(e, to[1..])
  }

  /** An expose without targets yields one that is not global. */
  function ExposesFor(e: Expose): seq<ServiceExpose> {
    if e.to == [] then [ExposeOf(e, ExposeTo("", false))] else ExposesTo(e, e.to)
  }

  function ExposesOf(exposes: seq<Expose>): seq<ServiceExpose> {
    if exposes == [] then [] else ExposesFor(exposes[0]) + ExposesOf(exposes[1..])
  }

  /** Not after: the negation of the swapped `less` the source sorts by. */
  predicate ExposeLeq(a: ServiceExpose, b: ServiceExpose) {
    if a.service != b.service then LexLeq(a.service, b.service)
    else if a.port != b.port then a.port < b.port
    else if a.proto != b.proto then LexLeq(a.proto, b.proto)
    else a.global || !b.global
  }

  ghost predicate SortedExposes(s: seq<ServiceExpose>) {
    forall i, j :: 0 <= i < j < |s| ==> ExposeLeq(s[i], s[j])
  }

  function ManifestError(doc: Document, e: Entry): Option<CompileError> {
    if e.depl.profile !in doc.compute then Some(NoComputeProfile)
    else if e.svc !in doc.services then Some(NoService)
    else if !ProtocolsKnown(doc.services[e.svc].expose, false) then Some(UnsupportedProtocol)
    else None
  }

  ghost predicate ManifestCompiles(doc: Document, es: seq<Entry>) {
    forall e :: e in es ==> ManifestError(doc, e).None?
  }

  /** The service of one entry. The order among exposes that compare equal is the sorting library's choice. */
  ghost predicate IsService(doc: Document, e: Entry, s: Service)
    requires ManifestError(doc, e).None?
  {
    var svc := doc.services[e.svc];
    && s.name == e.svc && s.image == svc.image && s.args == svc.args && s.env == svc.env
    && s.resources == ToUnits(doc.compute[e.depl.profile])
    && s.count == e.depl.count
    && multiset(s.expose) == multiset(ExposesOf(svc.expose))
    && SortedExposes(s.expose)
  }

  ghost predicate IsManifestGroup(doc: Document, es: seq<Entry>, g: Group) {
    var mine := Of(es, g.name);
    && ManifestCompiles(doc, es)
    && |g.services| == |mine|
    && forall i :: 0 <= i < |mine| ==> IsService(doc, mine[i], g.services[i])
  }

  ghost predicate IsManifest(doc: Document, gs: seq<Group>) {
    var es := Entries(doc);
    var names := SortedNames(Placements(es));
    && |gs| == |names|
    && forall i :: 0 <= i < |names| ==> gs[i].name == names[i] && IsManifestGroup(doc, es, gs[i])
  }

  // ---------------------------------------------------------------- the two outputs cross-validate

  function AsResources(rs: seq<PricedResource>): (r: seq<Resources>)
    ensures |r| == |rs| && forall i :: 0 <= i < |rs| ==> r[i] == Resources(rs[i].resources, rs[i].count)
  {
    if rs == [] then [] else [Resources(rs[0].resources, rs[0].count)] + AsResources(rs[1..])
  }

  function AsGroups(gs: seq<GroupSpec>): (r: seq<ResourceGroup>)
    ensures |r| == |gs| && forall i :: 0 <= i < |gs| ==> r[i] == ResourceGroup(gs[i].name, AsResources(gs[i].resources))
  {
    if gs == [] then [] else [ResourceGroup(gs[0].name, AsResources(gs[0].resources))] + AsGroups(gs[1..])
  }

  lemma {:induction false} ExposeCountConcat(a: seq<ServiceExpose>, b: seq<ServiceExpose>, kind: EndpointKind)
    ensures ExposeCount(a + b, kind) == ExposeCount(a, kind) + ExposeCount(b, kind)
  {
    if a == [] {
      assert a + b == b;
    } else {
      assert (a + b)[1..] == a[1..] + b;
      ExposeCountConcat(a[1..], b, kind);
    }
  }

  lemma {:induction false} EndpointCountConcat(a: seq<EndpointKind>, b: seq<EndpointKind>, kind: EndpointKind)
    ensures EndpointCount(a + b, kind) == EndpointCount(a, kind) + EndpointCount(b, kind)
  {
    if a == [] {
      assert a + b == b;
    } else {
      assert (a + b)[1..] == a[1..] + b;
      EndpointCountConcat(a[1..], b, kind);
    }
  }

  lemma {:induction false} ExposeCountPermuted(a: seq<ServiceExpose>, b: seq<ServiceExpose>, kind: EndpointKind)
    requires multiset(a) == multiset(b)
    ensures ExposeCount(a, kind) == ExposeCount(b, kind)
    decreases |a|
  {
    if a == [] {
      assert |multiset(b)| == |b| == 0;
    } else {
      var k := MatchHead(a, b);
      ExposeCountPermuted(a[1..], b[..k] + b[k + 1..], kind);
      ExposeCountConcat(b[..k], b[k + 1..], kind);
      ExposeCountConcat(b[..k], b[k..], kind);
      assert b == b[..k] + b[k..] && b[k..][1..] == b[k + 1..];
    }
  }

  lemma {:induction false} TargetsAgree(e: Expose, to: seq<ExposeTo>, kind: EndpointKind)
    ensures ExposeCount(ExposesTo(e, to), kind) == EndpointCount(EndpointsTo(e, to), kind)
  {
    if to != [] {
      TargetsAgree(e, to[1..], kind);
      assert ExposesTo(e, to)[1..] == ExposesTo(e, to[1..]);
      EndpointCountConcat(if to[0].global then [KindOf(ExposeOf(e, to[0]))] else [], EndpointsTo(e, to[1..]), kind);
      if to[0].global {
        assert [KindOf(ExposeOf(e, to[0]))][1..] == [];
      }
    }
  }

  /** The manifest's global exposes and the endpoints put on chain are the same in number and kind. */
  lemma {:induction false} ExposesAgree(exposes: seq<Expose>, kind: EndpointKind)
    ensures ExposeCount(ExposesOf(exposes), kind) == EndpointCount(EndpointsOf(exposes), kind)
  {
    if exposes != [] {
      var e := exposes[0];
      ExposesAgree(exposes[1..], kind);
      TargetsAgree(e, e.to, kind);
      ExposeCountConcat(ExposesFor(e), ExposesOf(exposes[1..]), kind);
      EndpointCountConcat(EndpointsTo(e, e.to), EndpointsOf(exposes[1..]), kind);
      if e.to == [] {
        assert ExposesFor(e)[1..] == [];
      }
    }
  }

  /** Same class and count at every position. */
  ghost predicate Aligned(m: seq<Resources>, d: seq<Resources>) {
    |m| == |d| && forall i :: 0 <= i < |m| ==> ClassOf(m[i].units) == ClassOf(d[i].units) && m[i].count == d[i].count
  }

  lemma {:induction false} AlignedTotals(m: seq<Resources>, d: seq<Resources>, c: Class)
    requires Aligned(m, d)
    ensures CountOf(m, c) == CountOf(d, c)
  {
    if m != [] {
      AlignedTotals(m[1..], d[1..], c);
    }
  }

  lemma {:induction false} EndpointTotalsAgree(ss: seq<Service>, d: seq<Resources>, kind: EndpointKind)
    requires |ss| == |d|
    requires forall i :: 0 <= i < |ss| ==> ExposeCount(ss[i].expose, kind) == EndpointCount(d[i].units.endpoints, kind)
    ensures ManifestEndpoints(ss, kind) == DeploymentEndpoints(d, kind)
  {
    if ss != [] {
      EndpointTotalsAgree(ss[1..], d[1..], kind);
    }
  }

  lemma {:induction false} EntryAgrees(doc: Document, e: Entry, s: Service, kind: EndpointKind)
    requires ManifestError(doc, e).None? && DeploymentError(doc, e).None?
    requires IsService(doc, e, s)
    ensures ExposeCount(s.expose, kind) == EndpointCount(ResourceFor(doc, e).resources.endpoints, kind)
  {
    ExposeCountPermuted(s.expose, ExposesOf(doc.services[e.svc].expose), kind);
    ExposesAgree(doc.services[e.svc].expose, kind);
  }

  /** One group: the two lists are aligned and the endpoint totals agree. */
  lemma {:induction false} GroupsAgree(doc: Document, es: seq<Entry>, g: GroupSpec, m: Group)
    requires g.name == m.name && IsGroupSpec(doc, es, g) && IsManifestGroup(doc, es, m)
    ensures Aligned(GroupResources(m), AsResources(g.resources))
    ensures SameEndpoints(m, ResourceGroup(g.name, AsResources(g.resources)))
  {
    var mine, d := Of(es, g.name), AsResources(g.resources);
    forall kind ensures ManifestEndpoints(m.services, kind) == DeploymentEndpoints(d, kind) {
      forall i | 0 <= i < |mine| ensures ExposeCount(m.services[i].expose, kind) == EndpointCount(d[i].units.endpoints, kind) {
        EntryAgrees(doc, mine[i], m.services[i], kind);
      }
      EndpointTotalsAgree(m.services, d, kind);
    }
  }

  lemma {:induction false} GroupVerdictForSdl(doc: Document, es: seq<Entry>, g: GroupSpec, m: Group)
    requires g.name == m.name && IsGroupSpec(doc, es, g) && IsManifestGroup(doc, es, m)
    ensures GroupVerdict(m, ResourceGroup(g.name, AsResources(g.resources))).Success? <==> ZerosFollowed(AsResources(g.resources))
  {
    var d := AsResources(g.resources);
    GroupsAgree(doc, es, g, m);
    forall c ensures CountOf(GroupResources(m), c) == CountOf(d, c) {
      AlignedTotals(GroupResources(m), d, c);
    }
    AcceptanceCharacterised(m, ResourceGroup(g.name, d));
  }

  lemma {:induction false} LastNamedDistinct(gs: seq<ResourceGroup>, i: nat)
    requires i < |gs|
    requires forall a, b :: 0 <= a < b < |gs| ==> gs[a].name != gs[b].name
    ensures LastNamed(gs, gs[i].name) == Some(gs[i])
  {
    if i < |gs| - 1 {
      LastNamedDistinct(gs[..|gs| - 1], i);
    }
  }

  /**
   * Whenever both compilers succeed, the manifest passes cross-validation
   * against the deployment groups exactly when, in every group, each
   * zero-count entry is followed by a positive one of the same class.
   */
  lemma {:induction false} CompiledOutputsCrossValidate(doc: Document, gs: seq<GroupSpec>, m: seq<Group>)
    requires AreDeploymentGroups(doc, gs) && IsManifest(doc, m)
    ensures Accepted(m, AsGroups(gs)) <==> forall i :: 0 <= i < |gs| ==> ZerosFollowed(AsResources(gs[i].resources))
  {
    hide IsGroupSpec, IsManifestGroup, GroupVerdict, ZerosFollowed, LastNamed;
    var es, ds := Entries(doc), AsGroups(gs);
    forall i | 0 <= i < |gs|
      ensures GroupAccepted(m[i], ds) <==> ZerosFollowed(AsResources(gs[i].resources))
    {
      LastNamedDistinct(ds, i);
      GroupVerdictForSdl(doc, es, gs[i], m[i]);
    }
  }

  lemma SortedOne(name: string)
    ensures SortedNames({name}) == [name]
  {
    var r := SortedNames({name});
    assert name in r;
    assert forall i :: 0 <= i < |r| ==> r[i] in r;
  }

  function ZeroCountDocument(): Document {
    Document(
      map["web" := SdlService("nginx", [], [], [])],
      map["small" := None],
      map["west" := Placement([], SignedBy([], []), map["small" := Coin("uakt", 1)])],
      map["web" := map["west" := ServiceDeployment("small", 0)]])
  }

  lemma ZeroCountEntries()
    ensures Entries(ZeroCountDocument()) == [Entry("web", "west", ServiceDeployment("small", 0))]
    ensures SortedNames(Placements(Entries(ZeroCountDocument()))) == ["west"]
  {
    var doc := ZeroCountDocument();
    var e := Entry("web", "west", ServiceDeployment("small", 0));
    SortedOne("web");
    SortedOne("west");
    assert doc.deployments.Keys == {"web"} && doc.deployments["web"].Keys == {"west"};
    assert Row(doc, "web") == [e];
    assert ["web"][1..] == [];
    assert Placements([e]) == {"west"};
  }

  const NO_UNITS: ResourceUnits := ResourceUnits(None, None, None, [])

  lemma ZeroCountGroups(e: Entry, g: GroupSpec, m: Group)
    requires e == Entry("web", "west", ServiceDeployment("small", 0))
    requires g == GroupSpec("west", Requirements([], SignedBy([], [])), [PricedResource(NO_UNITS, Coin("uakt", 1), 0)])
    requires m == Group("west", [Service("web", "nginx", [], [], NO_UNITS, 0, [])])
    ensures IsGroupSpec(ZeroCountDocument(), [e], g)
    ensures IsManifestGroup(ZeroCountDocument(), [e], m)
  {
    var doc := ZeroCountDocument();
    assert [e][1..] == [];
    assert Of([e], "west") == [e];
    assert DeploymentError(doc, e).None? && ManifestError(doc, e).None?;
    assert ResourceFor(doc, e) == g.resources[0];
    assert IsService(doc, e, m.services[0]);
  }

  /** An SDL both compilers accept and whose outputs do not cross-validate. */
  lemma ZeroCountRefused()
    ensures exists gs, m ::
              AreDeploymentGroups(ZeroCountDocument(), gs) && IsManifest(ZeroCountDocument(), m) && !Accepted(m, AsGroups(gs))
  {
    hide IsGroupSpec, IsManifestGroup, Accepted, Entries, SortedNames;
    var doc := ZeroCountDocument();
    var e := Entry("web", "west", ServiceDeployment("small", 0));
    var g := GroupSpec("west", Requirements([], SignedBy([], [])), [PricedResource(NO_UNITS, Coin("uakt", 1), 0)]);
    var group := Group("west", [Service("web", "nginx", [], [], NO_UNITS, 0, [])]);
    ZeroCountEntries();
    ZeroCountGroups(e, g, group);
    CompiledOutputsCrossValidate(doc, [g], [group]);
    var d := AsResources([g][0].resources);
    assert d[0].count == 0;
    assert !ZerosFollowed(d);
  }

  lemma {:induction false} RowsFromDocument(doc: Document, svcs: seq<string>)
    requires forall n :: n in svcs ==> n in doc.deployments
    ensures forall e :: e in Rows(doc, svcs) ==>
              e.svc in doc.deployments && e.placement in doc.deployments[e.svc] && e.depl == doc.deployments[e.svc][e.placement]
  {
    if svcs != [] {
      RowsFromDocument(doc, svcs[1..]);
    }
  }

  ghost predicate PositiveEntries(es: seq<Entry>) {
    forall e :: e in es ==> e.depl.count > 0
  }

  lemma {:induction false} PositiveGroup(doc: Document, es: seq<Entry>, g: GroupSpec)
    requires IsGroupSpec(doc, es, g) && PositiveEntries(es)
    ensures ZerosFollowed(AsResources(g.resources))
  {
    var mine := Of(es, g.name);
    forall k | 0 <= k < |mine| ensures g.resources[k].count > 0 {
      assert mine[k] in mine;
    }
  }

  /** With positive counts throughout, the two outputs always cross-validate. */
  lemma {:induction false} PositiveSdlCrossValidates(doc: Document, gs: seq<GroupSpec>, m: seq<Group>)
    requires AreDeploymentGroups(doc, gs) && IsManifest(doc, m)
    requires forall svc, p :: svc in doc.deployments && p in doc.deployments[svc] ==> doc.deployments[svc][p].count > 0
    ensures Accepted(m, AsGroups(gs))
  {
    CompiledOutputsCrossValidate(doc, gs, m);
    RowsFromDocument(doc, SortedNames(doc.deployments.Keys));
    assert PositiveEntries(Entries(doc));
    forall i | 0 <= i < |gs| ensures ZerosFollowed(AsResources(gs[i].resources)) {
      PositiveGroup(doc, Entries(doc), gs[i]);
    }
  }

  // ---------------------------------------------------------------- the compilers, loop by loop

  lemma {:induction false} OfAppend(es: seq<Entry>, e: Entry, p: string)
    ensures Of(es + [e], p) == Of(es, p) + if e.placement == p then [e] else []
  {
    if es == [] {
      assert es + [e] == [e] && [e][1..] == [];
    } else {
      assert (es + [e])[1..] == es[1..] + [e];
      OfAppend(es[1..], e, p);
    }
  }

  function EntryError(doc: Document, e: Entry, manifest: bool): Option<CompileError> {
    if manifest then ManifestError(doc, e) else DeploymentError(doc, e)
  }

  lemma {:induction false} FailsAt(doc: Document, es: seq<Entry>, k: nat, manifest: bool)
    requires k < |es| && EntryError(doc, es[k], manifest).Some?
    requires forall x :: x in es[..k] ==> EntryError(doc, x, manifest).None?
    ensures FirstError(doc, es, manifest) == EntryError(doc, es[k], manifest)
  {
    if k > 0 {
      assert es[0] in es[..k];
      assert forall x :: x in es[1..][..k - 1] ==> x in es[..k];
      FailsAt(doc, es[1..], k - 1, manifest);
    }
  }

  method CollectTargets(e: Expose) returns (r: Option<seq<EndpointKind>>)
    ensures r.Some? <==> ProtocolKnown(e, true)
    ensures r.Some? ==> r.value == EndpointsTo(e, e.to)
  {
    hide ParseServiceProtocol, ShouldBeIngress;
    var endpoints: seq<EndpointKind> := [];
    for j := 0 to |e.to|
      invariant ProtocolKnown(e, true) <==> (AnyGlobal(e.to[j..]) ==> ParseServiceProtocol(e.proto).Some?)
      invariant endpoints + EndpointsTo(e, e.to[j..]) == EndpointsTo(e, e.to)
    {
      assert e.to[j..][1..] == e.to[j + 1..];
      var to := e.to[j];
      if to.global {
        var proto := ParseServiceProtocol(e.proto);
        if proto.None? {
          return None;
        }
        var v := ServiceExpose(e.port, e.as_, proto.value, to.service, to.global, e.accept);
        endpoints := endpoints + [if ShouldBeIngress(v) then SharedHTTP else RandomPort];
      }
    }
    r := Some(endpoints);
  }

  method CollectEndpoints(exposes: seq<Expose>) returns (r: Option<seq<EndpointKind>>)
    ensures r.Some? <==> ProtocolsKnown(exposes, true)
    ensures r.Some? ==> r.value == EndpointsOf(exposes)
  {
    var endpoints: seq<EndpointKind> := [];
    for i := 0 to |exposes|
      invariant forall k :: 0 <= k < i ==> ProtocolKnown(exposes[k], true)
      invariant endpoints + EndpointsOf(exposes[i..]) == EndpointsOf(exposes)
    {
      assert exposes[i..][1..] == exposes[i + 1..];
      var more := CollectTargets(exposes[i]);
      if more.None? {
        return None;
      }
      endpoints := endpoints + more.value;
    }
    r := Some(endpoints);
  }

  ghost predicate GroupsSoFar(doc: Document, done: seq<Entry>, groups: map<string, GroupSpec>) {
    && groups.Keys == Placements(done)
    && DeploymentsCompile(doc, done)
    && forall p :: p in groups ==> groups[p].name == p && IsGroupSpec(doc, done, groups[p])
  }

  lemma GroupSpecStep(doc: Document, done: seq<Entry>, g: GroupSpec, e: Entry)
    requires IsGroupSpec(doc, done, g) && DeploymentError(doc, e).None?
    ensures IsGroupSpec(doc, done + [e],
                        if e.placement == g.name then g.(resources := g.resources + [ResourceFor(doc, e)]) else g)
  {
    OfAppend(done, e, g.name);
    forall x | x in done + [e] ensures DeploymentError(doc, x).None? {
      assert x in done || x == e;
    }
  }

  ghost predicate IsNewGroup(doc: Document, e: Entry, group: GroupSpec)
    requires DeploymentError(doc, e).None?
  {
    group.name == e.placement && group.resources == [] && IsRequirements(doc.placements[e.placement], group.requirements)
  }

  lemma GroupsStep(doc: Document, done: seq<Entry>, groups: map<string, GroupSpec>, e: Entry, group: GroupSpec)
    requires GroupsSoFar(doc, done, groups) && DeploymentError(doc, e).None?
    requires if e.placement in groups then group == groups[e.placement] else IsNewGroup(doc, e, group)
    ensures GroupsSoFar(doc, done + [e], groups[e.placement := group.(resources := group.resources + [ResourceFor(doc, e)])])
  {
    var after := groups[e.placement := group.(resources := group.resources + [ResourceFor(doc, e)])];
    PlacementsAppend(done, e);
    if e.placement !in groups {
      NoneOf(done, e.placement);
    }
    forall p | p in after ensures after[p].name == p && IsGroupSpec(doc, done + [e], after[p]) {
      GroupSpecStep(doc, done, if p == e.placement then group else groups[p], e);
    }
    GroupSpecStep(doc, done, group, e);
  }

  lemma PlacementsAppend(es: seq<Entry>, e: Entry)
    ensures Placements(es + [e]) == Placements(es) + {e.placement}
  {
    assert forall x :: x in es + [e] <==> x in es || x == e;
  }

  lemma {:induction false} NoneOf(es: seq<Entry>, p: string)
    requires p !in Placements(es)
    ensures Of(es, p) == []
  {
    if es != [] {
      assert es[0] in es;
      assert forall x :: x in es[1..] ==> x in es;
      NoneOf(es[1..], p);
    }
  }

  /** `DeploymentGroups`. The two nested loops over sorted names go through `Entries(doc)` in order. */
  method DeploymentGroups(doc: Document) returns (r: Result<seq<GroupSpec>, CompileError>)
    ensures r.Success? ==> AreDeploymentGroups(doc, r.value)
    ensures r.Failure? ==> FirstError(doc, Entries(doc), false) == Some(r.error)
  {
    var groups := CompileGroups(doc, Entries(doc));
    if groups.Failure? {
      return Failure(groups.error);
    }
    var result := OrderGroups(doc, groups.value);
    r := Success(result);
  }

  method CompileGroups(doc: Document, es: seq<Entry>) returns (r: Result<map<string, GroupSpec>, CompileError>)
    ensures r.Success? ==> GroupsSoFar(doc, es, r.value)
    ensures r.Failure? ==> FirstError(doc, es, false) == Some(r.error)
  {
    var groups: map<string, GroupSpec> := map[];
    ghost var done: seq<Entry> := [];
    for k := 0 to |es|
      invariant done == es[..k]
      invariant GroupsSoFar(doc, done, groups)
    {
      var priced := CompileResource(doc, es[k]);
      if priced.Failure? {
        FailsAt(doc, es, k, false);
        return Failure(priced.error);
      }
      groups := AddResource(doc, done, groups, es[k], priced.value);
      done := done + [es[k]];
    }
    assert done == es;
    r := Success(groups);
  }

  method AddResource(doc: Document, ghost done: seq<Entry>, groups: map<string, GroupSpec>, e: Entry, priced: PricedResource)
    returns (after: map<string, GroupSpec>)
    requires GroupsSoFar(doc, done, groups)
    requires DeploymentError(doc, e).None? && priced == ResourceFor(doc, e)
    ensures GroupsSoFar(doc, done + [e], after)
  {
    var group;
    if e.placement in groups {
      group := groups[e.placement];
    } else {
      var infra := doc.placements[e.placement];
      SortStableRefines(infra.attributes);
      group := GroupSpec(e.placement, Requirements(SortStable(infra.attributes), infra.signedBy), []);
    }
    after := groups[e.placement := group.(resources := group.resources + [priced])];
    GroupsStep(doc, done, groups, e, group);
  }

  method OrderGroups(doc: Document, groups: map<string, GroupSpec>) returns (gs: seq<GroupSpec>)
    requires GroupsSoFar(doc, Entries(doc), groups)
    ensures AreDeploymentGroups(doc, gs)
  {
    var names := SortedNames(groups.Keys);
    gs := seq(|names|, i requires 0 <= i < |names| => assert names[i] in names; groups[names[i]]);
    forall i | 0 <= i < |names| ensures gs[i].name == names[i] && IsGroupSpec(doc, Entries(doc), gs[i]) {
      assert names[i] in names;
    }
  }

  method CompileResource(doc: Document, e: Entry) returns (r: Result<PricedResource, CompileError>)
    ensures r.Success? <==> DeploymentError(doc, e).None?
    ensures r.Success? ==> r.value == ResourceFor(doc, e)
    ensures r.Failure? ==> DeploymentError(doc, e) == Some(r.error)
  {
    if e.depl.profile !in doc.compute {
      return Failure(NoComputeProfile);
    }
    if e.placement !in doc.placements {
      return Failure(NoPlacementProfile);
    }
    if e.depl.profile !in doc.placements[e.placement].pricing {
      return Failure(NoPricing);
    }
    var endpoints := CollectEndpoints(ExposesOfService(doc, e.svc));
    if endpoints.None? {
      return Failure(UnsupportedProtocol);
    }
    var units := ToUnits(doc.compute[e.depl.profile]).(endpoints := endpoints.value);
    r := Success(PricedResource(units, doc.placements[e.placement].pricing[e.depl.profile], e.depl.count));
  }

  lemma ExposeLeqTotal(a: ServiceExpose, b: ServiceExpose)
    ensures ExposeLeq(a, b) || ExposeLeq(b, a)
  {
    LexTotal(a.service, b.service);
    LexTotal(a.proto, b.proto);
  }

  lemma ExposeLeqTransitive(a: ServiceExpose, b: ServiceExpose, c: ServiceExpose)
    requires ExposeLeq(a, b) && ExposeLeq(b, c)
    ensures ExposeLeq(a, c)
  {
    if a.service != b.service && b.service != c.service {
      LexTransitive(a.service, b.service, c.service);
      if a.service == c.service {
        LexAntisymmetric(a.service, b.service);
      }
    } else if a.service == b.service == c.service && a.port == b.port == c.port && a.proto != b.proto && b.proto != c.proto {
      LexTransitive(a.proto, b.proto, c.proto);
      if a.proto == c.proto {
        LexAntisymmetric(a.proto, b.proto);
      }
    }
  }

  function InsertExpose(e: ServiceExpose, s: seq<ServiceExpose>): (r: seq<ServiceExpose>)
    ensures multiset(r) == multiset{e} + multiset(s)
  {
    if s == [] || ExposeLeq(e, s[0]) then [e] + s
    else
      assert s == [s[0]] + s[1..];
      [s[0]] + InsertExpose(e, s[1..])
  }

  lemma {:induction false} InsertSorted(e: ServiceExpose, s: seq<ServiceExpose>)
    requires SortedExposes(s)
    ensures SortedExposes(InsertExpose(e, s))
  {
    var r := InsertExpose(e, s);
    if s != [] && !ExposeLeq(e, s[0]) {
      ExposeLeqTotal(e, s[0]);
      InsertSorted(e, s[1..]);
      forall x | x in r[1..] ensures ExposeLeq(s[0], x) {
        assert r[1..] == InsertExpose(e, s[1..]);
        assert x in multiset(r[1..]);
        assert x == e || x in s[1..];
      }
    } else if s != [] {
      forall k | 0 <= k < |s| ensures ExposeLeq(e, s[k]) {
        if k > 0 {
          ExposeLeqTransitive(e, s[0], s[k]);
        }
      }
    }
  }

  /** One admissible outcome of `sort.Slice`. */
  method SortExposes(given: seq<ServiceExpose>) returns (r: seq<ServiceExpose>)
    ensures multiset(r) == multiset(given) && SortedExposes(r)
  {
    r := [];
    for i := 0 to |given|
      invariant multiset(r) == multiset(given[..i]) && SortedExposes(r)
    {
      InsertSorted(given[i], r);
      r := InsertExpose(given[i], r);
      assert given[..i + 1] == given[..i] + [given[i]];
    }
    assert given[..|given|] == given;
  }

  method CollectExposes(exposes: seq<Expose>) returns (r: Option<seq<ServiceExpose>>)
    ensures r.Some? <==> ProtocolsKnown(exposes, false)
    ensures r.Some? ==> r.value == ExposesOf(exposes)
  {
    var out: seq<ServiceExpose> := [];
    for i := 0 to |exposes|
      invariant forall k :: 0 <= k < i ==> ProtocolKnown(exposes[k], false)
      invariant out + ExposesOf(exposes[i..]) == ExposesOf(exposes)
    {
      var e := exposes[i];
      assert exposes[i..][1..] == exposes[i + 1..];
      var proto := ParseServiceProtocol(e.proto);
      if proto.None? {
        assert !ProtocolKnown(e, false);
        return None;
      }
      var more := ExposeTargets(e, proto.value);
      out := out + more;
    }
    r := Some(out);
  }

  method ExposeTargets(e: Expose, proto: string) returns (out: seq<ServiceExpose>)
    requires ParseServiceProtocol(e.proto) == Some(proto)
    ensures out == ExposesFor(e)
  {
    if |e.to| == 0 {
      return [ServiceExpose(e.port, e.as_, proto, "", false, e.accept)];
    }
    out := [];
    for j := 0 to |e.to|
      invariant out + ExposesTo(e, e.to[j..]) == ExposesTo(e, e.to)
    {
      assert e.to[j..][1..] == e.to[j + 1..];
      out := out + [ServiceExpose(e.port, e.as_, proto, e.to[j].service, e.to[j].global, e.accept)];
    }
  }

  method CompileService(doc: Document, e: Entry) returns (r: Result<Service, CompileError>)
    ensures r.Success? <==> ManifestError(doc, e).None?
    ensures r.Success? ==> IsService(doc, e, r.value)
    ensures r.Failure? ==> ManifestError(doc, e) == Some(r.error)
  {
    if e.depl.profile !in doc.compute {
      return Failure(NoComputeProfile);
    }
    if e.svc !in doc.services {
      return Failure(NoService);
    }
    var svc := doc.services[e.svc];
    var exposes := CollectExposes(svc.expose);
    if exposes.None? {
      return Failure(UnsupportedProtocol);
    }
    var sorted := SortExposes(exposes.value);
    r := Success(Service(e.svc, svc.image, svc.args, svc.env, ToUnits(doc.compute[e.depl.profile]), e.depl.count, sorted));
  }

  ghost predicate ManifestSoFar(doc: Document, done: seq<Entry>, groups: map<string, Group>) {
    && groups.Keys == Placements(done)
    && ManifestCompiles(doc, done)
    && forall p :: p in groups ==> groups[p].name == p && IsManifestGroup(doc, done, groups[p])
  }

  lemma ManifestGroupStep(doc: Document, done: seq<Entry>, g: Group, e: Entry, s: Service)
    requires IsManifestGroup(doc, done, g) && ManifestError(doc, e).None? && IsService(doc, e, s)
    ensures IsManifestGroup(doc, done + [e], if e.placement == g.name then g.(services := g.services + [s]) else g)
  {
    OfAppend(done, e, g.name);
    forall x | x in done + [e] ensures ManifestError(doc, x).None? {
      assert x in done || x == e;
    }
  }

  method AddService(doc: Document, ghost done: seq<Entry>, groups: map<string, Group>, e: Entry, s: Service)
    returns (after: map<string, Group>)
    requires ManifestSoFar(doc, done, groups)
    requires ManifestError(doc, e).None? && IsService(doc, e, s)
    ensures ManifestSoFar(doc, done + [e], after)
  {
    var group := if e.placement in groups then groups[e.placement] else Group(e.placement, []);
    after := groups[e.placement := group.(services := group.services + [s])];
    PlacementsAppend(done, e);
    if e.placement !in groups {
      NoneOf(done, e.placement);
    }
    forall p | p in after ensures after[p].name == p && IsManifestGroup(doc, done + [e], after[p]) {
      ManifestGroupStep(doc, done, if p == e.placement then group else groups[p], e, s);
    }
    ManifestGroupStep(doc, done, group, e, s);
  }

  method CompileServices(doc: Document, es: seq<Entry>) returns (r: Result<map<string, Group>, CompileError>)
    ensures r.Success? ==> ManifestSoFar(doc, es, r.value)
    ensures r.Failure? ==> FirstError(doc, es, true) == Some(r.error)
  {
    var groups: map<string, Group> := map[];
    ghost var done: seq<Entry> := [];
    for k := 0 to |es|
      invariant done == es[..k]
      invariant ManifestSoFar(doc, done, groups)
    {
      var service := CompileService(doc, es[k]);
      if service.Failure? {
        FailsAt(doc, es, k, true);
        return Failure(service.error);
      }
      groups := AddService(doc, done, groups, es[k], service.value);
      done := done + [es[k]];
    }
    assert done == es;
    r := Success(groups);
  }

  method OrderManifest(doc: Document, groups: map<string, Group>) returns (gs: seq<Group>)
    requires ManifestSoFar(doc, Entries(doc), groups)
    ensures IsManifest(doc, gs)
  {
    var names := SortedNames(groups.Keys);
    gs := seq(|names|, i requires 0 <= i < |names| => assert names[i] in names; groups[names[i]]);
    forall i | 0 <= i < |names| ensures gs[i].name == names[i] && IsManifestGroup(doc, Entries(doc), gs[i]) {
      assert names[i] in names;
    }
  }

  /** `Manifest`, over the same entries in the same order. */
  method CompileManifest(doc: Document) returns (r: Result<seq<Group>, CompileError>)
    ensures r.Success? ==> IsManifest(doc, r.value)
    ensures r.Failure? ==> FirstError(doc, Entries(doc), true) == Some(r.error)
  {
    var groups := CompileServices(doc, Entries(doc));
    if groups.Failure? {
      return Failure(groups.error);
    }
    var result := OrderManifest(doc, groups.value);
    r := Success(result);
  }
}
