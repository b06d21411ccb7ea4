/**
 * What the two outputs of an SDL (sdl/v2.go) hold, said of the document
 * alone: which groups, which services in which order, and what is in each.
 */
module SdlContents {
  import opened Wrappers
  import opened ResourceTypes
  import opened Manifest
  import opened Names
  import opened Sdl
  import CrossValidation

  predicate Deployed(doc: Document, svc: string, p: string) {
    svc in doc.deployments && p in doc.deployments[svc]
  }

  // ---------------------------------------------------------------- the pairs that are compiled

  /** By service name, then by placement name. */
  predicate Before(a: Entry, b: Entry) {
    if a.svc == b.svc then LexLeq(a.placement, b.placement) && a.placement != b.placement else LexLeq(a.svc, b.svc)
  }

  ghost predicate InOrder(es: seq<Entry>) {
    forall i, j :: 0 <= i < j < |es| ==> Before(es[i], es[j])
  }

  lemma RowExact(doc: Document, svc: string)
    requires svc in doc.deployments
    ensures InOrder(Row(doc, svc))
    ensures forall e :: e in Row(doc, svc) ==> e.svc == svc
    ensures forall p :: p in doc.deployments[svc] ==> Entry(svc, p, doc.deployments[svc][p]) in Row(doc, svc)
  {
    var names := SortedNames(doc.deployments[svc].Keys);
    forall p | p in doc.deployments[svc] ensures Entry(svc, p, doc.deployments[svc][p]) in Row(doc, svc) {
      assert p in names;
      var i :| 0 <= i < |names| && names[i] == p;
      assert Row(doc, svc)[i] == Entry(svc, p, doc.deployments[svc][p]);
    }
  }

  lemma InOrderConcat(a: seq<Entry>, b: seq<Entry>)
    requires InOrder(a) && InOrder(b)
    requires forall x, y :: x in a && y in b ==> Before(x, y)
    ensures InOrder(a + b)
  {
    var all := a + b;
    forall i, j | 0 <= i < j < |all| ensures Before(all[i], all[j]) {
      if j < |a| {
        assert all[i] == a[i] && all[j] == a[j];
      } else if i >= |a| {
        assert all[i] == b[i - |a|] && all[j] == b[j - |a|];
      } else {
        assert all[i] in a && all[j] in b;
      }
    }
  }

  lemma {:induction false} RowsExact(doc: Document, svcs: seq<string>)
    requires StrictlySorted(svcs) && forall n :: n in svcs ==> n in doc.deployments
    ensures InOrder(Rows(doc, svcs))
    ensures forall e :: e in Rows(doc, svcs) ==> e.svc in svcs
    ensures forall svc, p :: svc in svcs && Deployed(doc, svc, p) ==> Entry(svc, p, doc.deployments[svc][p]) in Rows(doc, svcs)
  {
    if svcs != [] {
      RowExact(doc, svcs[0]);
      RowsExact(doc, svcs[1..]);
      forall x, y | x in Row(doc, svcs[0]) && y in Rows(doc, svcs[1..]) ensures Before(x, y) {
        InTail(svcs, y.svc);
        HeadLeast(svcs, y.svc);
      }
      InOrderConcat(Row(doc, svcs[0]), Rows(doc, svcs[1..]));
      forall svc, p | svc in svcs && Deployed(doc, svc, p) ensures Entry(svc, p, doc.deployments[svc][p]) in Rows(doc, svcs) {
        if svc != svcs[0] {
          InTail(svcs, svc);
        }
      }
    }
  }

  /** Every service is compiled for every placement it is deployed in, once, in order of service and then placement, and nothing else is. */
  lemma EntriesExact(doc: Document)
    ensures forall svc, p :: Deployed(doc, svc, p) ==> Entry(svc, p, doc.deployments[svc][p]) in Entries(doc)
    ensures forall e :: e in Entries(doc) ==> Deployed(doc, e.svc, e.placement) && e.depl == doc.deployments[e.svc][e.placement]
    ensures InOrder(Entries(doc))
  {
    var svcs := SortedNames(doc.deployments.Keys);
    RowsExact(doc, svcs);
    RowsFromDocument(doc, svcs);
  }

  // ---------------------------------------------------------------- the services of one placement

  function ServicesIn(doc: Document, p: string): seq<string> {
    SortedNames(set svc | svc in doc.deployments && p in doc.deployments[svc])
  }

  function ServiceNames(es: seq<Entry>): (r: seq<string>)
    ensures |r| == |es| && forall i :: 0 <= i < |es| ==> r[i] == es[i].svc
  {
    if es == [] then [] else [es[0].svc] + ServiceNames(es[1..])
  }

  lemma {:induction false} OfExact(es: seq<Entry>, p: string)
    requires InOrder(es)
    ensures forall e :: e in Of(es, p) <==> e in es && e.placement == p
    ensures InOrder(Of(es, p))
  {
    if es != [] {
      assert forall i, j :: 0 <= i < j < |es[1..]| ==> es[1..][i] == es[i + 1] && es[1..][j] == es[j + 1];
      OfExact(es[1..], p);
      forall y | y in Of(es[1..], p) ensures Before(es[0], y) {
        var i :| 0 <= i < |es[1..]| && es[1..][i] == y;
        assert es[i + 1] == y;
      }
      if es[0].placement == p {
        InOrderConcat([es[0]], Of(es[1..], p));
      }
      assert forall e :: e in es <==> e == es[0] || e in es[1..];
    }
  }

  lemma {:induction false} NamesSorted(mine: seq<Entry>, p: string)
    requires InOrder(mine) && forall e :: e in mine ==> e.placement == p
    ensures StrictlySorted(ServiceNames(mine))
  {
    var names := ServiceNames(mine);
    forall i, j | 0 <= i < j < |names| ensures LexLeq(names[i], names[j]) && names[i] != names[j] {
      assert mine[i] in mine && mine[j] in mine && Before(mine[i], mine[j]);
    }
  }

  lemma InServicesIn(doc: Document, p: string, svc: string)
    ensures svc in ServicesIn(doc, p) <==> Deployed(doc, svc, p)
  {
  }

  lemma {:induction false} InServiceNames(mine: seq<Entry>, svc: string)
    ensures svc in ServiceNames(mine) <==> exists e :: e in mine && e.svc == svc
  {
    var names := ServiceNames(mine);
    if svc in names {
      var i :| 0 <= i < |names| && names[i] == svc;
      assert mine[i] in mine;
    }
    if e :| e in mine && e.svc == svc {
      var i :| 0 <= i < |mine| && mine[i] == e;
      assert names[i] == svc;
    }
  }

  /** The entries of a placement are those of its services, in increasing order of name. */
  lemma {:induction false} EntriesOfPlacement(doc: Document, p: string)
    ensures ServiceNames(Of(Entries(doc), p)) == ServicesIn(doc, p)
    ensures forall e :: e in Of(Entries(doc), p) ==>
              e.placement == p && Deployed(doc, e.svc, p) && e.depl == doc.deployments[e.svc][p]
  {
    hide Entries, Of, SortedNames, ServicesIn, ServiceNames, InOrder;
    var mine := Of(Entries(doc), p);
    EntriesExact(doc);
    OfExact(Entries(doc), p);
    NamesSorted(mine, p);
    forall x ensures x in ServiceNames(mine) <==> x in ServicesIn(doc, p) {
      InServicesIn(doc, p, x);
      InServiceNames(mine, x);
      if Deployed(doc, x, p) {
        assert Entry(x, p, doc.deployments[x][p]) in mine;
      }
    }
    ServicesSorted(doc, p);
    SortedUnique(ServiceNames(mine), ServicesIn(doc, p));
  }

  lemma ServicesSorted(doc: Document, p: string)
    ensures StrictlySorted(ServicesIn(doc, p))
  {
  }

  // ---------------------------------------------------------------- what is in a group

  /** The priced resource of a service in a placement, field by field. */
  ghost predicate IsPriced(doc: Document, svc: string, p: string, r: PricedResource) {
    && Deployed(doc, svc, p)
    && var depl := doc.deployments[svc][p];
       && depl.profile in doc.compute && p in doc.placements && depl.profile in doc.placements[p].pricing
       && r.count == depl.count
       && r.price == doc.placements[p].pricing[depl.profile]
       && HasAmounts(doc.compute[depl.profile], r.resources)
       && r.resources.endpoints == EndpointsOf(ExposesOfService(doc, svc))
  }

  predicate HasAmounts(c: Option<ComputeResources>, u: ResourceUnits) {
    match c
    case None => u.cpu.None? && u.memory.None? && u.storage.None?
    case Some(amounts) => u.cpu == amounts.cpu && u.memory == amounts.memory && u.storage == amounts.storage
  }

  lemma PricedIsExact(doc: Document, e: Entry)
    requires DeploymentError(doc, e).None? && Deployed(doc, e.svc, e.placement) && e.depl == doc.deployments[e.svc][e.placement]
    ensures IsPriced(doc, e.svc, e.placement, ResourceFor(doc, e))
  {
  }

  /** The manifest service of a service in a placement, field by field. */
  ghost predicate IsListed(doc: Document, svc: string, p: string, s: Service) {
    && Deployed(doc, svc, p) && svc in doc.services
    && var depl, from := doc.deployments[svc][p], doc.services[svc];
       && depl.profile in doc.compute
       && s.name == svc && s.image == from.image && s.args == from.args && s.env == from.env
       && s.count == depl.count
       && HasAmounts(doc.compute[depl.profile], s.resources)
       && multiset(s.expose) == multiset(ExposesOf(from.expose))
  }

  lemma ListedIsExact(doc: Document, e: Entry, s: Service)
    requires ManifestError(doc, e).None? && Deployed(doc, e.svc, e.placement) && e.depl == doc.deployments[e.svc][e.placement]
    requires IsService(doc, e, s)
    ensures IsListed(doc, e.svc, e.placement, s)
  {
  }

  /** The names of all placements that a service is deployed in. */
  ghost predicate NamesUsed(doc: Document, names: seq<string>) {
    StrictlySorted(names) && forall p :: p in names <==> exists svc :: Deployed(doc, svc, p)
  }

  lemma PlacementNames(doc: Document)
    ensures NamesUsed(doc, SortedNames(Placements(Entries(doc))))
  {
    hide Entries;
    EntriesExact(doc);
    var names := SortedNames(Placements(Entries(doc)));
    forall p ensures p in names <==> exists svc :: Deployed(doc, svc, p) {
      if p in names {
        var e :| e in Entries(doc) && e.placement == p;
        assert Deployed(doc, e.svc, p);
      }
      if svc :| Deployed(doc, svc, p) {
        assert Entry(svc, p, doc.deployments[svc][p]) in Entries(doc);
      }
    }
  }

  function GroupNames(gs: seq<GroupSpec>): (r: seq<string>)
    ensures |r| == |gs| && forall i :: 0 <= i < |gs| ==> r[i] == gs[i].name
  {
    seq(|gs|, i requires 0 <= i < |gs| => gs[i].name)
  }

  function ManifestNames(gs: seq<Group>): (r: seq<string>)
    ensures |r| == |gs| && forall i :: 0 <= i < |gs| ==> r[i] == gs[i].name
  {
    seq(|gs|, i requires 0 <= i < |gs| => gs[i].name)
  }

  /**
   * The deployment groups of a document: one for each placement that is
   * used, in increasing order of name, and in it one resource for each
   * service deployed there, in increasing order of service name.
   */
  lemma DeploymentGroupsHold(doc: Document, gs: seq<GroupSpec>)
    requires AreDeploymentGroups(doc, gs)
    ensures NamesUsed(doc, GroupNames(gs))
    ensures forall i :: 0 <= i < |gs| ==> |gs[i].resources| == |ServicesIn(doc, gs[i].name)|
    ensures forall i, k :: 0 <= i < |gs| && 0 <= k < |gs[i].resources| ==>
              IsPriced(doc, ServicesIn(doc, gs[i].name)[k], gs[i].name, gs[i].resources[k])
  {
    hide Entries, SortedNames, ServicesIn, IsPriced, IsRequirements;
    PlacementNames(doc);
    assert GroupNames(gs) == SortedNames(Placements(Entries(doc)));
    forall i | 0 <= i < |gs|
      ensures |gs[i].resources| == |ServicesIn(doc, gs[i].name)|
      ensures forall k :: 0 <= k < |gs[i].resources| ==> IsPriced(doc, ServicesIn(doc, gs[i].name)[k], gs[i].name, gs[i].resources[k])
    {
      GroupHolds(doc, gs[i]);
    }
  }

  lemma GroupHolds(doc: Document, g: GroupSpec)
    requires IsGroupSpec(doc, Entries(doc), g)
    ensures |g.resources| == |ServicesIn(doc, g.name)|
    ensures forall k :: 0 <= k < |g.resources| ==> IsPriced(doc, ServicesIn(doc, g.name)[k], g.name, g.resources[k])
  {
    hide Entries, Of, ServicesIn, IsPriced, IsRequirements, DeploymentError, ResourceFor;
    var mine := Of(Entries(doc), g.name);
    EntriesOfPlacement(doc, g.name);
    forall k | 0 <= k < |g.resources| ensures IsPriced(doc, ServicesIn(doc, g.name)[k], g.name, g.resources[k]) {
      assert mine[k] in mine && mine[k] in Entries(doc);
      PricedIsExact(doc, mine[k]);
    }
  }

  lemma ManifestGroupHolds(doc: Document, g: Group)
    requires IsManifestGroup(doc, Entries(doc), g)
    ensures |g.services| == |ServicesIn(doc, g.name)|
    ensures forall k :: 0 <= k < |g.services| ==> IsListed(doc, ServicesIn(doc, g.name)[k], g.name, g.services[k])
  {
    hide Entries, Of, ServicesIn, IsListed, IsService, ManifestError;
    var mine := Of(Entries(doc), g.name);
    EntriesOfPlacement(doc, g.name);
    forall k | 0 <= k < |g.services| ensures IsListed(doc, ServicesIn(doc, g.name)[k], g.name, g.services[k]) {
      assert mine[k] in mine && mine[k] in Entries(doc);
      ListedIsExact(doc, mine[k], g.services[k]);
    }
  }

  /** The manifest of a document: the same groups, and in each the same services in the same order. */
  lemma ManifestHolds(doc: Document, gs: seq<Group>)
    requires IsManifest(doc, gs)
    ensures NamesUsed(doc, ManifestNames(gs))
    ensures forall i :: 0 <= i < |gs| ==> |gs[i].services| == |ServicesIn(doc, gs[i].name)|
    ensures forall i, k :: 0 <= i < |gs| && 0 <= k < |gs[i].services| ==>
              IsListed(doc, ServicesIn(doc, gs[i].name)[k], gs[i].name, gs[i].services[k])
  {
    hide Entries, SortedNames, ServicesIn, IsListed;
    PlacementNames(doc);
    assert ManifestNames(gs) == SortedNames(Placements(Entries(doc)));
    forall i | 0 <= i < |gs|
      ensures |gs[i].services| == |ServicesIn(doc, gs[i].name)|
      ensures forall k :: 0 <= k < |gs[i].services| ==> IsListed(doc, ServicesIn(doc, gs[i].name)[k], gs[i].name, gs[i].services[k])
    {
      ManifestGroupHolds(doc, gs[i]);
    }
  }

  // ---------------------------------------------------------------- exposes and endpoints

  /** `x` is what the manifest says of target `t` of expose `e`. */
  ghost predicate IsExposed(e: Expose, t: ExposeTo, x: ServiceExpose) {
    && x.port == e.port && x.externalPort == e.as_ && x.hosts == e.accept
    && x.service == t.service && x.global == t.global
    && ParseServiceProtocol(e.proto) == Some(x.proto)
  }

  /** The targets of an expose; without any there is one inside the group. */
  function Targets(e: Expose): seq<ExposeTo> {
    if e.to == [] then [ExposeTo("", false)] else e.to
  }

  function TargetCount(exposes: seq<Expose>): nat {
    if exposes == [] then 0 else |Targets(exposes[0])| + TargetCount(exposes[1..])
  }

  /** The position of a target among all targets of a service. */
  function Position(exposes: seq<Expose>, i: nat, j: nat): nat
    requires i < |exposes|
  {
    TargetCount(exposes[..i]) + j
  }

  lemma {:induction false} ExposesToAt(e: Expose, to: seq<ExposeTo>, j: nat)
    requires j < |to|
    ensures |ExposesTo(e, to)| == |to| && ExposesTo(e, to)[j] == ExposeOf(e, to[j])
  {
    if |to| > 1 {
      ExposesToAt(e, to[1..], if j == 0 then 0 else j - 1);
    }
  }

  lemma ExposesForAt(e: Expose, j: nat)
    requires j < |Targets(e)| && ParseServiceProtocol(e.proto).Some?
    ensures |ExposesFor(e)| == |Targets(e)| && IsExposed(e, Targets(e)[j], ExposesFor(e)[j])
  {
    if e.to != [] {
      ExposesToAt(e, e.to, j);
    }
  }

  lemma {:induction false} ExposesToLength(e: Expose, to: seq<ExposeTo>)
    ensures |ExposesTo(e, to)| == |to|
  {
    if to != [] {
      ExposesToLength(e, to[1..]);
    }
  }

  lemma {:induction false} ExposesLength(exposes: seq<Expose>)
    ensures |ExposesOf(exposes)| == TargetCount(exposes)
  {
    if exposes != [] {
      ExposesToLength(exposes[0], exposes[0].to);
      ExposesLength(exposes[1..]);
    }
  }

  lemma {:induction false} TargetCountMonotone(exposes: seq<Expose>, i: nat)
    requires i < |exposes|
    ensures TargetCount(exposes[..i]) + |Targets(exposes[i])| <= TargetCount(exposes)
  {
    if i > 0 {
      TargetCountMonotone(exposes[1..], i - 1);
      assert exposes[..i][1..] == exposes[1..][..i - 1];
    }
  }

  lemma PositionTail(exposes: seq<Expose>, i: nat, j: nat)
    requires 0 < i < |exposes|
    ensures Position(exposes, i, j) == |Targets(exposes[0])| + Position(exposes[1..], i - 1, j)
  {
    assert exposes[..i][1..] == exposes[1..][..i - 1] && exposes[..i][0] == exposes[0];
  }

  /** Every target of every expose of a service has its manifest entry, at its place, and there are no others. */
  lemma {:induction false} ExposesExact(exposes: seq<Expose>, i: nat, j: nat)
    requires i < |exposes| && j < |Targets(exposes[i])| && ProtocolsKnown(exposes, false)
    ensures |ExposesOf(exposes)| == TargetCount(exposes)
    ensures Position(exposes, i, j) < |ExposesOf(exposes)|
    ensures IsExposed(exposes[i], Targets(exposes[i])[j], ExposesOf(exposes)[Position(exposes, i, j)])
  {
    hide IsExposed, ParseServiceProtocol, Targets;
    var head, tail := exposes[0], exposes[1..];
    assert ProtocolKnown(head, false);
    ExposesLength(exposes);
    TargetCountMonotone(exposes, i);
    if i == 0 {
      assert exposes[..0] == [];
      ExposesForAt(head, j);
    } else {
      assert forall k :: 0 <= k < |tail| ==> tail[k] == exposes[k + 1] && ProtocolKnown(exposes[k + 1], false);
      ExposesExact(tail, i - 1, j);
      PositionTail(exposes, i, j);
      ForLength(head);
    }
  }

  lemma ForLength(e: Expose)
    ensures |ExposesFor(e)| == |Targets(e)|
  {
    ExposesToLength(e, e.to);
  }

  /** What gets a shared HTTP endpoint: a global TCP expose seen from outside on port 80. */
  lemma HttpIff(e: ServiceExpose)
    ensures CrossValidation.KindOf(e) == SharedHTTP <==>
            e.global && e.proto == "TCP" && (e.externalPort == 80 || (e.externalPort == 0 && e.port == 80))
  {
  }

  /** An expose seen from outside as HTTP. */
  predicate IsHttp(e: Expose) {
    ParseServiceProtocol(e.proto) == Some("TCP") && (e.as_ == 80 || (e.as_ == 0 && e.port == 80))
  }

  function GlobalTargets(to: seq<ExposeTo>): nat {
    if to == [] then 0 else GlobalTargets(to[1..]) + if to[0].global then 1 else 0
  }

  /** The global targets of all exposes that are, or are not, HTTP. */
  function GlobalCount(exposes: seq<Expose>, http: bool): nat {
    if exposes == [] then 0
    else GlobalCount(exposes[1..], http) + if IsHttp(exposes[0]) == http then GlobalTargets(exposes[0].to) else 0
  }

  lemma KindOfTarget(e: Expose, t: ExposeTo)
    requires t.global
    ensures CrossValidation.KindOf(ExposeOf(e, t)) == if IsHttp(e) then SharedHTTP else RandomPort
  {
    HttpIff(ExposeOf(e, t));
    ProtocolMeans(e.proto);
  }

  lemma {:induction false} EndpointsToCount(e: Expose, to: seq<ExposeTo>, kind: EndpointKind)
    ensures CrossValidation.EndpointCount(EndpointsTo(e, to), kind) == if IsHttp(e) == (kind == SharedHTTP) then GlobalTargets(to) else 0
  {
    hide IsHttp;
    if to != [] {
      EndpointsToCount(e, to[1..], kind);
      if to[0].global {
        KindOfTarget(e, to[0]);
        assert EndpointsTo(e, to)[1..] == EndpointsTo(e, to[1..]);
      } else {
        assert EndpointsTo(e, to) == EndpointsTo(e, to[1..]);
      }
    }
  }

  /** The endpoints of a service: one for each global target, shared HTTP for those of HTTP exposes, a random port for the others. */
  lemma {:induction false} EndpointsExact(exposes: seq<Expose>)
    ensures CrossValidation.EndpointCount(EndpointsOf(exposes), SharedHTTP) == GlobalCount(exposes, true)
    ensures CrossValidation.EndpointCount(EndpointsOf(exposes), RandomPort) == GlobalCount(exposes, false)
  {
    hide IsHttp;
    if exposes != [] {
      var first, rest := EndpointsTo(exposes[0], exposes[0].to), EndpointsOf(exposes[1..]);
      EndpointsExact(exposes[1..]);
      EndpointsToCount(exposes[0], exposes[0].to, SharedHTTP);
      EndpointsToCount(exposes[0], exposes[0].to, RandomPort);
      EndpointCountConcat(first, rest, SharedHTTP);
      EndpointCountConcat(first, rest, RandomPort);
    }
  }
}
